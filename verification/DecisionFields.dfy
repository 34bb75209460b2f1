/**
  The decisions of `on_tick` spelled out in the fields of legs and observations: every class, point
  and verdict of module `Decisions` against a definition of its own.
 */
module DecisionFields {
  import opened Core
  import opened Imbalance
  import opened StrikeBuffer
  import opened Decisions

  // ---------------------------------------------------------------- quantities seen in a window

  /** The newest `n` observations of a buffer. */
  function Newest(items: seq<Observation>, n: nat): (h: seq<Observation>)
    ensures |h| == if |items| < n then |items| else n
    ensures forall i :: 0 <= i < |h| ==> h[i] == items[|items| - |h| + i]
  {
    if |items| <= n then items else items[|items| - n..]
  }

  ghost predicate Both(v: seq<Option<int>>, i: int, j: int) {
    0 <= i < |v| && 0 <= j < |v| && v[i].Some? && v[j].Some?
  }

  /** No later value is above an earlier one. */
  ghost predicate NeverRose(v: seq<Option<int>>) {
    forall i, j :: i < j && Both(v, i, j) ==> v[i].value >= v[j].value
  }

  ghost predicate TwoSeen(v: seq<Option<int>>) {
    exists i, j :: i < j && Both(v, i, j)
  }

  /** Some value is below seven tenths of another. */
  ghost predicate Dipped(v: seq<Option<int>>) {
    exists i, j :: Both(v, i, j) && v[i].value as real < v[j].value as real * 0.7
  }

  /** `q` is at least 85 percent of every value. */
  ghost predicate BackUp(v: seq<Option<int>>, q: int) {
    forall j :: 0 <= j < |v| && v[j].Some? ==> q as real >= v[j].value as real * 0.85
  }

  lemma {:induction false} PresentHas(v: seq<Option<int>>)
    ensures forall x :: x in Present(v) <==> Some(x) in v
  {
    if v != [] {
      var n := |v| - 1;
      PresentHas(v[..n]);
      assert v == v[..n] + [v[n]];
    }
  }

  lemma LastOfPresent(v: seq<Option<int>>)
    requires v != [] && v[|v| - 1].Some?
    ensures Present(v) == Present(v[..|v| - 1]) + [v[|v| - 1].value]
  {
  }

  lemma {:induction false} NeverRisesPairwise(s: seq<int>, i: nat, j: nat)
    requires NeverRises(s) && i <= j < |s|
    ensures s[i] >= s[j]
  {
    if i < j {
      NeverRisesPairwise(s, i, j - 1);
    }
  }

  /** A list never rises exactly if its front does not and every item of the front is at least the last. */
  lemma NeverRisesAppend(s: seq<int>, x: int)
    ensures NeverRises(s + [x]) <==> NeverRises(s) && forall y :: y in s ==> y >= x
  {
    var all := s + [x];
    if NeverRises(all) {
      forall i | 0 < i < |s| ensures s[i - 1] >= s[i] {
        assert all[i - 1] >= all[i];
      }
      forall y | y in s ensures y >= x {
        var i :| 0 <= i < |s| && s[i] == y;
        NeverRisesPairwise(all, i, |s|);
      }
    }
    if NeverRises(s) && forall y :: y in s ==> y >= x {
      forall i | 0 < i < |all| ensures all[i - 1] >= all[i] {
        assert i == |s| ==> all[i - 1] in s;
      }
    }
  }

  lemma {:induction false} PresentOrder(v: seq<Option<int>>)
    ensures NeverRises(Present(v)) <==> NeverRose(v)
  {
    if v != [] {
      var n := |v| - 1;
      var front := v[..n];
      PresentOrder(front);
      assert forall i, j :: Both(front, i, j) <==> i < n && j < n && Both(v, i, j);
      if v[n].Some? {
        LastOfPresent(v);
        NeverRisesAppend(Present(front), v[n].value);
        PresentHas(front);
        NeverRoseAppend(v);
      } else {
        assert Present(v) == Present(front);
        assert forall i, j :: Both(v, i, j) <==> Both(front, i, j);
        assert forall i :: 0 <= i < n ==> front[i] == v[i];
      }
    }
  }

  lemma NeverRoseAppend(v: seq<Option<int>>)
    requires v != [] && v[|v| - 1].Some?
    ensures NeverRose(v) <==>
              NeverRose(v[..|v| - 1]) && forall x :: Some(x) in v[..|v| - 1] ==> x >= v[|v| - 1].value
  {
    var n := |v| - 1;
    var front := v[..n];
    assert forall i, j :: Both(front, i, j) <==> i < n && j < n && Both(v, i, j);
    if NeverRose(v) {
      forall x | Some(x) in front ensures x >= v[n].value {
        var i :| 0 <= i < n && front[i] == Some(x);
        assert Both(v, i, n);
      }
    }
    if NeverRose(front) && forall x :: Some(x) in front ==> x >= v[n].value {
      forall i, j | i < j && Both(v, i, j) ensures v[i].value >= v[j].value {
        if j == n {
          assert front[i] == v[i] && Some(v[i].value) in front;
        } else {
          assert Both(front, i, j);
        }
      }
    }
  }

  lemma {:induction false} PresentTwo(v: seq<Option<int>>)
    ensures |Present(v)| >= 2 <==> TwoSeen(v)
    ensures |Present(v)| >= 1 <==> exists i :: 0 <= i < |v| && v[i].Some?
  {
    if v != [] {
      var n := |v| - 1;
      var front := v[..n];
      PresentTwo(front);
      assert forall i, j :: Both(front, i, j) <==> i < n && j < n && Both(v, i, j);
      if v[n].Some? && |Present(front)| >= 1 {
        var i :| 0 <= i < n && front[i].Some?;
        assert Both(v, i, n);
      }
      if |Present(front)| >= 2 {
        var i, j :| i < j && Both(front, i, j);
        assert Both(v, i, j);
      }
      if i, j :| i < j && Both(v, i, j) {
        assert j == n || Both(front, i, j);
        assert front[i].Some?;
      }
    }
  }

  lemma {:induction false} PeakTroughReached(s: seq<int>)
    requires s != []
    ensures Peak(s) in s && Trough(s) in s
  {
    if |s| > 1 {
      PeakTroughReached(s[..|s| - 1]);
    }
  }

  lemma PresentExtremes(v: seq<Option<int>>, q: int)
    requires Present(v) != []
    ensures Trough(Present(v)) as real < Peak(Present(v)) as real * 0.7 <==> Dipped(v)
    ensures q as real >= Peak(Present(v)) as real * 0.85 <==> BackUp(v, q)
  {
    var s := Present(v);
    PresentHas(v);
    PeakTroughReached(s);
    var lo :| 0 <= lo < |v| && v[lo] == Some(Trough(s));
    var hi :| 0 <= hi < |v| && v[hi] == Some(Peak(s));
    assert Both(v, lo, hi);
    forall i | 0 <= i < |v| && v[i].Some? ensures Trough(s) <= v[i].value <= Peak(s) {
      PresentWithin(v, s, i);
    }
  }

  lemma PresentWithin(v: seq<Option<int>>, s: seq<int>, i: nat)
    requires s == Present(v) && s != [] && i < |v| && v[i].Some?
    ensures Trough(s) <= v[i].value <= Peak(s)
  {
    var x := v[i].value;
    PresentHas(v);
    assert v[i] == Some(x);
    assert Some(x) in v;
    assert x in s;
    var k :| 0 <= k < |s| && s[k] == x;
    PeakBounds(s, k);
  }

  // ---------------------------------------------------------------- the wall

  function Asks(h: seq<Observation>): seq<Option<int>> { seq(|h|, i requires 0 <= i < |h| => h[i].bestAskQty) }

  function Bids(h: seq<Observation>): seq<Option<int>> { seq(|h|, i requires 0 <= i < |h| => h[i].bestBidQty) }

  /** The best ask outweighs the best bid by more than the multiple, or faces an empty bid. */
  ghost predicate WallStands(leg: StrikeLeg, multiple: real) {
    && leg.bestBidQty.Some? && leg.bestAskQty.Some?
    && (leg.bestBidQty.value > 0 ==> leg.bestAskQty.value as real > multiple * leg.bestBidQty.value as real)
    && (leg.bestBidQty.value <= 0 ==> leg.bestAskQty.value > 0)
  }

  /** It was eaten into and stands again. */
  ghost predicate Refreshed(leg: StrikeLeg, h: seq<Observation>) {
    leg.bestAskQty.Some? && TwoSeen(Asks(h)) && Dipped(Asks(h)) && BackUp(Asks(h), leg.bestAskQty.value)
  }

  /** It never grew, the last price is at the ask, and the bid has grown. */
  ghost predicate Absorbed(leg: StrikeLeg, h: seq<Observation>, tolerance: real) {
    && TwoSeen(Asks(h)) && NeverRose(Asks(h)) && !Refreshed(leg, h)
    && leg.bestAsk.Some? && leg.ltp.Some? && leg.ltp.value >= leg.bestAsk.value - tolerance
    && h != [] && h[0].bestBidQty.Some? && leg.bestBidQty.Some? && leg.bestBidQty.value > h[0].bestBidQty.value
  }

  lemma WindowIsFive(buf: Buffer)
    ensures LastN(buf.items, HISTORY) == Newest(buf.items, 5)
  {
  }

  /** The classes of a wall by the list of ask quantities in the window. */
  lemma WallByAsks(leg: StrikeLeg, buf: Buffer, th: Thresholds, h: seq<Observation>, s: seq<int>)
    requires h == LastN(buf.items, HISTORY) && s == AskQtys(h) && (|s| >= 2 ==> |h| >= 2)
    ensures var wall, stands := ClassifyWall(leg, buf, th), WallStands(leg, th.wallMultiple);
            && (wall.UnknownWall? <==> leg.bestAskQty.None? || leg.bestBidQty.None?)
            && (wall.NoWall? <==> leg.bestAskQty.Some? && leg.bestBidQty.Some? && !stands)
            && (wall.Refreshing? <==> stands && |s| >= 2 && BouncedBack(s, leg.bestAskQty.value))
            && (wall.Absorbing? <==>
                  && stands && |s| >= 2 && !BouncedBack(s, leg.bestAskQty.value) && NeverRises(s)
                  && leg.bestAsk.Some? && leg.ltp.Some? && leg.ltp.value >= leg.bestAsk.value - th.tolerance
                  && h[0].bestBidQty.Some? && leg.bestBidQty.value > h[0].bestBidQty.value)
  {
  }

  ghost predicate BouncedBack(s: seq<int>, q: int)
    requires s != []
  {
    Trough(s) as real < Peak(s) as real * 0.7 && q as real >= Peak(s) as real * 0.85
  }

  /** What that list says about the window itself. */
  lemma AsksMean(h: seq<Observation>, s: seq<int>, q: int)
    requires s == Present(Asks(h))
    ensures |s| >= 2 <==> TwoSeen(Asks(h))
    ensures |s| >= 2 ==> |h| >= 2
    ensures |s| >= 2 ==> (BouncedBack(s, q) <==> Dipped(Asks(h)) && BackUp(Asks(h), q))
    ensures NeverRises(s) <==> NeverRose(Asks(h))
  {
    PresentTwo(Asks(h));
    PresentOrder(Asks(h));
    TwoNeedsTwo(Asks(h));
    if |s| >= 2 {
      PresentExtremes(Asks(h), q);
    }
  }

  /** The five classes of a wall, in the quantities of the leg and of the newest five observations. */
  lemma WallExactly(leg: StrikeLeg, buf: Buffer, th: Thresholds)
    ensures var wall, h := ClassifyWall(leg, buf, th), Newest(buf.items, 5);
            && (wall.UnknownWall? <==> leg.bestAskQty.None? || leg.bestBidQty.None?)
            && (wall.NoWall? <==> leg.bestAskQty.Some? && leg.bestBidQty.Some? && !WallStands(leg, th.wallMultiple))
            && (wall.Refreshing? <==> WallStands(leg, th.wallMultiple) && Refreshed(leg, h))
            && (wall.Absorbing? <==> WallStands(leg, th.wallMultiple) && Absorbed(leg, h, th.tolerance))
  {
    var h := Newest(buf.items, 5);
    var s := AskQtys(h);
    WindowIsFive(buf);
    assert s == Present(Asks(h));
    AsksMean(h, s, if leg.bestAskQty.Some? then leg.bestAskQty.value else 0);
    WallByAsks(leg, buf, th, h, s);
  }

  lemma TwoNeedsTwo(v: seq<Option<int>>)
    ensures TwoSeen(v) ==> |v| >= 2
  {
  }

  /** The wall lets an entry through. */
  ghost predicate Open(leg: StrikeLeg, h: seq<Observation>, th: Thresholds) {
    && leg.bestAskQty.Some? && leg.bestBidQty.Some?
    && (!WallStands(leg, th.wallMultiple) || Absorbed(leg, h, th.tolerance))
  }

  /** The wall stands in the way of a position. */
  ghost predicate Blocking(leg: StrikeLeg, h: seq<Observation>, th: Thresholds) {
    WallStands(leg, th.wallMultiple) && !Absorbed(leg, h, th.tolerance)
  }

  lemma WallBlocksExactly(leg: StrikeLeg, buf: Buffer, th: Thresholds)
    ensures ClassifyWall(leg, buf, th) in {NoWall, Absorbing} <==> Open(leg, Newest(buf.items, 5), th)
    ensures ClassifyWall(leg, buf, th) in {Holding, Refreshing} <==> Blocking(leg, Newest(buf.items, 5), th)
  {
    WallExactly(leg, buf, th);
  }

  // ---------------------------------------------------------------- spread and last price

  ghost predicate Uncrossed(leg: StrikeLeg) {
    leg.bestBid.Some? && leg.bestAsk.Some? && leg.bestBid.value <= leg.bestAsk.value
  }

  /** The book is uncrossed and no wider than `width`. */
  ghost predicate NoWider(leg: StrikeLeg, width: real) { Uncrossed(leg) && leg.bestAsk.value - leg.bestBid.value <= width }

  lemma SpreadExactly(leg: StrikeLeg, th: Thresholds)
    ensures var c := ClassifySpread(ComputeSpread(leg), th);
            && (c.UnknownSpread? <==> !Uncrossed(leg))
            && (c.Good? <==> NoWider(leg, th.spreadGood))
            && (c.Moderate? <==> NoWider(leg, th.spreadModerate) && !NoWider(leg, th.spreadGood))
            && (c.Avoid? <==> Uncrossed(leg) && !NoWider(leg, th.spreadModerate) && !NoWider(leg, th.spreadGood))
  {
  }

  ghost predicate Priced(leg: StrikeLeg) { leg.ltp.Some? && leg.bestBid.Some? && leg.bestAsk.Some? }

  ghost predicate NearAsk(leg: StrikeLeg, tolerance: real) { Priced(leg) && leg.bestAsk.value - leg.ltp.value <= tolerance }

  ghost predicate NearBid(leg: StrikeLeg, tolerance: real) { Priced(leg) && leg.ltp.value - leg.bestBid.value <= tolerance }

  lemma AggressorExactly(leg: StrikeLeg, tolerance: real)
    ensures var a := DetectAggressor(leg, tolerance);
            && (a.UnknownAggressor? <==> !Priced(leg))
            && (a.Buy? <==> NearAsk(leg, tolerance))
            && (a.Sell? <==> NearBid(leg, tolerance) && !NearAsk(leg, tolerance))
  {
  }

  // ---------------------------------------------------------------- points

  ghost predicate Totals(leg: StrikeLeg) {
    leg.totalBidQty.Some? && leg.totalBidQty.value >= 0 && leg.totalAskQty.Some? && leg.totalAskQty.value > 0
  }

  /** Bids outweigh asks by more than `r`. */
  ghost predicate Above(leg: StrikeLeg, r: real) {
    Totals(leg) && leg.totalBidQty.value as real > r * leg.totalAskQty.value as real
  }

  /** Bids weigh less than `r` of the asks. */
  ghost predicate Below(leg: StrikeLeg, r: real) {
    Totals(leg) && (leg.totalBidQty.value as real) < r * leg.totalAskQty.value as real
  }

  lemma RatioAbove(leg: StrikeLeg, r: real)
    ensures ComputeImbalance(leg).Some? <==> Totals(leg)
    ensures ComputeImbalance(leg).Some? ==> (ComputeImbalance(leg).value > r <==> Above(leg, r))
    ensures ComputeImbalance(leg).Some? ==> (ComputeImbalance(leg).value < r <==> Below(leg, r))
  {
    if Totals(leg) {
      RatioBound(leg.totalBidQty.value, leg.totalAskQty.value, r);
      RatioBoundBelow(leg.totalBidQty.value, leg.totalAskQty.value, r);
    }
  }

  lemma RatioBoundBelow(b: int, a: int, r: real)
    requires a > 0
    ensures Ratio(b, a) >= r <==> b as real >= r * a as real
  {
    var q, x := Ratio(b, a), a as real;
    assert q * x == b as real;
    assert q >= r ==> (q - r) * x >= 0.0;
    assert q < r ==> (r - q) * x > 0.0;
  }

  /** On the put side a lack of buyers counts as much as a surplus. */
  function LowMark(strong: real): real { if strong > 0.0 then 1.0 / strong else 0.7 }

  ghost predicate Loaded(side: Side, leg: StrikeLeg, strong: real) {
    Above(leg, strong) || (side.PE? && Below(leg, LowMark(strong)))
  }

  lemma StrongExactly(side: Side, leg: StrikeLeg, strong: real)
    ensures StrongImbalance(side, ComputeImbalance(leg), strong) <==> Loaded(side, leg, strong)
  {
    RatioAbove(leg, strong);
    RatioAbove(leg, LowMark(strong));
  }

  /** The newest `k` prices run the way of the side, `k` being no more than its counter can see. */
  ghost predicate Runs(side: Side, buf: Buffer, k: int, windowMs: int) {
    || k <= 0
    || (side.CE? && k <= 50 && Rises(buf.items, k, windowMs))
    || (side.PE? && k <= (if buf.capacity == 0 then 50 else buf.capacity) && Falls(buf.items, k, windowMs))
  }

  lemma StreakExactly(side: Side, buf: Buffer, k: int, windowMs: int)
    ensures Streak(side, buf, windowMs) >= k <==> Runs(side, buf, k, windowMs)
  {
    if k > 0 {
      UpticksReach(buf.items, windowMs, k);
      DownticksReach(buf.items, buf.capacity, windowMs, k);
    }
  }

  /** Each of the five points, in the fields it is about. */
  lemma PointsExactly(side: Side, leg: StrikeLeg, buf: Buffer, th: Thresholds)
    ensures var p := QualityPoints(side, leg, buf, th);
            && p.spread == (if NoWider(leg, th.spreadGood) then 2 else 0)
            && p.imbalance == (if Loaded(side, leg, th.strongBuy) then 2 else 0)
            && p.askWall == (if Open(leg, Newest(buf.items, 5), th) then 2 else 0)
            && p.tickSpeed == (if Runs(side, buf, th.minConsecutive, th.windowMs) then 2 else 0)
            && p.ltpPosition == (if side.CE? then (if NearAsk(leg, th.tolerance) then 2 else 0)
                                 else if NearBid(leg, th.tolerance) && !NearAsk(leg, th.tolerance) then 2 else 0)
  {
    SpreadExactly(leg, th);
    StrongExactly(side, leg, th.strongBuy);
    WallBlocksExactly(leg, buf, th);
    StreakExactly(side, buf, th.minConsecutive, th.windowMs);
    AggressorExactly(leg, th.tolerance);
  }

  // ---------------------------------------------------------------- a flat vessel

  /** The first configured window that contains the minute. */
  ghost predicate InForce(windows: seq<Window>, minute: int, n: int) {
    && 0 <= n < |windows| && windows[n].start <= minute < windows[n].end
    && forall j :: 0 <= j < n ==> !(windows[j].start <= minute < windows[j].end)
  }

  lemma {:induction false} WindowExactly(windows: seq<Window>, minute: int)
    ensures CurrentWindow(minute, windows).None? <==>
              forall j :: 0 <= j < |windows| ==> !(windows[j].start <= minute < windows[j].end)
    ensures CurrentWindow(minute, windows).Some? ==>
              exists n :: InForce(windows, minute, n) && windows[n] == CurrentWindow(minute, windows).value
  {
    if windows != [] {
      var rest := windows[1..];
      WindowExactly(rest, minute);
      if windows[0].start <= minute < windows[0].end {
        assert InForce(windows, minute, 0);
      } else {
        assert forall j :: 0 < j < |windows| ==> windows[j] == rest[j - 1];
        if CurrentWindow(minute, rest).Some? {
          var n :| InForce(rest, minute, n) && rest[n] == CurrentWindow(minute, rest).value;
          assert InForce(windows, minute, n + 1);
        }
      }
    }
  }

  /** Some window is in force, takes entries, and asks for no more than this score. */
  ghost predicate Admits(windows: seq<Window>, minute: int, score: int) {
    exists n :: InForce(windows, minute, n) && windows[n].minScore.Some? && score >= windows[n].minScore.value
  }

  lemma AdmitsExactly(windows: seq<Window>, minute: int, score: nat)
    ensures EntryAllowed(minute, windows, score) <==> Admits(windows, minute, score)
  {
    WindowExactly(windows, minute);
    if Admits(windows, minute, score) {
      var n :| InForce(windows, minute, n) && windows[n].minScore.Some? && score >= windows[n].minScore.value;
      if CurrentWindow(minute, windows).Some? {
        var k :| InForce(windows, minute, k) && windows[k] == CurrentWindow(minute, windows).value;
        assert k == n;
      }
    }
  }

  /** Gate 1 in the two ratios. */
  lemma DirectionExactly(s: Snapshot, th: Thresholds)
    ensures var ce, pe := CumulativeRatio(s.ce), CumulativeRatio(s.pe);
            && (Direction(s, th) == Some(CE) <==> ce.Some? && pe.Some? && ce.value - pe.value > th.netPressureEntry)
            && (Direction(s, th) == Some(PE) <==>
                  ce.Some? && pe.Some? && pe.value - ce.value > th.netPressureEntry
                  && !(ce.value - pe.value > th.netPressureEntry))
  {
  }

  /** Gates 2 to 4 by the classes they look at. */
  lemma EntryByClass(side: Side, leg: StrikeLeg, s: Snapshot, m: Memory, th: Thresholds, baseQty: int)
    ensures var a, buf := TryEnter(side, leg, s, m, th, baseQty), BufferFor(m, leg.token);
            var wall := ClassifyWall(leg, buf, th) in {NoWall, Absorbing};
            var spread := ClassifySpread(ComputeSpread(leg), th);
            var book := spread.Good? || spread.Moderate?;
            var score := Score(QualityPoints(side, leg, buf, th));
            var window := EntryAllowed(s.minute, m.windows, score);
            && (a == NoOp(WallBlocksEntry) <==> !wall)
            && (a == NoOp(SpreadBlocksEntry) <==> wall && !book)
            && (a == NoOp(OutsideWindow) <==> wall && book && !window)
            && (a == NoOp(ZeroSize) <==> wall && book && window && score < 5)
            && (a.Enter? <==> wall && book && window && score >= 5)
            && (a.Enter? ==> a.factor == if score >= 8 && spread.Good? then 1.0 else 0.5)
  {
    WallKinds(ClassifyWall(leg, BufferFor(m, leg.token), th));
  }

  /** What a flat vessel does with the dominant strike, gate by gate. */
  lemma EntryExactly(side: Side, leg: StrikeLeg, s: Snapshot, m: Memory, th: Thresholds, baseQty: int)
    ensures var a := TryEnter(side, leg, s, m, th, baseQty);
            var buf := if leg.token in m.buffers then m.buffers[leg.token] else Buffer([], m.capacity);
            var wall := Open(leg, Newest(buf.items, 5), th);
            var book := NoWider(leg, th.spreadGood) || NoWider(leg, th.spreadModerate);
            var score := Score(QualityPoints(side, leg, buf, th));
            var window := Admits(m.windows, s.minute, score);
            && (a == NoOp(WallBlocksEntry) <==> !wall)
            && (a == NoOp(SpreadBlocksEntry) <==> wall && !book)
            && (a == NoOp(OutsideWindow) <==> wall && book && !window)
            && (a == NoOp(ZeroSize) <==> wall && book && window && score < 5)
            && (a.Enter? <==> wall && book && window && score >= 5)
            && (a.Enter? ==> a.factor == if score >= 8 && NoWider(leg, th.spreadGood) then 1.0 else 0.5)
  {
    var buf := BufferFor(m, leg.token);
    EntryByClass(side, leg, s, m, th, baseQty);
    WallBlocksExactly(leg, buf, th);
    SpreadExactly(leg, th);
    AdmitsExactly(m.windows, s.minute, Score(QualityPoints(side, leg, buf, th)));
  }

  lemma WallKinds(w: Wall)
    ensures w in {UnknownWall, Holding, Refreshing} <==> w !in {NoWall, Absorbing}
  {
  }

  /** A half-size order is half the configured lots, to the nearest lot and at least one. */
  lemma HalfSizeExactly(baseQty: int)
    requires baseQty >= 1
    ensures var qty := OrderQty(baseQty, 0.5); 1 <= qty && -1 <= 2 * qty - baseQty <= 1
  {
    var n := RoundHalfEven(baseQty as real * 0.5);
    assert -1.0 <= 2.0 * (n as real) - baseQty as real <= 1.0;
    assert (2 * n - baseQty) as real == 2.0 * (n as real) - baseQty as real;
  }

  /**
    `on_tick` of a flat vessel: suppressed before its time, without a direction unless one ratio beats
    the other by more than the threshold, and otherwise gates 2 to 4 on the dominant strike of that side.
   */
  lemma FlatExactly(s: Snapshot, m: Memory, th: Thresholds, baseQty: int)
    requires m.held.None?
    ensures var a, side := OnTick(s, m, th, baseQty), Direction(s, th);
            && (a == NoOp(Suppressed) <==> s.ts < m.suppressUntil)
            && (a == NoOp(NoDirection) <==> s.ts >= m.suppressUntil && side.None?)
            && (s.ts >= m.suppressUntil && side.Some? && Dominant(Legs(s, side.value)).Some? ==>
                  var i := Dominant(Legs(s, side.value)).value;
                  && Dominates(Legs(s, side.value), i)
                  && a == TryEnter(side.value, Legs(s, side.value)[i], s, m, th, baseQty))
            && (s.ts >= m.suppressUntil && side.Some? && Dominant(Legs(s, side.value)).None? ==> a == NoOp(NoDominantStrike))
  {
    if Direction(s, th).Some? {
      var legs := Legs(s, Direction(s, th).value);
      DominantIsFirstMaximum(legs);
      if Dominant(legs).Some? {
        EntryExactly(Direction(s, th).value, legs[Dominant(legs).value], s, m, th, baseQty);
        TryEnterKeepsLeg(Direction(s, th).value, legs[Dominant(legs).value], s, m, th, baseQty);
      }
    }
  }

  // ---------------------------------------------------------------- a held position

  /** The observations before the newest of the last `lookback + 1`, at least one if there is any. */
  ghost predicate Before(items: seq<Observation>, lookback: nat, i: int) {
    var from := if |items| <= lookback + 1 then 0 else |items| - lookback - 1;
    from <= i < |items| && i - from < (if lookback < 1 then 1 else lookback)
  }

  /** The earlier part of the window is a stretch of the buffer. */
  lemma EarlierStretch(items: seq<Observation>, lookback: nat, e: seq<Observation>, from: int)
    requires e == Earlier(LastN(items, lookback + 1), lookback)
    requires from == if |items| <= lookback + 1 then 0 else |items| - lookback - 1
    ensures from + |e| <= |items| && e == items[from..from + |e|]
    ensures forall i :: Before(items, lookback, i) <==> from <= i < from + |e|
  {
    NewestFrom(items, lookback + 1, from);
    FrontOf(items, from, if lookback < 1 then 1 else lookback, e);
  }

  lemma NewestFrom(items: seq<Observation>, n: nat, from: int)
    requires n > 0 && from == if |items| <= n then 0 else |items| - n
    ensures LastN(items, n) == items[from..]
  {
  }

  lemma FrontOf(items: seq<Observation>, from: nat, n: nat, e: seq<Observation>)
    requires from <= |items| && e == if |items[from..]| <= n then items[from..] else items[from..][..n]
    ensures from + |e| <= |items| && e == items[from..from + |e|]
    ensures |e| == if |items| - from <= n then |items| - from else n
  {
  }

  lemma EarlierExactly(items: seq<Observation>, lookback: nat, o: Observation)
    ensures o in Earlier(LastN(items, lookback + 1), lookback) <==> exists i :: Before(items, lookback, i) && items[i] == o
  {
    var e := Earlier(LastN(items, lookback + 1), lookback);
    var from := if |items| <= lookback + 1 then 0 else |items| - lookback - 1;
    EarlierStretch(items, lookback, e, from);
    if o in e {
      var k :| 0 <= k < |e| && e[k] == o;
      assert Before(items, lookback, from + k);
    }
    if i :| Before(items, lookback, i) && items[i] == o {
      assert e[i - from] == o;
    }
  }

  /** The imbalance fell by more than `pct` percent over the last `lookback` observations. */
  ghost predicate Collapsed(items: seq<Observation>, lookback: nat, pct: real) {
    var n := |items|;
    && n >= lookback + 1
    && items[n - 1 - lookback].imbalance.Some? && items[n - 1].imbalance.Some?
    && var was, now := items[n - 1 - lookback].imbalance.value, items[n - 1].imbalance.value;
       was > 0.0 && (was - now) * 100.0 > pct * was
  }

  lemma PercentExactly(was: real, now: real, pct: real)
    requires was > 0.0
    ensures (was - now) / was * 100.0 > pct <==> (was - now) * 100.0 > pct * was
  {
    var d := (was - now) / was * 100.0;
    assert d * was == (was - now) * 100.0;
    assert d > pct ==> (d - pct) * was > 0.0;
    assert d <= pct ==> (pct - d) * was >= 0.0;
  }

  lemma CollapsedExactly(buf: Buffer, lookback: nat, pct: real)
    ensures ImbalanceDrop(buf, lookback).Some? && ImbalanceDrop(buf, lookback).value > pct <==>
              Collapsed(buf.items, lookback, pct)
  {
    var items := buf.items;
    var n := |items|;
    if n >= lookback + 1 && items[n - 1 - lookback].imbalance.Some? && items[n - 1].imbalance.Some?
       && items[n - 1 - lookback].imbalance.value > 0.0 {
      PercentExactly(items[n - 1 - lookback].imbalance.value, items[n - 1].imbalance.value, pct);
    }
  }

  /** One of the earlier observations had no wall. */
  ghost predicate WasClear(items: seq<Observation>, lookback: nat) {
    exists i :: Before(items, lookback, i) && items[i].wallPresent != Some(true)
  }

  /** One of the earlier observations had a spread no wider than `width`. */
  ghost predicate WasTight(items: seq<Observation>, lookback: nat, width: real) {
    exists i :: Before(items, lookback, i) && items[i].spread.Some? && items[i].spread.value <= width
  }

  lemma EarlierHas(items: seq<Observation>, lookback: nat, e: seq<Observation>)
    requires e == Earlier(LastN(items, lookback + 1), lookback)
    ensures forall o :: o in e <==> exists i :: Before(items, lookback, i) && items[i] == o
  {
    forall o ensures o in e <==> exists i :: Before(items, lookback, i) && items[i] == o {
      EarlierExactly(items, lookback, o);
    }
  }

  lemma WasClearExactly(items: seq<Observation>, lookback: nat, e: seq<Observation>)
    requires e == Earlier(LastN(items, lookback + 1), lookback)
    ensures (exists h :: h in e && h.wallPresent != Some(true)) <==> WasClear(items, lookback)
  {
    EarlierHas(items, lookback, e);
    if i :| Before(items, lookback, i) && items[i].wallPresent != Some(true) {
      assert items[i] in e;
    }
  }

  lemma WasTightExactly(items: seq<Observation>, lookback: nat, width: real, e: seq<Observation>)
    requires e == Earlier(LastN(items, lookback + 1), lookback)
    ensures (exists h :: h in e && h.spread.Some? && h.spread.value <= width) <==> WasTight(items, lookback, width)
  {
    EarlierHas(items, lookback, e);
    if i :| Before(items, lookback, i) && items[i].spread.Some? && items[i].spread.value <= width {
      assert items[i] in e;
    }
  }

  lemma ReversalParts(held: Side, leg: StrikeLeg, buf: Buffer, th: Thresholds)
    ensures var r, items := EvaluateReversal(held, leg, buf, th), buf.items;
            && r.wallFormed == (ClassifyWall(leg, buf, th) in {Holding, Refreshing} && WasClear(items, th.lookback))
            && r.widened == (ClassifySpread(ComputeSpread(leg), th).Avoid?
                             && (items == [] || WasTight(items, th.lookback, th.spreadModerate)))
  {
    var e := Earlier(LastN(buf.items, th.lookback + 1), th.lookback);
    WasClearExactly(buf.items, th.lookback, e);
    WasTightExactly(buf.items, th.lookback, th.spreadModerate, e);
    assert LastN(buf.items, th.lookback + 1) == [] <==> buf.items == [];
  }

  /** A fresh wall, a fresh widening, a collapse, and a last price on the wrong side: all four. */
  lemma ReversalExactly(held: Side, leg: StrikeLeg, buf: Buffer, th: Thresholds)
    ensures var r, items := EvaluateReversal(held, leg, buf, th), buf.items;
            && (r.collapsed <==> Collapsed(items, th.lookback, th.dropPct))
            && (r.wallFormed <==> Blocking(leg, Newest(items, 5), th) && WasClear(items, th.lookback))
            && (r.widened <==>
                  && Uncrossed(leg) && !NoWider(leg, th.spreadModerate) && !NoWider(leg, th.spreadGood)
                  && (items == [] || WasTight(items, th.lookback, th.spreadModerate)))
            && (r.flipped <==> if held.CE? then NearBid(leg, th.tolerance) else NearAsk(leg, th.tolerance))
            && (r.Triggered() <==> r.collapsed && r.wallFormed && r.widened && r.flipped)
  {
    CollapsedExactly(buf, th.lookback, th.dropPct);
    WallBlocksExactly(leg, buf, th);
    SpreadExactly(leg, th);
    ReversalParts(held, leg, buf, th);
  }

  /** The bids of the window never rose and did fall. */
  ghost predicate Shrank(v: seq<Option<int>>) {
    NeverRose(v) && exists i, j :: i < j && Both(v, i, j) && v[i].value > v[j].value
  }

  /** In a list that never rises, the first is above the last exactly if any item is above any other. */
  lemma AnyFall(s: seq<int>)
    requires s != [] && NeverRises(s)
    ensures s[0] > s[|s| - 1] <==> exists x, y :: x in s && y in s && x > y
  {
    if x, y :| x in s && y in s && x > y {
      var i :| 0 <= i < |s| && s[i] == x;
      var j :| 0 <= j < |s| && s[j] == y;
      NeverRisesPairwise(s, 0, i);
      NeverRisesPairwise(s, j, |s| - 1);
    }
    if s[0] > s[|s| - 1] {
      assert s[0] in s && s[|s| - 1] in s;
    }
  }

  lemma FallByValues(v: seq<Option<int>>)
    requires NeverRose(v)
    ensures Shrank(v) <==> exists x, y :: Some(x) in v && Some(y) in v && x > y
  {
    if Shrank(v) {
      var i, j :| i < j && Both(v, i, j) && v[i].value > v[j].value;
      assert Some(v[i].value) in v && Some(v[j].value) in v;
    }
    if x, y :| Some(x) in v && Some(y) in v && x > y {
      var i :| 0 <= i < |v| && v[i] == Some(x);
      var j :| 0 <= j < |v| && v[j] == Some(y);
      assert Both(v, i, j) && Both(v, j, i);
    }
  }

  lemma ShrankExactly(v: seq<Option<int>>)
    ensures var s := Present(v);
            |s| >= 2 && s[0] > s[|s| - 1] && NeverRises(s) <==> Shrank(v)
  {
    var s := Present(v);
    PresentOrder(v);
    PresentHas(v);
    if NeverRose(v) {
      FallByValues(v);
      if s != [] {
        AnyFall(s);
      }
    }
  }

  /** Everything continuation asks for, in fields. */
  ghost predicate GoesWell(side: Side, leg: StrikeLeg, items: seq<Observation>, th: Thresholds) {
    && Totals(leg) && !Below(leg, th.continuation)
    && !Shrank(Bids(Newest(items, 5)))
    && !Blocking(leg, Newest(items, 5), th)
    && (NoWider(leg, th.spreadGood) || NoWider(leg, th.spreadModerate))
    && Priced(leg)
    && (if side.CE? then NearAsk(leg, th.tolerance) || !NearBid(leg, th.tolerance) else !NearAsk(leg, th.tolerance))
  }

  lemma ContinuationExactly(side: Side, leg: StrikeLeg, buf: Buffer, th: Thresholds)
    ensures ContinuationFailures(side, leg, buf, th) == [] <==> GoesWell(side, leg, buf.items, th)
  {
    var h := Newest(buf.items, 5);
    WindowIsFive(buf);
    assert BidQtys(h) == Present(Bids(h));
    ShrankExactly(Bids(h));
    RatioAbove(leg, th.continuation);
    WallBlocksExactly(leg, buf, th);
    SpreadExactly(leg, th);
    AggressorExactly(leg, th.tolerance);
  }

  /** The held leg is the first of the snapshot, calls before puts, with the held token. */
  lemma {:induction false} LegFound(legs: seq<StrikeLeg>, token: string)
    ensures FindLeg(legs, token).None? <==> forall j :: 0 <= j < |legs| ==> legs[j].token != token
    ensures FindLeg(legs, token).Some? ==>
              exists i :: 0 <= i < |legs| && legs[i] == FindLeg(legs, token).value && legs[i].token == token
                          && forall j :: 0 <= j < i ==> legs[j].token != token
  {
    if legs != [] {
      var rest := legs[1..];
      LegFound(rest, token);
      assert forall j :: 0 < j < |legs| ==> legs[j] == rest[j - 1];
      if legs[0].token != token && FindLeg(rest, token).Some? {
        var i :| 0 <= i < |rest| && rest[i] == FindLeg(rest, token).value && rest[i].token == token
                 && forall j :: 0 <= j < i ==> rest[j].token != token;
        assert legs[i + 1] == rest[i];
      }
    }
  }

  /**
    `on_tick` with a position: nothing without its leg, FLIP or EXIT on a reversal depending on the
    other side having a dominant strike, HOLD exactly when all goes well, and EXIT in every other case.
   */
  lemma HeldExactly(s: Snapshot, m: Memory, th: Thresholds, baseQty: int)
    requires m.held.Some?
    ensures var a, held := OnTick(s, m, th, baseQty), m.held.value.0;
            var leg := FindLeg(s.ce + s.pe, m.held.value.1);
            if leg.None? then a == NoOp(HeldTokenNotInBasket)
            else
              var buf := if leg.value.token in m.buffers then m.buffers[leg.value.token] else Buffer([], m.capacity);
              var reversal := EvaluateReversal(held, leg.value, buf, th).Triggered();
              && (a == Hold <==> GoesWell(held, leg.value, buf.items, th))
              && (a.Flip? <==> reversal && Dominant(if held.CE? then s.pe else s.ce).Some?)
              && (a.Flip? ==> a.side != held)
              && (a == Exit <==> !a.Flip? && a != Hold)
  {
    var leg := FindLeg(s.ce + s.pe, m.held.value.1);
    if leg.Some? {
      HoldsExactlyOnContinuation(m.held.value.0, leg.value, s, m, th);
      ContinuationExactly(m.held.value.0, leg.value, BufferFor(m, leg.value.token), th);
    }
  }
}
