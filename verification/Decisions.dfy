/** The strategy's decision on one snapshot: walls, score, gates, reversal, continuation and the final action. */
module Decisions {
  import opened Core
  import opened Imbalance
  import opened StrikeBuffer

  datatype Thresholds = Thresholds(
    strongBuy: real,
    continuation: real,
    netPressureEntry: real,
    dropPct: real,
    wallMultiple: real,
    tolerance: real,
    minConsecutive: int,
    windowMs: int,
    spreadGood: real,
    spreadModerate: real,
    lookback: nat)

  /** A buffer's contents and its capacity. */
  datatype Buffer = Buffer(items: seq<Observation>, capacity: nat)

  datatype Wall = NoWall | Holding | Absorbing | Refreshing | UnknownWall
  datatype Spread = Good | Moderate | Avoid | UnknownSpread
  datatype Aggressor = Buy | Sell | Mid | UnknownAggressor

  const HISTORY := 5

  // ---------------------------------------------------------------- metrics

  function ComputeSpread(leg: StrikeLeg): Option<real> {
    if leg.bestBid.None? || leg.bestAsk.None? || leg.bestAsk.value - leg.bestBid.value < 0.0 then None
    else Some(leg.bestAsk.value - leg.bestBid.value)
  }

  function ClassifySpread(spread: Option<real>, th: Thresholds): Spread {
    if spread.None? then UnknownSpread
    else if spread.value <= th.spreadGood then Good
    else if spread.value <= th.spreadModerate then Moderate
    else Avoid
  }

  function DetectAggressor(leg: StrikeLeg, tolerance: real): Aggressor {
    if leg.ltp.None? || leg.bestBid.None? || leg.bestAsk.None? then UnknownAggressor
    else if leg.ltp.value >= leg.bestAsk.value - tolerance then Buy
    else if leg.ltp.value <= leg.bestBid.value + tolerance then Sell
    else Mid
  }

  function WallPresent(leg: StrikeLeg, multiple: real): Option<bool> {
    if leg.bestAskQty.None? || leg.bestBidQty.None? then None
    else if leg.bestBidQty.value <= 0 then Some(leg.bestAskQty.value > 0)
    else Some(leg.bestAskQty.value as real > multiple * leg.bestBidQty.value as real)
  }

  function Present(values: seq<Option<int>>): seq<int> {
    if values == [] then []
    else Present(values[..|values| - 1]) +
         (if values[|values| - 1].Some? then [values[|values| - 1].value] else [])
  }

  function AskQtys(history: seq<Observation>): seq<int> {
    Present(seq(|history|, i requires 0 <= i < |history| => history[i].bestAskQty))
  }

  function BidQtys(history: seq<Observation>): seq<int> {
    Present(seq(|history|, i requires 0 <= i < |history| => history[i].bestBidQty))
  }

  function Peak(s: seq<int>): int
    requires s != []
  {
    if |s| == 1 then s[0] else var m := Peak(s[..|s| - 1]); if s[|s| - 1] > m then s[|s| - 1] else m
  }

  function Trough(s: seq<int>): int
    requires s != []
  {
    if |s| == 1 then s[0] else var m := Trough(s[..|s| - 1]); if s[|s| - 1] < m then s[|s| - 1] else m
  }

  predicate NeverRises(s: seq<int>) {
    forall i :: 0 < i < |s| ==> s[i - 1] >= s[i]
  }

  function ClassifyWall(leg: StrikeLeg, buf: Buffer, th: Thresholds): Wall {
    var present := WallPresent(leg, th.wallMultiple);
    if present.None? then UnknownWall
    else if !present.value then NoWall
    else
      var history := LastN(buf.items, HISTORY);
      var asks := AskQtys(history);
      if |history| < 2 || |asks| < 2 then Holding
      else
        var peak, current := Peak(asks), leg.bestAskQty.value;
        var dipped := Trough(asks) as real < peak as real * 0.7;
        var restored := current as real >= peak as real * 0.85;
        if dipped && restored then Refreshing
        else if NeverRises(asks) && leg.bestAsk.Some? && leg.ltp.Some?
                && leg.ltp.value >= leg.bestAsk.value - th.tolerance
                && history[0].bestBidQty.Some? && leg.bestBidQty.value > history[0].bestBidQty.value then Absorbing
        else Holding
  }

  // ---------------------------------------------------------------- quality score

  /** The five components, each worth 0 or 2. */
  datatype Points = Points(spread: nat, imbalance: nat, askWall: nat, tickSpeed: nat, ltpPosition: nat)

  function Score(p: Points): nat { p.spread + p.imbalance + p.askWall + p.tickSpeed + p.ltpPosition }

  function Two(b: bool): nat { if b then 2 else 0 }

  predicate StrongImbalance(side: Side, imb: Option<real>, strong: real) {
    imb.Some? && (imb.value > strong || (side.PE? && imb.value < if strong > 0.0 then 1.0 / strong else 0.7))
  }

  function Streak(side: Side, buf: Buffer, windowMs: int): nat {
    if side.CE? then UpStreak(LastN(buf.items, 50), windowMs)
    else UpStreak(Negated(LastN(buf.items, DownWindow(buf.capacity))), windowMs)
  }

  function QualityPoints(side: Side, leg: StrikeLeg, buf: Buffer, th: Thresholds): Points {
    var aggressor := DetectAggressor(leg, th.tolerance);
    Points(
      Two(ClassifySpread(ComputeSpread(leg), th).Good?),
      Two(StrongImbalance(side, ComputeImbalance(leg), th.strongBuy)),
      Two(ClassifyWall(leg, buf, th) in {NoWall, Absorbing}),
      Two(Streak(side, buf, th.windowMs) >= th.minConsecutive),
      Two((side.CE? && aggressor.Buy?) || (side.PE? && aggressor.Sell?)))
  }

  function SizeFactor(score: nat): real { if score >= 8 then 1.0 else if score >= 5 then 0.5 else 0.0 }

  // ---------------------------------------------------------------- reversal and continuation

  function ImbalanceDrop(buf: Buffer, lookback: nat): Option<real> {
    var history := LastN(buf.items, lookback + 1);
    if |history| < lookback + 1 then None
    else
      var earlier, current := history[0].imbalance, history[|history| - 1].imbalance;
      if earlier.None? || current.None? || earlier.value <= 0.0 then None
      else Some((earlier.value - current.value) / earlier.value * 100.0)
  }

  function Earlier(history: seq<Observation>, lookback: nat): seq<Observation> {
    var n := if lookback < 1 then 1 else lookback;
    if |history| <= n then history else history[..n]
  }

  datatype Reversal = Reversal(collapsed: bool, wallFormed: bool, widened: bool, flipped: bool) {
    predicate Triggered() { collapsed && wallFormed && widened && flipped }
  }

  function EvaluateReversal(held: Side, leg: StrikeLeg, buf: Buffer, th: Thresholds): Reversal {
    var drop := ImbalanceDrop(buf, th.lookback);
    var history := LastN(buf.items, th.lookback + 1);
    var earlier := Earlier(history, th.lookback);
    var wasClear := exists h :: h in earlier && h.wallPresent != Some(true);
    var wasTight := exists h :: h in earlier && h.spread.Some? && h.spread.value <= th.spreadModerate;
    var quoted := leg.ltp.Some? && leg.bestBid.Some? && leg.bestAsk.Some?;
    Reversal(
      drop.Some? && drop.value > th.dropPct,
      ClassifyWall(leg, buf, th) in {Holding, Refreshing} && wasClear,
      ClassifySpread(ComputeSpread(leg), th).Avoid? && (history == [] || wasTight),
      quoted && if held.CE? then leg.ltp.value <= leg.bestBid.value + th.tolerance
                else leg.ltp.value >= leg.bestAsk.value - th.tolerance)
  }

  datatype Failure = ImbalanceUnknown | ImbalanceLow | BidQtyDecreasing | WallBlocks | SpreadTooWide | SpreadUnknown | WrongAggressor

  function When(b: bool, f: Failure): seq<Failure> { if b then [f] else [] }

  /** The continuation checks in order; the position is held when the list is empty. */
  function ContinuationFailures(side: Side, leg: StrikeLeg, buf: Buffer, th: Thresholds): seq<Failure> {
    var imb := ComputeImbalance(leg);
    var bids := BidQtys(LastN(buf.items, HISTORY));
    var spread := ClassifySpread(ComputeSpread(leg), th);
    var aggressor := DetectAggressor(leg, th.tolerance);
    When(imb.None?, ImbalanceUnknown)
    + When(imb.Some? && imb.value < th.continuation, ImbalanceLow)
    + When(|bids| >= 2 && bids[0] > bids[|bids| - 1] && NeverRises(bids), BidQtyDecreasing)
    + When(ClassifyWall(leg, buf, th) in {Holding, Refreshing}, WallBlocks)
    + When(spread.Avoid?, SpreadTooWide)
    + When(spread.UnknownSpread?, SpreadUnknown)
    + When(aggressor != Mid && aggressor != (if side.CE? then Buy else Sell), WrongAggressor)
  }

  /** What a failing check looks like in the list of failures. */
  lemma FailuresListed(side: Side, leg: StrikeLeg, buf: Buffer, th: Thresholds)
    ensures var failures := ContinuationFailures(side, leg, buf, th);
            var aggressor := DetectAggressor(leg, th.tolerance);
            && (ClassifyWall(leg, buf, th) in {Holding, Refreshing} ==> WallBlocks in failures)
            && (ClassifySpread(ComputeSpread(leg), th).Avoid? ==> SpreadTooWide in failures)
            && (aggressor != Mid && aggressor != (if side.CE? then Buy else Sell) ==> WrongAggressor in failures)
  {
    var wall, spread := ClassifyWall(leg, buf, th), ClassifySpread(ComputeSpread(leg), th);
    var aggressor := DetectAggressor(leg, th.tolerance);
    var imb, bids := ComputeImbalance(leg), BidQtys(LastN(buf.items, HISTORY));
    Joined(
      When(imb.None?, ImbalanceUnknown), When(imb.Some? && imb.value < th.continuation, ImbalanceLow),
      When(|bids| >= 2 && bids[0] > bids[|bids| - 1] && NeverRises(bids), BidQtyDecreasing),
      When(wall in {Holding, Refreshing}, WallBlocks), When(spread.Avoid?, SpreadTooWide),
      When(spread.UnknownSpread?, SpreadUnknown),
      When(aggressor != Mid && aggressor != (if side.CE? then Buy else Sell), WrongAggressor));
  }

  lemma Joined(a: seq<Failure>, b: seq<Failure>, c: seq<Failure>, d: seq<Failure>, e: seq<Failure>, f: seq<Failure>, g: seq<Failure>)
    ensures forall x :: x in d || x in e || x in g ==> x in a + b + c + d + e + f + g
  {
  }

  /** With a wide spread the aggressor who took the last price is the one on the other side. */
  lemma FlippedAggressor(held: Side, leg: StrikeLeg, th: Thresholds)
    requires leg.ltp.Some? && leg.bestBid.Some? && leg.bestAsk.Some?
    requires if held.CE? then leg.ltp.value <= leg.bestBid.value + th.tolerance
             else leg.ltp.value >= leg.bestAsk.value - th.tolerance
    requires ClassifySpread(ComputeSpread(leg), th).Avoid? && th.spreadModerate >= 2.0 * th.tolerance
    ensures DetectAggressor(leg, th.tolerance) == if held.CE? then Sell else Buy
  {
  }

  /**
    A triggered reversal always contradicts continuation, on the wall and on the spread; so testing
    it first only chooses between FLIP and EXIT.  When the moderate spread is at least twice the
    tolerance the aggressor is on the wrong side as well.
   */
  lemma ReversalExcludesContinuation(held: Side, leg: StrikeLeg, buf: Buffer, th: Thresholds)
    requires EvaluateReversal(held, leg, buf, th).Triggered()
    ensures var failures := ContinuationFailures(held, leg, buf, th);
            && WallBlocks in failures && SpreadTooWide in failures
            && (th.spreadModerate >= 2.0 * th.tolerance ==> WrongAggressor in failures)
  {
    FailuresListed(held, leg, buf, th);
    if th.spreadModerate >= 2.0 * th.tolerance {
      FlippedAggressor(held, leg, th);
    }
  }

  // ---------------------------------------------------------------- walls never refresh while falling

  lemma {:induction false} PeakBounds(s: seq<int>, i: nat)
    requires i < |s|
    ensures Trough(s) <= s[i] <= Peak(s)
  {
    if |s| > 1 {
      var front := s[..|s| - 1];
      PeakBounds(front, if i < |front| then i else 0);
    }
  }

  lemma {:induction false} FallingTrough(s: seq<int>)
    requires s != [] && NeverRises(s)
    ensures Trough(s) == s[|s| - 1]
  {
    if |s| > 1 {
      FallingTrough(s[..|s| - 1]);
    }
  }

  /** When the newest quantity of the window is the leg's own, a window that never rises is never REFRESHING. */
  lemma FallingWallNeverRefreshes(leg: StrikeLeg, buf: Buffer, th: Thresholds)
    requires var asks := AskQtys(LastN(buf.items, HISTORY));
             && asks != [] && NeverRises(asks)
             && leg.bestAskQty == Some(asks[|asks| - 1])
    ensures ClassifyWall(leg, buf, th) != Refreshing
  {
    var asks := AskQtys(LastN(buf.items, HISTORY));
    FallingTrough(asks);
    PeakBounds(asks, |asks| - 1);
  }

  // ---------------------------------------------------------------- the action

  datatype Window = Window(start: int, end: int, phase: string, minScore: Option<int>)

  function CurrentWindow(minute: int, windows: seq<Window>): Option<Window> {
    if windows == [] then None
    else if windows[0].start <= minute < windows[0].end then Some(windows[0])
    else CurrentWindow(minute, windows[1..])
  }

  predicate EntryAllowed(minute: int, windows: seq<Window>, score: nat) {
    var w := CurrentWindow(minute, windows);
    w.Some? && w.value.minScore.Some? && score >= w.value.minScore.value
  }

  datatype Memory = Memory(
    held: Option<(Side, string)>,
    suppressUntil: int,
    buffers: map<string, Buffer>,
    windows: seq<Window>,
    capacity: nat)

  datatype Snapshot = Snapshot(ce: seq<StrikeLeg>, pe: seq<StrikeLeg>, ts: int, minute: int)

  datatype NoOpReason =
    | HeldTokenNotInBasket | Suppressed | NoDirection | NoDominantStrike | WallBlocksEntry | SpreadBlocksEntry
    | OutsideWindow | ZeroSize

  datatype Action =
    | NoOp(why: NoOpReason)
    | Hold
    | Exit
    | Flip(side: Side, leg: StrikeLeg)
    | Enter(side: Side, leg: StrikeLeg, qty: int, points: Points, factor: real)

  function BufferFor(m: Memory, token: string): Buffer {
    if token in m.buffers then m.buffers[token] else Buffer([], m.capacity)
  }

  function FindLeg(legs: seq<StrikeLeg>, token: string): Option<StrikeLeg> {
    if legs == [] then None
    else if legs[0].token == token then Some(legs[0])
    else FindLeg(legs[1..], token)
  }

  function Legs(s: Snapshot, side: Side): seq<StrikeLeg> { if side.CE? then s.ce else s.pe }

  function Opposite(side: Side): Side { if side.CE? then PE else CE }

  /** Gate 1: the side, from the difference of the two cumulative ratios. */
  function Direction(s: Snapshot, th: Thresholds): Option<Side> {
    var ce, pe := CumulativeRatio(s.ce), CumulativeRatio(s.pe);
    if ce.None? || pe.None? then None
    else if ce.value - pe.value > th.netPressureEntry then Some(CE)
    else if ce.value - pe.value < -th.netPressureEntry then Some(PE)
    else None
  }

  /** Gate 3: the size factor the spread allows. */
  function SpreadFactor(spread: Spread): real {
    match spread
    case Good => 1.0
    case Moderate => 0.5
    case _ => 0.0
  }

  function OrderQty(baseQty: int, factor: real): int {
    var n := RoundHalfEven(baseQty as real * factor);
    if n < 1 then 1 else n
  }

  /** Gates 2 to 4 on the dominant strike. */
  function TryEnter(side: Side, leg: StrikeLeg, s: Snapshot, m: Memory, th: Thresholds, baseQty: int): Action {
    var buf := BufferFor(m, leg.token);
    var wall := ClassifyWall(leg, buf, th);
    var spread := ClassifySpread(ComputeSpread(leg), th);
    if wall in {UnknownWall, Holding, Refreshing} then NoOp(WallBlocksEntry)
    else if spread in {UnknownSpread, Avoid} then NoOp(SpreadBlocksEntry)
    else
      var points := QualityPoints(side, leg, buf, th);
      if !EntryAllowed(s.minute, m.windows, Score(points)) then NoOp(OutsideWindow)
      else
        var size, cap := SizeFactor(Score(points)), SpreadFactor(spread);
        var factor := if cap < size then cap else size;
        if factor <= 0.0 then NoOp(ZeroSize)
        else Enter(side, leg, OrderQty(baseQty, factor), points, factor)
  }

  function ManageHeld(held: Side, leg: StrikeLeg, s: Snapshot, m: Memory, th: Thresholds): Action {
    var buf := BufferFor(m, leg.token);
    if EvaluateReversal(held, leg, buf, th).Triggered() then
      var target := Dominant(Legs(s, Opposite(held)));
      if target.Some? && 0 <= target.value < |Legs(s, Opposite(held))|
      then Flip(Opposite(held), Legs(s, Opposite(held))[target.value])
      else Exit
    else if ContinuationFailures(held, leg, buf, th) != [] then Exit
    else Hold
  }

  /** The decision of `on_tick` once the snapshot's observations are in the buffers. */
  function OnTick(s: Snapshot, m: Memory, th: Thresholds, baseQty: int): Action {
    if m.held.Some? then
      var leg := FindLeg(s.ce + s.pe, m.held.value.1);
      if leg.None? then NoOp(HeldTokenNotInBasket) else ManageHeld(m.held.value.0, leg.value, s, m, th)
    else if s.ts < m.suppressUntil then NoOp(Suppressed)
    else
      var side := Direction(s, th);
      if side.None? then NoOp(NoDirection)
      else
        var legs := Legs(s, side.value);
        var best := Dominant(legs);
        if best.Some? && 0 <= best.value < |legs| then TryEnter(side.value, legs[best.value], s, m, th, baseQty)
        else NoOp(NoDominantStrike)
  }

  /** A quantity is never below one lot nor above the configured one. */
  lemma OrderQtyBounds(baseQty: int, factor: real)
    requires factor == 1.0 || factor == 0.5
    ensures 1 <= OrderQty(baseQty, factor) <= if baseQty < 1 then 1 else baseQty
    ensures factor == 1.0 && baseQty >= 1 ==> OrderQty(baseQty, factor) == baseQty
  {
    var x := baseQty as real * factor;
    if baseQty >= 1 {
      RoundHalfEvenMonotone(x, baseQty as real);
    } else {
      RoundHalfEvenMonotone(x, 0.0);
      RoundHalfEvenInteger(0);
    }
    RoundHalfEvenInteger(baseQty);
  }

  /**
    Every ENTER is coherent: it is on an unblocked wall worth its two points, its score is 6, 8 or
    10 and meets the minimum of the window in force, its quantity lies between one lot and the
    configured one, and a full-size entry has a GOOD spread and a score of at least 8.
   */
  lemma EnterCoherence(s: Snapshot, m: Memory, th: Thresholds, baseQty: int)
    requires OnTick(s, m, th, baseQty).Enter?
    ensures var Enter(side, leg, qty, points, factor) := OnTick(s, m, th, baseQty);
            var w := CurrentWindow(s.minute, m.windows);
            && m.held.None? && Direction(s, th) == Some(side)
            && points.askWall == 2 && Score(points) in {6, 8, 10}
            && w.Some? && w.value.start <= s.minute < w.value.end
            && w.value.minScore.Some? && Score(points) >= w.value.minScore.value
            && 1 <= qty <= (if baseQty < 1 then 1 else baseQty)
            && (factor == 1.0 || factor == 0.5)
            && (factor == 1.0 ==> ClassifySpread(ComputeSpread(leg), th).Good? && Score(points) >= 8)
  {
    var Enter(side, leg, qty, points, factor) := OnTick(s, m, th, baseQty);
    EnterPoints(side, leg, s, m, th, baseQty);
    OrderQtyBounds(baseQty, factor);
    WindowContains(s.minute, m.windows);
  }

  lemma EnterPoints(side: Side, leg: StrikeLeg, s: Snapshot, m: Memory, th: Thresholds, baseQty: int)
    requires TryEnter(side, leg, s, m, th, baseQty).Enter?
    ensures var Enter(_, _, qty, points, factor) := TryEnter(side, leg, s, m, th, baseQty);
            && points.askWall == 2 && Score(points) in {6, 8, 10}
            && qty == OrderQty(baseQty, factor) && (factor == 1.0 || factor == 0.5)
            && (factor == 1.0 ==> ClassifySpread(ComputeSpread(leg), th).Good? && Score(points) >= 8)
            && EntryAllowed(s.minute, m.windows, Score(points))
  {
  }

  lemma {:induction false} WindowContains(minute: int, windows: seq<Window>)
    ensures var w := CurrentWindow(minute, windows);
            w.Some? ==> w.value in windows && w.value.start <= minute < w.value.end
  {
    if windows != [] {
      WindowContains(minute, windows[1..]);
    }
  }

  /** Both sides are free of orphan bids, and the entry threshold is not negative. */
  predicate NoOrphans(s: Snapshot, th: Thresholds) {
    NoOrphanBids(s.ce) && NoOrphanBids(s.pe) && th.netPressureEntry >= 0.0
  }

  /** Both sides are as the chain stores them. */
  predicate StoredSnapshot(s: Snapshot) { AllStored(s.ce) && AllStored(s.pe) }

  /** Gate 1 passed: the chosen side has a dominant strike, and without orphan bids it is above the entry threshold. */
  lemma DirectionHasDominantStrike(s: Snapshot, th: Thresholds)
    requires Direction(s, th).Some? && (StoredSnapshot(s) || NoOrphans(s, th))
    ensures var legs := Legs(s, Direction(s, th).value);
            && Dominant(legs).Some? && Dominates(legs, Dominant(legs).value)
            && (NoOrphans(s, th) ==> ComputeImbalance(legs[Dominant(legs).value]).value > th.netPressureEntry)
  {
    if NoOrphans(s, th) {
      MediantDominance(s.ce);
      MediantDominance(s.pe);
    } else {
      StoredSideHasDominant(Legs(s, Direction(s, th).value));
    }
  }

  lemma TryEnterKeepsLeg(side: Side, leg: StrikeLeg, s: Snapshot, m: Memory, th: Thresholds, baseQty: int)
    ensures var a := TryEnter(side, leg, s, m, th, baseQty);
            a != NoOp(NoDominantStrike) && (a.Enter? ==> a.side == side && a.leg == leg)
  {
  }

  /** Whatever the book, an entered strike is the first maximum of its side. */
  lemma EnteredIsDominant(s: Snapshot, m: Memory, th: Thresholds, baseQty: int)
    requires OnTick(s, m, th, baseQty).Enter?
    ensures m.held.None?
    ensures var a := OnTick(s, m, th, baseQty);
            var best := Dominant(Legs(s, a.side));
            Direction(s, th) == Some(a.side) && best.Some? && Dominates(Legs(s, a.side), best.value) && Legs(s, a.side)[best.value] == a.leg
  {
    var legs := Legs(s, Direction(s, th).value);
    DominantIsFirstMaximum(legs);
    TryEnterKeepsLeg(Direction(s, th).value, legs[Dominant(legs).value], s, m, th, baseQty);
  }

  /** A flip goes to the first maximum of the other side. */
  lemma FlipTargetIsDominant(s: Snapshot, m: Memory, th: Thresholds, baseQty: int)
    requires OnTick(s, m, th, baseQty).Flip?
    ensures var a := OnTick(s, m, th, baseQty);
            var best := Dominant(Legs(s, a.side));
            && m.held.Some? && a.side != m.held.value.0
            && best.Some? && Dominates(Legs(s, a.side), best.value) && Legs(s, a.side)[best.value] == a.leg
  {
    DominantIsFirstMaximum(Legs(s, Opposite(m.held.value.0)));
  }

  /**
    On any snapshot as the chain stores it, held or flat, no tick ends for lack of a dominant strike;
    without orphan bids an entered strike is moreover above the entry threshold.
   */
  lemma EntersDominantStrike(s: Snapshot, m: Memory, th: Thresholds, baseQty: int)
    ensures StoredSnapshot(s) || NoOrphans(s, th) ==> OnTick(s, m, th, baseQty) != NoOp(NoDominantStrike)
    ensures OnTick(s, m, th, baseQty).Enter? && NoOrphans(s, th) ==>
              ComputeImbalance(OnTick(s, m, th, baseQty).leg).Some?
              && ComputeImbalance(OnTick(s, m, th, baseQty).leg).value > th.netPressureEntry
  {
    if Direction(s, th).Some? && (StoredSnapshot(s) || NoOrphans(s, th)) {
      DirectionHasDominantStrike(s, th);
      var side := Direction(s, th).value;
      TryEnterKeepsLeg(side, Legs(s, side)[Dominant(Legs(s, side)).value], s, m, th, baseQty);
    }
    if OnTick(s, m, th, baseQty).Enter? && NoOrphans(s, th) {
      EnteredIsDominant(s, m, th, baseQty);
    }
  }

  /**
    A position is held exactly when every continuation check passes: looking at the reversal first
    never turns a HOLD into something else.
   */
  lemma HoldsExactlyOnContinuation(held: Side, leg: StrikeLeg, s: Snapshot, m: Memory, th: Thresholds)
    ensures var buf := BufferFor(m, leg.token);
            && (ManageHeld(held, leg, s, m, th) == Hold <==> ContinuationFailures(held, leg, buf, th) == [])
            && (ManageHeld(held, leg, s, m, th).Flip? <==>
                  EvaluateReversal(held, leg, buf, th).Triggered() && Dominant(Legs(s, Opposite(held))).Some?)
  {
    var buf := BufferFor(m, leg.token);
    DominantIsFirstMaximum(Legs(s, Opposite(held)));
    if EvaluateReversal(held, leg, buf, th).Triggered() {
      ReversalExcludesContinuation(held, leg, buf, th);
    }
  }

  /** Holding decides what can happen: a held vessel never enters, a flat one never exits, flips or holds. */
  lemma ActionMatchesState(s: Snapshot, m: Memory, th: Thresholds, baseQty: int)
    ensures var a := OnTick(s, m, th, baseQty);
            && (m.held.Some? ==> a.Hold? || a.Exit? || a.Flip? || a == NoOp(HeldTokenNotInBasket))
            && (m.held.None? ==> a.Enter? || a.NoOp?)
            && (a.Flip? ==> a.side != m.held.value.0 && a.leg in (if a.side.CE? then s.ce else s.pe))
  {
  }
}
