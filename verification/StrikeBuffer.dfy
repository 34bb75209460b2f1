/** The per-strike ring of recent observations and the directional streak read from it. */
module StrikeBuffer {
  import opened Core

  /** The fields of a tick observation that later metrics read. */
  datatype Observation = Observation(
    ts: int,
    ltp: Option<real>,
    bestBidQty: Option<int>,
    bestAskQty: Option<int>,
    imbalance: Option<real>,
    spread: Option<real>,
    wallPresent: Option<bool>)

  /** The newest `n` items; all of them if there are fewer. */
  function LastN<T>(s: seq<T>, n: int): seq<T> {
    if n <= 0 then [] else if |s| <= n then s else s[|s| - n..]
  }

  /** Consecutive items with equal timestamps collapsed to the first of them. */
  function Collapse(pushes: seq<Observation>): seq<Observation> {
    if |pushes| <= 1 then pushes
    else
      var n := |pushes| - 1;
      var front := Collapse(pushes[..n]);
      if pushes[n].ts == pushes[n - 1].ts then front else front + [pushes[n]]
  }

  lemma {:induction false} CollapseKeepsLastTs(pushes: seq<Observation>)
    requires pushes != []
    ensures Collapse(pushes) != [] && Collapse(pushes)[|Collapse(pushes)| - 1].ts == pushes[|pushes| - 1].ts
  {
    if |pushes| > 1 {
      CollapseKeepsLastTs(pushes[..|pushes| - 1]);
    }
  }

  /** Appending to the newest `n` items and dropping an overflow gives the newest `n` of the longer history. */
  lemma LastNAppend<T>(s: seq<T>, n: nat, x: T)
    ensures var t := LastN(s, n) + [x];
            LastN(s + [x], n) == if |t| > n then t[1..] else t
  {
  }

  /** What a push does to the contents. */
  function Pushed(items: seq<Observation>, capacity: nat, obs: Observation): seq<Observation> {
    if items != [] && obs.ts == items[|items| - 1].ts then items
    else if |items| < capacity then items + [obs]
    else (items + [obs])[1..]
  }

  /** A repeated timestamp adds nothing to the collapsed history, any other is appended. */
  lemma CollapseAppend(pushes: seq<Observation>, obs: Observation)
    ensures Collapse(pushes + [obs]) ==
              if pushes != [] && obs.ts == pushes[|pushes| - 1].ts then Collapse(pushes) else Collapse(pushes) + [obs]
  {
    assert (pushes + [obs])[..|pushes|] == pushes;
  }

  lemma NewestOfLastN(s: seq<Observation>, n: nat)
    requires s != [] && n > 0
    ensures LastN(s, n) != [] && LastN(s, n)[|LastN(s, n)| - 1] == s[|s| - 1]
  {
  }

  lemma PushedNew(all: seq<Observation>, capacity: nat, obs: Observation)
    requires all == [] || obs.ts != all[|all| - 1].ts
    ensures Pushed(LastN(all, capacity), capacity, obs) == LastN(all + [obs], capacity)
  {
    var items := LastN(all, capacity);
    if all != [] && capacity > 0 {
      NewestOfLastN(all, capacity);
    }
    assert items == [] || obs.ts != items[|items| - 1].ts;
    LastNAppend(all, capacity, obs);
  }

  lemma PushedAgain(all: seq<Observation>, capacity: nat, obs: Observation)
    requires all != [] && obs.ts == all[|all| - 1].ts
    ensures Pushed(LastN(all, capacity), capacity, obs) == LastN(all, capacity)
  {
    if capacity > 0 {
      NewestOfLastN(all, capacity);
    }
  }

  /** A push keeps the contents the newest items of the collapsed history. */
  lemma PushedIsLastN(pushes: seq<Observation>, capacity: nat, obs: Observation)
    ensures Pushed(LastN(Collapse(pushes), capacity), capacity, obs) == LastN(Collapse(pushes + [obs]), capacity)
  {
    CollapseAppend(pushes, obs);
    if pushes != [] {
      CollapseKeepsLastTs(pushes);
      if obs.ts == pushes[|pushes| - 1].ts {
        PushedAgain(Collapse(pushes), capacity, obs);
      } else {
        PushedNew(Collapse(pushes), capacity, obs);
      }
    } else {
      PushedNew([], capacity, obs);
    }
  }

  /** A deque of bounded length; appending past the bound drops the oldest item. */
  class StrikeBuffer {
    const capacity: nat
    var items: seq<Observation>
    ghost var pushes: seq<Observation>

    /** Whatever was pushed, the buffer is the newest `capacity` items of the collapsed history. */
    ghost predicate Valid()
      reads this
    {
      items == LastN(Collapse(pushes), capacity)
    }

    constructor (capacity: nat)
      ensures Valid() && this.capacity == capacity && items == [] && pushes == []
    {
      this.capacity, items, pushes := capacity, [], [];
    }

    method Push(obs: Observation)
      requires Valid()
      modifies this
      ensures Valid() && pushes == old(pushes) + [obs]
      ensures |items| <= capacity && (capacity > 0 ==> items != [] && items[|items| - 1].ts == obs.ts)
    {
      PushedIsLastN(pushes, capacity, obs);
      pushes := pushes + [obs];
      if items != [] && obs.ts == items[|items| - 1].ts {
        return;
      }
      items := items + [obs];
      if |items| > capacity {
        items := items[1..];
      }
    }

    method Latest() returns (o: Option<Observation>)
      requires Valid()
      ensures o.None? <==> pushes == [] || capacity == 0
      ensures o.Some? ==> items != [] && o.value == items[|items| - 1] && o.value.ts == pushes[|pushes| - 1].ts
      ensures o.Some? ==> Collapse(pushes) != [] && o.value == Collapse(pushes)[|Collapse(pushes)| - 1]
    {
      if pushes != [] {
        CollapseKeepsLastTs(pushes);
        if capacity > 0 {
          NewestOfLastN(Collapse(pushes), capacity);
        }
      }
      o := if items == [] then None else Some(items[|items| - 1]);
    }
  }

  // ---------------------------------------------------------------- streaks

  /** How far the walk back from the newest item goes on: known, recent, and strictly below. */
  function WalkDown(s: seq<Observation>, last: real, cutoff: int): nat {
    if s == [] then 0
    else
      var o := s[|s| - 1];
      if o.ltp.None? || o.ts < cutoff || o.ltp.value >= last then 0
      else 1 + WalkDown(s[..|s| - 1], o.ltp.value, cutoff)
  }

  function UpStreak(s: seq<Observation>, windowMs: int): nat {
    if s == [] || s[|s| - 1].ltp.None? then 0
    else 1 + WalkDown(s[..|s| - 1], s[|s| - 1].ltp.value, s[|s| - 1].ts - windowMs)
  }

  /** The same observations with prices turned upside down. */
  function Negated(s: seq<Observation>): seq<Observation> {
    seq(|s|, i requires 0 <= i < |s| => s[i].(ltp := if s[i].ltp.Some? then Some(-s[i].ltp.value) else None))
  }

  /** The loop of `consecutive_upticks` on its newest-50 window. */
  method ConsecutiveUpticks(items: seq<Observation>, windowMs: int) returns (streak: nat)
    ensures streak == UpStreak(LastN(items, 50), windowMs)
  {
    var s := LastN(items, 50);
    if s == [] {
      return 0;
    }
    var head := s[|s| - 1];
    if head.ltp.None? {
      return 0;
    }
    streak := 1;
    var cutoff, last, i := head.ts - windowMs, head.ltp.value, |s| - 1;
    while i > 0
      invariant 0 <= i < |s|
      invariant streak + WalkDown(s[..i], last, cutoff) == UpStreak(s, windowMs)
    {
      var obs := s[i - 1];
      assert s[..i][..i - 1] == s[..i - 1];
      if obs.ltp.None? || obs.ts < cutoff {
        return;
      }
      if obs.ltp.value < last {
        last := obs.ltp.value;
        streak := streak + 1;
      } else {
        return;
      }
      i := i - 1;
    }
  }

  /** The loop of `consecutive_downticks`, which reads as many items as the buffer can hold. */
  method ConsecutiveDownticks(items: seq<Observation>, capacity: nat, windowMs: int) returns (streak: nat)
    ensures streak == UpStreak(Negated(LastN(items, DownWindow(capacity))), windowMs)
  {
    var s := LastN(items, DownWindow(capacity));
    if s == [] {
      return 0;
    }
    var head := s[|s| - 1];
    if head.ltp.None? {
      return 0;
    }
    streak := 1;
    var cutoff, last, i := head.ts - windowMs, head.ltp.value, |s| - 1;
    ghost var m := Negated(s);
    while i > 0
      invariant 0 <= i < |s|
      invariant streak + WalkDown(m[..i], -last, cutoff) == UpStreak(m, windowMs)
    {
      var obs := s[i - 1];
      assert m[..i][..i - 1] == m[..i - 1];
      if obs.ltp.None? || obs.ts < cutoff {
        return;
      }
      if obs.ltp.value > last {
        last := obs.ltp.value;
        streak := streak + 1;
      } else {
        return;
      }
      i := i - 1;
    }
  }

  /** The price before position `i` is known and strictly below the known price at `i`. */
  predicate StepUp(s: seq<Observation>, i: int) {
    0 < i < |s| && s[i - 1].ltp.Some? && s[i].ltp.Some? && s[i - 1].ltp.value < s[i].ltp.value
  }

  /** The newest `k` prices are known and rise strictly, each within the window of the newest. */
  predicate Rises(s: seq<Observation>, k: nat, windowMs: int) {
    && 0 < k <= |s|
    && s[|s| - 1].ltp.Some?
    && (forall i :: |s| - k < i < |s| ==> StepUp(s, i))
    && (forall i :: |s| - k <= i < |s| - 1 ==> s[|s| - 1].ts - s[i].ts <= windowMs)
  }

  lemma {:induction false} WalkDownMaximal(s: seq<Observation>, last: real, cutoff: int, j: nat)
    requires j <= |s|
    ensures WalkDown(s, last, cutoff) <= |s|
    ensures j <= WalkDown(s, last, cutoff) <==>
              && (j > 0 ==> s[|s| - 1].ltp.Some? && s[|s| - 1].ltp.value < last)
              && (forall i :: |s| - j <= i < |s| ==> s[i].ts >= cutoff)
              && (forall i :: |s| - j < i < |s| ==> StepUp(s, i))
  {
    if s != [] {
      var n := |s| - 1;
      var front, o := s[..n], s[n];
      assert forall i :: 0 < i < n ==> StepUp(front, i) == StepUp(s, i);
      if o.ltp.Some? {
        WalkDownMaximal(front, o.ltp.value, cutoff, if j > 0 then j - 1 else 0);
        assert j > 1 ==> (StepUp(s, n) <==> front[n - 1].ltp.Some? && front[n - 1].ltp.value < o.ltp.value);
      }
    }
  }

  /** The streak is the greatest length of a rising run ending at the newest item, zero when there is none. */
  lemma StreakIsGreatest(s: seq<Observation>, windowMs: int, k: nat)
    ensures UpStreak(s, windowMs) > 0 ==> Rises(s, UpStreak(s, windowMs), windowMs)
    ensures Rises(s, k, windowMs) ==> k <= UpStreak(s, windowMs)
  {
    if s != [] && s[|s| - 1].ltp.Some? {
      var n := |s| - 1;
      var front, head := s[..n], s[n];
      var far := WalkDown(front, head.ltp.value, head.ts - windowMs);
      WalkDownMaximal(front, head.ltp.value, head.ts - windowMs, 0);
      WalkDownMaximal(front, head.ltp.value, head.ts - windowMs, far);
      assert forall i :: 0 < i < n ==> StepUp(front, i) == StepUp(s, i);
      if Rises(s, k, windowMs) {
        assert k > 1 ==> StepUp(s, n);
        WalkDownMaximal(front, head.ltp.value, head.ts - windowMs, k - 1);
      }
    }
  }

  function Capped(n: nat, cap: nat): nat { if n < cap then n else cap }

  /** The newest `n` items are the items from `cut` on. */
  lemma StepUpShifted(s: seq<Observation>, n: nat, i: int)
    requires n < |s| && 0 < i < n
    ensures StepUp(LastN(s, n), i) <==> StepUp(s, i + |s| - n)
  {
  }

  lemma WindowRises(s: seq<Observation>, n: nat, k: nat, windowMs: int)
    requires 0 < k <= n < |s| && Rises(LastN(s, n), k, windowMs)
    ensures Rises(s, k, windowMs)
  {
    var t, cut := LastN(s, n), |s| - n;
    forall i | |s| - k < i < |s| ensures StepUp(s, i) {
      StepUpShifted(s, n, i - cut);
    }
    forall i | |s| - k <= i < |s| - 1 ensures s[|s| - 1].ts - s[i].ts <= windowMs {
      assert t[i - cut] == s[i];
    }
  }

  lemma RisesInWindow(s: seq<Observation>, n: nat, k: nat, windowMs: int)
    requires 0 < k <= n < |s| && Rises(s, k, windowMs)
    ensures Rises(LastN(s, n), k, windowMs)
  {
    var t, cut := LastN(s, n), |s| - n;
    forall i | n - k < i < n ensures StepUp(t, i) {
      StepUpShifted(s, n, i);
    }
    forall i | n - k <= i < n - 1 ensures t[n - 1].ts - t[i].ts <= windowMs {
      assert t[i] == s[i + cut];
    }
  }

  /** A shorter newest part of a rising run rises as well. */
  lemma RisesShorter(s: seq<Observation>, k: nat, m: nat, windowMs: int)
    requires Rises(s, k, windowMs) && 0 < m <= k
    ensures Rises(s, m, windowMs)
  {
  }

  /** The streak of a window of `n` items is the whole streak, cut at `n`. */
  lemma CappedStreak(s: seq<Observation>, n: nat, windowMs: int)
    requires n > 0
    ensures UpStreak(LastN(s, n), windowMs) == Capped(UpStreak(s, windowMs), n)
  {
    var whole, part := UpStreak(s, windowMs), UpStreak(LastN(s, n), windowMs);
    StreakIsGreatest(LastN(s, n), windowMs, part);
    StreakIsGreatest(s, windowMs, part);
    if part > 0 && n < |s| {
      WindowRises(s, n, part, windowMs);
    }
    if whole > 0 {
      var m := Capped(whole, n);
      StreakIsGreatest(s, windowMs, whole);
      RisesShorter(s, whole, m, windowMs);
      if n < |s| {
        RisesInWindow(s, n, m, windowMs);
      }
      StreakIsGreatest(LastN(s, n), windowMs, m);
    }
  }

  /** How many items `consecutive_downticks` reads. */
  function DownWindow(capacity: nat): nat { if capacity == 0 then 50 else capacity }

  /**
    For every buffer, at any capacity: the up counter on mirrored prices is the down counter cut at
    50, so the two mirror each other exactly when the newest 51 prices do not fall within the window.
   */
  lemma CountersMirrorExactly(items: seq<Observation>, capacity: nat, windowMs: int)
    requires |items| <= capacity
    ensures var up, down := UpStreak(LastN(Negated(items), 50), windowMs),
                            UpStreak(Negated(LastN(items, DownWindow(capacity))), windowMs);
            && up == Capped(down, 50)
            && (up == down <==> !Rises(Negated(items), 51, windowMs))
  {
    var mirrored := Negated(items);
    assert LastN(items, DownWindow(capacity)) == items;
    CappedStreak(mirrored, 50, windowMs);
    StreakIsGreatest(mirrored, windowMs, 51);
    if UpStreak(mirrored, windowMs) > 50 {
      RisesShorter(mirrored, UpStreak(mirrored, windowMs), 51, windowMs);
    }
  }

  /** The newest `k` prices are known and fall strictly, each within the window of the newest. */
  predicate Falls(s: seq<Observation>, k: nat, windowMs: int) {
    && 0 < k <= |s|
    && s[|s| - 1].ltp.Some?
    && (forall i :: |s| - k < i < |s| ==> StepDown(s, i))
    && (forall i :: |s| - k <= i < |s| - 1 ==> s[|s| - 1].ts - s[i].ts <= windowMs)
  }

  /** The price before position `i` is known and strictly above the known price at `i`. */
  predicate StepDown(s: seq<Observation>, i: int) {
    0 < i < |s| && s[i - 1].ltp.Some? && s[i].ltp.Some? && s[i - 1].ltp.value > s[i].ltp.value
  }

  lemma FallIsMirroredRise(s: seq<Observation>, k: nat, windowMs: int)
    ensures Falls(s, k, windowMs) <==> Rises(Negated(s), k, windowMs)
  {
    var m := Negated(s);
    assert forall i :: 0 <= i < |s| ==> m[i].ts == s[i].ts && (m[i].ltp.Some? <==> s[i].ltp.Some?);
    assert forall i :: StepDown(s, i) <==> StepUp(m, i);
  }

  lemma MirrorOfNewest(s: seq<Observation>, n: nat)
    ensures Negated(LastN(s, n)) == LastN(Negated(s), n)
  {
  }

  /** A streak reaches `k` exactly when the newest `k` prices rise strictly within the window. */
  lemma StreakReaches(s: seq<Observation>, windowMs: int, k: nat)
    requires k > 0
    ensures UpStreak(s, windowMs) >= k <==> Rises(s, k, windowMs)
  {
    StreakIsGreatest(s, windowMs, k);
    if UpStreak(s, windowMs) >= k {
      RisesShorter(s, UpStreak(s, windowMs), k, windowMs);
    }
  }

  /** What `consecutive_upticks` counts: the newest `k` prices rise, `k` being at most 50. */
  lemma UpticksReach(items: seq<Observation>, windowMs: int, k: nat)
    requires k > 0
    ensures UpStreak(LastN(items, 50), windowMs) >= k <==> k <= 50 && Rises(items, k, windowMs)
  {
    CappedStreak(items, 50, windowMs);
    StreakReaches(items, windowMs, k);
  }

  /** What `consecutive_downticks` counts: the newest `k` prices fall, `k` being at most what the buffer holds. */
  lemma DownticksReach(items: seq<Observation>, capacity: nat, windowMs: int, k: nat)
    requires k > 0
    ensures UpStreak(Negated(LastN(items, DownWindow(capacity))), windowMs) >= k <==>
              k <= (if capacity == 0 then 50 else capacity) && Falls(items, k, windowMs)
  {
    var m := Negated(items);
    MirrorOfNewest(items, DownWindow(capacity));
    CappedStreak(m, DownWindow(capacity), windowMs);
    StreakReaches(m, windowMs, k);
    FallIsMirroredRise(items, k, windowMs);
  }

  /** Up to capacity 50 the two therefore always mirror each other. */
  lemma DowntickSymmetry(items: seq<Observation>, capacity: nat, windowMs: int)
    requires |items| <= capacity <= 50
    ensures UpStreak(Negated(LastN(items, DownWindow(capacity))), windowMs) == UpStreak(LastN(Negated(items), 50), windowMs)
  {
    CountersMirrorExactly(items, capacity, windowMs);
    var m := Negated(LastN(items, DownWindow(capacity)));
    StreakIsGreatest(m, windowMs, 0);
  }

  /** Beyond 50 they do not: a long enough fall counts further than the same rise. */
  lemma DowntickAsymmetryBeyond50(capacity: nat) returns (items: seq<Observation>)
    requires capacity > 50
    ensures |items| <= capacity
    ensures UpStreak(Negated(LastN(items, capacity)), 1000) > UpStreak(LastN(Negated(items), 50), 1000)
  {
    items := seq(51, i => Observation(i, Some(-(i as real)), None, None, None, None, None));
    var rising := Negated(items);
    assert LastN(items, capacity) == items;
    forall i | 0 < i < 51 ensures StepUp(rising, i) {
      assert rising[i - 1].ltp == Some((i - 1) as real) && rising[i].ltp == Some(i as real);
    }
    StreakIsGreatest(rising, 1000, 51);
    CountersMirrorExactly(items, capacity, 1000);
  }

  /** With timestamps in order, testing the oldest item of the run tests them all. */
  lemma WindowByOldest(s: seq<Observation>, k: nat, windowMs: int)
    requires forall i, j :: 0 <= i < j < |s| ==> s[i].ts <= s[j].ts
    requires windowMs >= 0
    ensures Rises(s, k, windowMs) <==>
              && 0 < k <= |s| && s[|s| - 1].ltp.Some?
              && (forall i :: |s| - k < i < |s| ==> StepUp(s, i))
              && s[|s| - 1].ts - s[|s| - k].ts <= windowMs
  {
    if 0 < k <= |s| {
      forall i | |s| - k <= i < |s| - 1 ensures s[|s| - k].ts <= s[i].ts {
        assert i == |s| - k || s[|s| - k].ts <= s[i].ts;
      }
    }
  }
}
