/** Stage D: the trailing stop, the exit cascade and the polling loop around them. */
module ExitLoop {
  import opened Core

  const GRID := 10000.0

  /** The fields of an open position that the exit stage reads or writes; times in milliseconds. */
  datatype Position = Position(
    entryPrice: real,
    entryMs: int,
    slLevel: real,
    targetLevel: real,
    armPct: real,
    trailPct: real,
    maxHoldSec: int,
    armed: bool,
    level: Option<real>,
    peak: real,
    current: real)

  datatype Leaf = Leaf(ltp: real, bid: real, ask: real)

  /** What one pass of the loop observes: the leaf, the flags, the clock, and minutes since midnight. */
  datatype Poll = Poll(leaf: Option<Leaf>, pull: bool, dailyLoss: bool, nowMs: int, minute: int)

  datatype ExitReason = StrategyExit | DailyLossCircuit | Eod | HardSl | HardTarget | TrailingSl | Liquidity | TimeExit

  const SQUARE_OFF := 15 * 60 + 15
  const LIQUIDITY_UNTIL := 15 * 60
  const SPREAD_SKIP := 0.05

  function Max(a: real, b: real): real { if a < b then b else a }

  /** The premium at which the trailing stop arms. */
  function Threshold(p: Position): real { Raised(p.entryPrice, p.armPct) }

  function Raised(price: real, pct: real): real { price * (1.0 + pct) }

  function Lowered(price: real, pct: real): real { price * (1.0 - pct) }

  /** The trailing level below a given peak. */
  function LevelAt(p: Position, peak: real): real { RoundTo(Lowered(peak, p.trailPct), GRID) }

  function UpdateTrailing(p: Position, premium: real): Position {
    var peak := Max(p.peak, premium);
    var armed := p.armed || premium >= Threshold(p);
    p.(peak := peak, armed := armed, level := if armed then Some(LevelAt(p, peak)) else p.level, current := premium)
  }

  predicate WideSpread(q: Leaf) {
    q.ltp > 0.0 && q.bid > 0.0 && q.ask > q.bid && (q.ask - q.bid) / q.ltp > SPREAD_SKIP
  }

  function HoldingSeconds(p: Position, nowMs: int): int {
    var s := (nowMs - p.entryMs) / 1000;
    if s < 0 then 0 else s
  }

  /** The cascade: the first trigger that matches wins. */
  function Evaluate(p: Position, premium: real, x: Poll): Option<ExitReason> {
    if x.pull then Some(StrategyExit)
    else if x.dailyLoss then Some(DailyLossCircuit)
    else if x.minute >= SQUARE_OFF then Some(Eod)
    else if premium <= p.slLevel then Some(HardSl)
    else if premium >= p.targetLevel then Some(HardTarget)
    else if p.armed && p.level.Some? && premium <= p.level.value then Some(TrailingSl)
    else if x.minute < LIQUIDITY_UNTIL && x.leaf.Some? && WideSpread(x.leaf.value) then Some(Liquidity)
    else if HoldingSeconds(p, x.nowMs) >= p.maxHoldSec then Some(TimeExit)
    else None
  }

  // ---------------------------------------------------------------- what the cascade means

  /** The eight triggers, each by itself and in the fields it reads. */
  predicate Fires(r: ExitReason, p: Position, premium: real, x: Poll) {
    match r
    case StrategyExit => x.pull
    case DailyLossCircuit => x.dailyLoss
    case Eod => x.minute >= 15 * 60 + 15
    case HardSl => premium <= p.slLevel
    case HardTarget => premium >= p.targetLevel
    case TrailingSl => p.armed && p.level.Some? && premium <= p.level.value
    case Liquidity =>
      && x.minute < 15 * 60
      && x.leaf.Some? && x.leaf.value.ltp > 0.0 && 0.0 < x.leaf.value.bid < x.leaf.value.ask
      && (x.leaf.value.ask - x.leaf.value.bid) / x.leaf.value.ltp > 0.05
    case TimeExit => p.maxHoldSec <= 0 || x.nowMs >= p.entryMs + 1000 * p.maxHoldSec
  }

  /** Their priority. */
  function Rank(r: ExitReason): nat {
    match r
    case StrategyExit => 0
    case DailyLossCircuit => 1
    case Eod => 2
    case HardSl => 3
    case HardTarget => 4
    case TrailingSl => 5
    case Liquidity => 6
    case TimeExit => 7
  }

  predicate NothingFires(p: Position, premium: real, x: Poll) {
    forall r :: !Fires(r, p, premium, x)
  }

  predicate FiresFirst(r: ExitReason, p: Position, premium: real, x: Poll) {
    Fires(r, p, premium, x) && forall r' :: Rank(r') < Rank(r) ==> !Fires(r', p, premium, x)
  }

  lemma HeldTime(p: Position, nowMs: int)
    ensures HoldingSeconds(p, nowMs) >= p.maxHoldSec <==> p.maxHoldSec <= 0 || nowMs >= p.entryMs + 1000 * p.maxHoldSec
  {
  }

  /** The cascade gives the first of the eight triggers that holds, and nothing exactly when none does. */
  lemma CascadeExactly(p: Position, premium: real, x: Poll)
    ensures Evaluate(p, premium, x).None? <==> NothingFires(p, premium, x)
    ensures Evaluate(p, premium, x).Some? ==> FiresFirst(Evaluate(p, premium, x).value, p, premium, x)
  {
    HeldTime(p, x.nowMs);
    if Evaluate(p, premium, x).Some? {
      assert Fires(Evaluate(p, premium, x).value, p, premium, x);
    }
  }

  /** The premium of a poll: the leaf's last price, or the last known premium when there is none. */
  function Seen(x: Poll, last: real): real {
    if x.leaf.Some? && x.leaf.value.ltp > 0.0 then x.leaf.value.ltp else last
  }

  // ---------------------------------------------------------------- the trailing stop in closed form

  function Highest(s: seq<real>): real
    requires s != []
  {
    if |s| == 1 then s[0] else Max(Highest(s[..|s| - 1]), s[|s| - 1])
  }

  function Trailed(p: Position, premiums: seq<real>): Position {
    if premiums == [] then p
    else UpdateTrailing(Trailed(p, premiums[..|premiums| - 1]), premiums[|premiums| - 1])
  }

  /** A position as the entry stage creates it. */
  predicate JustEntered(p: Position) {
    !p.armed && p.level.None? && p.peak == p.entryPrice == p.current
  }

  lemma {:induction false} TrailingState(p: Position, premiums: seq<real>)
    requires JustEntered(p) && premiums != []
    ensures var q, top := Trailed(p, premiums), Highest(premiums);
            && q.peak == Max(p.entryPrice, top)
            && (q.armed <==> top >= Threshold(p))
            && q.level == (if q.armed then Some(LevelAt(p, q.peak)) else None)
            && q == p.(peak := q.peak, armed := q.armed, level := q.level, current := premiums[|premiums| - 1])
  {
    var n := |premiums| - 1;
    if n > 0 {
      TrailingState(p, premiums[..n]);
      assert premiums[..n][n - 1] == premiums[n - 1];
      var prev := Trailed(p, premiums[..n]);
      assert prev.entryPrice == p.entryPrice && prev.armPct == p.armPct && prev.trailPct == p.trailPct;
      assert Threshold(prev) == Threshold(p);
    } else {
      assert Trailed(p, premiums[..0]) == p;
    }
  }

  /** The level below a peak, given what the peak less the trail comes to. */
  lemma LevelSpelled(p: Position, peak: real, exact: real)
    requires exact == peak * (1.0 - p.trailPct)
    ensures LevelAt(p, peak) == RoundTo(exact, 10000.0)
  {
    assert Lowered(peak, p.trailPct) == exact;
  }

  lemma ThresholdSpelled(p: Position)
    ensures Threshold(p) == p.entryPrice * (1.0 + p.armPct)
  {
  }

  lemma {:induction false} HighestIsMax(s: seq<real>)
    requires s != []
    ensures (forall x :: x in s ==> x <= Highest(s)) && Highest(s) in s
  {
    if |s| > 1 {
      var n := |s| - 1;
      HighestIsMax(s[..n]);
      assert s == s[..n] + [s[n]];
    }
  }

  /**
    The state of the stop depends on the highest premium alone, not on the order of ticks: it has
    armed once that reached the entry price plus the arming gain, and sits the trail below the peak,
    rounded to four places.
   */
  lemma TrailingClosedForm(p: Position, premiums: seq<real>, top: real, exact: real)
    requires JustEntered(p) && top in premiums && forall x :: x in premiums ==> x <= top
    requires exact == (if p.entryPrice < top then top else p.entryPrice) * (1.0 - p.trailPct)
    ensures var q := Trailed(p, premiums);
            && q.peak == (if p.entryPrice < top then top else p.entryPrice)
            && (q.armed <==> top >= p.entryPrice * (1.0 + p.armPct))
            && q.level == (if q.armed then Some(RoundTo(exact, 10000.0)) else None)
            && q == p.(peak := q.peak, armed := q.armed, level := q.level, current := premiums[|premiums| - 1])
  {
    TrailingState(p, premiums);
    HighestIsMax(premiums);
    StopSpelled(p, Trailed(p, premiums), top, exact);
  }

  lemma StopSpelled(p: Position, q: Position, top: real, exact: real)
    requires q.peak == Max(p.entryPrice, top) && (q.armed <==> top >= Threshold(p))
    requires q.level == if q.armed then Some(LevelAt(p, q.peak)) else None
    requires exact == (if p.entryPrice < top then top else p.entryPrice) * (1.0 - p.trailPct)
    ensures q.peak == if p.entryPrice < top then top else p.entryPrice
    ensures q.armed <==> top >= p.entryPrice * (1.0 + p.armPct)
    ensures q.level == if q.armed then Some(RoundTo(exact, 10000.0)) else None
  {
    ThresholdSpelled(p);
    LevelSpelled(p, q.peak, exact);
  }

  lemma {:induction false} HighestOfPrefix(s: seq<real>, k: nat)
    requires 0 < k <= |s|
    ensures Highest(s[..k]) <= Highest(s)
  {
    if k == |s| {
      assert s[..k] == s;
    } else {
      var n := |s| - 1;
      assert s[..n][..k] == s[..k];
      HighestOfPrefix(s[..n], k);
    }
  }

  /** A higher peak never gives a lower level. */
  lemma LevelMonotone(p: Position, low: real, high: real)
    requires low <= high && p.trailPct <= 1.0
    ensures LevelAt(p, low) <= LevelAt(p, high)
  {
    ScaleMonotone(low, high, 1.0 - p.trailPct);
    RoundToMonotone(Lowered(low, p.trailPct), Lowered(high, p.trailPct), GRID);
  }

  /** The ratchet: over any run of ticks the peak and the level never fall and arming never undoes. */
  lemma TrailingRatchet(p: Position, premiums: seq<real>, k: nat)
    requires JustEntered(p) && 0 < k <= |premiums|
    ensures var early, late := Trailed(p, premiums[..k]), Trailed(p, premiums);
            && early.peak <= late.peak
            && (early.armed ==> late.armed)
            && (early.armed && p.trailPct <= 1.0 ==> early.level.value <= late.level.value)
  {
    TrailingState(p, premiums[..k]);
    TrailingState(p, premiums);
    HighestOfPrefix(premiums, k);
    if p.trailPct <= 1.0 {
      LevelMonotone(p, Trailed(p, premiums[..k]).peak, Trailed(p, premiums).peak);
    }
  }

  lemma ArmingCoversTrail(entry: real, arm: real, trail: real, peak: real)
    requires entry >= 0.0 && trail <= 1.0 && (1.0 + arm) * (1.0 - trail) >= 1.0
    requires peak >= Raised(entry, arm)
    ensures Lowered(peak, trail) >= entry
  {
    var gain, keep := 1.0 + arm, 1.0 - trail;
    ScaleMonotone(entry * gain, peak, keep);
    ScaleMonotone(1.0, gain * keep, entry);
    assert entry * gain * keep == gain * keep * entry;
  }

  /** When the arming gain covers the trail, an armed stop never sits below the (rounded) entry price. */
  lemma ArmedStopProtectsEntry(p: Position, premiums: seq<real>)
    requires JustEntered(p) && premiums != []
    requires p.entryPrice >= 0.0 && p.trailPct <= 1.0
    requires (1.0 + p.armPct) * (1.0 - p.trailPct) >= 1.0
    ensures var q := Trailed(p, premiums);
            q.armed ==> q.level.value >= RoundTo(p.entryPrice, GRID)
  {
    var q := Trailed(p, premiums);
    TrailingState(p, premiums);
    if q.armed {
      ArmingCoversTrail(p.entryPrice, p.armPct, p.trailPct, q.peak);
      RoundToMonotone(p.entryPrice, Lowered(q.peak, p.trailPct), GRID);
    }
  }

  // ---------------------------------------------------------------- the polling loop

  /** The clock starts at or after the entry and moves at least one sleep between polls. */
  predicate Paced(p: Position, polls: seq<Poll>) {
    && (polls != [] ==> polls[0].nowMs >= p.entryMs)
    && forall j :: 0 < j < |polls| ==> polls[j].nowMs >= polls[j - 1].nowMs + 500
  }

  lemma {:induction false} PacedClock(p: Position, polls: seq<Poll>, j: nat)
    requires Paced(p, polls) && j < |polls|
    ensures polls[j].nowMs >= p.entryMs + 500 * j
  {
    if j > 0 {
      PacedClock(p, polls, j - 1);
    }
  }

  /** A poll late enough always ends the loop. */
  lemma HeldLongEnough(p: Position, premium: real, x: Poll)
    requires x.nowMs >= p.entryMs + 1000 * p.maxHoldSec
    ensures Evaluate(p, premium, x).Some?
  {
    assert (x.nowMs - p.entryMs) / 1000 >= p.maxHoldSec;
  }

  /** A premium the loop can go on with: inside the hard levels and above an armed stop. */
  predicate Survives(p: Position, premium: real) {
    p.slLevel < premium < p.targetLevel && (p.armed && p.level.Some? ==> premium > p.level.value)
  }

  /** The premiums of the polls: the quoted last price, or the premium before when nothing positive is quoted. */
  predicate Observed(p: Position, polls: seq<Poll>, premiums: seq<real>) {
    && |premiums| <= |polls|
    && forall j :: 0 <= j < |premiums| ==>
         premiums[j] == if polls[j].leaf.Some? && polls[j].leaf.value.ltp > 0.0 then polls[j].leaf.value.ltp
                        else LastBefore(p, premiums, j)
  }

  /** The premium carried into poll `j`. */
  function LastBefore(p: Position, premiums: seq<real>, j: nat): real
    requires j <= |premiums|
  {
    if j == 0 then p.current else premiums[j - 1]
  }

  lemma ObservedNext(p: Position, polls: seq<Poll>, premiums: seq<real>)
    requires Observed(p, polls, premiums) && |premiums| < |polls|
    ensures Observed(p, polls, premiums + [Seen(polls[|premiums|], LastBefore(p, premiums, |premiums|))])
  {
    var n := |premiums|;
    var all := premiums + [Seen(polls[n], LastBefore(p, premiums, n))];
    forall j | 0 <= j < |all|
      ensures all[j] == if polls[j].leaf.Some? && polls[j].leaf.value.ltp > 0.0 then polls[j].leaf.value.ltp
                        else LastBefore(p, all, j)
    {
      assert LastBefore(p, all, j) == LastBefore(p, premiums, j);
    }
  }

  /** The loop went on after its `j`-th tick: inside the levels of that moment, with the peak below target. */
  predicate WentOn(entered: Position, premiums: seq<real>, j: nat)
    requires 0 < j <= |premiums|
  {
    var q := Trailed(entered, premiums[..j]);
    && Survives(q, premiums[j - 1])
    && (entered.entryPrice < entered.targetLevel ==> q.peak < entered.targetLevel)
  }

  lemma WentOnStays(entered: Position, premiums: seq<real>, premium: real)
    ensures forall j :: 0 < j <= |premiums| ==> WentOn(entered, premiums + [premium], j) == WentOn(entered, premiums, j)
  {
    forall j | 0 < j <= |premiums| ensures WentOn(entered, premiums + [premium], j) == WentOn(entered, premiums, j) {
      assert (premiums + [premium])[..j] == premiums[..j];
    }
  }

  /** Nothing fired at the `j`-th poll, on the position as it was then. */
  predicate Passed(entered: Position, polls: seq<Poll>, premiums: seq<real>, j: nat)
    requires 0 < j <= |premiums| <= |polls|
  {
    NothingFires(Trailed(entered, premiums[..j]), premiums[j - 1], polls[j - 1])
  }

  /** No trigger of the cascade, of whatever kind, fired at any of the first `n` polls. */
  ghost predicate NoneFired(entered: Position, polls: seq<Poll>, premiums: seq<real>, n: nat)
    requires n <= |premiums| <= |polls|
  {
    forall j :: 0 < j <= n ==> Passed(entered, polls, premiums, j)
  }

  lemma NoneFiredStays(entered: Position, polls: seq<Poll>, premiums: seq<real>, premium: real)
    requires |premiums| < |polls| && NoneFired(entered, polls, premiums, |premiums|)
    ensures NoneFired(entered, polls, premiums + [premium], |premiums|)
  {
    var all := premiums + [premium];
    forall j | 0 < j <= |premiums| ensures Passed(entered, polls, all, j) {
      assert all[..j] == premiums[..j];
      assert Passed(entered, polls, all, j) == Passed(entered, polls, premiums, j);
    }
  }

  lemma LastPassed(entered: Position, polls: seq<Poll>, all: seq<real>)
    requires 0 < |all| <= |polls| && Evaluate(Trailed(entered, all), all[|all| - 1], polls[|all| - 1]).None?
    ensures Passed(entered, polls, all, |all|)
  {
    assert all[..|all|] == all;
    CascadeExactly(Trailed(entered, all), all[|all| - 1], polls[|all| - 1]);
  }

  /** One more tick is one more update. */
  lemma TrailedNext(p: Position, premiums: seq<real>, premium: real)
    ensures Trailed(p, premiums + [premium]) == UpdateTrailing(Trailed(p, premiums), premium)
  {
    assert (premiums + [premium])[..|premiums|] == premiums;
  }

  /** Ticks never touch the terms of the position. */
  lemma {:induction false} TermsKept(p: Position, premiums: seq<real>)
    ensures var q := Trailed(p, premiums);
            q.targetLevel == p.targetLevel && q.entryMs == p.entryMs && q.maxHoldSec == p.maxHoldSec
  {
    if premiums != [] {
      TermsKept(p, premiums[..|premiums| - 1]);
    }
  }

  lemma QuietMeansSurvives(q: Position, premium: real, x: Poll)
    requires Evaluate(q, premium, x).None?
    ensures Survives(q, premium)
  {
  }

  /** A tick that fires nothing leaves the loop inside the levels, with the peak still below target. */
  lemma WentOnNext(entered: Position, premiums: seq<real>, premium: real)
    requires JustEntered(entered) && (premiums != [] ==> WentOn(entered, premiums, |premiums|))
    requires Survives(Trailed(entered, premiums + [premium]), premium)
    ensures WentOn(entered, premiums + [premium], |premiums| + 1)
  {
    var all := premiums + [premium];
    assert all[..|all|] == all && premiums[..|premiums|] == premiums;
    TrailedNext(entered, premiums, premium);
    TermsKept(entered, all);
  }

  ghost predicate AllWentOn(entered: Position, premiums: seq<real>, n: nat)
    requires n <= |premiums|
  {
    forall j :: 0 < j <= n ==> WentOn(entered, premiums, j)
  }

  /** With a moving clock the time exit leaves room for so many polls and no more. */
  predicate InTime(entered: Position, polls: seq<Poll>, n: nat) {
    Paced(entered, polls) && entered.maxHoldSec >= 0 ==> n <= 2 * entered.maxHoldSec
  }

  /** The loop is still going after the polls that gave `premiums`. */
  ghost predicate Going(entered: Position, polls: seq<Poll>, premiums: seq<real>, p: Position) {
    && Observed(entered, polls, premiums)
    && p == Trailed(entered, premiums)
    && p.current == LastBefore(entered, premiums, |premiums|)
    && AllWentOn(entered, premiums, |premiums|)
    && NoneFired(entered, polls, premiums, |premiums|)
    && InTime(entered, polls, |premiums|)
  }

  /** A pass records its premium and leaves the past as it was. */
  lemma PassRecords(entered: Position, polls: seq<Poll>, premiums: seq<real>, p: Position)
    requires Going(entered, polls, premiums, p) && |premiums| < |polls|
    ensures var n, premium := |premiums|, Seen(polls[|premiums|], p.current);
            var q, all := UpdateTrailing(p, premium), premiums + [premium];
            && Observed(entered, polls, all) && q == Trailed(entered, all)
            && AllWentOn(entered, all, n) && NoneFired(entered, polls, all, n)
  {
    var premium := Seen(polls[|premiums|], p.current);
    TrailedNext(entered, premiums, premium);
    WentOnStays(entered, premiums, premium);
    ObservedNext(entered, polls, premiums);
    NoneFiredStays(entered, polls, premiums, premium);
  }

  /** A poll at which nothing fires was in time. */
  lemma InTimeNext(entered: Position, polls: seq<Poll>, n: nat, q: Position, premium: real)
    requires InTime(entered, polls, n) && n < |polls| && q.entryMs == entered.entryMs && q.maxHoldSec == entered.maxHoldSec
    requires Evaluate(q, premium, polls[n]).None?
    ensures InTime(entered, polls, n + 1)
  {
    if Paced(entered, polls) && n >= 2 * entered.maxHoldSec {
      PacedClock(entered, polls, n);
      HeldLongEnough(q, premium, polls[n]);
    }
  }

  /** The two records of a pass at which nothing fired. */
  lemma PassQuiet(entered: Position, polls: seq<Poll>, premiums: seq<real>, premium: real)
    requires JustEntered(entered) && |premiums| < |polls|
    requires AllWentOn(entered, premiums, |premiums|) && AllWentOn(entered, premiums + [premium], |premiums|)
    requires NoneFired(entered, polls, premiums + [premium], |premiums|)
    requires Evaluate(Trailed(entered, premiums + [premium]), premium, polls[|premiums|]).None?
    ensures AllWentOn(entered, premiums + [premium], |premiums| + 1)
    ensures NoneFired(entered, polls, premiums + [premium], |premiums| + 1)
  {
    QuietMeansSurvives(Trailed(entered, premiums + [premium]), premium, polls[|premiums|]);
    WentOnNext(entered, premiums, premium);
    LastPassed(entered, polls, premiums + [premium]);
  }

  /** A pass in which nothing fires keeps the loop going. */
  lemma PassGoesOn(entered: Position, polls: seq<Poll>, premiums: seq<real>, p: Position)
    requires JustEntered(entered) && Going(entered, polls, premiums, p) && |premiums| < |polls|
    requires var premium := Seen(polls[|premiums|], p.current);
             Evaluate(UpdateTrailing(p, premium), premium, polls[|premiums|]).None?
    ensures var premium := Seen(polls[|premiums|], p.current);
            Going(entered, polls, premiums + [premium], UpdateTrailing(p, premium))
  {
    var premium := Seen(polls[|premiums|], p.current);
    PassRecords(entered, polls, premiums, p);
    PassQuiet(entered, polls, premiums, premium);
    TermsKept(entered, premiums + [premium]);
    InTimeNext(entered, polls, |premiums|, UpdateTrailing(p, premium), premium);
  }

  /** Stage D on a script of polls; `premiums` is the evaluation history kept for the report. */
  method AwaitExit(entered: Position, polls: seq<Poll>)
    returns (p: Position, premiums: seq<real>, reason: Option<ExitReason>)
    requires JustEntered(entered)
    ensures Observed(entered, polls, premiums)
    ensures p == Trailed(entered, premiums)
    // the loop stops at the first trigger, and for no other cause than running out of polls
    ensures reason.None? ==> |premiums| == |polls|
    ensures reason.Some? ==> premiums != [] && FiresFirst(reason.value, p, premiums[|premiums| - 1], polls[|premiums| - 1])
    ensures NoneFired(entered, polls, premiums, if reason.None? then |premiums| else |premiums| - 1)
    // so at every poll it went on from the premium was inside the levels
    ensures forall j :: 0 < j <= |premiums| && (reason.None? || j < |premiums|) ==> WentOn(entered, premiums, j)
    // with a moving clock the time exit bounds the number of polls
    ensures Paced(entered, polls) && entered.maxHoldSec >= 0 ==> |premiums| <= 2 * entered.maxHoldSec + 1
    ensures Paced(entered, polls) && |polls| > 2 * entered.maxHoldSec >= 0 ==> reason.Some?
  {
    p, premiums, reason := entered, [], None;
    for n := 0 to |polls|
      invariant |premiums| == n && Going(entered, polls, premiums, p) && reason.None?
    {
      var premium := Seen(polls[n], p.current);
      PassRecords(entered, polls, premiums, p);
      if Evaluate(UpdateTrailing(p, premium), premium, polls[n]).None? {
        PassGoesOn(entered, polls, premiums, p);
      }
      premiums := premiums + [premium];
      p := UpdateTrailing(p, premium);
      reason := Evaluate(p, premium, polls[n]);
      if reason.Some? {
        CascadeExactly(p, premium, polls[n]);
        return;
      }
    }
  }

  /** The trailing stop never fires on a tick that sets the peak, once the trail is wider than the rounding. */
  lemma NewPeakNeverTrails(p: Position, premium: real, x: Poll)
    requires premium >= p.peak && premium * p.trailPct > 0.00005
    ensures !Fires(TrailingSl, UpdateTrailing(p, premium), premium, x)
    ensures Evaluate(UpdateTrailing(p, premium), premium, x) != Some(TrailingSl)
  {
    LevelBelowPeak(premium, p.trailPct);
  }

  lemma LevelBelowPeak(peak: real, trail: real)
    requires peak * trail > 0.00005
    ensures RoundTo(Lowered(peak, trail), GRID) < peak
  {
    var gap := peak * trail;
    RoundToError(Lowered(peak, trail), GRID);
    WithinHalfUnit(RoundTo(Lowered(peak, trail), GRID), Lowered(peak, trail));
    assert Lowered(peak, trail) == peak - gap;
  }

  lemma WithinHalfUnit(r: real, low: real)
    requires (r - low) * GRID <= 0.5
    ensures r <= low + 0.00005
  {
  }
}
