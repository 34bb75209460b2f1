/** The dynamic at-the-money basket: when it shifts, and to what. */
module StrikeBasket {
  import opened Core

  type Token = string

  datatype Basket = Basket(
    atm: int,
    ceStrikes: seq<int>,
    peStrikes: seq<int>,
    ceTokens: map<int, Token>,
    peTokens: map<int, Token>,
    lastShiftMs: int)

  datatype Transition = Transition(basket: Basket, added: set<Token>, dropped: set<Token>)

  datatype Config = Config(step: int, halfWidth: int, hysteresisSec: int)

  /** What one basket check reads: the spot, the clock, and the instrument master. */
  datatype Sample = Sample(spot: Option<real>, nowMs: int, master: map<(int, Side), Token>)

  function AllTokens(b: Basket): set<Token> {
    b.ceTokens.Values + b.peTokens.Values
  }

  function ComputeAtm(spot: real, step: int): int
    requires step > 0
  {
    RoundHalfEven(spot / step as real) * step
  }

  /** The strikes `atm - n*step .. atm + n*step`; a negative half-width gives none. */
  function StrikeSet(atm: int, step: int, n: int): seq<int> {
    if n < 0 then [] else seq(2 * n + 1, i => atm + (i - n) * step)
  }

  /** The instrument master has a token for this strike; an empty one counts as none. */
  predicate HasToken(master: map<(int, Side), Token>, strike: int, side: Side) {
    (strike, side) in master && master[(strike, side)] != ""
  }

  function TokensFor(strikes: seq<int>, side: Side, master: map<(int, Side), Token>): map<int, Token> {
    map s | s in strikes && HasToken(master, s, side) :: master[(s, side)]
  }

  predicate HysteresisActive(b: Basket, nowMs: int, cfg: Config) {
    b.lastShiftMs != 0 && nowMs - b.lastShiftMs < cfg.hysteresisSec * 1000
  }

  function MaybeShift(b: Basket, x: Sample, cfg: Config): Option<Transition>
    requires cfg.step > 0
  {
    if x.spot.None? then None
    else
      var atm := ComputeAtm(x.spot.value, cfg.step);
      if atm == b.atm && b.ceTokens != map[] then None
      else if HysteresisActive(b, x.nowMs, cfg) then None
      else
        var strikes := StrikeSet(atm, cfg.step, cfg.halfWidth);
        var next := Basket(atm, strikes, strikes, TokensFor(strikes, CE, x.master), TokensFor(strikes, PE, x.master), x.nowMs);
        Some(Transition(next, AllTokens(next) - AllTokens(b), AllTokens(b) - AllTokens(next)))
  }

  /** The loop that fills one side's token dict, strike by strike. */
  method FillTokens(strikes: seq<int>, side: Side, master: map<(int, Side), Token>) returns (tokens: map<int, Token>)
    ensures tokens == TokensFor(strikes, side, master)
  {
    tokens := map[];
    for k := 0 to |strikes|
      invariant tokens == TokensFor(strikes[..k], side, master)
    {
      assert strikes[..k + 1] == strikes[..k] + [strikes[k]];
      if HasToken(master, strikes[k], side) {
        tokens := tokens[strikes[k] := master[(strikes[k], side)]];
      }
    }
    assert strikes[..|strikes|] == strikes;
  }

  /** The at-the-money strike is a multiple of the step, no further than half a step from spot. */
  lemma AtmNearSpot(spot: real, step: int)
    requires step > 0
    ensures ComputeAtm(spot, step) % step == 0
    ensures -(step as real) <= 2.0 * (ComputeAtm(spot, step) as real - spot) <= step as real
  {
    var n := RoundHalfEven(spot / step as real);
    NearMultiple(n as real, spot / step as real, step as real, spot);
    ProductAsReal(n, step);
    MultipleOfStep(n, step);
  }

  lemma QuotientTimes(x: real, s: real)
    requires s > 0.0
    ensures x / s * s == x
  {
  }

  lemma DifferenceTimes(n: real, q: real, s: real)
    ensures (n - q) * s == n * s - q * s
  {
  }

  lemma ProductAsReal(n: int, step: int)
    ensures (n * step) as real == n as real * step as real
  {
  }

  lemma NearMultiple(n: real, q: real, s: real, spot: real)
    requires s > 0.0 && q == spot / s && -0.5 <= n - q <= 0.5
    ensures -s <= 2.0 * (n * s - spot) <= s
  {
    QuotientTimes(spot, s);
    ScaleMonotone(-0.5, n - q, s);
    ScaleMonotone(n - q, 0.5, s);
    DifferenceTimes(n, q, s);
  }

  lemma MultipleOfStep(n: int, step: int)
    requires step > 0
    ensures n * step % step == 0
  {
    var q, r := n * step / step, n * step % step;
    assert (n - q) * step == r;
    BelowStep(n - q, step);
  }

  lemma BelowStep(d: int, step: int)
    requires step > 0 && 0 <= d * step < step
    ensures d == 0
  {
    assert d >= 1 ==> d * step >= step;
    assert d <= -1 ==> d * step <= -step;
  }

  /** Strikes are ascending, one step apart, symmetric about the money. */
  lemma StrikesContiguous(atm: int, step: int, n: int)
    requires step > 0 && n >= 0
    ensures var s := StrikeSet(atm, step, n);
            && |s| == 2 * n + 1 && s[n] == atm
            && (forall i :: 0 < i < |s| ==> s[i] == s[i - 1] + step)
            && (forall i :: 0 <= i < |s| ==> s[i] + s[|s| - 1 - i] == 2 * atm)
  {
    var s := StrikeSet(atm, step, n);
    forall i | 0 < i < |s| ensures s[i] == s[i - 1] + step {
      assert (i - n) * step == (i - 1 - n) * step + step;
    }
    forall i | 0 <= i < |s| ensures s[i] + s[|s| - 1 - i] == 2 * atm {
      assert (i - n) * step + (2 * n - i - n) * step == 0;
    }
  }

  // ---------------------------------------------------------------- runs

  function Next(b: Basket, x: Sample, cfg: Config): Basket
    requires cfg.step > 0
  {
    var t := MaybeShift(b, x, cfg);
    if t.Some? then t.value.basket else b
  }

  /** A transition carries the two differences between the old and the new token sets. */
  lemma ShiftTokens(b: Basket, x: Sample, cfg: Config)
    requires cfg.step > 0
    ensures var t, next := MaybeShift(b, x, cfg), Next(b, x, cfg);
            if t.None? then next == b
            else && next == t.value.basket
                 && t.value.added == AllTokens(next) - AllTokens(b)
                 && t.value.dropped == AllTokens(b) - AllTokens(next)
  {
  }

  function After(b: Basket, xs: seq<Sample>, cfg: Config): Basket
    requires cfg.step > 0
  {
    if xs == [] then b else Next(After(b, xs[..|xs| - 1], cfg), xs[|xs| - 1], cfg)
  }

  predicate ShiftsAt(b: Basket, xs: seq<Sample>, cfg: Config, j: nat)
    requires cfg.step > 0
  {
    j < |xs| && MaybeShift(After(b, xs[..j], cfg), xs[j], cfg).Some?
  }

  predicate ForwardClock(xs: seq<Sample>) {
    && (forall i :: 0 <= i < |xs| ==> xs[i].nowMs > 0)
    && (forall i, j :: 0 <= i < j < |xs| ==> xs[i].nowMs <= xs[j].nowMs)
  }

  /** The basket remembers the time of its last shift, which no earlier shift comes after. */
  lemma {:induction false} LastShiftRecorded(b: Basket, xs: seq<Sample>, cfg: Config, i: nat)
    requires cfg.step > 0 && ForwardClock(xs) && ShiftsAt(b, xs, cfg, i)
    ensures xs[i].nowMs <= After(b, xs, cfg).lastShiftMs
  {
    var n := |xs| - 1;
    var front := xs[..n];
    if i == n {
      assert xs[..i] == front;
    } else {
      assert front[..i] == xs[..i];
      LastShiftRecorded(b, front, cfg, i);
    }
  }

  /** Any two shifts of a run are at least the hysteresis apart. */
  lemma ShiftsKeepTheirDistance(b: Basket, xs: seq<Sample>, cfg: Config, i: nat, j: nat)
    requires cfg.step > 0 && ForwardClock(xs) && i < j
    requires ShiftsAt(b, xs, cfg, i) && ShiftsAt(b, xs, cfg, j)
    ensures xs[j].nowMs - xs[i].nowMs >= cfg.hysteresisSec * 1000
  {
    var front := xs[..j];
    assert front[..i] == xs[..i];
    LastShiftRecorded(b, front, cfg, i);
  }

  /** A side carries exactly the tokens that the instrument master lists for its strikes. */
  ghost predicate TokensListed(tokens: map<int, Token>, strikes: seq<int>, side: Side, master: map<(int, Side), Token>) {
    && (forall k :: k in tokens <==> k in strikes && (k, side) in master && master[(k, side)] != "")
    && (forall k :: k in tokens ==> (k, side) in master && tokens[k] == master[(k, side)])
  }

  /**
    After any check with a spot, the basket is on the current at-the-money strike, unless the
    hysteresis of an earlier shift is still running; then it is left as it was.  A shifted basket
    carries, on each side, the tokens listed for its strikes.
   */
  lemma StaleOnlyUnderHysteresis(b: Basket, xs: seq<Sample>, cfg: Config)
    requires cfg.step > 0 && xs != [] && xs[|xs| - 1].spot.Some?
    ensures var x, before, now := xs[|xs| - 1], After(b, xs[..|xs| - 1], cfg), After(b, xs, cfg);
            if HysteresisActive(before, x.nowMs, cfg) then
              now == before
            else
              && now.atm == ComputeAtm(x.spot.value, cfg.step)
              && (now != before || before.ceTokens == map[] ==>
                    && now.lastShiftMs == x.nowMs
                    && now.ceStrikes == now.peStrikes == StrikeSet(now.atm, cfg.step, cfg.halfWidth)
                    && TokensListed(now.ceTokens, now.ceStrikes, CE, x.master)
                    && TokensListed(now.peTokens, now.peStrikes, PE, x.master))
  {
  }

  /** A shift time in the basket is the time of an actual shift of the run. */
  lemma {:induction false} ShiftTimeIsReal(b: Basket, xs: seq<Sample>, cfg: Config)
    requires cfg.step > 0 && b.lastShiftMs == 0 && After(b, xs, cfg).lastShiftMs != 0
    ensures exists i: nat :: ShiftsAt(b, xs, cfg, i) && xs[i].nowMs == After(b, xs, cfg).lastShiftMs
  {
    if xs != [] {
      var n := |xs| - 1;
      var front := xs[..n];
      if MaybeShift(After(b, front, cfg), xs[n], cfg).Some? {
        assert ShiftsAt(b, xs, cfg, n);
      } else {
        ShiftTimeIsReal(b, front, cfg);
        var i: nat :| ShiftsAt(b, front, cfg, i) && front[i].nowMs == After(b, front, cfg).lastShiftMs;
        assert front[..i] == xs[..i];
        assert ShiftsAt(b, xs, cfg, i);
      }
    }
  }

  /**
    A basket that a check leaves off the current at-the-money strike shifted less than the
    hysteresis ago, at an earlier check of this very run.
   */
  lemma StaleMeansRecentShift(b: Basket, xs: seq<Sample>, cfg: Config)
    requires cfg.step > 0 && b.lastShiftMs == 0 && xs != [] && xs[|xs| - 1].spot.Some?
    requires After(b, xs, cfg).atm != ComputeAtm(xs[|xs| - 1].spot.value, cfg.step)
    ensures exists i: nat :: i < |xs| - 1 && ShiftsAt(b, xs, cfg, i)
              && xs[|xs| - 1].nowMs - xs[i].nowMs < cfg.hysteresisSec * 1000
  {
    var n := |xs| - 1;
    var front := xs[..n];
    StaleOnlyUnderHysteresis(b, xs, cfg);
    ShiftTimeIsReal(b, front, cfg);
    var i: nat :| ShiftsAt(b, front, cfg, i) && front[i].nowMs == After(b, front, cfg).lastShiftMs;
    assert front[..i] == xs[..i];
    assert ShiftsAt(b, xs, cfg, i);
  }

  // ---------------------------------------------------------------- when a check shifts, and when it does not

  /**
    Check `j` of the run is due: it has a spot whose at-the-money strike is not the basket's, or the
    basket has no CE token, and the last shift is at least the hysteresis ago.
   */
  predicate Due(b: Basket, xs: seq<Sample>, cfg: Config, j: nat)
    requires cfg.step > 0
  {
    && j < |xs| && xs[j].spot.Some?
    && var now := After(b, xs[..j], cfg);
       && (ComputeAtm(xs[j].spot.value, cfg.step) != now.atm || |now.ceTokens| == 0)
       && (now.lastShiftMs == 0 || xs[j].nowMs >= now.lastShiftMs + cfg.hysteresisSec * 1000)
  }

  /** A check shifts exactly when it is due; otherwise the basket stays as it is, its shift time included. */
  lemma ShiftsExactlyWhenDue(b: Basket, xs: seq<Sample>, cfg: Config, j: nat)
    requires cfg.step > 0 && j < |xs|
    ensures ShiftsAt(b, xs, cfg, j) <==> Due(b, xs, cfg, j)
    ensures var before, after := After(b, xs[..j], cfg), After(b, xs[..j + 1], cfg);
            if Due(b, xs, cfg, j) then after.lastShiftMs == xs[j].nowMs else after == before
  {
    assert xs[..j + 1][..j] == xs[..j];
  }

  /** No check from `i` on is due. */
  predicate NoneDue(b: Basket, xs: seq<Sample>, cfg: Config, i: nat)
    requires cfg.step > 0
  {
    forall j :: i <= j < |xs| ==> !Due(b, xs, cfg, j)
  }

  /** The basket is the one its last due check left, and carries that check's time. */
  lemma {:induction false} LastDueDecides(b: Basket, xs: seq<Sample>, cfg: Config, i: nat)
    requires cfg.step > 0 && i <= |xs| && NoneDue(b, xs, cfg, i)
    ensures After(b, xs, cfg) == After(b, xs[..i], cfg)
    ensures i > 0 && Due(b, xs, cfg, i - 1) ==> After(b, xs, cfg).lastShiftMs == xs[i - 1].nowMs
  {
    if i == |xs| {
      assert xs[..i] == xs;
    } else {
      var n := |xs| - 1;
      var front := xs[..n];
      forall j | i <= j < |front| ensures !Due(b, front, cfg, j) {
        DueInFront(b, xs, cfg, n, j);
      }
      assert front[..i] == xs[..i];
      LastDueDecides(b, front, cfg, i);
      ShiftsExactlyWhenDue(b, xs, cfg, n);
      assert xs[..n + 1] == xs;
    }
    if i > 0 {
      ShiftsExactlyWhenDue(b, xs, cfg, i - 1);
    }
  }

  lemma DueInFront(b: Basket, xs: seq<Sample>, cfg: Config, n: nat, j: nat)
    requires cfg.step > 0 && j < n <= |xs|
    ensures Due(b, xs[..n], cfg, j) <==> Due(b, xs, cfg, j)
  {
    assert xs[..n][..j] == xs[..j];
  }

  /** The spot of this sample, if any, has the at-the-money strike `atm`. */
  predicate AtStrike(x: Sample, cfg: Config, atm: int)
    requires cfg.step > 0
  {
    x.spot.Some? ==> ComputeAtm(x.spot.value, cfg.step) == atm
  }

  lemma ShiftLandsOnSpot(b: Basket, xs: seq<Sample>, cfg: Config, i: nat)
    requires cfg.step > 0 && ShiftsAt(b, xs, cfg, i)
    ensures AtStrike(xs[i], cfg, After(b, xs[..i + 1], cfg).atm) && xs[i].spot.Some?
  {
    assert xs[..i + 1][..i] == xs[..i];
  }

  /** A populated basket already on the strike of the spot is not due. */
  lemma AtHomeNotDue(b: Basket, xs: seq<Sample>, cfg: Config, t: nat, home: Basket)
    requires cfg.step > 0 && t < |xs| && After(b, xs[..t], cfg) == home
    requires |home.ceTokens| > 0 && AtStrike(xs[t], cfg, home.atm)
    ensures !Due(b, xs, cfg, t) && After(b, xs[..t + 1], cfg) == home
  {
    ShiftsExactlyWhenDue(b, xs, cfg, t);
  }

  lemma {:induction false} StaysPut(b: Basket, xs: seq<Sample>, cfg: Config, i: nat, j: nat, home: Basket)
    requires cfg.step > 0 && i <= j < |xs| && After(b, xs[..i], cfg) == home && |home.ceTokens| > 0
    requires forall t :: i <= t <= j ==> AtStrike(xs[t], cfg, home.atm)
    ensures After(b, xs[..j], cfg) == home
  {
    if i < j {
      StaysPut(b, xs, cfg, i, j - 1, home);
      AtHomeNotDue(b, xs, cfg, j - 1, home);
    }
  }

  /** Spots that keep one at-the-money strike shift a populated basket at most once. */
  lemma SteadySpotShiftsOnce(b: Basket, xs: seq<Sample>, cfg: Config, i: nat, j: nat)
    requires cfg.step > 0 && i < j < |xs| && ShiftsAt(b, xs, cfg, i)
    requires |After(b, xs[..i + 1], cfg).ceTokens| > 0
    requires forall t :: i <= t <= j ==> AtStrike(xs[t], cfg, After(b, xs[..i + 1], cfg).atm)
    ensures !ShiftsAt(b, xs, cfg, j)
  {
    var home := After(b, xs[..i + 1], cfg);
    StaysPut(b, xs, cfg, i + 1, j, home);
    AtHomeNotDue(b, xs, cfg, j, home);
    ShiftsExactlyWhenDue(b, xs, cfg, j);
  }
}
