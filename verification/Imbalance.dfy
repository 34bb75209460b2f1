/** Per-strike and cumulative imbalance, and the strike that dominates a side. */
module Imbalance {
  import opened Core

  datatype StrikeLeg = StrikeLeg(
    token: string,
    strike: int,
    side: Side,
    ltp: Option<real>,
    bestBid: Option<real>,
    bestAsk: Option<real>,
    bestBidQty: Option<int>,
    bestAskQty: Option<int>,
    totalBidQty: Option<int>,
    totalAskQty: Option<int>)

  function Ratio(bid: int, ask: int): real
    requires ask > 0
  {
    bid as real / ask as real
  }

  function ComputeImbalance(leg: StrikeLeg): Option<real> {
    if leg.totalBidQty.None? || leg.totalAskQty.None? then None
    else if leg.totalAskQty.value <= 0 || leg.totalBidQty.value < 0 then None
    else Some(Ratio(leg.totalBidQty.value, leg.totalAskQty.value))
  }

  /** The sum of the values present; `None` when there are none. */
  function SumOrNone(values: seq<Option<int>>): Option<int> {
    if values == [] then None
    else
      var front, last := SumOrNone(values[..|values| - 1]), values[|values| - 1];
      if last.None? then front
      else Some((if front.Some? then front.value else 0) + last.value)
  }

  function BidTotals(legs: seq<StrikeLeg>): seq<Option<int>> {
    seq(|legs|, i requires 0 <= i < |legs| => legs[i].totalBidQty)
  }

  function AskTotals(legs: seq<StrikeLeg>): seq<Option<int>> {
    seq(|legs|, i requires 0 <= i < |legs| => legs[i].totalAskQty)
  }

  function CumulativeRatio(legs: seq<StrikeLeg>): Option<real> {
    var bid, ask := SumOrNone(BidTotals(legs)), SumOrNone(AskTotals(legs));
    if bid.None? || ask.None? || ask.value <= 0 then None else Some(Ratio(bid.value, ask.value))
  }

  /** A leg's imbalance: both totals known, a positive ask total, and then bids per ask. */
  lemma ImbalanceExactly(leg: StrikeLeg)
    ensures ComputeImbalance(leg).Some? <==>
              && leg.totalBidQty.Some? && leg.totalBidQty.value >= 0
              && leg.totalAskQty.Some? && leg.totalAskQty.value > 0
    ensures ComputeImbalance(leg).Some? ==>
              ComputeImbalance(leg).value * leg.totalAskQty.value as real == leg.totalBidQty.value as real
  {
  }

  function Total(values: seq<Option<int>>): int {
    if values == [] then 0 else Total(values[1..]) + if values[0].Some? then values[0].value else 0
  }

  lemma {:induction false} TotalAppend(front: seq<Option<int>>, last: Option<int>)
    ensures Total(front + [last]) == Total(front) + if last.Some? then last.value else 0
  {
    if front == [] {
      assert front + [last] == [last];
    } else {
      assert (front + [last])[1..] == front[1..] + [last];
      TotalAppend(front[1..], last);
    }
  }

  /** The sum of the values present, and none exactly when no value is. */
  lemma {:induction false} SumOrNoneExactly(values: seq<Option<int>>)
    ensures SumOrNone(values).None? <==> forall j :: 0 <= j < |values| ==> values[j].None?
    ensures SumOrNone(values).Some? ==> SumOrNone(values).value == Total(values)
    ensures SumOrNone(values).None? ==> Total(values) == 0
  {
    if values != [] {
      var n := |values| - 1;
      SumOrNoneExactly(values[..n]);
      TotalAppend(values[..n], values[n]);
      assert values == values[..n] + [values[n]];
    }
  }

  lemma CumulativeShape(legs: seq<StrikeLeg>)
    ensures CumulativeRatio(legs).Some? <==>
              Total(AskTotals(legs)) > 0 && exists j :: 0 <= j < |legs| && legs[j].totalBidQty.Some?
    ensures CumulativeRatio(legs).Some? ==>
              CumulativeRatio(legs).value == Ratio(Total(BidTotals(legs)), Total(AskTotals(legs)))
  {
    SumOrNoneExactly(BidTotals(legs));
    SumOrNoneExactly(AskTotals(legs));
    assert forall j :: 0 <= j < |legs| ==> BidTotals(legs)[j] == legs[j].totalBidQty;
  }

  /** `r` is `b` per `a`. */
  predicate Per(r: real, b: int, a: int) { r * a as real == b as real }

  /** A side's ratio: some bid total known, a positive sum of asks, and then bids per ask. */
  lemma CumulativeExactly(legs: seq<StrikeLeg>)
    ensures CumulativeRatio(legs).Some? <==>
              Total(AskTotals(legs)) > 0 && exists j :: 0 <= j < |legs| && legs[j].totalBidQty.Some?
    ensures CumulativeRatio(legs).Some? ==>
              Per(CumulativeRatio(legs).value, Total(BidTotals(legs)), Total(AskTotals(legs)))
  {
    CumulativeShape(legs);
    if Total(AskTotals(legs)) > 0 {
      RatioTimes(Total(BidTotals(legs)), Total(AskTotals(legs)));
    }
  }

  lemma RatioTimes(b: int, a: int)
    requires a > 0
    ensures Per(Ratio(b, a), b, a)
  {
  }

  /** Leg `i` has the highest imbalance of all, and is the first to have it. */
  predicate Dominates(legs: seq<StrikeLeg>, i: int) {
    && 0 <= i < |legs| && ComputeImbalance(legs[i]).Some?
    && (forall j :: 0 <= j < |legs| && ComputeImbalance(legs[j]).Some? ==>
          ComputeImbalance(legs[j]).value <= ComputeImbalance(legs[i]).value)
    && (forall j :: 0 <= j < i && ComputeImbalance(legs[j]).Some? ==>
          ComputeImbalance(legs[j]).value < ComputeImbalance(legs[i]).value)
  }

  function Dominant(legs: seq<StrikeLeg>): Option<int> {
    if legs == [] then None
    else
      var n := |legs| - 1;
      var best, imb := Dominant(legs[..n]), ComputeImbalance(legs[n]);
      if imb.None? then best
      else if best.None? then Some(n)
      else if 0 <= best.value < n && ComputeImbalance(legs[best.value]).Some?
              && imb.value <= ComputeImbalance(legs[best.value]).value then best
      else Some(n)
  }

  /** A dominant leg exists as soon as any imbalance can be computed, and it is the first maximum. */
  lemma {:induction false} DominantIsFirstMaximum(legs: seq<StrikeLeg>)
    ensures Dominant(legs).None? <==> forall j :: 0 <= j < |legs| ==> ComputeImbalance(legs[j]).None?
    ensures Dominant(legs).Some? ==> Dominates(legs, Dominant(legs).value)
  {
    if legs != [] {
      var n := |legs| - 1;
      var front := legs[..n];
      DominantIsFirstMaximum(front);
      assert forall j :: 0 <= j < n ==> front[j] == legs[j];
    }
  }

  /** The loop with a running best. */
  method PickDominantStrike(legs: seq<StrikeLeg>) returns (best: Option<int>)
    ensures best == Dominant(legs)
    ensures best.Some? ==> Dominates(legs, best.value)
  {
    best := None;
    for n := 0 to |legs|
      invariant best == Dominant(legs[..n])
      invariant best.Some? ==> 0 <= best.value < n && ComputeImbalance(legs[best.value]).Some?
    {
      assert legs[..n + 1][..n] == legs[..n] && legs[..n + 1][n] == legs[n];
      var imb := ComputeImbalance(legs[n]);
      if imb.Some? && (best.None? || imb.value > ComputeImbalance(legs[best.value]).value) {
        best := Some(n);
      }
    }
    assert legs[..|legs|] == legs;
    DominantIsFirstMaximum(legs);
  }

  // ---------------------------------------------------------------- the mediant inequality

  /** No negative totals, and no bid total on a leg without a positive ask total. */
  predicate NoOrphanBid(leg: StrikeLeg) {
    && (leg.totalBidQty.Some? ==> leg.totalBidQty.value >= 0)
    && (leg.totalAskQty.Some? ==> leg.totalAskQty.value >= 0)
    && (leg.totalAskQty.None? || leg.totalAskQty.value == 0 ==> leg.totalBidQty.None? || leg.totalBidQty.value == 0)
  }

  predicate NoOrphanBids(legs: seq<StrikeLeg>) {
    forall j :: 0 <= j < |legs| ==> NoOrphanBid(legs[j])
  }

  predicate AtMost(leg: StrikeLeg, r: real) {
    ComputeImbalance(leg).Some? ==> ComputeImbalance(leg).value <= r
  }

  function OrZero(v: Option<int>): int { if v.Some? then v.value else 0 }

  lemma RatioBound(b: int, a: int, r: real)
    requires a > 0
    ensures Ratio(b, a) <= r <==> b as real <= r * a as real
    ensures b >= 0 ==> Ratio(b, a) >= 0.0
  {
    var q, x := Ratio(b, a), a as real;
    assert q * x == b as real;
    assert q <= r ==> (r - q) * x >= 0.0;
    assert q > r ==> (q - r) * x > 0.0;
  }

  lemma BoundsAdd(b: int, a: int, b': int, a': int, r: real)
    requires b as real <= r * a as real && b' as real <= r * a' as real
    ensures (b + b') as real <= r * (a + a') as real
  {
    assert (a + a') as real == a as real + a' as real;
    assert r * (a as real + a' as real) == r * a as real + r * a' as real;
  }

  function Bids(legs: seq<StrikeLeg>): int { OrZero(SumOrNone(BidTotals(legs))) }

  function Asks(legs: seq<StrikeLeg>): int { OrZero(SumOrNone(AskTotals(legs))) }

  lemma TotalsStep(legs: seq<StrikeLeg>)
    requires legs != []
    ensures var n := |legs| - 1;
            && Bids(legs) == Bids(legs[..n]) + OrZero(legs[n].totalBidQty)
            && Asks(legs) == Asks(legs[..n]) + OrZero(legs[n].totalAskQty)
  {
    var n := |legs| - 1;
    assert BidTotals(legs)[..n] == BidTotals(legs[..n]) && AskTotals(legs)[..n] == AskTotals(legs[..n]);
  }

  /** A leg's bid total is at most `r` times its ask total, missing totals counting as zero. */
  predicate LegWithin(leg: StrikeLeg, r: real) {
    && OrZero(leg.totalBidQty) >= 0 && OrZero(leg.totalAskQty) >= 0
    && OrZero(leg.totalBidQty) as real <= r * OrZero(leg.totalAskQty) as real
  }

  /** A bound on every leg is a bound on the totals. */
  lemma {:induction false} SumsWithin(legs: seq<StrikeLeg>, r: real)
    requires forall j :: 0 <= j < |legs| ==> LegWithin(legs[j], r)
    ensures Bids(legs) >= 0 && Asks(legs) >= 0 && Bids(legs) as real <= r * Asks(legs) as real
  {
    if legs != [] {
      var n := |legs| - 1;
      SumsWithin(legs[..n], r);
      TotalsStep(legs);
      BoundsAdd(Bids(legs[..n]), Asks(legs[..n]), OrZero(legs[n].totalBidQty), OrZero(legs[n].totalAskQty), r);
    }
  }

  lemma LegBelow(leg: StrikeLeg, r: real)
    requires r >= 0.0 && NoOrphanBid(leg) && AtMost(leg, r)
    ensures LegWithin(leg, r)
  {
    if ComputeImbalance(leg).Some? {
      RatioBound(leg.totalBidQty.value, leg.totalAskQty.value, r);
    } else {
      assert r * OrZero(leg.totalAskQty) as real >= 0.0;
    }
  }

  /** If no leg's imbalance exceeds `r`, the totals do not exceed it either. */
  lemma SumsBelow(legs: seq<StrikeLeg>, r: real)
    requires NoOrphanBids(legs) && r >= 0.0
    requires forall j :: 0 <= j < |legs| ==> AtMost(legs[j], r)
    ensures Bids(legs) >= 0 && Asks(legs) >= 0
    ensures Asks(legs) > 0 ==> 0.0 <= Ratio(Bids(legs), Asks(legs)) <= r
  {
    forall j | 0 <= j < |legs| ensures LegWithin(legs[j], r) {
      LegBelow(legs[j], r);
    }
    SumsWithin(legs, r);
    if Asks(legs) > 0 {
      RatioBound(Bids(legs), Asks(legs), r);
    }
  }

  /** The highest imbalance of a side, zero when none can be computed. */
  lemma Highest(legs: seq<StrikeLeg>) returns (top: real)
    requires NoOrphanBids(legs)
    ensures top >= 0.0 && forall j :: 0 <= j < |legs| ==> AtMost(legs[j], top)
    ensures Dominant(legs).None? ==> top == 0.0
    ensures Dominant(legs).Some? ==>
              Dominates(legs, Dominant(legs).value) && ComputeImbalance(legs[Dominant(legs).value]).value == top
  {
    DominantIsFirstMaximum(legs);
    top := 0.0;
    if Dominant(legs).Some? {
      var leg := legs[Dominant(legs).value];
      top := ComputeImbalance(leg).value;
      RatioBound(leg.totalBidQty.value, leg.totalAskQty.value, top);
    }
  }

  /**
    The dominant strike is at least as imbalanced as its whole side; a side with a positive ratio
    always has one.
   */
  lemma MediantDominance(legs: seq<StrikeLeg>)
    requires NoOrphanBids(legs) && CumulativeRatio(legs).Some?
    ensures CumulativeRatio(legs).value >= 0.0
    ensures CumulativeRatio(legs).value > 0.0 ==> Dominant(legs).Some?
    ensures Dominant(legs).Some? ==>
              var i := Dominant(legs).value;
              Dominates(legs, i) && ComputeImbalance(legs[i]).value >= CumulativeRatio(legs).value
  {
    var top := Highest(legs);
    SumsBelow(legs, top);
    assert CumulativeRatio(legs).value == Ratio(Bids(legs), Asks(legs));
  }

  /** A leg as the chain stores it: both totals or neither, none negative. */
  predicate Stored(leg: StrikeLeg) {
    && (leg.totalBidQty.Some? <==> leg.totalAskQty.Some?)
    && OrZero(leg.totalBidQty) >= 0 && OrZero(leg.totalAskQty) >= 0
  }

  predicate AllStored(legs: seq<StrikeLeg>) {
    forall j :: 0 <= j < |legs| ==> Stored(legs[j])
  }

  /** Legs without a computable imbalance have no asks between them. */
  lemma {:induction false} NoRatioNoAsks(legs: seq<StrikeLeg>)
    requires AllStored(legs) && forall j :: 0 <= j < |legs| ==> ComputeImbalance(legs[j]).None?
    ensures Asks(legs) == 0
  {
    if legs != [] {
      var n := |legs| - 1;
      NoRatioNoAsks(legs[..n]);
      TotalsStep(legs);
      assert Stored(legs[n]) && ComputeImbalance(legs[n]).None?;
    }
  }

  /** A stored side with a ratio always has a dominant strike, orphans or not. */
  lemma StoredSideHasDominant(legs: seq<StrikeLeg>)
    requires AllStored(legs) && CumulativeRatio(legs).Some?
    ensures Dominant(legs).Some? && Dominates(legs, Dominant(legs).value)
  {
    DominantIsFirstMaximum(legs);
    if Dominant(legs).None? {
      NoRatioNoAsks(legs);
    }
  }

  // ---------------------------------------------------------------- exactly when dominance holds

  /** The bids of the legs whose imbalance can be computed. */
  function PricedBids(legs: seq<StrikeLeg>): int {
    if legs == [] then 0
    else
      var n := |legs| - 1;
      PricedBids(legs[..n]) + if ComputeImbalance(legs[n]).Some? then OrZero(legs[n].totalBidQty) else 0
  }

  /** The bids of the legs whose imbalance cannot be computed, such as a leg with an empty ask side. */
  function OrphanBids(legs: seq<StrikeLeg>): int {
    if legs == [] then 0
    else
      var n := |legs| - 1;
      OrphanBids(legs[..n]) + if ComputeImbalance(legs[n]).None? then OrZero(legs[n].totalBidQty) else 0
  }

  lemma {:induction false} BidsSplit(legs: seq<StrikeLeg>)
    ensures Bids(legs) == PricedBids(legs) + OrphanBids(legs)
  {
    if legs != [] {
      BidsSplit(legs[..|legs| - 1]);
      TotalsStep(legs);
    }
  }

  /** At the mark `top` the asks of the side leave room for the bids of its orphans. */
  predicate OrphansFit(legs: seq<StrikeLeg>, top: real) {
    OrphanBids(legs) as real <= top * Asks(legs) as real - PricedBids(legs) as real
  }

  /** For any side and any mark: the ratio stays at or below the mark exactly when the orphans fit under it. */
  lemma RatioBelowExactly(legs: seq<StrikeLeg>)
    requires CumulativeRatio(legs).Some?
    ensures forall top :: CumulativeRatio(legs).value <= top <==> OrphansFit(legs, top)
  {
    BidsSplit(legs);
    forall top ensures CumulativeRatio(legs).value <= top <==> OrphansFit(legs, top) {
      RatioBound(Bids(legs), Asks(legs), top);
    }
  }

  /** The imbalance of the dominant strike. */
  function TopImbalance(legs: seq<StrikeLeg>): (top: real)
    requires Dominant(legs).Some?
    ensures Dominates(legs, Dominant(legs).value) && ComputeImbalance(legs[Dominant(legs).value]) == Some(top)
  {
    DominantIsFirstMaximum(legs);
    ComputeImbalance(legs[Dominant(legs).value]).value
  }

  /** The dominant strike is at least as imbalanced as its side if and only if its orphans fit under it. */
  lemma DominanceExactly(legs: seq<StrikeLeg>)
    requires CumulativeRatio(legs).Some? && Dominant(legs).Some?
    ensures CumulativeRatio(legs).value <= TopImbalance(legs) <==> OrphansFit(legs, TopImbalance(legs))
  {
    RatioBelowExactly(legs);
  }

  /** A leg without a computable imbalance never changes the dominant strike. */
  lemma OrphanKeepsDominant(legs: seq<StrikeLeg>, orphan: StrikeLeg)
    requires ComputeImbalance(orphan).None?
    ensures Dominant(legs + [orphan]) == Dominant(legs)
  {
    assert (legs + [orphan])[..|legs|] == legs;
  }

  /** A side the data pipeline can build: one leg whose ask side is empty lifts the ratio over its best strike. */
  lemma OrphanBidBreaksDominance()
    ensures exists legs, best :: Dominates(legs, best) && Dominant(legs) == Some(best) && CumulativeRatio(legs).Some?
              && ComputeImbalance(legs[best]).value < CumulativeRatio(legs).value
  {
    var thin := StrikeLeg("b", 150, CE, None, None, None, None, None, Some(1), Some(10));
    var orphan := StrikeLeg("a", 200, CE, None, None, None, None, None, Some(100), Some(0));
    var legs := [thin, orphan];
    assert legs[..1] == [thin] && [thin][..0] == [];
    TotalsStep(legs);
    TotalsStep([thin]);
    assert Dominant([thin]) == Some(0);
    assert BidTotals(legs)[1].Some? && AskTotals(legs)[1].Some?;
    assert CumulativeRatio(legs) == Some(Ratio(101, 10));
    assert Dominant(legs) == Some(0);
    DominantIsFirstMaximum(legs);
    assert Ratio(1, 10) < Ratio(101, 10);
  }
}
