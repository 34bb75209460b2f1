/** Stage A up to the allocator call: the read-only gates and the premium that will be reserved. */
module PreEntryGate {
  import opened Core
  import opened Allocator

  /** The quote fields of an option-chain leaf; an absent field reads as zero. */
  datatype Quote = Quote(ltp: real, bid: real, ask: real)

  /**
    Everything the gate reads.  The leaf is read twice, once by the sanity gates and
    once to price the reservation, and may change in between.
   */
  datatype Inputs = Inputs(
    tradingActive: bool,
    dailyLossCircuit: bool,
    killSwitch: bool,
    engineUp: bool,
    firstLeaf: Option<Quote>,
    secondLeaf: Option<Quote>,
    spreadSkip: real,
    lots: int,
    lotSize: int,
    capital: real,
    maxConcurrent: int)

  datatype Obstacle =
    | TradingInactive | DailyLossCircuit | KillSwitchEngaged | OrderExecNotUp
    | LeafMissing | NoQuotes | CrossedBook | SpreadTooWide
    | NoCapitalConfigured | NoConcurrencyConfigured | PremiumZero

  datatype Gated = Rejected(why: Obstacle) | Passed(req: Request)

  function Check(x: Inputs): Option<Obstacle> {
    if !x.tradingActive then Some(TradingInactive)
    else if x.dailyLossCircuit then Some(DailyLossCircuit)
    else if x.killSwitch then Some(KillSwitchEngaged)
    else if !x.engineUp then Some(OrderExecNotUp)
    else if x.firstLeaf.None? then Some(LeafMissing)
    else
      var q := x.firstLeaf.value;
      if q.ltp <= 0.0 || q.bid <= 0.0 || q.ask <= 0.0 then Some(NoQuotes)
      else if q.ask <= q.bid then Some(CrossedBook)
      else if (q.ask - q.bid) / q.ltp > x.spreadSkip then Some(SpreadTooWide)
      else None
  }

  /** Worst-case fill: lots times lot size times the ask, or the last price when there is no ask. */
  function PremiumRequired(q: Quote, lots: int, lotSize: int): real {
    lots as real * lotSize as real * (if q.ask <= 0.0 then q.ltp else q.ask)
  }

  /** What stands in the way, each obstacle by itself. */
  predicate InTheWay(x: Inputs, why: Obstacle) {
    match why
    case TradingInactive => !x.tradingActive
    case DailyLossCircuit => x.dailyLossCircuit
    case KillSwitchEngaged => x.killSwitch
    case OrderExecNotUp => !x.engineUp
    case LeafMissing => x.firstLeaf.None? || x.secondLeaf.None?
    case NoQuotes => x.firstLeaf.Some? && var q := x.firstLeaf.value; !(q.ltp > 0.0 && q.bid > 0.0 && q.ask > 0.0)
    case CrossedBook => x.firstLeaf.Some? && x.firstLeaf.value.bid >= x.firstLeaf.value.ask
    case SpreadTooWide =>
      x.firstLeaf.Some? && x.firstLeaf.value.ltp != 0.0
      && (x.firstLeaf.value.ask - x.firstLeaf.value.bid) / x.firstLeaf.value.ltp > x.spreadSkip
    case NoCapitalConfigured => x.capital <= 0.0
    case NoConcurrencyConfigured => x.maxConcurrent <= 0
    case PremiumZero =>
      x.secondLeaf.Some?
      && var q := x.secondLeaf.value;
         if q.ask > 0.0 then x.lots as real * x.lotSize as real * q.ask <= 0.0
         else x.lots as real * x.lotSize as real * q.ltp <= 0.0
  }

  /**
    A request leaves the gate exactly when nothing stands in its way, and then asks for lots times lot
    size times the ask, the last price standing in for a missing ask.
   */
  function Gate(x: Inputs, index: Index): (g: Gated)
    ensures g.Passed? <==> forall why :: !InTheWay(x, why)
    ensures g.Rejected? ==> InTheWay(x, g.why)
    ensures g.Passed? ==>
              && x.secondLeaf.Some?
              && g.req.index == index && g.req.capital == x.capital && g.req.maxOpen == x.maxConcurrent
              && g.req.premium > 0.0
              && (x.secondLeaf.value.ask > 0.0 ==>
                    g.req.premium == x.lots as real * x.lotSize as real * x.secondLeaf.value.ask)
              && (x.secondLeaf.value.ask <= 0.0 ==>
                    g.req.premium == x.lots as real * x.lotSize as real * x.secondLeaf.value.ltp)
  {
    var failed := Check(x);
    assert failed.Some? ==> InTheWay(x, failed.value);
    if failed.Some? then Rejected(failed.value)
    else if x.secondLeaf.None? then assert InTheWay(x, LeafMissing); Rejected(LeafMissing)
    else if x.capital <= 0.0 then assert InTheWay(x, NoCapitalConfigured); Rejected(NoCapitalConfigured)
    else if x.maxConcurrent <= 0 then assert InTheWay(x, NoConcurrencyConfigured); Rejected(NoConcurrencyConfigured)
    else
      var premium := PremiumRequired(x.secondLeaf.value, x.lots, x.lotSize);
      if premium <= 0.0 then assert InTheWay(x, PremiumZero); Rejected(PremiumZero)
      else Passed(Request(index, premium, x.capital, x.maxConcurrent))
  }

  /** The order of the gates: a rejection names the first obstacle of the list. */
  lemma RejectionNamesFirst(x: Inputs, index: Index, earlier: Obstacle)
    requires Gate(x, index).Rejected?
    requires Rank(earlier) < Rank(Gate(x, index).why)
    requires earlier == LeafMissing ==> x.secondLeaf.Some?
    ensures !InTheWay(x, earlier)
  {
  }

  function Rank(why: Obstacle): nat {
    match why
    case TradingInactive => 0
    case DailyLossCircuit => 1
    case KillSwitchEngaged => 2
    case OrderExecNotUp => 3
    case LeafMissing => 4
    case NoQuotes => 5
    case CrossedBook => 6
    case SpreadTooWide => 7
    case NoCapitalConfigured => 8
    case NoConcurrencyConfigured => 9
    case PremiumZero => 10
  }
}
