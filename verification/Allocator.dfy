/**
  The capital and concurrency allocator: two counter hashes and a set of open
  indexes.  `Atomic` is the allocator as one indivisible operation; it is the
  reference that the optimistic transaction in module `Execution` is measured
  against.
 */
module Allocator {
  type Index = string

  /** `deployed` and `open_count` without their `total` field, the two totals, and `open_symbols`. */
  datatype Books = Books(
    deployed: map<Index, real>,
    deployedTotal: real,
    openCount: map<Index, int>,
    openTotal: int,
    symbols: set<Index>)

  datatype Request = Request(index: Index, premium: real, capital: real, maxOpen: int)

  datatype Reason =
    | AlreadyOpenOnIndex
    | MaxConcurrentReached
    | InsufficientCapital
    | AllocatorError
    | RetryExhausted

  datatype Verdict =
    | Granted(deployedAfter: real, openAfter: int)
    | Refused(reason: Reason, deployedAfter: real, openAfter: int)

  /** A hash field that was never written reads as zero. */
  function Money(m: map<Index, real>, i: Index): real {
    if i in m then m[i] else 0.0
  }

  function Tally(m: map<Index, int>, i: Index): int {
    if i in m then m[i] else 0
  }

  /** The commands buffered between MULTI and EXEC. */
  function Reserve(b: Books, r: Request): Books {
    Books(
      b.deployed[r.index := Money(b.deployed, r.index) + r.premium],
      b.deployedTotal + r.premium,
      b.openCount[r.index := Tally(b.openCount, r.index) + 1],
      b.openTotal + 1,
      b.symbols + {r.index})
  }

  function Release(b: Books, i: Index, premium: real): Books {
    Books(
      b.deployed[i := Money(b.deployed, i) - premium],
      b.deployedTotal - premium,
      b.openCount[i := Tally(b.openCount, i) - 1],
      b.openTotal - 1,
      b.symbols - {i})
  }

  /** Does the cap named by `reason` forbid `r` on these books? */
  predicate CapFails(b: Books, r: Request, reason: Reason) {
    match reason
    case AlreadyOpenOnIndex => r.index in b.symbols
    case MaxConcurrentReached => b.openTotal + 1 > r.maxOpen
    case InsufficientCapital => b.deployedTotal + r.premium > r.capital
    case AllocatorError => false
    case RetryExhausted => false
  }

  predicate CapsHold(b: Books, r: Request) {
    && r.index !in b.symbols
    && b.openTotal + 1 <= r.maxOpen
    && b.deployedTotal + r.premium <= r.capital
  }

  /** The whole call as one step on the books. */
  function Atomic(b: Books, r: Request): (result: (Verdict, Books))
    ensures result.0.Granted? <==> CapsHold(b, r)
    ensures result.0.Refused? ==> CapFails(b, r, result.0.reason) && result.1 == b
    // the caps are tested in this order, and the first that fails is named
    ensures result.0.Refused? && result.0.reason.AlreadyOpenOnIndex? <==> r.index in b.symbols
    ensures result.0.Refused? && result.0.reason.MaxConcurrentReached? <==>
              r.index !in b.symbols && b.openTotal >= r.maxOpen
    ensures result.0.Refused? && result.0.reason.InsufficientCapital? <==>
              r.index !in b.symbols && b.openTotal < r.maxOpen && b.deployedTotal > r.capital - r.premium
    ensures result.0.deployedAfter == result.1.deployedTotal
    ensures result.0.openAfter == result.1.openTotal
  {
    if r.index in b.symbols then
      (Refused(AlreadyOpenOnIndex, b.deployedTotal, b.openTotal), b)
    else if b.openTotal + 1 > r.maxOpen then
      (Refused(MaxConcurrentReached, b.deployedTotal, b.openTotal), b)
    else if b.deployedTotal + r.premium > r.capital then
      (Refused(InsufficientCapital, b.deployedTotal, b.openTotal), b)
    else
      (Granted(b.deployedTotal + r.premium, b.openTotal + 1), Reserve(b, r))
  }

  /** Two books a reader cannot tell apart. */
  ghost predicate SameReadings(a: Books, b: Books) {
    && a.deployedTotal == b.deployedTotal
    && a.openTotal == b.openTotal
    && a.symbols == b.symbols
    && (forall i :: Money(a.deployed, i) == Money(b.deployed, i))
    && (forall i :: Tally(a.openCount, i) == Tally(b.openCount, i))
  }

  /** A release gives back exactly what the reservation took if and only if the index was free. */
  lemma ReleaseUndoesReserve(b: Books, r: Request)
    ensures SameReadings(Release(Reserve(b, r), r.index, r.premium), b) <==> r.index !in b.symbols
  {
    var after := Release(Reserve(b, r), r.index, r.premium);
    if r.index !in b.symbols {
      assert after.symbols == b.symbols;
    } else {
      assert r.index !in after.symbols;
    }
  }

  /** A second release is never absorbed: whatever the books, it takes the counters down again. */
  lemma SecondReleaseAlwaysShows(b: Books, i: Index, premium: real)
    ensures var once := Release(b, i, premium);
            var twice := Release(once, i, premium);
            && !SameReadings(once, twice)
            && twice.openTotal == b.openTotal - 2
            && twice.symbols == once.symbols
  {
  }

  /** The allocator object: the three Redis keys, updated in place. */
  class RedisAllocator {
    var deployed: map<Index, real>
    var deployedTotal: real
    var openCount: map<Index, int>
    var openTotal: int
    var symbols: set<Index>

    function View(): Books
      reads this
    {
      Books(deployed, deployedTotal, openCount, openTotal, symbols)
    }

    constructor ()
      ensures View() == Books(map[], 0.0, map[], 0, {})
    {
      deployed, openCount := map[], map[];
      deployedTotal, openTotal := 0.0, 0;
      symbols := {};
    }

    /** With no other client between the reads and the EXEC, the first attempt is the atomic call. */
    method CheckAndReserve(r: Request) returns (v: Verdict)
      modifies this
      ensures (v, View()) == Atomic(old(View()), r)
    {
      if r.index in symbols {
        return Refused(AlreadyOpenOnIndex, deployedTotal, openTotal);
      }
      var curTotal := openTotal;
      var curDeployed := deployedTotal;
      if curTotal + 1 > r.maxOpen {
        return Refused(MaxConcurrentReached, curDeployed, curTotal);
      }
      if curDeployed + r.premium > r.capital {
        return Refused(InsufficientCapital, curDeployed, curTotal);
      }
      deployed := deployed[r.index := Money(deployed, r.index) + r.premium];
      deployedTotal := deployedTotal + r.premium;
      openCount := openCount[r.index := Tally(openCount, r.index) + 1];
      openTotal := openTotal + 1;
      symbols := symbols + {r.index};
      v := Granted(curDeployed + r.premium, curTotal + 1);
    }

    /** Unconditional: nothing is checked and nothing is refused. */
    method ReleaseSlot(i: Index, premium: real)
      modifies this
      ensures View() == Release(old(View()), i, premium)
    {
      deployed := deployed[i := Money(deployed, i) - premium];
      deployedTotal := deployedTotal - premium;
      openCount := openCount[i := Tally(openCount, i) - 1];
      openTotal := openTotal - 1;
      symbols := symbols - {i};
    }
  }
}
