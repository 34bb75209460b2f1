/** The reservations currently held, and what it means for the allocator's counters to agree with them. */
module Accounting {
  import opened Core
  import opened Allocator
  import opened Execution

  datatype Measure = Premiums | Heads

  /** What one seat adds to a counter; `key` selects one index, `None` the total. */
  function Weight(m: Measure, key: Option<Index>, seat: Option<Seat>): real {
    if seat.None? || (key.Some? && key.value != seat.value.h.index) then 0.0
    else match m
         case Premiums => seat.value.h.premium
         case Heads => 1.0
  }

  function Sum(seats: seq<Option<Seat>>, m: Measure, key: Option<Index>): real {
    if seats == [] then 0.0
    else Sum(seats[..|seats| - 1], m, key) + Weight(m, key, seats[|seats| - 1])
  }

  lemma {:induction false} SumUpdate(seats: seq<Option<Seat>>, k: nat, x: Option<Seat>, m: Measure, key: Option<Index>)
    requires k < |seats|
    ensures Sum(seats[k := x], m, key) == Sum(seats, m, key) - Weight(m, key, seats[k]) + Weight(m, key, x)
  {
    var n := |seats| - 1;
    if k == n {
      assert seats[k := x][..n] == seats[..n];
    } else {
      assert seats[k := x][..n] == seats[..n][k := x];
      SumUpdate(seats[..n], k, x, m, key);
    }
  }

  lemma SumAppend(seats: seq<Option<Seat>>, x: Option<Seat>, m: Measure, key: Option<Index>)
    ensures Sum(seats + [x], m, key) == Sum(seats, m, key) + Weight(m, key, x)
  {
    assert (seats + [x])[..|seats|] == seats;
  }

  /** The seats of all workers, then the leaked ones. */
  function Seats(s: State): seq<Option<Seat>> {
    seq(|s.workers|, k requires 0 <= k < |s.workers| => SeatOf(s.workers[k])) + s.leaked
  }

  /** Seat `k` is taken, for index `i`. */
  predicate Sits(seats: seq<Option<Seat>>, k: nat, i: Index) {
    k < |seats| && seats[k].Some? && seats[k].value.h.index == i
  }

  ghost predicate OneSeatPerIndex(seats: seq<Option<Seat>>) {
    forall i, j, k :: Sits(seats, j, i) && Sits(seats, k, i) ==> j == k
  }

  /** Every counter is the matching sum over seats, and `open_symbols` is the set of seated indexes. */
  ghost predicate Balanced(b: Books, seats: seq<Option<Seat>>) {
    && OneSeatPerIndex(seats)
    && (forall i :: i in b.symbols <==> exists k :: Sits(seats, k, i))
    && b.deployedTotal == Sum(seats, Premiums, None)
    && b.openTotal as real == Sum(seats, Heads, None)
    && (forall i :: Money(b.deployed, i) == Sum(seats, Premiums, Some(i)))
    && (forall i :: Tally(b.openCount, i) as real == Sum(seats, Heads, Some(i)))
  }

  /** Replacing a seat moves each counter by the difference in weight. */
  lemma SumsUpdate(seats: seq<Option<Seat>>, k: nat, x: Option<Seat>)
    requires k < |seats|
    ensures forall m, key :: Sum(seats[k := x], m, key) == Sum(seats, m, key) - Weight(m, key, seats[k]) + Weight(m, key, x)
  {
    forall m, key ensures Sum(seats[k := x], m, key) == Sum(seats, m, key) - Weight(m, key, seats[k]) + Weight(m, key, x) {
      SumUpdate(seats, k, x, m, key);
    }
  }

  /** A reservation on a free index seats one more holder and keeps the counters exact. */
  lemma BalancedReserve(b: Books, seats: seq<Option<Seat>>, k: nat, r: Request, seat: Seat)
    requires Balanced(b, seats) && k < |seats| && seats[k].None?
    requires r.index !in b.symbols && seat.h.index == r.index && seat.h.premium == r.premium
    ensures Balanced(Allocator.Reserve(b, r), seats[k := Some(seat)])
  {
    var after := seats[k := Some(seat)];
    SumsUpdate(seats, k, Some(seat));
    forall i, j | Sits(after, j, i) && j != k ensures Sits(seats, j, i) && i in b.symbols {
      assert Sits(seats, j, i);
    }
    forall i ensures i in b.symbols + {r.index} <==> exists j :: Sits(after, j, i) {
      if i == r.index { assert Sits(after, k, i); }
      if i in b.symbols {
        var j :| Sits(seats, j, i);
        assert Sits(after, j, i);
      }
    }
  }

  /** Releasing a held seat by the amount it holds keeps the counters exact. */
  lemma BalancedRelease(b: Books, seats: seq<Option<Seat>>, k: nat)
    requires Balanced(b, seats) && k < |seats| && seats[k].Some?
    ensures Balanced(Allocator.Release(b, seats[k].value.h.index, seats[k].value.h.premium), seats[k := None])
  {
    var gone := seats[k].value.h.index;
    var after := seats[k := None];
    SumsUpdate(seats, k, None);
    assert Sits(seats, k, gone);
    forall i ensures i in b.symbols - {gone} <==> exists j :: Sits(after, j, i) {
      if i in b.symbols - {gone} {
        var j :| Sits(seats, j, i);
        assert Sits(after, j, i);
      }
      if j :| Sits(after, j, i) {
        assert Sits(seats, j, i);
      }
    }
    forall i, j, l | Sits(after, j, i) && Sits(after, l, i) ensures j == l {
      assert Sits(seats, j, i) && Sits(seats, l, i);
    }
  }

  /** A seat may change its `live` mark freely: the counters do not see it. */
  lemma BalancedRelabel(b: Books, seats: seq<Option<Seat>>, k: nat, live: bool)
    requires Balanced(b, seats) && k < |seats| && seats[k].Some?
    ensures Balanced(b, seats[k := Some(seats[k].value.(live := live))])
  {
    var x := Some(seats[k].value.(live := live));
    var after := seats[k := x];
    SumsUpdate(seats, k, x);
    assert forall i, j :: Sits(after, j, i) <==> Sits(seats, j, i);
  }

  /** A seat may move from a worker to the leak list: the counters do not see that either. */
  lemma BalancedMove(b: Books, seats: seq<Option<Seat>>, k: nat)
    requires Balanced(b, seats) && k < |seats| && seats[k].Some?
    ensures Balanced(b, seats[k := None] + [seats[k]])
  {
    var n := |seats|;
    var after := seats[k := None] + [seats[k]];
    SumsUpdate(seats, k, None);
    forall m, key ensures Sum(after, m, key) == Sum(seats, m, key) {
      SumAppend(seats[k := None], seats[k], m, key);
    }
    forall i, j | Sits(after, j, i) ensures Sits(seats, if j == n then k else j, i) {
    }
    forall i ensures i in b.symbols <==> exists j :: Sits(after, j, i) {
      if i in b.symbols {
        var j: nat :| Sits(seats, j, i);
        assert Sits(after, if j == k then n else j, i);
      }
    }
  }
}
