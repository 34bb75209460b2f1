/** What holds in every state of every run, for any number of workers and indexes. */
module ExecutionTheorems {
  import opened Core
  import opened Allocator
  import opened Execution
  import opened Accounting
  import opened ExecutionInvariant
  import opened ReversalFlip

  lemma InitInv(s: State)
    requires Init(s)
    ensures Inv(s)
  {
    var seats := Seats(s);
    assert forall k :: 0 <= k < |seats| ==> seats[k].None?;
    forall m, key ensures Sum(seats, m, key) == 0.0 {
      SumOfEmptySeats(seats, m, key);
    }
    assert forall k: nat, i :: !Sits(seats, k, i);
    assert forall k: nat, i, p :: !OnBooks(seats, k, i, p);
    assert forall k: nat, p :: !Runs(s, k, p);
  }

  lemma {:induction false} SumOfEmptySeats(seats: seq<Option<Seat>>, m: Measure, key: Option<Index>)
    requires forall k :: 0 <= k < |seats| ==> seats[k].None?
    ensures Sum(seats, m, key) == 0.0
  {
    if seats != [] {
      SumOfEmptySeats(seats[..|seats| - 1], m, key);
    }
  }

  // ---------------------------------------------------------------- every run

  lemma {:induction false} RunTxns(ss: seq<State>, acts: seq<Action>, j: nat)
    requires IsRun(ss, acts) && j < |ss|
    ensures AllTxnsSound(ss[j])
  {
    if j > 0 {
      RunTxns(ss, acts, j - 1);
      assert StepAt(ss, acts, j - 1);
      StepTxns(ss[j - 1], acts[j - 1]);
    }
  }

  /** Transactions, trails and names are in order in every run, flips or not. */
  lemma {:induction false} RunCoherent(ss: seq<State>, acts: seq<Action>, j: nat)
    requires IsRun(ss, acts) && j < |ss|
    ensures Coherent(ss[j])
  {
    if j == 0 {
      InitInv(ss[0]);
    } else {
      RunCoherent(ss, acts, j - 1);
      assert StepAt(ss, acts, j - 1);
      StepCoherent(ss[j - 1], acts[j - 1]);
    }
  }

  /** Every write a flip made before state `j` met its condition. */
  ghost predicate Harmless(ss: seq<State>, acts: seq<Action>, j: nat)
    requires IsRun(ss, acts) && j < |ss|
  {
    forall i :: 0 <= i < j ==> StepAt(ss, acts, i) && Meets(ss[i], acts[i])
  }

  /** The invariant holds as long as every flip write met its condition. */
  lemma {:induction false} RunInv(ss: seq<State>, acts: seq<Action>, j: nat)
    requires IsRun(ss, acts) && j < |ss| && Harmless(ss, acts, j)
    ensures Inv(ss[j])
  {
    if j == 0 {
      InitInv(ss[0]);
    } else {
      RunInv(ss, acts, j - 1);
      assert StepAt(ss, acts, j - 1);
      StepKeepsInvariantExactly(ss[j - 1], acts[j - 1]);
    }
  }

  /** The first flip write that does not meet its condition breaks the invariant there and then. */
  lemma FirstHarmBreaks(ss: seq<State>, acts: seq<Action>, j: nat)
    requires IsRun(ss, acts) && StepAt(ss, acts, j) && Harmless(ss, acts, j) && !Meets(ss[j], acts[j])
    ensures Inv(ss[j]) && !Inv(ss[j + 1])
  {
    RunInv(ss, acts, j);
    StepKeepsInvariantExactly(ss[j], acts[j]);
  }

  predicate Flipping(x: Worker) {
    (x.Gating? && x.flip) || x.FlipFound? || x.FlipLoaded? || x.FlipCleaned?
  }

  predicate NoFlipPending(s: State) {
    forall k :: 0 <= k < |s.workers| ==> !Flipping(s.workers[k])
  }

  lemma StepNoFlip(s: State, a: Action)
    requires NoFlipPending(s) && Enabled(s, a) && !(a.Begin? && a.flip)
    ensures NoFlipPending(Apply(s, a)) && Ordinary(s, a)
  {
    assert !Flipping(s.workers[a.w]);
    assert Apply(s, a).workers == s.workers[a.w := NextWorker(s, a)];
  }

  /** A run without REVERSAL_FLIP signals makes no flip write at all. */
  lemma {:induction false} FlipFreeOrdinary(ss: seq<State>, acts: seq<Action>, j: nat)
    requires IsRun(ss, acts) && FlipFree(acts) && j < |ss|
    ensures NoFlipPending(ss[j])
    ensures j < |acts| ==> Ordinary(ss[j], acts[j])
  {
    if j > 0 {
      FlipFreeOrdinary(ss, acts, j - 1);
      assert StepAt(ss, acts, j - 1);
      StepNoFlip(ss[j - 1], acts[j - 1]);
    }
    if j < |acts| {
      assert StepAt(ss, acts, j);
      StepNoFlip(ss[j], acts[j]);
    }
  }

  lemma FlipFreeIsHarmless(ss: seq<State>, acts: seq<Action>, j: nat)
    requires IsRun(ss, acts) && FlipFree(acts) && j < |ss|
    ensures Harmless(ss, acts, j)
  {
    forall i | 0 <= i < j ensures StepAt(ss, acts, i) && Meets(ss[i], acts[i]) {
      assert StepAt(ss, acts, i);
      FlipFreeOrdinary(ss, acts, i);
    }
  }

  // ---------------------------------------------------------------- mutual exclusion and conservation

  function SeatedIndexes(seats: seq<Option<Seat>>): set<Index> {
    set k | 0 <= k < |seats| && seats[k].Some? :: seats[k].value.h.index
  }

  /** With one seat per index, counting seats is counting indexes. */
  lemma {:induction false} HeadCount(seats: seq<Option<Seat>>)
    requires OneSeatPerIndex(seats)
    ensures Sum(seats, Heads, None) == |SeatedIndexes(seats)| as real
  {
    if seats != [] {
      var n := |seats| - 1;
      var front := seats[..n];
      assert forall k: nat, i :: Sits(front, k, i) ==> Sits(seats, k, i);
      HeadCount(front);
      if seats[n].Some? {
        var i := seats[n].value.h.index;
        assert Sits(seats, n, i);
        forall k: nat | k < n && seats[k].Some? ensures seats[k].value.h.index != i {
          assert Sits(seats, k, seats[k].value.h.index);
        }
        assert SeatedIndexes(seats) == SeatedIndexes(front) + {i};
      } else {
        assert SeatedIndexes(seats) == SeatedIndexes(front);
      }
    }
  }

  /** With one seat per index, an index counts once or not at all, and carries its holder's premium. */
  lemma {:induction false} IndexCount(seats: seq<Option<Seat>>, i: Index)
    requires OneSeatPerIndex(seats)
    ensures (forall k: nat :: !Sits(seats, k, i)) ==> Sum(seats, Heads, Some(i)) == 0.0 == Sum(seats, Premiums, Some(i))
    ensures forall k: nat :: Sits(seats, k, i) ==>
              Sum(seats, Heads, Some(i)) == 1.0 && Sum(seats, Premiums, Some(i)) == seats[k].value.h.premium
  {
    if seats != [] {
      var n := |seats| - 1;
      var front := seats[..n];
      assert forall k: nat, i :: Sits(front, k, i) <==> k < n && Sits(seats, k, i);
      IndexCount(front, i);
      if Sits(seats, n, i) {
        assert forall k: nat :: !Sits(front, k, i);
      }
    }
  }

  /** The open indexes and both counters per index, read off balanced books. */
  lemma BalancedIndexes(b: Books, seats: seq<Option<Seat>>)
    requires Balanced(b, seats)
    ensures b.symbols == SeatedIndexes(seats) && b.openTotal == |b.symbols|
    ensures forall i :: Tally(b.openCount, i) == if i in b.symbols then 1 else 0
    ensures forall i :: i !in b.symbols ==> Money(b.deployed, i) == 0.0
  {
    HeadCount(seats);
    forall i ensures i in b.symbols <==> i in SeatedIndexes(seats) {
      if i in b.symbols { var k: nat :| Sits(seats, k, i); }
      if i in SeatedIndexes(seats) {
        var k: nat :| k < |seats| && seats[k].Some? && seats[k].value.h.index == i;
        assert Sits(seats, k, i);
      }
    }
    forall i ensures Tally(b.openCount, i) == (if i in b.symbols then 1 else 0) && (i !in b.symbols ==> Money(b.deployed, i) == 0.0) {
      IndexCount(seats, i);
    }
  }

  /** An index carries its holder's premium. */
  lemma BalancedPremium(b: Books, seats: seq<Option<Seat>>, k: nat)
    requires Balanced(b, seats) && k < |seats| && seats[k].Some?
    ensures Money(b.deployed, seats[k].value.h.index) == seats[k].value.h.premium
  {
    assert Sits(seats, k, seats[k].value.h.index);
    IndexCount(seats, seats[k].value.h.index);
  }

  lemma WorkersApart(s: State, a: nat, b: nat)
    requires OneSeatPerIndex(Seats(s)) && a < |s.workers| && b < |s.workers|
    requires SeatOf(s.workers[a]).Some? && SeatOf(s.workers[b]).Some? && s.workers[a].h.index == s.workers[b].h.index
    ensures a == b
  {
    assert Sits(Seats(s), a, s.workers[a].h.index) && Sits(Seats(s), b, s.workers[b].h.index);
  }

  lemma HarmlessBalanced(ss: seq<State>, acts: seq<Action>, j: nat)
    requires IsRun(ss, acts) && j < |ss| && (FlipFree(acts) || Harmless(ss, acts, j))
    ensures Balanced(ss[j].books, Seats(ss[j]))
  {
    if FlipFree(acts) {
      FlipFreeIsHarmless(ss, acts, j);
    }
    RunInv(ss, acts, j);
  }

  /**
    As long as every flip write met its condition, and so in every state of a flip-free run, no two
    workers hold the same index, nor a worker and a leaked slot; `open_symbols` is exactly the set
    of held indexes, `open[total]` is its size, each index counts once, its `deployed` field is its
    holder's premium, and `deployed[total]` is the sum of all premiums held.
   */
  lemma MutualExclusionAndConservation(ss: seq<State>, acts: seq<Action>, j: nat)
    requires IsRun(ss, acts) && j < |ss| && (FlipFree(acts) || Harmless(ss, acts, j))
    ensures var s := ss[j];
            && (forall a, b | 0 <= a < |s.workers| && 0 <= b < |s.workers|
                              && SeatOf(s.workers[a]).Some? && SeatOf(s.workers[b]).Some? ::
                  s.workers[a].h.index == s.workers[b].h.index ==> a == b)
            && OneSeatPerIndex(Seats(s))
            && s.books.symbols == SeatedIndexes(Seats(s))
            && s.books.openTotal == |s.books.symbols|
            && s.books.deployedTotal == Sum(Seats(s), Premiums, None)
            && (forall i :: Tally(s.books.openCount, i) == if i in s.books.symbols then 1 else 0)
            && (forall i :: i !in s.books.symbols ==> Money(s.books.deployed, i) == 0.0)
            && (forall k :: 0 <= k < |Seats(s)| && Seats(s)[k].Some? ==>
                  Money(s.books.deployed, Seats(s)[k].value.h.index) == Seats(s)[k].value.h.premium)
  {
    HarmlessBalanced(ss, acts, j);
    var s := ss[j];
    BalancedIndexes(s.books, Seats(s));
    forall k: nat | k < |Seats(s)| && Seats(s)[k].Some?
      ensures Money(s.books.deployed, Seats(s)[k].value.h.index) == Seats(s)[k].value.h.premium
    {
      BalancedPremium(s.books, Seats(s), k);
    }
    forall a: nat, b: nat | a < |s.workers| && b < |s.workers| && SeatOf(s.workers[a]).Some? && SeatOf(s.workers[b]).Some?
                            && s.workers[a].h.index == s.workers[b].h.index
      ensures a == b
    {
      WorkersApart(s, a, b);
    }
  }

  // ---------------------------------------------------------------- the caps

  /** The risk configuration does not change during the run. */
  predicate FixedRisk(acts: seq<Action>, capital: real, maxOpen: int) {
    forall j :: 0 <= j < |acts| && acts[j].Gate? ==>
      acts[j].inputs.capital == capital && acts[j].inputs.maxConcurrent == maxOpen
  }

  /** Fills are never worth less than nothing. */
  predicate NonNegativeFills(acts: seq<Action>) {
    forall j :: 0 <= j < |acts| && acts[j].Fill? ==> acts[j].entryValue >= 0.0
  }

  predicate WithinRisk(x: Worker, capital: real, maxOpen: int) {
    && (x.Ready? || x.InTxn? || x.Queued? ==>
          x.req.premium > 0.0 && x.req.capital == capital && x.req.maxOpen == maxOpen)
    && (SeatOf(x).Some? ==> x.h.premium > 0.0)
    && (x.FlipLoaded? || x.FlipCleaned? ==> x.value >= 0.0)
  }

  ghost predicate AllWithinRisk(s: State, capital: real, maxOpen: int) {
    && s.books.deployedTotal <= capital && s.books.openTotal <= maxOpen
    && (forall p :: p in s.ledger.entryValue ==> s.ledger.entryValue[p] >= 0.0)
    && (forall k :: 0 <= k < |s.workers| ==> WithinRisk(s.workers[k], capital, maxOpen))
  }

  predicate ActsWithinRisk(a: Action, capital: real, maxOpen: int) {
    && (a.Gate? ==> a.inputs.capital == capital && a.inputs.maxConcurrent == maxOpen)
    && (a.Fill? ==> a.entryValue >= 0.0)
  }

  lemma NextWithinRisk(s: State, a: Action, capital: real, maxOpen: int)
    requires Enabled(s, a) && WithinRisk(s.workers[a.w], capital, maxOpen) && ActsWithinRisk(a, capital, maxOpen)
    requires forall p :: p in s.ledger.entryValue ==> s.ledger.entryValue[p] >= 0.0
    ensures WithinRisk(NextWorker(s, a), capital, maxOpen)
  {
  }

  lemma NextTotalsWithinRisk(s: State, a: Action, capital: real, maxOpen: int)
    requires Enabled(s, a) && WithinRisk(s.workers[a.w], capital, maxOpen)
    requires TxnSound(s.books, s.version, s.workers[a.w])
    requires s.books.deployedTotal <= capital && s.books.openTotal <= maxOpen
    ensures NextBooks(s, a).deployedTotal <= capital && NextBooks(s, a).openTotal <= maxOpen
  {
  }

  lemma StepWithinRisk(s: State, a: Action, capital: real, maxOpen: int)
    requires AllTxnsSound(s) && AllWithinRisk(s, capital, maxOpen)
    requires Enabled(s, a) && ActsWithinRisk(a, capital, maxOpen)
    ensures AllWithinRisk(Apply(s, a), capital, maxOpen)
  {
    assert WithinRisk(s.workers[a.w], capital, maxOpen);
    assert TxnSound(s.books, s.version, s.workers[a.w]);
    NextWithinRisk(s, a, capital, maxOpen);
    NextTotalsWithinRisk(s, a, capital, maxOpen);
    assert Apply(s, a).workers == s.workers[a.w := NextWorker(s, a)];
  }

  /** Under a fixed risk configuration neither the capital nor the concurrency cap is ever exceeded, in any run. */
  lemma {:induction false} CapsNeverExceeded(ss: seq<State>, acts: seq<Action>, capital: real, maxOpen: int, j: nat)
    requires IsRun(ss, acts) && FixedRisk(acts, capital, maxOpen) && NonNegativeFills(acts) && j < |ss|
    requires 0.0 <= capital && 0 <= maxOpen
    ensures AllWithinRisk(ss[j], capital, maxOpen)
    ensures ss[j].books.deployedTotal <= capital && ss[j].books.openTotal <= maxOpen
  {
    if j > 0 {
      CapsNeverExceeded(ss, acts, capital, maxOpen, j - 1);
      RunTxns(ss, acts, j - 1);
      assert StepAt(ss, acts, j - 1);
      StepWithinRisk(ss[j - 1], acts[j - 1], capital, maxOpen);
    }
  }

  // ---------------------------------------------------------------- linearizable reservation

  /** A committing EXEC is the atomic call made at that instant: same books, same verdict, caps held. */
  lemma CommitIsAtomic(ss: seq<State>, acts: seq<Action>, j: nat)
    requires IsRun(ss, acts) && StepAt(ss, acts, j) && Commits(ss[j], acts[j])
    ensures var s, x, y := ss[j], ss[j].workers[acts[j].w], ss[j + 1].workers[acts[j].w];
            && CapsHold(s.books, x.req)
            && y.Reserved? && y.h == Holding(x.pos, x.req.index, x.req.premium)
            && Atomic(s.books, x.req) == (y.verdict, ss[j + 1].books)
  {
    RunTxns(ss, acts, j);
    assert TxnSound(ss[j].books, ss[j].version, ss[j].workers[acts[j].w]);
  }

  /** Step `t` of the run is the commit behind the grant of slot `h` to worker `k`. */
  ghost predicate GrantedBy(ss: seq<State>, acts: seq<Action>, t: nat, k: nat, h: Holding)
    requires IsRun(ss, acts)
  {
    && StepAt(ss, acts, t) && acts[t].w == k && Commits(ss[t], acts[t])
    && var x := ss[t].workers[k];
       h == Holding(x.pos, x.req.index, x.req.premium) && CapsHold(ss[t].books, x.req)
  }

  /** A worker that holds a slot either held it before, or this very step committed it. */
  lemma HeldBefore(s: State, a: Action, k: nat)
    requires Enabled(s, a) && k < |s.workers| && SeatOf(Apply(s, a).workers[k]).Some?
    ensures var y := Apply(s, a).workers[k];
            || (SeatOf(s.workers[k]).Some? && s.workers[k].h == y.h && (y.Reserved? ==> s.workers[k] == y))
            || (a.w == k && Commits(s, a))
  {
  }

  /** Every slot a worker holds goes back to a commit of its own, at whose instant all caps held. */
  lemma {:induction false} HeldWasCommitted(ss: seq<State>, acts: seq<Action>, j: nat, k: nat)
    requires IsRun(ss, acts) && j < |ss| && k < |ss[j].workers| && SeatOf(ss[j].workers[k]).Some?
    ensures exists t: nat :: t < j && GrantedBy(ss, acts, t, k, ss[j].workers[k].h)
  {
    if j > 0 {
      assert StepAt(ss, acts, j - 1);
      HeldBefore(ss[j - 1], acts[j - 1], k);
      if acts[j - 1].w == k && Commits(ss[j - 1], acts[j - 1]) {
        CommitIsAtomic(ss, acts, j - 1);
        assert GrantedBy(ss, acts, j - 1, k, ss[j].workers[k].h);
      } else {
        HeldWasCommitted(ss, acts, j - 1, k);
      }
    }
  }

  /**
    A grant is linearizable: the call has committed, and verdict and books are those of the atomic
    call made at that instant.  With `CommitIsAtomic`, ok is returned exactly when an EXEC committed.
   */
  lemma {:induction false} GrantsLinearize(ss: seq<State>, acts: seq<Action>, j: nat, k: nat)
    requires IsRun(ss, acts) && j < |ss| && k < |ss[j].workers| && ss[j].workers[k].Reserved?
    ensures exists t: nat :: t < j && GrantedBy(ss, acts, t, k, ss[j].workers[k].h)
              && Atomic(ss[t].books, ss[t].workers[k].req) == (ss[j].workers[k].verdict, ss[t + 1].books)
  {
    if j > 0 {
      assert StepAt(ss, acts, j - 1);
      HeldBefore(ss[j - 1], acts[j - 1], k);
      if acts[j - 1].w == k && Commits(ss[j - 1], acts[j - 1]) {
        CommitIsAtomic(ss, acts, j - 1);
        assert GrantedBy(ss, acts, j - 1, k, ss[j].workers[k].h);
      } else {
        GrantsLinearize(ss, acts, j - 1, k);
      }
    }
  }

  /** Trails only grow along a run. */
  lemma {:induction false} TrailGrows(ss: seq<State>, acts: seq<Action>, i: nat, j: nat, p: PosId)
    requires IsRun(ss, acts) && i <= j < |ss| && p in ss[i].audit
    ensures p in ss[j].audit && ss[i].audit[p] <= ss[j].audit[p]
  {
    if i < j {
      TrailGrows(ss, acts, i, j - 1, p);
      assert StepAt(ss, acts, j - 1);
      AuditGrows(ss[j - 1], acts[j - 1], p);
    }
  }

  /** The worker is between its first WATCH and the end of the allocator call of position `p`. */
  predicate Calling(s: State, k: nat, p: PosId) {
    && k < |s.workers|
    && (s.workers[k].Ready? || s.workers[k].InTxn? || s.workers[k].Queued?) && s.workers[k].pos == p
  }

  /** A commit leaves its mark on the trail. */
  lemma CommitMarksTrail(s: State, a: Action, p: PosId)
    requires Enabled(s, a) && Commits(s, a) && s.workers[a.w].pos == p
    ensures p in Apply(s, a).audit && Apply(s, a).audit[p] != []
  {
  }

  /** A call, over all its attempts, commits at most once. */
  lemma CommitsOnce(ss: seq<State>, acts: seq<Action>, i: nat, j: nat)
    requires IsRun(ss, acts) && i <= j && StepAt(ss, acts, i) && StepAt(ss, acts, j)
    requires Commits(ss[i], acts[i]) && Commits(ss[j], acts[j])
    requires ss[i].workers[acts[i].w].pos == ss[j].workers[acts[j].w].pos
    ensures i == j
  {
    var p := ss[i].workers[acts[i].w].pos;
    if i < j {
      CommitMarksTrail(ss[i], acts[i], p);
      TrailGrows(ss, acts, i + 1, j, p);
      RunCoherent(ss, acts, j);
      assert Runs(ss[j], acts[j].w, p);
      assert false;
    }
  }

  /** A call that ends in a refusal, for whatever reason, wrote nothing from its first WATCH on. */
  lemma RefusedCallWritesNothing(ss: seq<State>, acts: seq<Action>, i: nat, j: nat, k: nat)
    requires IsRun(ss, acts) && i < j < |ss| && acts[i].w == k
    requires k < |ss[j].workers| && ss[j].workers[k].Denied? && Calling(ss[i], k, ss[j].workers[k].pos)
    ensures ss[i + 1].books == ss[i].books && ss[i + 1].version == ss[i].version
  {
    var p := ss[j].workers[k].pos;
    assert StepAt(ss, acts, i);
    if Commits(ss[i], acts[i]) {
      CommitMarksTrail(ss[i], acts[i], p);
      TrailGrows(ss, acts, i + 1, j, p);
      RunCoherent(ss, acts, j);
      assert Runs(ss[j], k, p);
      assert false;
    }
  }

  /** Worker `k` of `s` is inside the allocator call of position `p` for request `r`. */
  predicate InCall(s: State, k: nat, p: PosId, r: Request) {
    k < |s.workers| && s.workers[k].InTxn? && s.workers[k].pos == p && s.workers[k].req == r
  }

  ghost predicate SawOpen(ss: seq<State>, j: nat, k: nat, p: PosId, r: Request, n: int) {
    exists t: nat :: t <= j < |ss| && InCall(ss[t], k, p, r) && ss[t].books.openTotal == n
  }

  ghost predicate SawDeployed(ss: seq<State>, j: nat, k: nat, p: PosId, r: Request, m: real) {
    exists t: nat :: t <= j < |ss| && InCall(ss[t], k, p, r) && ss[t].books.deployedTotal == m
  }

  ghost predicate SawCapFail(ss: seq<State>, j: nat, k: nat, p: PosId, r: Request, why: Reason) {
    exists t: nat :: t <= j < |ss| && InCall(ss[t], k, p, r) && CapFails(ss[t].books, r, why)
  }

  ghost predicate SawFree(ss: seq<State>, j: nat, k: nat, p: PosId, r: Request) {
    exists t: nat :: t <= j < |ss| && InCall(ss[t], k, p, r) && r.index !in ss[t].books.symbols
  }

  /** The caps are tested in order: what a refusal names was reached only past the ones before it. */
  ghost predicate InOrder(ss: seq<State>, j: nat, k: nat, p: PosId, r: Request, v: Verdict)
    requires v.Refused?
  {
    && (v.reason.MaxConcurrentReached? || v.reason.InsufficientCapital? ==> SawFree(ss, j, k, p, r))
    && (v.reason.InsufficientCapital? ==> v.openAfter + 1 <= r.maxOpen)
  }

  /** Every value a call carries was in the store at some instant of that call. */
  ghost predicate Witnessed(ss: seq<State>, j: nat, k: nat)
    requires j < |ss| && k < |ss[j].workers|
  {
    match ss[j].workers[k]
    case InTxn(p, r, _, _, got) =>
      (match got
       case Free => SawFree(ss, j, k, p, r)
       case FreeOpen(open) => SawFree(ss, j, k, p, r) && SawOpen(ss, j, k, p, r, open)
       case FreeBoth(open, dep) =>
         SawFree(ss, j, k, p, r) && SawOpen(ss, j, k, p, r, open) && SawDeployed(ss, j, k, p, r, dep)
       case Taken => SawCapFail(ss, j, k, p, r, AlreadyOpenOnIndex)
       case TakenDeployed(dep) => SawCapFail(ss, j, k, p, r, AlreadyOpenOnIndex) && SawDeployed(ss, j, k, p, r, dep)
       case _ => true)
    case Denied(p, r, v) =>
      v.Refused? && (((v.reason.AllocatorError? || v.reason.RetryExhausted?) && v.deployedAfter == 0.0 && v.openAfter == 0)
                     || (SawCapFail(ss, j, k, p, r, v.reason) && SawOpen(ss, j, k, p, r, v.openAfter)
                         && SawDeployed(ss, j, k, p, r, v.deployedAfter) && InOrder(ss, j, k, p, r, v)))
    case _ => true
  }

  /** What was seen by `j` was seen by `j + 1`. */
  lemma SeenStays(ss: seq<State>, j: nat, k: nat, p: PosId, r: Request)
    requires j + 1 < |ss|
    ensures forall n :: SawOpen(ss, j, k, p, r, n) ==> SawOpen(ss, j + 1, k, p, r, n)
    ensures forall m :: SawDeployed(ss, j, k, p, r, m) ==> SawDeployed(ss, j + 1, k, p, r, m)
    ensures forall why :: SawCapFail(ss, j, k, p, r, why) ==> SawCapFail(ss, j + 1, k, p, r, why)
    ensures SawFree(ss, j, k, p, r) ==> SawFree(ss, j + 1, k, p, r)
  {
  }

  /** A call sees the store as it is at the instant of each read. */
  lemma SeesNow(ss: seq<State>, j: nat, k: nat, p: PosId, r: Request)
    requires j + 1 < |ss| && InCall(ss[j], k, p, r)
    ensures SawOpen(ss, j + 1, k, p, r, ss[j].books.openTotal)
    ensures SawDeployed(ss, j + 1, k, p, r, ss[j].books.deployedTotal)
    ensures forall why :: CapFails(ss[j].books, r, why) ==> SawCapFail(ss, j + 1, k, p, r, why)
    ensures r.index !in ss[j].books.symbols ==> SawFree(ss, j + 1, k, p, r)
  {
  }

  /** A refusal decided on read values is a cap that failed when they were read. */
  lemma SeenValuesFail(ss: seq<State>, j: nat, k: nat, p: PosId, r: Request)
    ensures forall n :: SawOpen(ss, j, k, p, r, n) && n + 1 > r.maxOpen ==> SawCapFail(ss, j, k, p, r, MaxConcurrentReached)
    ensures forall m :: SawDeployed(ss, j, k, p, r, m) && m + r.premium > r.capital ==> SawCapFail(ss, j, k, p, r, InsufficientCapital)
  {
    forall n | SawOpen(ss, j, k, p, r, n) && n + 1 > r.maxOpen ensures SawCapFail(ss, j, k, p, r, MaxConcurrentReached) {
      var t: nat :| t <= j < |ss| && InCall(ss[t], k, p, r) && ss[t].books.openTotal == n;
      assert CapFails(ss[t].books, r, MaxConcurrentReached);
    }
    forall m | SawDeployed(ss, j, k, p, r, m) && m + r.premium > r.capital ensures SawCapFail(ss, j, k, p, r, InsufficientCapital) {
      var t: nat :| t <= j < |ss| && InCall(ss[t], k, p, r) && ss[t].books.deployedTotal == m;
      assert CapFails(ss[t].books, r, InsufficientCapital);
    }
  }

  /** A worker that does not move keeps its witnesses. */
  lemma WitnessKept(ss: seq<State>, j: nat, k: nat)
    requires j + 1 < |ss| && k < |ss[j].workers| && k < |ss[j + 1].workers| && ss[j + 1].workers[k] == ss[j].workers[k]
    requires Witnessed(ss, j, k)
    ensures Witnessed(ss, j + 1, k)
  {
    var x := ss[j].workers[k];
    if x.InTxn? || x.Denied? {
      SeenStays(ss, j, k, x.pos, x.req);
    }
  }

  /** A worker inside the call moves with what it sees now. */
  lemma WitnessMove(ss: seq<State>, acts: seq<Action>, j: nat)
    requires StepAt(ss, acts, j) && ss[j].workers[acts[j].w].InTxn? && Witnessed(ss, j, acts[j].w)
    ensures acts[j].w < |ss[j + 1].workers| && Witnessed(ss, j + 1, acts[j].w)
  {
    var k := acts[j].w;
    var x := ss[j].workers[k];
    SeenStays(ss, j, k, x.pos, x.req);
    assert InCall(ss[j], k, x.pos, x.req);
    SeesNow(ss, j, k, x.pos, x.req);
    SeenValuesFail(ss, j + 1, k, x.pos, x.req);
  }

  lemma WitnessStep(ss: seq<State>, acts: seq<Action>, j: nat, k: nat)
    requires IsRun(ss, acts) && j < |acts|
    requires k < |ss[j].workers| && Witnessed(ss, j, k)
    ensures k < |ss[j + 1].workers| && Witnessed(ss, j + 1, k)
  {
    assert StepAt(ss, acts, j);
    assert ss[j + 1].workers == ss[j].workers[acts[j].w := NextWorker(ss[j], acts[j])];
    if acts[j].w != k {
      WitnessKept(ss, j, k);
    } else if ss[j].workers[k].InTxn? {
      WitnessMove(ss, acts, j);
    }
  }

  lemma {:induction false} AllWitnessed(ss: seq<State>, acts: seq<Action>, j: nat, k: nat)
    requires IsRun(ss, acts) && j < |ss| && k < |ss[j].workers|
    ensures Witnessed(ss, j, k)
  {
    if j > 0 {
      RunTxns(ss, acts, j - 1);
      assert StepAt(ss, acts, j - 1);
      assert |ss[j].workers| == |ss[j - 1].workers|;
      AllWitnessed(ss, acts, j - 1, k);
      WitnessStep(ss, acts, j - 1, k);
    }
  }

  /**
    A refusal is linearizable too: the cap it names failed at an instant inside the call, where the
    atomic call would have refused as well, and the totals it returns were read inside the call.
    The caps before the one named had been found to hold inside the call.
   */
  lemma RefusalsLinearize(ss: seq<State>, acts: seq<Action>, j: nat, k: nat)
    requires IsRun(ss, acts) && j < |ss| && k < |ss[j].workers|
    requires ss[j].workers[k].Denied?
    ensures var Denied(p, r, v) := ss[j].workers[k];
            && v.Refused?
            && (v.reason == AllocatorError || v.reason == RetryExhausted ==> v.deployedAfter == 0.0 && v.openAfter == 0)
            && (v.reason != AllocatorError && v.reason != RetryExhausted ==>
                  && (exists t: nat :: t <= j && InCall(ss[t], k, p, r) && CapFails(ss[t].books, r, v.reason)
                                       && Atomic(ss[t].books, r).0.Refused?)
                  && SawOpen(ss, j, k, p, r, v.openAfter)
                  && SawDeployed(ss, j, k, p, r, v.deployedAfter)
                  && InOrder(ss, j, k, p, r, v))
  {
    AllWitnessed(ss, acts, j, k);
    var Denied(p, r, v) := ss[j].workers[k];
    if v.reason != AllocatorError && v.reason != RetryExhausted {
      var t: nat :| t <= j < |ss| && InCall(ss[t], k, p, r) && CapFails(ss[t].books, r, v.reason);
      assert Atomic(ss[t].books, r).0.Refused?;
    }
  }

  // ---------------------------------------------------------------- retries

  predicate CallBegins(s: State, k: nat, p: PosId) {
    k < |s.workers| && s.workers[k].Ready? && s.workers[k].pos == p && s.workers[k].attempt == 0
  }

  /** The watched keys were written at least `n` times between the start of the call and version `v`. */
  ghost predicate Outpaced(ss: seq<State>, j: nat, k: nat, p: PosId, n: nat, v: nat) {
    exists t: nat :: t <= j < |ss| && CallBegins(ss[t], k, p) && ss[t].version + n <= v
  }

  /** Each attempt used up stands for a write that came in between. */
  ghost predicate Contended(ss: seq<State>, j: nat, k: nat)
    requires j < |ss| && k < |ss[j].workers|
  {
    var spent := Spent(ss[j], ss[j].workers[k]);
    spent.Some? ==> Outpaced(ss, j, k, spent.value.0, spent.value.1, spent.value.2)
  }

  lemma OutpacedLater(ss: seq<State>, j: nat, k: nat, p: PosId, n: nat, v: nat, n': nat, v': nat)
    requires Outpaced(ss, j, k, p, n, v) && j + 1 < |ss| && n' + v <= n + v'
    ensures Outpaced(ss, j + 1, k, p, n', v')
  {
    var t: nat :| t <= j < |ss| && CallBegins(ss[t], k, p) && ss[t].version + n <= v;
    assert CallBegins(ss[t], k, p);
  }

  /** The attempts used up, and the version they are measured against. */
  function Spent(s: State, x: Worker): Option<(PosId, nat, nat)> {
    match x
    case Ready(p, _, n) => Some((p, n, s.version))
    case InTxn(p, _, n, seen, _) => Some((p, n, seen))
    case Queued(p, _, n, seen, _, _) => Some((p, n, seen))
    case Denied(p, _, Refused(RetryExhausted, _, _)) => Some((p, MAX_ATTEMPTS, s.version))
    case _ => None
  }

  /** An attempt more is spent only on a version gone by. */
  lemma SpentStep(s: State, a: Action, k: nat)
    requires Enabled(s, a) && k < |s.workers| && TxnSound(s.books, s.version, s.workers[k])
    ensures var t := Apply(s, a);
            var was, now := Spent(s, s.workers[k]), Spent(t, t.workers[k]);
            now.Some? ==>
              if was.None? then CallBegins(t, k, now.value.0)
              else now.value.0 == was.value.0 && now.value.1 + was.value.2 <= was.value.1 + now.value.2
  {
  }

  lemma ContendedStep(ss: seq<State>, acts: seq<Action>, j: nat, k: nat)
    requires StepAt(ss, acts, j) && k < |ss[j].workers| == |ss[j + 1].workers|
    requires TxnSound(ss[j].books, ss[j].version, ss[j].workers[k]) && Contended(ss, j, k)
    ensures Contended(ss, j + 1, k)
  {
    SpentStep(ss[j], acts[j], k);
    var was, now := Spent(ss[j], ss[j].workers[k]), Spent(ss[j + 1], ss[j + 1].workers[k]);
    if was.Some? && now.Some? {
      OutpacedLater(ss, j, k, was.value.0, was.value.1, was.value.2, now.value.1, now.value.2);
    }
  }

  lemma {:induction false} AllContended(ss: seq<State>, acts: seq<Action>, j: nat, k: nat)
    requires IsRun(ss, acts) && j < |ss| && k < |ss[j].workers|
    ensures Contended(ss, j, k)
  {
    if j > 0 {
      RunTxns(ss, acts, j - 1);
      assert StepAt(ss, acts, j - 1);
      assert |ss[j].workers| == |ss[j - 1].workers|;
      AllContended(ss, acts, j - 1, k);
      ContendedStep(ss, acts, j - 1, k);
    }
  }

  /** A call makes five attempts and no more. */
  lemma {:induction false} FiveAttempts(ss: seq<State>, acts: seq<Action>, j: nat, k: nat)
    requires IsRun(ss, acts) && j < |ss| && k < |ss[j].workers|
    ensures var x := ss[j].workers[k]; x.Ready? || x.InTxn? || x.Queued? ==> x.attempt < 5
  {
    if j > 0 {
      assert StepAt(ss, acts, j - 1);
      assert |ss[j].workers| == |ss[j - 1].workers|;
      FiveAttempts(ss, acts, j - 1, k);
      AttemptStep(ss[j - 1], acts[j - 1], k);
    }
  }

  lemma AttemptStep(s: State, a: Action, k: nat)
    requires Enabled(s, a) && k < |s.workers|
    requires var x := s.workers[k]; x.Ready? || x.InTxn? || x.Queued? ==> x.attempt < 5
    ensures var y := Apply(s, a).workers[k]; y.Ready? || y.InTxn? || y.Queued? ==> y.attempt < 5
  {
  }

  /** A call gives up only after at least five committed writes landed inside it: someone else made progress each time. */
  lemma ExhaustionMeansFiveConflicts(ss: seq<State>, acts: seq<Action>, j: nat, k: nat)
    requires IsRun(ss, acts) && j < |ss| && k < |ss[j].workers|
    requires ss[j].workers[k].Denied? && ss[j].workers[k].verdict.Refused? && ss[j].workers[k].verdict.reason.RetryExhausted?
    ensures exists t: nat :: t <= j && CallBegins(ss[t], k, ss[j].workers[k].pos) && ss[t].version + 5 <= ss[j].version
  {
    AllContended(ss, acts, j, k);
  }

  // ---------------------------------------------------------------- lifecycles and position keys

  /** Letters of a finished word: a reserve for every release, and one final record. */
  lemma FinishedWordCounts(word: seq<Effect>)
    requires Finished(word)
    ensures multiset(word)[Reject] + multiset(word)[Report] == 1
    ensures forall i, m :: multiset(word)[Reserve(i, m)] == multiset(word)[Release(i, m)] <= 1
    ensures multiset(word)[Open] == multiset(word)[Close] == multiset(word)[Report]
  {
    if |word| == 3 {
      assert multiset(word) == multiset{word[0], Reject, Release(word[0].index, word[0].premium)};
    } else if |word| == 5 {
      assert multiset(word) == multiset{word[0], Open, Report, Close, Release(word[0].index, word[0].premium)};
    } else {
      assert multiset(word) == multiset{Reject};
    }
  }

  /**
    Every lifecycle ever started is still running, was cut short by an exception, or is complete;
    a complete one released exactly what it reserved, once, and left exactly one of a rejection
    record and a report.  This is about what a lifecycle does in its own name, in any run.
   */
  lemma LifecyclesComplete(ss: seq<State>, acts: seq<Action>, j: nat, p: PosId)
    requires IsRun(ss, acts) && j < |ss| && p in ss[j].audit
    ensures var word := ss[j].audit[p];
            || (exists k: nat :: Runs(ss[j], k, p))
            || Crash in word
            || (Finished(word)
                && multiset(word)[Reject] + multiset(word)[Report] == 1
                && forall i, m :: multiset(word)[Reserve(i, m)] == multiset(word)[Release(i, m)] <= 1)
  {
    RunCoherent(ss, acts, j);
    if Finished(ss[j].audit[p]) {
      FinishedWordCounts(ss[j].audit[p]);
    }
  }

  lemma KeysAgree(l: Ledger, b: Books, seats: seq<Option<Seat>>, i: Index)
    requires Balanced(b, seats) && LedgerMatches(l, seats)
    ensures match Pointer(l, i)
            case None => ByIndex(l, i) == {}
            case Some(p) => ByIndex(l, i) == {p} && p in l.open && i in b.symbols
  {
    forall p | p in ByIndex(l, i) ensures Pointer(l, i) == Some(p) {
    }
    if Pointer(l, i).Some? {
      var p := l.pointer[i];
      var k: nat :| OnBooks(seats, k, i, p);
      assert Sits(seats, k, i);
      assert p in ByIndex(l, i);
      assert ByIndex(l, i) == {p};
    }
  }

  /**
    Open and closed positions stay apart; an index has no position, an empty set and an empty
    pointer, or one position that the set, the pointer and `positions:open` all name.
   */
  lemma PositionKeysAgree(ss: seq<State>, acts: seq<Action>, j: nat, i: Index)
    requires IsRun(ss, acts) && j < |ss| && (FlipFree(acts) || Harmless(ss, acts, j))
    ensures var l := ss[j].ledger;
            && l.open !! l.closedToday
            && (match Pointer(l, i)
                case None => ByIndex(l, i) == {}
                case Some(p) => ByIndex(l, i) == {p} && p in l.open && i in ss[j].books.symbols)
  {
    if FlipFree(acts) {
      FlipFreeIsHarmless(ss, acts, j);
    }
    RunInv(ss, acts, j);
    KeysAgree(ss[j].ledger, ss[j].books, Seats(ss[j]), i);
  }

  // ---------------------------------------------------------------- leaks

  /** This step is a flip giving back the slot of `p`. */
  predicate GivesBack(s: State, a: Action, p: PosId) {
    Enabled(s, a) && a.FlipRelease? && s.workers[a.w].prior == p
  }

  lemma LeakKept(s: State, a: Action, m: nat)
    requires Enabled(s, a) && m < |s.leaked| && s.leaked[m].Some? && !GivesBack(s, a, s.leaked[m].value.h.pos)
    ensures m < |NextLeaked(s, a)| && NextLeaked(s, a)[m].Some? && NextLeaked(s, a)[m].value.h == s.leaked[m].value.h
  {
  }

  /** In any run a leaked slot stays listed until a flip gives it back. */
  lemma {:induction false} LeakStaysListed(ss: seq<State>, acts: seq<Action>, j: nat, m: nat, later: nat)
    requires IsRun(ss, acts) && j <= later < |ss| && m < |ss[j].leaked| && ss[j].leaked[m].Some?
    requires forall t :: j <= t < later ==> !GivesBack(ss[t], acts[t], ss[j].leaked[m].value.h.pos)
    ensures m < |ss[later].leaked| && ss[later].leaked[m].Some?
    ensures ss[later].leaked[m].value.h == ss[j].leaked[m].value.h
  {
    if j < later {
      LeakStaysListed(ss, acts, j, m, later - 1);
      assert StepAt(ss, acts, later - 1);
      assert !GivesBack(ss[later - 1], acts[later - 1], ss[j].leaked[m].value.h.pos);
      LeakKept(ss[later - 1], acts[later - 1], m);
    }
  }

  /** A leaked seat takes its index, at its own premium. */
  lemma LeakTakesIndex(b: Books, s: State, m: nat)
    requires Balanced(b, Seats(s)) && m < |s.leaked| && s.leaked[m].Some?
    ensures var h := s.leaked[m].value.h; h.index in b.symbols && Money(b.deployed, h.index) == h.premium
  {
    var k := |s.workers| + m;
    assert Seats(s)[k] == s.leaked[m];
    assert Sits(Seats(s), k, s.leaked[m].value.h.index);
    BalancedPremium(b, Seats(s), k);
  }

  lemma CommitNeedsFreeIndex(ss: seq<State>, acts: seq<Action>, j: nat)
    requires IsRun(ss, acts) && StepAt(ss, acts, j) && Commits(ss[j], acts[j])
    ensures ss[j].workers[acts[j].w].req.index !in ss[j].books.symbols
  {
    CommitIsAtomic(ss, acts, j);
  }

  /** Slot `h` is accounted for at state `j`, and a commit there is on another index. */
  ghost predicate Blocked(ss: seq<State>, acts: seq<Action>, j: nat, h: Holding)
    requires j < |ss|
  {
    && h.index in ss[j].books.symbols && Money(ss[j].books.deployed, h.index) == h.premium
    && (StepAt(ss, acts, j) && Commits(ss[j], acts[j]) ==> ss[j].workers[acts[j].w].req.index != h.index)
  }

  /**
    A slot lost to an exception stays taken at its premium, and no reservation on its index commits,
    until a flip gives it back; every flip write so far having met its condition.
   */
  lemma LeakedIndexStaysBlocked(ss: seq<State>, acts: seq<Action>, j: nat, m: nat, later: nat)
    requires IsRun(ss, acts) && j <= later < |ss| && Harmless(ss, acts, later)
    requires m < |ss[j].leaked| && ss[j].leaked[m].Some?
    requires forall t :: j <= t < later ==> !GivesBack(ss[t], acts[t], ss[j].leaked[m].value.h.pos)
    ensures Blocked(ss, acts, later, ss[j].leaked[m].value.h)
  {
    LeakStaysListed(ss, acts, j, m, later);
    HarmlessBalanced(ss, acts, later);
    LeakTakesIndex(ss[later].books, ss[later], m);
    if StepAt(ss, acts, later) && Commits(ss[later], acts[later]) {
      CommitNeedsFreeIndex(ss, acts, later);
    }
  }

  /** Without flips nothing ever gives it back: the index is blocked for the rest of the run. */
  lemma FlipFreeLeakIsForever(ss: seq<State>, acts: seq<Action>, j: nat, m: nat, later: nat)
    requires IsRun(ss, acts) && FlipFree(acts) && j <= later < |ss|
    requires m < |ss[j].leaked| && ss[j].leaked[m].Some?
    ensures Blocked(ss, acts, later, ss[j].leaked[m].value.h)
  {
    FlipFreeIsHarmless(ss, acts, later);
    forall t | j <= t < later ensures !GivesBack(ss[t], acts[t], ss[j].leaked[m].value.h.pos) {
      FlipFreeOrdinary(ss, acts, t);
    }
    LeakedIndexStaysBlocked(ss, acts, j, m, later);
  }
}
