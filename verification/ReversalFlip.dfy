/**
  The two writes a REVERSAL_FLIP makes on behalf of another position: exactly when they keep the
  pool's invariant, and runs where they do not.
 */
module ReversalFlip {
  import opened Core
  import opened Allocator
  import opened Execution
  import opened Accounting
  import opened ExecutionInvariant

  /** Nothing is open on the index but `prior`, and no thread manages `prior` any more. */
  ghost predicate OnlyOrphan(s: State, i: Index, prior: PosId) {
    forall k: nat, p :: OnBooks(Seats(s), k, i, p) ==> k >= |s.workers| && p == prior
  }

  /** `prior` is off the books, its leaked slot is not given back yet, and `amount` is what it reserved. */
  predicate OrphanAtCost(s: State, i: Index, prior: PosId, amount: real) {
    exists m :: 0 <= m < |s.leaked| && s.leaked[m] == Some(Seat(Holding(prior, i, amount), false))
  }

  /** The condition of a flip's cleanup and of its release; any other step is free of it. */
  ghost predicate Meets(s: State, a: Action)
    requires Enabled(s, a)
  {
    var x := s.workers[a.w];
    && (a.FlipCleanup? ==> OnlyOrphan(s, x.index, x.prior))
    && (a.FlipRelease? ==> OrphanAtCost(s, x.index, x.prior, x.value))
  }

  // ---------------------------------------------------------------- seats

  /** A flip's write touches only leaked slots of the prior position. */
  lemma SeatSettled(s: State, a: Action, j: nat)
    requires Enabled(s, a) && (a.FlipCleanup? || a.FlipRelease?) && j < |Seats(s)|
    ensures |Seats(Apply(s, a))| == |Seats(s)|
    ensures Seats(Apply(s, a))[j] ==
              var seat := Seats(s)[j];
              if j < |s.workers| || seat.None? || seat.value.h.pos != s.workers[a.w].prior then seat
              else if a.FlipRelease? then None
              else Some(seat.value.(live := false))
  {
    var n, t := |s.workers|, Apply(s, a);
    if j < n {
      assert Seats(t)[j] == SeatOf(t.workers[j]) && Seats(s)[j] == SeatOf(s.workers[j]);
    } else {
      assert Seats(t)[j] == t.leaked[j - n] && Seats(s)[j] == s.leaked[j - n];
    }
  }

  /** A seat of the position a flip has in hand is on the flip's index. */
  lemma SeatOfPrior(s: State, w: nat, j: nat)
    requires AuditMatches(s) && Traced(s) && w < |s.workers|
    requires s.workers[w].FlipLoaded? || s.workers[w].FlipCleaned?
    requires j < |Seats(s)| && Seats(s)[j].Some? && Seats(s)[j].value.h.pos == s.workers[w].prior
    ensures Seats(s)[j].value.h.index == s.workers[w].index
  {
    var n, x := |s.workers|, s.workers[w];
    assert FlipHas(s.workers[w], x.index, x.prior);
    assert OpenedOn(s.audit, x.prior, x.index);
    if j < n {
      assert Seats(s)[j] == SeatOf(s.workers[j]);
      assert Runs(s, j, x.prior);
    } else {
      assert Seats(s)[j] == s.leaked[j - n];
      assert LeakKnown(s.audit, s.leaked[j - n].value.h);
    }
  }

  /** The seat of an orphan: the only one it has, and after the flip's write the only one changed. */
  lemma OrphanSettled(s: State, a: Action, o: nat)
    requires OneSeatPerIndex(Seats(s)) && AuditMatches(s) && Enabled(s, a) && (a.FlipCleanup? || a.FlipRelease?)
    requires |s.workers| <= o < |Seats(s)| && Seats(s)[o].Some? && Seats(s)[o].value.h.pos == s.workers[a.w].prior
    ensures forall j :: 0 <= j < |Seats(s)| && Seats(s)[j].Some? && Seats(s)[j].value.h.pos == s.workers[a.w].prior ==> j == o
    ensures Seats(Apply(s, a)) ==
              Seats(s)[o := if a.FlipRelease? then None else Some(Seats(s)[o].value.(live := false))]
  {
    forall j | 0 <= j < |Seats(s)| && Seats(s)[j].Some? && Seats(s)[j].value.h.pos == s.workers[a.w].prior ensures j == o {
      UniqueSeat(s, j, o);
    }
    SeatSettled(s, a, o);
    forall j | 0 <= j < |Seats(s)| && j != o ensures Seats(Apply(s, a))[j] == Seats(s)[j] {
      SeatSettled(s, a, j);
    }
  }

  // ---------------------------------------------------------------- the flip's cleanup

  /** Closing a position that is not open, on an index with nothing open, leaves the keys right. */
  lemma LedgerIdleClose(l: Ledger, seats: seq<Option<Seat>>, prior: PosId, i: Index)
    requires LedgerMatches(l, seats) && prior !in l.open
    requires forall k: nat, p :: !OnBooks(seats, k, i, p)
    ensures LedgerMatches(ClosePosition(l, prior, i), seats)
  {
    var l' := ClosePosition(l, prior, i);
    assert l'.open == l.open && l'.entryValue.Keys == l.entryValue.Keys;
    assert forall j, p :: p in ByIndex(l, j) && j == i ==> exists k :: OnBooks(seats, k, i, p);
    forall j ensures ByIndex(l', j) == ByIndex(l, j) && Pointer(l', j) == Pointer(l, j) {
    }
  }

  lemma IdleCleanup(s: State, a: Action)
    requires Inv(s) && Enabled(s, a) && a.FlipCleanup?
    requires forall k: nat, p :: !OnBooks(Seats(s), k, s.workers[a.w].index, p)
    ensures Seats(Apply(s, a)) == Seats(s) && LedgerMatches(NextLedger(s, a), Seats(s))
  {
    var x, seats := s.workers[a.w], Seats(s);
    forall j: nat | j < |seats| ensures Seats(Apply(s, a))[j] == seats[j] {
      SeatSettled(s, a, j);
      if seats[j].Some? && seats[j].value.h.pos == x.prior {
        SeatOfPrior(s, a.w, j);
        assert !OnBooks(seats, j, x.index, x.prior);
      }
    }
    if x.prior in s.ledger.open {
      var j: nat, i :| OnBooks(seats, j, i, x.prior);
      SeatOfPrior(s, a.w, j);
    }
    assert |Seats(Apply(s, a))| == |seats|;
    LedgerIdleClose(s.ledger, seats, x.prior, x.index);
  }

  lemma OrphanCleanup(s: State, a: Action, o: nat)
    requires Inv(s) && Enabled(s, a) && a.FlipCleanup? && o >= |s.workers|
    requires OnBooks(Seats(s), o, s.workers[a.w].index, s.workers[a.w].prior)
    ensures Balanced(s.books, Seats(Apply(s, a))) && LedgerMatches(NextLedger(s, a), Seats(Apply(s, a)))
  {
    OrphanSettled(s, a, o);
    BalancedRelabel(s.books, Seats(s), o, false);
    LedgerClose(s.ledger, Seats(s), o, Some(Seats(s)[o].value.(live := false)));
  }

  lemma CleanupKeeps(s: State, a: Action)
    requires Inv(s) && Enabled(s, a) && a.FlipCleanup? && Meets(s, a)
    ensures Inv(Apply(s, a))
  {
    var i := s.workers[a.w].index;
    if o: nat, p :| OnBooks(Seats(s), o, i, p) {
      OrphanCleanup(s, a, o);
    } else {
      IdleCleanup(s, a);
    }
    StepCoherent(s, a);
  }

  /** Cleaning up under a thread that still manages the position, or over a newer position, breaks the keys. */
  lemma CleanupBreaks(s: State, a: Action)
    requires Enabled(s, a) && a.FlipCleanup? && !Meets(s, a)
    ensures !LedgerMatches(NextLedger(s, a), Seats(Apply(s, a)))
  {
    var x := s.workers[a.w];
    var k: nat, p :| OnBooks(Seats(s), k, x.index, p) && !(k >= |s.workers| && p == x.prior);
    SeatSettled(s, a, k);
    assert OnBooks(Seats(Apply(s, a)), k, x.index, p);
    assert Pointer(NextLedger(s, a), x.index) != Some(p);
  }

  // ---------------------------------------------------------------- the flip's release

  /** Giving back a slot of a closed position at its own amount. */
  lemma ReleaseRecovers(b: Books, l: Ledger, seats: seq<Option<Seat>>, o: nat, h: Holding)
    requires Balanced(b, seats) && LedgerMatches(l, seats) && o < |seats| && seats[o] == Some(Seat(h, false))
    ensures Balanced(Allocator.Release(b, h.index, h.premium), seats[o := None]) && LedgerMatches(l, seats[o := None])
  {
    BalancedRelease(b, seats, o);
    LedgerUntouched(l, seats, o, None);
  }

  lemma ReleaseKeeps(s: State, a: Action)
    requires Inv(s) && Enabled(s, a) && a.FlipRelease? && Meets(s, a)
    ensures Inv(Apply(s, a))
  {
    var x, n := s.workers[a.w], |s.workers|;
    var h := Holding(x.prior, x.index, x.value);
    var m :| 0 <= m < |s.leaked| && s.leaked[m] == Some(Seat(h, false));
    assert Seats(s)[n + m] == s.leaked[m];
    OrphanSettled(s, a, n + m);
    ReleaseRecovers(s.books, s.ledger, Seats(s), n + m, h);
    StepCoherent(s, a);
  }

  /** A release cannot balance while the holder stays seated. */
  lemma UnbalancedWhileSeated(b: Books, seats: seq<Option<Seat>>, i: Index, amount: real)
    requires Balanced(b, seats)
    ensures !Balanced(Allocator.Release(b, i, amount), seats)
  {
  }

  /** Nor if another amount is given back than was reserved. */
  lemma UnbalancedAtOtherAmount(b: Books, seats: seq<Option<Seat>>, o: nat, i: Index, amount: real)
    requires Balanced(b, seats) && o < |seats| && seats[o].Some? && seats[o].value.h.premium != amount
    ensures !Balanced(Allocator.Release(b, i, amount), seats[o := None])
  {
    SumUpdate(seats, o, None, Premiums, None);
  }

  /** Nothing leaked for the prior position: its slot is held by a thread, or was given back before. */
  lemma ReleaseWithoutSlot(s: State, a: Action)
    requires Balanced(s.books, Seats(s)) && Enabled(s, a) && a.FlipRelease?
    requires forall j :: |s.workers| <= j < |Seats(s)| && Seats(s)[j].Some? ==> Seats(s)[j].value.h.pos != s.workers[a.w].prior
    ensures !Balanced(NextBooks(s, a), Seats(Apply(s, a)))
  {
    forall j: nat | j < |Seats(s)| ensures Seats(Apply(s, a))[j] == Seats(s)[j] {
      SeatSettled(s, a, j);
    }
    SeatSettledLength(s, a);
    assert Seats(Apply(s, a)) == Seats(s);
    UnbalancedWhileSeated(s.books, Seats(s), s.workers[a.w].index, s.workers[a.w].value);
  }

  lemma SeatSettledLength(s: State, a: Action)
    requires Enabled(s, a) && (a.FlipCleanup? || a.FlipRelease?)
    ensures |Seats(Apply(s, a))| == |Seats(s)|
  {
  }

  /** A leaked slot at another amount, or of a position still on the books. */
  lemma OtherSlotBreaks(b: Books, l: Ledger, seats: seq<Option<Seat>>, o: nat, i: Index, amount: real)
    requires Balanced(b, seats) && LedgerMatches(l, seats)
    requires o < |seats| && seats[o].Some? && (seats[o].value.h.premium != amount || seats[o].value.live)
    requires forall j :: 0 <= j < |seats| && seats[j].Some? && seats[j].value.h.pos == seats[o].value.h.pos ==> j == o
    ensures !Balanced(Allocator.Release(b, i, amount), seats[o := None]) || !LedgerMatches(l, seats[o := None])
  {
    if seats[o].value.h.premium != amount {
      UnbalancedAtOtherAmount(b, seats, o, i, amount);
    } else {
      OrphanStillOpen(l, seats, o);
    }
  }

  lemma ReleaseOfOtherSlot(s: State, a: Action, o: nat)
    requires Inv(s) && Enabled(s, a) && a.FlipRelease? && !Meets(s, a)
    requires |s.workers| <= o < |Seats(s)| && Seats(s)[o].Some? && Seats(s)[o].value.h.pos == s.workers[a.w].prior
    ensures !Balanced(NextBooks(s, a), Seats(Apply(s, a))) || !LedgerMatches(NextLedger(s, a), Seats(Apply(s, a)))
  {
    var x := s.workers[a.w];
    OrphanSettled(s, a, o);
    SeatOfPrior(s, a.w, o);
    assert s.leaked[o - |s.workers|] == Seats(s)[o];
    OtherSlotBreaks(s.books, s.ledger, Seats(s), o, x.index, x.value);
  }

  lemma OrphanStillOpen(l: Ledger, seats: seq<Option<Seat>>, o: nat)
    requires LedgerMatches(l, seats) && o < |seats| && seats[o].Some? && seats[o].value.live
    requires forall j :: 0 <= j < |seats| && seats[j].Some? && seats[j].value.h.pos == seats[o].value.h.pos ==> j == o
    ensures !LedgerMatches(l, seats[o := None])
  {
    var h, after := seats[o].value.h, seats[o := None];
    assert OnBooks(seats, o, h.index, h.pos);
    assert forall k: nat, i :: !OnBooks(after, k, i, h.pos);
    assert h.pos in l.open;
  }

  lemma ReleaseBreaks(s: State, a: Action)
    requires Inv(s) && Enabled(s, a) && a.FlipRelease? && !Meets(s, a)
    ensures !Inv(Apply(s, a))
  {
    if o :| |s.workers| <= o < |Seats(s)| && Seats(s)[o].Some? && Seats(s)[o].value.h.pos == s.workers[a.w].prior {
      ReleaseOfOtherSlot(s, a, o);
    } else {
      ReleaseWithoutSlot(s, a);
    }
  }

  /**
    The exact condition for every step: a flip's cleanup keeps the invariant if and only if nothing
    but an unmanaged `prior` is open on the index, a flip's release if and only if the slot of
    `prior` is still leaked at exactly that amount, and any other step always.
   */
  lemma StepKeepsInvariantExactly(s: State, a: Action)
    requires Inv(s) && Enabled(s, a)
    ensures Inv(Apply(s, a)) <==> Meets(s, a)
  {
    if a.FlipCleanup? {
      if Meets(s, a) { CleanupKeeps(s, a); } else { CleanupBreaks(s, a); }
    } else if a.FlipRelease? {
      if Meets(s, a) { ReleaseKeeps(s, a); } else { ReleaseBreaks(s, a); }
    } else {
      StepInv(s, a);
    }
  }

  // ---------------------------------------------------------------- a run where two threads trade one index

  lemma Extend(ss: seq<State>, acts: seq<Action>, a: Action) returns (ss': seq<State>, acts': seq<Action>)
    requires IsRun(ss, acts) && Enabled(ss[|acts|], a)
    ensures IsRun(ss', acts') && acts' == acts + [a] && ss'[|acts'|] == Apply(ss[|acts|], a)
  {
    ss', acts' := ss + [Apply(ss[|acts|], a)], acts + [a];
    forall j | 0 <= j < |acts'| ensures StepAt(ss', acts', j) {
      if j < |acts| {
        assert StepAt(ss, acts, j);
        assert acts'[j] == acts[j];
        assert ss'[j] == ss[j];
        assert ss'[j + 1] == ss[j + 1];
      }
    }
  }

  /** Only worker `k` has moved, and neither the store nor anything but its trail has changed. */
  ghost predicate OnlyMoved(s: State, t: State, k: nat, x: Worker) {
    && k < |s.workers| && t.workers == s.workers[k := x]
    && t.books == s.books && t.version == s.version && t.ledger == s.ledger && t.leaked == s.leaked && t.audit == s.audit
  }

  /** With no one else stepping in between, the three reads see the store as it is. */
  lemma ReadsAlone(ss: seq<State>, acts: seq<Action>, k: nat, inputs: PreEntryGate.Inputs)
    returns (ss': seq<State>, acts': seq<Action>)
    requires IsRun(ss, acts) && k < |ss[|acts|].workers|
    requires ss[|acts|].workers[k].Gating? && !ss[|acts|].workers[k].flip
    requires var g := PreEntryGate.Gate(inputs, ss[|acts|].workers[k].index);
             g.Passed? && CapsHold(ss[|acts|].books, g.req)
    ensures IsRun(ss', acts')
    ensures var s := ss[|acts|];
            var r := PreEntryGate.Gate(inputs, s.workers[k].index).req;
            OnlyMoved(s, ss'[|acts'|], k,
              InTxn(s.workers[k].pos, r, 0, s.version, FreeBoth(s.books.openTotal, s.books.deployedTotal)))
  {
    ss', acts' := Extend(ss, acts, Gate(k, inputs));
    ss', acts' := Extend(ss', acts', Watch(k));
    ss', acts' := Extend(ss', acts', Read(k));
    ss', acts' := Extend(ss', acts', Read(k));
    ss', acts' := Extend(ss', acts', Read(k));
  }

  /** A request within the caps is then granted. */
  lemma ReserveAlone(ss: seq<State>, acts: seq<Action>, k: nat, inputs: PreEntryGate.Inputs)
    returns (ss': seq<State>, acts': seq<Action>)
    requires IsRun(ss, acts) && k < |ss[|acts|].workers|
    requires ss[|acts|].workers[k].Gating? && !ss[|acts|].workers[k].flip
    requires var g := PreEntryGate.Gate(inputs, ss[|acts|].workers[k].index);
             g.Passed? && CapsHold(ss[|acts|].books, g.req)
    ensures IsRun(ss', acts')
    ensures var s, t := ss[|acts|], ss'[|acts'|];
            var r := PreEntryGate.Gate(inputs, s.workers[k].index).req;
            && t.books == Allocator.Reserve(s.books, r) && t.ledger == s.ledger && t.leaked == s.leaked
            && |t.workers| == |s.workers| && t.workers[k].Reserved?
            && t.workers[k].h == Holding(s.workers[k].pos, r.index, r.premium)
            && (forall j :: 0 <= j < |s.workers| && j != k ==> t.workers[j] == s.workers[j])
            && t.audit.Keys == s.audit.Keys + {s.workers[k].pos}
  {
    ss', acts' := ReadsAlone(ss, acts, k, inputs);
    ss', acts' := Extend(ss', acts', Decide(k));
    ss', acts' := Extend(ss', acts', Exec(k, false));
  }

  /** An open market quoting 99 bid, 100 ask, one lot of 75. */
  const CALM: PreEntryGate.Inputs :=
    var leaf := Some(PreEntryGate.Quote(100.0, 99.0, 100.0));
    PreEntryGate.Inputs(true, false, false, true, leaf, leaf, 0.05, 1, 75, 200000.0, 2)

  lemma CalmRequest(i: Index)
    ensures PreEntryGate.Gate(CALM, i) == PreEntryGate.Passed(Request(i, 7500.0, 200000.0, 2))
  {
    assert (100.0 - 99.0) / 100.0 == 0.01;
  }

  /** A single step, with what the traces need to know of it. */
  lemma Start(ss: seq<State>, acts: seq<Action>, k: nat, p: PosId, i: Index, flip: bool)
    returns (ss': seq<State>, acts': seq<Action>)
    requires IsRun(ss, acts) && k < |ss[|acts|].workers| && ss[|acts|].workers[k].Idle? && p !in ss[|acts|].audit
    ensures IsRun(ss', acts')
    ensures var s, t := ss[|acts|], ss'[|acts'|];
            && t.workers == s.workers[k := Gating(p, i, flip)] && t.audit.Keys == s.audit.Keys + {p}
            && t.books == s.books && t.ledger == s.ledger && t.leaked == s.leaked
  {
    ss', acts' := Extend(ss, acts, Begin(k, p, i, flip));
  }

  /** The first of two threads reserves on an empty store. */
  lemma FirstThreadReserves(p: PosId, i: Index) returns (ss: seq<State>, acts: seq<Action>)
    ensures IsRun(ss, acts)
    ensures var s := ss[|acts|];
            && |s.workers| == 2 && s.workers[0].Reserved? && s.workers[0].h == Holding(p, i, 7500.0) && s.workers[1].Idle?
            && s.leaked == [] && s.audit.Keys == {p}
            && s.books.openTotal == 1 && s.books.deployedTotal == 7500.0 && s.books.symbols == {i}
  {
    CalmRequest(i);
    var s0 := State(Books(map[], 0.0, map[], 0, {}), 0, Ledger({}, map[], {}, map[], map[]), [Idle, Idle], [], map[]);
    ss, acts := [s0], [];
    ss, acts := Start(ss, acts, 0, p, i, false);
    ss, acts := ReserveAlone(ss, acts, 0, CALM);
  }

  /** It is filled, at a total of `value`, and sits in its exit loop. */
  lemma FirstThreadEnters(p: PosId, i: Index, value: real) returns (ss: seq<State>, acts: seq<Action>)
    ensures IsRun(ss, acts)
    ensures var s := ss[|acts|];
            && s.workers == [Live(Holding(p, i, 7500.0)), Idle] && s.leaked == [] && s.audit.Keys == {p}
            && s.books.openTotal == 1 && s.books.deployedTotal == 7500.0 && s.books.symbols == {i}
            && Pointer(s.ledger, i) == Some(p) && p in s.ledger.entryValue && s.ledger.entryValue[p] == value
  {
    ss, acts := FirstThreadReserves(p, i);
    ss, acts := Extend(ss, acts, Fill(0, value));
  }

  /** A flip's first two steps find the prior position and load it. */
  lemma LoadPrior(ss: seq<State>, acts: seq<Action>, k: nat) returns (ss': seq<State>, acts': seq<Action>)
    requires IsRun(ss, acts) && k < |ss[|acts|].workers|
    requires var s := ss[|acts|];
             && s.workers[k].Gating? && s.workers[k].flip
             && Pointer(s.ledger, s.workers[k].index).Some? && s.ledger.pointer[s.workers[k].index] in s.ledger.entryValue
    ensures IsRun(ss', acts')
    ensures var s := ss[|acts|];
            var i := s.workers[k].index;
            var p := s.ledger.pointer[i];
            OnlyMoved(s, ss'[|acts'|], k, FlipLoaded(s.workers[k].pos, i, p, s.ledger.entryValue[p]))
  {
    ss', acts' := Extend(ss, acts, FlipLook(k));
    ss', acts' := Extend(ss', acts', FlipLoad(k, true));
  }

  /** Its two writes. */
  lemma CloseLoaded(ss: seq<State>, acts: seq<Action>, k: nat) returns (ss': seq<State>, acts': seq<Action>)
    requires IsRun(ss, acts) && k < |ss[|acts|].workers| && ss[|acts|].workers[k].FlipLoaded?
    ensures IsRun(ss', acts')
    ensures var s, t := ss[|acts|], ss'[|acts'|];
            var x := s.workers[k];
            && t.workers == s.workers[k := Gating(x.pos, x.index, false)] && t.audit == s.audit
            && t.books == Allocator.Release(s.books, x.index, x.value)
            && t.leaked == Settled(Settled(s.leaked, x.prior, false), x.prior, true)
  {
    ss', acts' := Extend(ss, acts, FlipCleanup(k));
    ss', acts' := Extend(ss', acts', FlipRelease(k));
  }

  /**
    One fresh entry, filled at 102, and one flip on the same index: the flip gives back more than
    was reserved, then reserves the index for itself while the first thread is still in its exit loop.
   */
  lemma FlipBreaksMutualExclusion(i: Index, p0: PosId, p1: PosId) returns (ss: seq<State>, acts: seq<Action>)
    requires p0 != p1
    ensures IsRun(ss, acts)
    ensures var s := ss[|acts|];
            && |s.workers| == 2
            && s.workers[0].Live? && s.workers[1].Reserved?
            && s.workers[0].h.index == s.workers[1].h.index == i
            && s.books.openTotal == 1
            && s.books.deployedTotal < s.workers[0].h.premium + s.workers[1].h.premium
  {
    CalmRequest(i);
    ss, acts := FirstThreadEnters(p0, i, 7650.0);
    ss, acts := Start(ss, acts, 1, p1, i, true);
    ss, acts := LoadPrior(ss, acts, 1);
    ss, acts := CloseLoaded(ss, acts, 1);
    ss, acts := ReserveAlone(ss, acts, 1, CALM);
  }

  /** The first thread crashes with its position open, worth exactly what was reserved. */
  lemma FirstThreadCrashes(i: Index, p: PosId) returns (ss: seq<State>, acts: seq<Action>)
    ensures IsRun(ss, acts)
    ensures var s := ss[|acts|];
            && s.workers == [Idle, Idle] && s.audit.Keys == {p}
            && s.leaked == [Some(Seat(Holding(p, i, 7500.0), true))]
            && s.books.openTotal == 1 && s.books.deployedTotal == 7500.0
            && Pointer(s.ledger, i) == Some(p) && p in s.ledger.entryValue && s.ledger.entryValue[p] == 7500.0
  {
    ss, acts := FirstThreadEnters(p, i, 7500.0);
    ss, acts := Extend(ss, acts, Fail(0));
  }

  /** Two flips load the orphan before either cleans it up. */
  lemma TwoFlipsLoad(i: Index, p0: PosId, p1: PosId, p2: PosId) returns (ss: seq<State>, acts: seq<Action>)
    requires p0 != p1 && p0 != p2 && p1 != p2
    ensures IsRun(ss, acts)
    ensures var s := ss[|acts|];
            && s.workers == [FlipLoaded(p1, i, p0, 7500.0), FlipLoaded(p2, i, p0, 7500.0)]
            && s.leaked == [Some(Seat(Holding(p0, i, 7500.0), true))]
            && s.books.openTotal == 1 && s.books.deployedTotal == 7500.0
  {
    ss, acts := FirstThreadCrashes(i, p0);
    ss, acts := Start(ss, acts, 0, p1, i, true);
    ss, acts := Start(ss, acts, 1, p2, i, true);
    ss, acts := LoadPrior(ss, acts, 0);
    ss, acts := LoadPrior(ss, acts, 1);
  }

  /**
    Two flips racing for one orphan release its slot twice, though either alone would have recovered
    it exactly: nobody holds anything and the counters are below zero.
   */
  lemma RacingFlipsReleaseTwice(i: Index, p0: PosId, p1: PosId, p2: PosId) returns (ss: seq<State>, acts: seq<Action>)
    requires p0 != p1 && p0 != p2 && p1 != p2
    ensures IsRun(ss, acts)
    ensures var s := ss[|acts|];
            && (forall k :: 0 <= k < |Seats(s)| ==> Seats(s)[k].None?)
            && s.books.openTotal == -1 && s.books.deployedTotal == -7500.0
  {
    ss, acts := TwoFlipsLoad(i, p0, p1, p2);
    ss, acts := CloseLoaded(ss, acts, 0);
    assert ss[|acts|].leaked == [None];
    ss, acts := CloseLoaded(ss, acts, 1);
    assert ss[|acts|].leaked == [None];
  }
}
