/** The inductive invariant of the worker pool, one component at a time. */
module ExecutionInvariant {
  import opened Core
  import opened Allocator
  import opened Execution
  import opened Accounting

  // ---------------------------------------------------------------- position keys

  /** Seat `k` has position `p` of index `i` on the books. */
  predicate OnBooks(seats: seq<Option<Seat>>, k: nat, i: Index, p: PosId) {
    k < |seats| && seats[k].Some? && seats[k].value.live
    && seats[k].value.h.index == i && seats[k].value.h.pos == p
  }

  /** Membership sets and pointers name exactly the live seats. */
  ghost predicate LedgerMatches(l: Ledger, seats: seq<Option<Seat>>) {
    && (forall p :: p in l.open <==> exists k, i :: OnBooks(seats, k, i, p))
    && (forall i, p :: p in ByIndex(l, i) <==> exists k :: OnBooks(seats, k, i, p))
    && (forall i, p :: Pointer(l, i) == Some(p) <==> exists k :: OnBooks(seats, k, i, p))
    && l.entryValue.Keys == l.open
    && l.open !! l.closedToday
  }

  // ---------------------------------------------------------------- optimistic reads

  /** The values read so far are the values in the store. */
  predicate ReadsCurrent(b: Books, index: Index, got: Reads) {
    match got
    case Nothing => true
    case Free => index !in b.symbols
    case FreeOpen(open) => index !in b.symbols && open == b.openTotal
    case FreeBoth(open, dep) => index !in b.symbols && open == b.openTotal && dep == b.deployedTotal
    case Taken => index in b.symbols
    case TakenDeployed(dep) => index in b.symbols && dep == b.deployedTotal
  }

  /** An unchanged version means unchanged readings. */
  predicate TxnSound(b: Books, version: nat, x: Worker) {
    match x
    case InTxn(_, r, _, seen, got) =>
      seen <= version && (seen == version ==> ReadsCurrent(b, r.index, got))
    case Queued(_, r, _, seen, open, dep) =>
      && seen <= version
      && (seen == version ==> ReadsCurrent(b, r.index, FreeBoth(open, dep)))
      && open + 1 <= r.maxOpen && dep + r.premium <= r.capital
    case _ => true
  }

  ghost predicate AllTxnsSound(s: State) {
    forall k :: 0 <= k < |s.workers| ==> TxnSound(s.books, s.version, s.workers[k])
  }

  // ---------------------------------------------------------------- audit trail

  /** What a lifecycle must have done to be where it is. */
  function Word(x: Worker): seq<Effect> {
    match x
    case Reserved(h, _) => [Reserve(h.index, h.premium)]
    case Abandoned(h) => [Reserve(h.index, h.premium), Reject]
    case Live(h) => [Reserve(h.index, h.premium), Open]
    case Reported(h) => [Reserve(h.index, h.premium), Open, Report]
    case Cleaned(h) => [Reserve(h.index, h.premium), Open, Report, Close]
    case _ => []
  }

  /**
    The three complete lifecycles: rejected at stage A; reserved, abandoned at entry and
    released; reserved, opened, reported, closed and released.  A release always carries the
    index and the amount of its reserve.
   */
  predicate Finished(word: seq<Effect>) {
    || word == [Reject]
    || (|word| == 3 && word[0].Reserve?
        && word == [word[0], Reject, Release(word[0].index, word[0].premium)])
    || (|word| == 5 && word[0].Reserve?
        && word == [word[0], Open, Report, Close, Release(word[0].index, word[0].premium)])
  }

  predicate Runs(s: State, k: nat, p: PosId) {
    k < |s.workers| && PosOf(s.workers[k]) == Some(p)
  }

  /** The trail of a leaked slot: it reserved this index and amount, and crashed. */
  predicate LeakKnown(audit: map<PosId, seq<Effect>>, h: Holding) {
    h.pos in audit && Crash in audit[h.pos] && audit[h.pos][0] == Reserve(h.index, h.premium)
  }

  ghost predicate AuditMatches(s: State) {
    && (forall k: nat, p :: Runs(s, k, p) ==> p in s.audit && s.audit[p] == Word(s.workers[k]))
    && (forall j: nat, k: nat, p :: Runs(s, j, p) && Runs(s, k, p) ==> j == k)
    && (forall p :: p in s.audit ==> Finished(s.audit[p]) || Crash in s.audit[p] || exists k :: Runs(s, k, p))
    && (forall k :: 0 <= k < |s.leaked| && s.leaked[k].Some? ==> LeakKnown(s.audit, s.leaked[k].value.h))
  }

  /** Position `p` was opened, on index `i`. */
  predicate OpenedOn(audit: map<PosId, seq<Effect>>, p: PosId, i: Index) {
    && p in audit && audit[p] != [] && audit[p][0].Reserve? && audit[p][0].index == i
    && Open in audit[p]
  }

  predicate FlipHas(x: Worker, i: Index, prior: PosId) {
    (x.FlipFound? || x.FlipLoaded? || x.FlipCleaned?) && x.index == i && x.prior == prior
  }

  /** Whatever a pointer, a flip under way or the closed set names was opened, and on that index. */
  ghost predicate Traced(s: State) {
    && (forall i :: i in s.ledger.pointer ==> OpenedOn(s.audit, s.ledger.pointer[i], i))
    && (forall k, i, p :: 0 <= k < |s.workers| && FlipHas(s.workers[k], i, p) ==> OpenedOn(s.audit, p, i))
    && (forall p :: p in s.ledger.closedToday ==> p in s.audit && Open in s.audit[p])
  }

  /** What holds in every run, with or without flips. */
  ghost predicate Coherent(s: State) {
    AllTxnsSound(s) && AuditMatches(s) && Traced(s)
  }

  ghost predicate Inv(s: State) {
    Balanced(s.books, Seats(s)) && LedgerMatches(s.ledger, Seats(s)) && Coherent(s)
  }

  /** Any step but the two writes a flip makes on behalf of another position. */
  predicate Ordinary(s: State, a: Action) {
    Enabled(s, a) && !a.FlipCleanup? && !a.FlipRelease?
  }

  // ---------------------------------------------------------------- preservation

  /** How one step of worker `a.w` shows in the list of seats. */
  function NextSeats(s: State, a: Action): seq<Option<Seat>>
    requires Ordinary(s, a)
  {
    var seats := Seats(s);
    if a.Fail? && seats[a.w].Some? then seats[a.w := None] + [seats[a.w]]
    else seats[a.w := SeatOf(NextWorker(s, a))]
  }

  lemma SeatsAfter(s: State, a: Action)
    requires Ordinary(s, a)
    ensures Seats(Apply(s, a)) == NextSeats(s, a)
  {
    var t := Apply(s, a);
    assert t.workers == s.workers[a.w := NextWorker(s, a)];
    assert Seats(s)[a.w] == SeatOf(s.workers[a.w]);
  }

  /** Every other step leaves the worker's seat as it is. */
  lemma SeatKept(s: State, a: Action)
    requires Ordinary(s, a) && !Commits(s, a) && !a.Fill? && !a.Cleanup? && !a.ReleaseSlot?
    requires a.Fail? ==> SeatOf(s.workers[a.w]).None?
    ensures NextSeats(s, a) == Seats(s) && NextBooks(s, a) == s.books && NextLedger(s, a) == s.ledger
  {
    assert SeatOf(NextWorker(s, a)) == SeatOf(s.workers[a.w]) == Seats(s)[a.w];
  }

  lemma StepBalanced(s: State, a: Action)
    requires Balanced(s.books, Seats(s)) && AllTxnsSound(s) && Ordinary(s, a)
    ensures Balanced(NextBooks(s, a), NextSeats(s, a))
  {
    if Commits(s, a) {
      CommitBalanced(s, a.w);
      CommitSeats(s, a);
    } else if a.Fill? || a.Cleanup? {
      RelabelSeats(s, a);
      BalancedRelabel(s.books, Seats(s), a.w, a.Fill?);
    } else if a.ReleaseSlot? {
      ReleaseSeats(s, a);
      BalancedRelease(s.books, Seats(s), a.w);
    } else if a.Fail? && SeatOf(s.workers[a.w]).Some? {
      FailSeats(s, a);
      BalancedMove(s.books, Seats(s), a.w);
    } else {
      SeatKept(s, a);
    }
  }

  lemma CommitSeats(s: State, a: Action)
    requires Ordinary(s, a) && Commits(s, a)
    ensures var x := s.workers[a.w];
            && NextBooks(s, a) == Allocator.Reserve(s.books, x.req)
            && NextSeats(s, a) == Seats(s)[a.w := Some(Seat(Holding(x.pos, x.req.index, x.req.premium), false))]
  {
  }

  lemma RelabelSeats(s: State, a: Action)
    requires Ordinary(s, a) && (a.Fill? || a.Cleanup?)
    ensures NextBooks(s, a) == s.books && Seats(s)[a.w] == Some(Seat(s.workers[a.w].h, a.Cleanup?))
    ensures NextSeats(s, a) == Seats(s)[a.w := Some(Seat(s.workers[a.w].h, a.Fill?))]
  {
  }

  lemma ReleaseSeats(s: State, a: Action)
    requires Ordinary(s, a) && a.ReleaseSlot?
    ensures var h := s.workers[a.w].h;
            && NextBooks(s, a) == Allocator.Release(s.books, h.index, h.premium)
            && Seats(s)[a.w] == Some(Seat(h, false)) && NextSeats(s, a) == Seats(s)[a.w := None]
  {
  }

  lemma FailSeats(s: State, a: Action)
    requires Ordinary(s, a) && a.Fail? && SeatOf(s.workers[a.w]).Some?
    ensures NextBooks(s, a) == s.books && NextLedger(s, a) == s.ledger
    ensures Seats(s)[a.w].Some? && NextSeats(s, a) == Seats(s)[a.w := None] + [Seats(s)[a.w]]
  {
  }

  lemma CommitBalanced(s: State, k: nat)
    requires Balanced(s.books, Seats(s)) && AllTxnsSound(s)
    requires k < |s.workers| && s.workers[k].Queued? && s.workers[k].seen == s.version
    ensures var x := s.workers[k];
            Balanced(Allocator.Reserve(s.books, x.req),
                     Seats(s)[k := Some(Seat(Holding(x.pos, x.req.index, x.req.premium), false))])
  {
    var x := s.workers[k];
    assert TxnSound(s.books, s.version, x) && Seats(s)[k] == SeatOf(x);
    BalancedReserve(s.books, Seats(s), k, x.req, Seat(Holding(x.pos, x.req.index, x.req.premium), false));
  }

  lemma StepTxns(s: State, a: Action)
    requires AllTxnsSound(s) && Enabled(s, a)
    ensures AllTxnsSound(Apply(s, a))
  {
    var t := Apply(s, a);
    forall k | 0 <= k < |t.workers| ensures TxnSound(t.books, t.version, t.workers[k]) {
      assert TxnSound(s.books, s.version, s.workers[k]);
      assert k != a.w ==> t.workers[k] == s.workers[k];
    }
  }

  /** A position has at most one seat. */
  lemma UniqueSeat(s: State, j: nat, k: nat)
    requires AuditMatches(s) && OneSeatPerIndex(Seats(s))
    requires j < |Seats(s)| && k < |Seats(s)| && Seats(s)[j].Some? && Seats(s)[k].Some?
    requires Seats(s)[j].value.h.pos == Seats(s)[k].value.h.pos
    ensures j == k
  {
    var n, p := |s.workers|, Seats(s)[j].value.h.pos;
    assert j < n ==> Runs(s, j, p) && Crash !in Word(s.workers[j]);
    assert k < n ==> Runs(s, k, p) && Crash !in Word(s.workers[k]);
    assert j >= n ==> s.leaked[j - n] == Seats(s)[j];
    assert k >= n ==> s.leaked[k - n] == Seats(s)[k];
    if j >= n && k >= n {
      var i := Seats(s)[j].value.h.index;
      assert Sits(Seats(s), j, i) && Sits(Seats(s), k, i);
    }
  }

  /** Opening puts one more position on the books. */
  lemma LedgerOpen(l: Ledger, seats: seq<Option<Seat>>, k: nat, value: real)
    requires LedgerMatches(l, seats) && OneSeatPerIndex(seats)
    requires k < |seats| && seats[k].Some? && !seats[k].value.live
    requires seats[k].value.h.pos !in l.closedToday
    ensures LedgerMatches(OpenPosition(l, seats[k].value.h, value), seats[k := Some(seats[k].value.(live := true))])
  {
    var h := seats[k].value.h;
    var after := seats[k := Some(Seat(h, true))];
    var l' := OpenPosition(l, h, value);
    assert OnBooks(after, k, h.index, h.pos);
    assert forall j: nat, i, p :: j != k ==> (OnBooks(after, j, i, p) <==> OnBooks(seats, j, i, p));
    forall j: nat, p | OnBooks(seats, j, h.index, p) ensures false {
      assert Sits(seats, j, h.index) && Sits(seats, k, h.index);
    }
    forall i, p ensures p in ByIndex(l', i) <==> exists j: nat :: OnBooks(after, j, i, p) {
      assert i != h.index ==> ByIndex(l', i) == ByIndex(l, i);
    }
    forall i, p ensures Pointer(l', i) == Some(p) <==> exists j: nat :: OnBooks(after, j, i, p) {
      assert i != h.index ==> Pointer(l', i) == Pointer(l, i);
    }
    assert l'.entryValue.Keys == l'.open;
    forall p ensures p in l'.open <==> exists j: nat, i :: OnBooks(after, j, i, p) {
      if p in l.open {
        var j: nat, i :| OnBooks(seats, j, i, p);
        assert OnBooks(after, j, i, p);
      }
    }
  }

  /** Closing takes exactly the closed position off the books. */
  lemma LedgerClose(l: Ledger, seats: seq<Option<Seat>>, k: nat, x: Option<Seat>)
    requires LedgerMatches(l, seats) && OneSeatPerIndex(seats)
    requires k < |seats| && seats[k].Some? && seats[k].value.live
    requires x.None? || !x.value.live
    requires forall j :: 0 <= j < |seats| && seats[j].Some? && seats[j].value.h.pos == seats[k].value.h.pos ==> j == k
    ensures LedgerMatches(ClosePosition(l, seats[k].value.h.pos, seats[k].value.h.index), seats[k := x])
  {
    var h := seats[k].value.h;
    var after := seats[k := x];
    var l' := ClosePosition(l, h.pos, h.index);
    assert OnBooks(seats, k, h.index, h.pos);
    assert forall j: nat, i, p :: OnBooks(after, j, i, p) <==> j != k && OnBooks(seats, j, i, p);
    forall j: nat, p | OnBooks(after, j, h.index, p) ensures false {
      assert Sits(seats, j, h.index) && Sits(seats, k, h.index);
    }
    forall i, p ensures p in ByIndex(l', i) <==> exists j: nat :: OnBooks(after, j, i, p) {
      assert i != h.index ==> ByIndex(l', i) == ByIndex(l, i);
      if p in ByIndex(l', i) {
        var j: nat :| OnBooks(seats, j, i, p);
        assert OnBooks(after, j, i, p);
      }
    }
    forall i, p ensures Pointer(l', i) == Some(p) <==> exists j: nat :: OnBooks(after, j, i, p) {
      assert i != h.index ==> Pointer(l', i) == Pointer(l, i);
      if Pointer(l', i) == Some(p) {
        var j: nat :| OnBooks(seats, j, i, p);
        assert OnBooks(after, j, i, p);
      }
    }
    assert l'.entryValue.Keys == l'.open;
    forall p ensures p in l'.open <==> exists j: nat, i :: OnBooks(after, j, i, p) {
      if p in l'.open {
        var j: nat, i :| OnBooks(seats, j, i, p);
        assert OnBooks(after, j, i, p);
      }
    }
  }

  /** A change of seats that keeps the same positions live keeps the ledger right. */
  lemma LedgerKept(l: Ledger, seats: seq<Option<Seat>>, after: seq<Option<Seat>>)
    requires LedgerMatches(l, seats)
    requires forall k: nat, i, p :: OnBooks(seats, k, i, p) ==> exists j: nat :: OnBooks(after, j, i, p)
    requires forall k: nat, i, p :: OnBooks(after, k, i, p) ==> exists j: nat :: OnBooks(seats, j, i, p)
    ensures LedgerMatches(l, after)
  {
  }

  lemma FillLedger(s: State, k: nat, value: real)
    requires OneSeatPerIndex(Seats(s)) && LedgerMatches(s.ledger, Seats(s)) && AuditMatches(s) && Traced(s)
    requires k < |s.workers| && s.workers[k].Reserved?
    ensures LedgerMatches(OpenPosition(s.ledger, s.workers[k].h, value), Seats(s)[k := Some(Seat(s.workers[k].h, true))])
  {
    var x := s.workers[k];
    assert Seats(s)[k] == SeatOf(x);
    assert Runs(s, k, x.h.pos);
    assert Open !in s.audit[x.h.pos];
    LedgerOpen(s.ledger, Seats(s), k, value);
  }

  lemma CleanupLedger(s: State, k: nat)
    requires OneSeatPerIndex(Seats(s)) && LedgerMatches(s.ledger, Seats(s)) && AuditMatches(s) && Traced(s)
    requires k < |s.workers| && s.workers[k].Reported?
    ensures LedgerMatches(ClosePosition(s.ledger, s.workers[k].h.pos, s.workers[k].h.index),
                          Seats(s)[k := Some(Seat(s.workers[k].h, false))])
  {
    var seats, h := Seats(s), s.workers[k].h;
    assert seats[k] == SeatOf(s.workers[k]);
    forall j | 0 <= j < |seats| && seats[j].Some? && seats[j].value.h.pos == h.pos ensures j == k {
      UniqueSeat(s, j, k);
    }
    LedgerClose(s.ledger, seats, k, Some(Seat(h, false)));
  }

  lemma StepLedger(s: State, a: Action)
    requires OneSeatPerIndex(Seats(s)) && LedgerMatches(s.ledger, Seats(s)) && AuditMatches(s) && Traced(s)
    requires Ordinary(s, a)
    ensures LedgerMatches(NextLedger(s, a), NextSeats(s, a))
  {
    if a.Fill? {
      RelabelSeats(s, a);
      FillLedger(s, a.w, a.entryValue);
    } else if a.Cleanup? {
      RelabelSeats(s, a);
      CleanupLedger(s, a.w);
    } else if a.Fail? && SeatOf(s.workers[a.w]).Some? {
      FailSeats(s, a);
      LedgerMoved(s.ledger, Seats(s), a.w);
    } else if Commits(s, a) {
      CommitSeats(s, a);
      LedgerUntouched(s.ledger, Seats(s), a.w, NextSeats(s, a)[a.w]);
    } else if a.ReleaseSlot? {
      ReleaseSeats(s, a);
      LedgerUntouched(s.ledger, Seats(s), a.w, None);
    } else {
      SeatKept(s, a);
    }
  }

  lemma LedgerUntouched(l: Ledger, seats: seq<Option<Seat>>, k: nat, x: Option<Seat>)
    requires LedgerMatches(l, seats) && k < |seats|
    requires seats[k] == x || ((x.None? || !x.value.live) && (seats[k].None? || !seats[k].value.live))
    ensures LedgerMatches(l, seats[k := x])
  {
    var after := seats[k := x];
    assert forall j: nat, i, p :: OnBooks(seats, j, i, p) <==> OnBooks(after, j, i, p);
    LedgerKept(l, seats, after);
  }

  lemma LedgerMoved(l: Ledger, seats: seq<Option<Seat>>, k: nat)
    requires LedgerMatches(l, seats) && k < |seats|
    ensures LedgerMatches(l, seats[k := None] + [seats[k]])
  {
    var after, n := seats[k := None] + [seats[k]], |seats|;
    forall j: nat, i, p | OnBooks(seats, j, i, p) ensures exists j': nat :: OnBooks(after, j', i, p) {
      assert OnBooks(after, if j == k then n else j, i, p);
    }
    forall j: nat, i, p | OnBooks(after, j, i, p) ensures exists j': nat :: OnBooks(seats, j', i, p) {
      assert OnBooks(seats, if j == n then k else j, i, p);
    }
    LedgerKept(l, seats, after);
  }

  /** A seat on the leak list was there before, or has just left worker `k` with a crash. */
  predicate LeakFrom(s: State, t: State, k: nat, p: PosId, j: nat)
    requires k < |s.workers| && p in t.audit && j < |t.leaked| && t.leaked[j].Some?
  {
    if j < |s.leaked| then s.leaked[j].Some? && s.leaked[j].value.h == t.leaked[j].value.h
    else t.leaked[j] == SeatOf(s.workers[k]) && Crash in t.audit[p]
  }

  /** Only the trail of `p` grows, and the worker that owns it moves along with it. */
  ghost predicate Advances(s: State, t: State, k: nat, p: PosId) {
    && k < |s.workers| && |t.workers| == |s.workers|
    && t.workers == s.workers[k := t.workers[k]]
    && (if s.workers[k].Idle? then p !in s.audit else PosOf(s.workers[k]) == Some(p))
    && t.audit.Keys == s.audit.Keys + {p}
    && (forall q :: q in s.audit && q != p ==> t.audit[q] == s.audit[q])
    && (if t.workers[k].Idle? then Finished(t.audit[p]) || Crash in t.audit[p]
        else PosOf(t.workers[k]) == Some(p) && t.audit[p] == Word(t.workers[k]))
    && (p in s.audit ==> s.audit[p] <= t.audit[p])
    && (forall j: nat :: j < |t.leaked| && t.leaked[j].Some? ==> LeakFrom(s, t, k, p, j))
  }

  lemma LeaksAdvance(s: State, t: State, k: nat, p: PosId, j: nat)
    requires AuditMatches(s) && Advances(s, t, k, p) && j < |t.leaked| && t.leaked[j].Some?
    ensures LeakKnown(t.audit, t.leaked[j].value.h)
  {
    assert LeakFrom(s, t, k, p, j);
    assert p in s.audit ==> forall e :: e in s.audit[p] ==> e in t.audit[p];
    if j < |s.leaked| {
      assert LeakKnown(s.audit, s.leaked[j].value.h);
    } else {
      assert Runs(s, k, p) && s.audit[p] == Word(s.workers[k]);
    }
  }

  lemma AuditAdvances(s: State, t: State, k: nat, p: PosId)
    requires AuditMatches(s) && Advances(s, t, k, p)
    ensures AuditMatches(t)
  {
    assert PosOf(s.workers[k]).Some? ==> Runs(s, k, p);
    assert forall j: nat, q :: j != k ==> (Runs(t, j, q) <==> Runs(s, j, q));
    forall q | q in t.audit ensures Finished(t.audit[q]) || Crash in t.audit[q] || exists j: nat :: Runs(t, j, q) {
      if q == p {
        assert t.workers[k].Idle? || Runs(t, k, p);
      } else if j: nat :| Runs(s, j, q) {
        assert Runs(t, j, q);
      }
    }
    forall j | 0 <= j < |t.leaked| && t.leaked[j].Some? ensures LeakKnown(t.audit, t.leaked[j].value.h) {
      LeaksAdvance(s, t, k, p, j);
    }
  }

  /** The recorded effect is the next letter of the worker's word. */
  lemma EffectExtendsWord(s: State, a: Action)
    requires Enabled(s, a) && !a.Begin?
    ensures var x, y, e := s.workers[a.w], NextWorker(s, a), EffectOf(s, a);
            && PosOf(x).Some?
            && (if e.None? then PosOf(y) == PosOf(x) && Word(y) == Word(x)
                else if y.Idle? then Finished(Word(x) + [e.value]) || e.value == Crash
                else PosOf(y) == PosOf(x) && Word(y) == Word(x) + [e.value])
  {
  }

  lemma LeaksStep(s: State, a: Action, p: PosId, j: nat)
    requires Enabled(s, a) && PosOf(s.workers[a.w]) == Some(p) && p in s.audit
    requires j < |NextLeaked(s, a)| && NextLeaked(s, a)[j].Some?
    ensures LeakFrom(s, Apply(s, a), a.w, p, j)
  {
  }

  lemma StepAudit(s: State, a: Action)
    requires AuditMatches(s) && Enabled(s, a)
    ensures AuditMatches(Apply(s, a))
  {
    var t := Apply(s, a);
    if a.Begin? {
      assert t.audit.Keys == s.audit.Keys + {a.pos};
      AuditAdvances(s, t, a.w, a.pos);
    } else {
      EffectExtendsWord(s, a);
      var p := PosOf(s.workers[a.w]).value;
      assert Runs(s, a.w, p);
      StepAdvances(s, a, p);
      AuditAdvances(s, t, a.w, p);
    }
  }

  lemma StepAdvances(s: State, a: Action, p: PosId)
    requires Enabled(s, a) && !a.Begin? && PosOf(s.workers[a.w]) == Some(p)
    requires p in s.audit && s.audit[p] == Word(s.workers[a.w])
    ensures Advances(s, Apply(s, a), a.w, p)
  {
    var t := Apply(s, a);
    EffectExtendsWord(s, a);
    assert t.audit.Keys == s.audit.Keys + {p};
    forall j: nat | j < |t.leaked| && t.leaked[j].Some? ensures LeakFrom(s, t, a.w, p, j) {
      LeaksStep(s, a, p, j);
    }
  }

  /** Trails are only ever added to. */
  lemma AuditGrows(s: State, a: Action, p: PosId)
    requires Enabled(s, a) && p in s.audit
    ensures p in Apply(s, a).audit && s.audit[p] <= Apply(s, a).audit[p]
  {
  }

  lemma OpenedStays(s: State, a: Action, p: PosId, i: Index)
    requires Enabled(s, a) && OpenedOn(s.audit, p, i)
    ensures OpenedOn(Apply(s, a).audit, p, i)
  {
    AuditGrows(s, a, p);
    assert forall e :: e in s.audit[p] ==> e in Apply(s, a).audit[p];
  }

  /** A fill opens the position on the index it reserved. */
  lemma FillOpens(s: State, a: Action)
    requires AuditMatches(s) && Enabled(s, a) && a.Fill?
    ensures var h := s.workers[a.w].h; OpenedOn(Apply(s, a).audit, h.pos, h.index)
  {
    var h := s.workers[a.w].h;
    assert Runs(s, a.w, h.pos);
    assert Apply(s, a).audit[h.pos] == [Reserve(h.index, h.premium), Open];
  }

  lemma StepTraced(s: State, a: Action)
    requires AuditMatches(s) && Traced(s) && Enabled(s, a)
    ensures Traced(Apply(s, a))
  {
    var t := Apply(s, a);
    forall i | i in t.ledger.pointer ensures OpenedOn(t.audit, t.ledger.pointer[i], i) {
      PointerStep(s, a, i);
    }
    forall k, i, p | 0 <= k < |t.workers| && FlipHas(t.workers[k], i, p) ensures OpenedOn(t.audit, p, i) {
      FlipStep(s, a, k, i, p);
    }
    forall p | p in t.ledger.closedToday ensures p in t.audit && Open in t.audit[p] {
      ClosedStep(s, a, p);
    }
  }

  lemma PointerStep(s: State, a: Action, i: Index)
    requires AuditMatches(s) && Traced(s) && Enabled(s, a) && i in NextLedger(s, a).pointer
    ensures OpenedOn(Apply(s, a).audit, NextLedger(s, a).pointer[i], i)
  {
    if a.Fill? && i == s.workers[a.w].h.index {
      FillOpens(s, a);
    } else {
      OpenedStays(s, a, s.ledger.pointer[i], i);
    }
  }

  lemma FlipStep(s: State, a: Action, k: nat, i: Index, p: PosId)
    requires Traced(s) && Enabled(s, a) && k < |s.workers| && FlipHas(Apply(s, a).workers[k], i, p)
    ensures OpenedOn(Apply(s, a).audit, p, i)
  {
    assert FlipHas(s.workers[k], i, p) || (a.FlipLook? && i in s.ledger.pointer && s.ledger.pointer[i] == p);
    OpenedStays(s, a, p, i);
  }

  lemma ClosedStep(s: State, a: Action, p: PosId)
    requires AuditMatches(s) && Traced(s) && Enabled(s, a) && p in NextLedger(s, a).closedToday
    ensures p in Apply(s, a).audit && Open in Apply(s, a).audit[p]
  {
    if p !in s.ledger.closedToday {
      var x := s.workers[a.w];
      if a.Cleanup? {
        assert Runs(s, a.w, p);
        assert Word(x)[1] == Open;
      } else {
        assert a.FlipCleanup? && FlipHas(s.workers[a.w], x.index, p);
        assert OpenedOn(s.audit, p, x.index);
      }
    }
    AuditGrows(s, a, p);
    assert forall e :: e in s.audit[p] ==> e in Apply(s, a).audit[p];
  }

  lemma StepCoherent(s: State, a: Action)
    requires Coherent(s) && Enabled(s, a)
    ensures Coherent(Apply(s, a))
  {
    StepTxns(s, a);
    StepAudit(s, a);
    StepTraced(s, a);
  }

  /** Every step other than a flip's two writes keeps the invariant. */
  lemma StepInv(s: State, a: Action)
    requires Inv(s) && Ordinary(s, a)
    ensures Inv(Apply(s, a))
  {
    SeatsAfter(s, a);
    StepBalanced(s, a);
    StepLedger(s, a);
    StepCoherent(s, a);
  }
}
