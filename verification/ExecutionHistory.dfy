/** What the states of a run say about its past: who closed what, and where a slot comes from. */
module ExecutionHistory {
  import opened Core
  import opened Allocator
  import opened Execution
  import opened Accounting
  import opened ExecutionInvariant
  import opened ExecutionTheorems
  import opened ReversalFlip
  import PreEntryGate

  // ---------------------------------------------------------------- the closed set

  /** Step `t` of the run is a flip that cleans up position `p`. */
  ghost predicate FlipClosed(ss: seq<State>, acts: seq<Action>, t: nat, p: PosId) {
    StepAt(ss, acts, t) && acts[t].FlipCleanup? && ss[t].workers[acts[t].w].prior == p
  }

  predicate ClosedItself(s: State, p: PosId) { p in s.audit && Close in s.audit[p] }

  /** One step adds to the closed set the position it cleans up, and nothing ever leaves it. */
  lemma ClosedAfter(s: State, a: Action, p: PosId)
    requires Enabled(s, a) && AuditMatches(s)
    ensures p in Apply(s, a).ledger.closedToday <==>
              || p in s.ledger.closedToday
              || (a.Cleanup? && s.workers[a.w].h.pos == p)
              || (a.FlipCleanup? && s.workers[a.w].prior == p)
    ensures ClosedItself(Apply(s, a), p) <==> ClosedItself(s, p) || (a.Cleanup? && s.workers[a.w].h.pos == p)
  {
    if !a.Begin? {
      EffectExtendsWord(s, a);
      assert Runs(s, a.w, PosOf(s.workers[a.w]).value);
    }
  }

  /** In any run a position is in the closed set exactly if it closed itself or a flip cleaned it up before. */
  lemma {:induction false} ClosedTodayExactly(ss: seq<State>, acts: seq<Action>, j: nat, p: PosId)
    requires IsRun(ss, acts) && j < |ss|
    ensures p in ss[j].ledger.closedToday <==>
              ClosedItself(ss[j], p) || exists t: nat :: t < j && FlipClosed(ss, acts, t, p)
  {
    if j > 0 {
      ClosedTodayExactly(ss, acts, j - 1, p);
      RunCoherent(ss, acts, j - 1);
      assert StepAt(ss, acts, j - 1);
      ClosedAfter(ss[j - 1], acts[j - 1], p);
      if acts[j - 1].FlipCleanup? && ss[j - 1].workers[acts[j - 1].w].prior == p {
        assert FlipClosed(ss, acts, j - 1, p);
      }
    }
  }

  /** In a flip-free run the closed set is exactly the positions whose trail holds a close. */
  lemma FlipFreeClosedToday(ss: seq<State>, acts: seq<Action>, j: nat, p: PosId)
    requires IsRun(ss, acts) && FlipFree(acts) && j < |ss|
    ensures p in ss[j].ledger.closedToday <==> p in ss[j].audit && Close in ss[j].audit[p]
  {
    ClosedTodayExactly(ss, acts, j, p);
    forall t: nat | t < j ensures !FlipClosed(ss, acts, t, p) {
      FlipFreeOrdinary(ss, acts, t);
    }
  }

  // ---------------------------------------------------------------- where a lifecycle comes from

  /** The index a lifecycle is about. */
  function IndexOf(x: Worker): Index
    requires !x.Idle?
  {
    if x.Gating? || x.FlipFound? || x.FlipLoaded? || x.FlipCleaned? then x.index
    else if SeatOf(x).Some? then x.h.index
    else x.req.index
  }

  /** What a lifecycle past the gate wants to reserve, or has reserved. */
  function AmountOf(x: Worker): Option<real> {
    if x.Idle? || x.Gating? || x.FlipFound? || x.FlipLoaded? || x.FlipCleaned? then None
    else if SeatOf(x).Some? then Some(x.h.premium)
    else Some(x.req.premium)
  }

  /** Step `t` clears the way of worker `k`: nothing was there to close, or it has been closed and released. */
  ghost predicate Clears(ss: seq<State>, acts: seq<Action>, t: nat, k: nat, p: PosId) {
    && StepAt(ss, acts, t) && acts[t].w == k && PosOf(ss[t].workers[k]) == Some(p)
    && (acts[t].FlipRelease? || (acts[t].FlipLook? && Pointer(ss[t].ledger, ss[t].workers[k].index).None?))
  }

  /** Step `b` started the lifecycle that worker `k` is in at state `j`. */
  ghost predicate StartedBy(ss: seq<State>, acts: seq<Action>, j: nat, k: nat, b: nat)
    requires j < |ss| && k < |ss[j].workers| && !ss[j].workers[k].Idle?
  {
    var x := ss[j].workers[k];
    && b < j && StepAt(ss, acts, b) && acts[b].Begin? && acts[b].w == k
    && PosOf(x) == Some(acts[b].pos) && IndexOf(x) == acts[b].index
    && (acts[b].flip ==> Flipping(x) || exists t: nat :: t < j && Clears(ss, acts, t, k, acts[b].pos))
    && (!acts[b].flip ==> !Flipping(x))
  }

  lemma LifecycleStep(s: State, a: Action, k: nat)
    requires Enabled(s, a) && k < |s.workers| && !Apply(s, a).workers[k].Idle?
    ensures var x, y := s.workers[k], Apply(s, a).workers[k];
            if a.w == k && a.Begin? then y == Gating(a.pos, a.index, a.flip)
            else && !x.Idle? && PosOf(y) == PosOf(x) && IndexOf(y) == IndexOf(x)
                 && (Flipping(y) ==> Flipping(x))
                 && (Flipping(x) && !Flipping(y) ==>
                       a.w == k && (a.FlipRelease? || (a.FlipLook? && Pointer(s.ledger, x.index).None?)))
  {
  }

  /**
    In any run a lifecycle is about the index of its signal, and one whose signal is a flip gets past
    its pre-step only if there was nothing to close, or it has itself released what it closed: a prior
    position that does not load ends it.
   */
  lemma {:induction false} LifecycleStarted(ss: seq<State>, acts: seq<Action>, j: nat, k: nat)
    requires IsRun(ss, acts) && j < |ss| && k < |ss[j].workers| && !ss[j].workers[k].Idle?
    ensures exists b: nat :: StartedBy(ss, acts, j, k, b)
  {
    if j > 0 {
      var s, a := ss[j - 1], acts[j - 1];
      assert StepAt(ss, acts, j - 1);
      LifecycleStep(s, a, k);
      if a.w == k && a.Begin? {
        assert StartedBy(ss, acts, j, k, j - 1);
      } else {
        LifecycleStarted(ss, acts, j - 1, k);
        var b: nat :| StartedBy(ss, acts, j - 1, k, b);
        StartedLater(ss, acts, j, k, b);
      }
    }
  }

  lemma StartedLater(ss: seq<State>, acts: seq<Action>, j: nat, k: nat, b: nat)
    requires IsRun(ss, acts) && 0 < j < |ss| && k < |ss[j].workers| == |ss[j - 1].workers|
    requires !ss[j - 1].workers[k].Idle? && !ss[j].workers[k].Idle?
    requires StepAt(ss, acts, j - 1) && !(acts[j - 1].w == k && acts[j - 1].Begin?) && StartedBy(ss, acts, j - 1, k, b)
    ensures StartedBy(ss, acts, j, k, b)
  {
    var x, y := ss[j - 1].workers[k], ss[j].workers[k];
    LifecycleStep(ss[j - 1], acts[j - 1], k);
    if acts[b].flip && !Flipping(y) {
      if Flipping(x) {
        assert Clears(ss, acts, j - 1, k, acts[b].pos);
      } else {
        var t: nat :| t < j - 1 && Clears(ss, acts, t, k, acts[b].pos);
        assert Clears(ss, acts, t, k, acts[b].pos);
      }
    }
  }

  /** A prior position whose hash is gone or invalid: the signal is rejected, in its own trail and for good. */
  lemma UnloadedFlipIsRejected(ss: seq<State>, acts: seq<Action>, j: nat)
    requires IsRun(ss, acts) && StepAt(ss, acts, j) && acts[j].FlipLoad?
    requires !acts[j].valid || ss[j].workers[acts[j].w].prior !in ss[j].ledger.entryValue
    ensures var x := ss[j].workers[acts[j].w];
            && ss[j + 1].workers == ss[j].workers[acts[j].w := Idle]
            && x.pos in ss[j + 1].audit && ss[j + 1].audit[x.pos] == [Reject]
            && ss[j + 1].books == ss[j].books && ss[j + 1].ledger == ss[j].ledger
  {
    RunCoherent(ss, acts, j);
    assert Runs(ss[j], acts[j].w, ss[j].workers[acts[j].w].pos);
  }

  // ---------------------------------------------------------------- where a premium comes from

  /** Lots times lot size times the quoted ask, or the last price when there is no ask. */
  predicate Quoted(x: PreEntryGate.Inputs, amount: real) {
    && x.secondLeaf.Some?
    && (x.secondLeaf.value.ask > 0.0 ==> amount == x.lots as real * x.lotSize as real * x.secondLeaf.value.ask)
    && (x.secondLeaf.value.ask <= 0.0 ==> amount == x.lots as real * x.lotSize as real * x.secondLeaf.value.ltp)
  }

  /** Step `g` is the gate that position `p` passed, at this amount. */
  ghost predicate GatedBy(ss: seq<State>, acts: seq<Action>, g: nat, k: nat, p: PosId, amount: real) {
    && StepAt(ss, acts, g) && acts[g].Gate? && acts[g].w == k && PosOf(ss[g].workers[k]) == Some(p)
    && Quoted(acts[g].inputs, amount)
  }

  lemma AmountStep(s: State, a: Action, k: nat)
    requires Enabled(s, a) && k < |s.workers| && AmountOf(Apply(s, a).workers[k]).Some?
    ensures var x, y := s.workers[k], Apply(s, a).workers[k];
            && PosOf(y) == PosOf(x)
            && (AmountOf(x) == AmountOf(y) || (a.w == k && a.Gate? && Quoted(a.inputs, AmountOf(y).value)))
  {
  }

  /** In any run what a lifecycle asks for, holds and will release is the price quoted at its own gate. */
  lemma {:induction false} AmountIsQuoted(ss: seq<State>, acts: seq<Action>, j: nat, k: nat)
    requires IsRun(ss, acts) && j < |ss| && k < |ss[j].workers| && AmountOf(ss[j].workers[k]).Some?
    ensures exists g: nat :: g < j && GatedBy(ss, acts, g, k, PosOf(ss[j].workers[k]).value, AmountOf(ss[j].workers[k]).value)
  {
    if j > 0 {
      assert StepAt(ss, acts, j - 1);
      AmountStep(ss[j - 1], acts[j - 1], k);
      var x := ss[j].workers[k];
      if acts[j - 1].w == k && acts[j - 1].Gate? && Quoted(acts[j - 1].inputs, AmountOf(x).value) {
        assert GatedBy(ss, acts, j - 1, k, PosOf(x).value, AmountOf(x).value);
      } else {
        AmountIsQuoted(ss, acts, j - 1, k);
      }
    }
  }

  // ---------------------------------------------------------------- a worker left alone

  /** What a thread does next when nothing fails: the gate reads `inputs`, an order fills at `value`. */
  function NextOf(x: Worker, k: nat, inputs: PreEntryGate.Inputs, value: real): Action
    requires !x.Idle?
  {
    match x
    case Gating(_, _, flip) => if flip then FlipLook(k) else Gate(k, inputs)
    case FlipFound(_, _, _) => FlipLoad(k, true)
    case FlipLoaded(_, _, _, _) => FlipCleanup(k)
    case FlipCleaned(_, _, _, _) => FlipRelease(k)
    case Ready(_, _, _) => Watch(k)
    case InTxn(_, _, _, _, got) => if got.FreeBoth? then Decide(k) else Read(k)
    case Queued(_, _, _, _, _, _) => Exec(k, false)
    case Denied(_, _, _) => RecordRejection(k)
    case Reserved(_, _) => Fill(k, value)
    case Abandoned(_) => ReleaseSlot(k)
    case Live(_) => PushReport(k)
    case Reported(_) => Cleanup(k)
    case Cleaned(_) => ReleaseSlot(k)
  }

  function Left(attempt: nat): nat { if attempt < 5 then 10 * (5 - attempt) else 0 }

  function ReadsLeft(got: Reads): nat {
    match got
    case Nothing => 11
    case Free => 10
    case FreeOpen(_) => 9
    case FreeBoth(_, _) => 8
    case Taken => 10
    case TakenDeployed(_) => 9
  }

  /** How far a worker is from being idle again. */
  function Distance(x: Worker): nat {
    match x
    case Idle => 0
    case Gating(_, _, flip) => if flip then 67 else 63
    case FlipFound(_, _, _) => 66
    case FlipLoaded(_, _, _, _) => 65
    case FlipCleaned(_, _, _, _) => 64
    case Ready(_, _, n) => Left(n) + 12
    case InTxn(_, _, n, _, got) => Left(n) + ReadsLeft(got)
    case Queued(_, _, n, _, _, _) => Left(n) + 5
    case Denied(_, _, _) => 1
    case Reserved(_, _) => 4
    case Abandoned(_) => 1
    case Live(_) => 3
    case Reported(_) => 2
    case Cleaned(_) => 1
  }

  /** Whatever the others have done, a thread has a next step, and it brings it nearer to the end. */
  lemma NeverStuck(s: State, k: nat, inputs: PreEntryGate.Inputs, value: real)
    requires k < |s.workers| && !s.workers[k].Idle?
    ensures var a := NextOf(s.workers[k], k, inputs, value);
            && a.w == k && Enabled(s, a) && !a.Fail? && !a.RedisError?
            && |Apply(s, a).workers| == |s.workers| && Distance(Apply(s, a).workers[k]) < Distance(s.workers[k])
  {
  }

  /** Failures may strike anywhere: an exception in any lifecycle, a Redis error at any point of the allocator call. */
  lemma FailuresAnywhere(s: State, k: nat, p: PosId)
    requires k < |s.workers| && PosOf(s.workers[k]) == Some(p)
    ensures Enabled(s, Fail(k))
    ensures Calling(s, k, p) ==>
              Enabled(s, RedisError(k)) && Apply(s, RedisError(k)).workers[k].Denied? && Apply(s, RedisError(k)).books == s.books
    ensures s.workers[k].Reserved? ==> Enabled(s, Abandon(k))
    ensures s.workers[k].FlipLoaded? ==> Enabled(s, FlipAbort(k))
  {
  }

  /** The actions from `from` on are all of worker `k`, and none is a failure. */
  predicate AllBy(acts: seq<Action>, from: nat, k: nat) {
    forall j :: from <= j < |acts| ==> acts[j].w == k && !acts[j].Fail? && !acts[j].RedisError?
  }

  /** In any run, at any point, a worker left alone finishes its lifecycle within 67 steps of its own. */
  lemma {:induction false} FinishesAlone(ss: seq<State>, acts: seq<Action>, k: nat, inputs: PreEntryGate.Inputs, value: real)
    returns (ss': seq<State>, acts': seq<Action>)
    requires IsRun(ss, acts) && k < |ss[|acts|].workers|
    ensures IsRun(ss', acts') && acts <= acts' && AllBy(acts', |acts|, k)
    ensures |acts'| <= |acts| + Distance(ss[|acts|].workers[k])
    ensures k < |ss'[|acts'|].workers| && ss'[|acts'|].workers[k].Idle?
    decreases Distance(ss[|acts|].workers[k])
  {
    var s := ss[|acts|];
    if s.workers[k].Idle? {
      ss', acts' := ss, acts;
    } else {
      var a := NextOf(s.workers[k], k, inputs, value);
      NeverStuck(s, k, inputs, value);
      var ss1, acts1 := Extend(ss, acts, a);
      ss', acts' := FinishesAlone(ss1, acts1, k, inputs, value);
      assert acts'[|acts|] == acts1[|acts|] == a;
    }
  }
}
