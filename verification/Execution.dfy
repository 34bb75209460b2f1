/**
  The order-execution pool as a step system.  Any number of worker threads run
  `process_signal` against one Redis.  Every Redis round trip that reads or writes the
  allocator, the position keys or the pointer is one step, so other workers may run
  between any two of them.  All inputs from outside (signals, gate
  readings, fills, failures) are carried by the actions.
 */
module Execution {
  import opened Core
  import opened Allocator
  import PreEntryGate

  type PosId = string

  const MAX_ATTEMPTS := 5

  /** What a running transaction has read so far, in the order the code reads it. */
  datatype Reads =
    | Nothing
    | Free
    | FreeOpen(open: int)
    | FreeBoth(open: int, deployed: real)
    | Taken
    | TakenDeployed(deployed: real)

  datatype Holding = Holding(pos: PosId, index: Index, premium: real)

  /** A committed reservation that has not been released; `live` while its position is on the books. */
  datatype Seat = Seat(h: Holding, live: bool)

  /** One worker: its place in `process_signal` and the locals still in use there. */
  datatype Worker =
    | Idle
    | Gating(pos: PosId, index: Index, flip: bool)
    | FlipFound(pos: PosId, index: Index, prior: PosId)
    | FlipLoaded(pos: PosId, index: Index, prior: PosId, value: real)
    | FlipCleaned(pos: PosId, index: Index, prior: PosId, value: real)
    | Ready(pos: PosId, req: Request, attempt: nat)
    | InTxn(pos: PosId, req: Request, attempt: nat, seen: nat, got: Reads)
    | Queued(pos: PosId, req: Request, attempt: nat, seen: nat, open: int, deployed: real)
    | Denied(pos: PosId, req: Request, verdict: Verdict)
    | Reserved(h: Holding, verdict: Verdict)
    | Abandoned(h: Holding)
    | Live(h: Holding)
    | Reported(h: Holding)
    | Cleaned(h: Holding)

  /** What a lifecycle has done in its own name; kept per position as an audit trail. */
  datatype Effect =
    | Reserve(index: Index, premium: real)
    | Reject
    | Open
    | Report
    | Close
    | Release(index: Index, premium: real)
    | Crash

  /** Position keys: membership sets, per-index pointer, and `entry_price * qty` from the position hash. */
  datatype Ledger = Ledger(
    open: set<PosId>,
    openByIndex: map<Index, set<PosId>>,
    closedToday: set<PosId>,
    pointer: map<Index, PosId>,
    entryValue: map<PosId, real>)

  /** `version` counts writes to the three watched keys; `leaked` lists slots lost to exceptions. */
  datatype State = State(
    books: Books,
    version: nat,
    ledger: Ledger,
    workers: seq<Worker>,
    leaked: seq<Option<Seat>>,
    audit: map<PosId, seq<Effect>>)

  datatype Action =
    | Begin(w: nat, pos: PosId, index: Index, flip: bool)
    | FlipLook(w: nat)
    | FlipLoad(w: nat, valid: bool)
    | FlipAbort(w: nat)
    | FlipCleanup(w: nat)
    | FlipRelease(w: nat)
    | Gate(w: nat, inputs: PreEntryGate.Inputs)
    | Watch(w: nat)
    | Read(w: nat)
    | Decide(w: nat)
    | Exec(w: nat, helperRetries: bool)
    | RedisError(w: nat)
    | RecordRejection(w: nat)
    | Abandon(w: nat)
    | Fill(w: nat, entryValue: real)
    | PushReport(w: nat)
    | Cleanup(w: nat)
    | ReleaseSlot(w: nat)
    | Fail(w: nat)

  function ByIndex(l: Ledger, i: Index): set<PosId> {
    if i in l.openByIndex then l.openByIndex[i] else {}
  }

  /** The pointer key, where a missing key and the empty string both mean "no position". */
  function Pointer(l: Ledger, i: Index): Option<PosId> {
    if i in l.pointer then Some(l.pointer[i]) else None
  }

  function PosOf(w: Worker): Option<PosId> {
    match w
    case Idle => None
    case Gating(p, _, _) => Some(p)
    case FlipFound(p, _, _) => Some(p)
    case FlipLoaded(p, _, _, _) => Some(p)
    case FlipCleaned(p, _, _, _) => Some(p)
    case Ready(p, _, _) => Some(p)
    case InTxn(p, _, _, _, _) => Some(p)
    case Queued(p, _, _, _, _, _) => Some(p)
    case Denied(p, _, _) => Some(p)
    case _ => Some(w.h.pos)
  }

  /** The seat a worker occupies between its committed reserve and its release. */
  function SeatOf(w: Worker): Option<Seat> {
    match w
    case Reserved(h, _) => Some(Seat(h, false))
    case Abandoned(h) => Some(Seat(h, false))
    case Live(h) => Some(Seat(h, true))
    case Reported(h) => Some(Seat(h, true))
    case Cleaned(h) => Some(Seat(h, false))
    case _ => None
  }

  /** The confirmed-fill pipeline: both membership sets, the pointer and the position hash. */
  function OpenPosition(l: Ledger, h: Holding, value: real): Ledger {
    l.(open := l.open + {h.pos},
       openByIndex := l.openByIndex[h.index := ByIndex(l, h.index) + {h.pos}],
       pointer := l.pointer[h.index := h.pos],
       entryValue := l.entryValue[h.pos := value])
  }

  /** The cleanup pipeline. */
  function ClosePosition(l: Ledger, pos: PosId, i: Index): Ledger {
    l.(open := l.open - {pos},
       openByIndex := l.openByIndex[i := ByIndex(l, i) - {pos}],
       closedToday := l.closedToday + {pos},
       pointer := l.pointer - {i},
       entryValue := l.entryValue - {pos})
  }

  /** The caps are tested on the values read, not on the store. */
  function Decided(x: Worker): Worker
    requires x.InTxn? && x.got.FreeBoth?
  {
    var InTxn(p, r, n, v, FreeBoth(open, dep)) := x;
    if open + 1 > r.maxOpen then Denied(p, r, Refused(MaxConcurrentReached, dep, open))
    else if dep + r.premium > r.capital then Denied(p, r, Refused(InsufficientCapital, dep, open))
    else Queued(p, r, n, v, open, dep)
  }

  /** The next read of a transaction, made on the store as it is now. */
  function ReadNext(b: Books, x: Worker): Worker
    requires x.InTxn? && !x.got.FreeBoth?
  {
    match x.got
    case Nothing => x.(got := if x.req.index in b.symbols then Taken else Free)
    case Free => x.(got := FreeOpen(b.openTotal))
    case FreeOpen(open) => x.(got := FreeBoth(open, b.deployedTotal))
    case Taken => x.(got := TakenDeployed(b.deployedTotal))
    case TakenDeployed(dep) => Denied(x.pos, x.req, Refused(AlreadyOpenOnIndex, dep, b.openTotal))
  }

  predicate Enabled(s: State, a: Action) {
    && a.w < |s.workers|
    && var x := s.workers[a.w];
       match a
       case Begin(_, pos, _, _) => x.Idle? && pos !in s.audit
       case FlipLook(_) => x.Gating? && x.flip
       case FlipLoad(_, _) => x.FlipFound?
       case FlipAbort(_) => x.FlipLoaded?
       case FlipCleanup(_) => x.FlipLoaded?
       case FlipRelease(_) => x.FlipCleaned?
       case Gate(_, _) => x.Gating? && !x.flip
       case Watch(_) => x.Ready?
       case Read(_) => x.InTxn? && !x.got.FreeBoth?
       case Decide(_) => x.InTxn? && x.got.FreeBoth?
       case Exec(_, _) => x.Queued?
       case RedisError(_) => x.Ready? || x.InTxn? || x.Queued?
       case RecordRejection(_) => x.Denied?
       case Abandon(_) => x.Reserved?
       case Fill(_, _) => x.Reserved?
       case PushReport(_) => x.Live?
       case Cleanup(_) => x.Reported?
       case ReleaseSlot(_) => x.Abandoned? || x.Cleaned?
       case Fail(_) => !x.Idle?
  }

  // ---------------------------------------------------------------- what each action writes

  /** EXEC applies the queued writes only if no watched key changed since WATCH. */
  predicate Commits(s: State, a: Action)
    requires Enabled(s, a)
  {
    a.Exec? && s.workers[a.w].seen == s.version
  }

  /** Both reservation and release are one transaction on the three watched keys. */
  function NextBooks(s: State, a: Action): Books
    requires Enabled(s, a)
  {
    var x := s.workers[a.w];
    if Commits(s, a) then Allocator.Reserve(s.books, x.req)
    else if a.ReleaseSlot? then Allocator.Release(s.books, x.h.index, x.h.premium)
    else if a.FlipRelease? then Allocator.Release(s.books, x.index, x.value)
    else s.books
  }

  /** A flip cleans up the prior position; the thread that opened it is not told. */
  function NextLedger(s: State, a: Action): Ledger
    requires Enabled(s, a)
  {
    var x := s.workers[a.w];
    if a.Fill? then OpenPosition(s.ledger, x.h, a.entryValue)
    else if a.Cleanup? then ClosePosition(s.ledger, x.h.pos, x.h.index)
    else if a.FlipCleanup? then ClosePosition(s.ledger, x.prior, x.index)
    else s.ledger
  }

  /**
    After a failed EXEC the client helper may watch again by itself, or let the conflict reach the
    allocator's own loop of five attempts.
   */
  function AfterExec(x: Worker, committed: bool, helperRetries: bool): Worker
    requires x.Queued?
  {
    if committed then
      Reserved(Holding(x.pos, x.req.index, x.req.premium), Granted(x.deployed + x.req.premium, x.open + 1))
    else if helperRetries then Ready(x.pos, x.req, x.attempt)
    else if x.attempt + 1 < MAX_ATTEMPTS then Ready(x.pos, x.req, x.attempt + 1)
    else Denied(x.pos, x.req, Refused(RetryExhausted, 0.0, 0))
  }

  /** Where the worker goes. */
  function NextWorker(s: State, a: Action): Worker
    requires Enabled(s, a)
  {
    var x := s.workers[a.w];
    match a
    case Begin(_, pos, i, flip) => Gating(pos, i, flip)
    case FlipLook(_) =>
      if Pointer(s.ledger, x.index).None? then x.(flip := false)
      else FlipFound(x.pos, x.index, s.ledger.pointer[x.index])
    case FlipLoad(_, valid) =>
      if valid && x.prior in s.ledger.entryValue then FlipLoaded(x.pos, x.index, x.prior, s.ledger.entryValue[x.prior])
      else Idle
    case FlipAbort(_) => Idle
    case FlipCleanup(_) => FlipCleaned(x.pos, x.index, x.prior, x.value)
    case FlipRelease(_) => Gating(x.pos, x.index, false)
    case Gate(_, inputs) =>
      (match PreEntryGate.Gate(inputs, x.index)
       case Rejected(_) => Idle
       case Passed(req) => Ready(x.pos, req, 0))
    case Watch(_) => InTxn(x.pos, x.req, x.attempt, s.version, Nothing)
    case Read(_) => ReadNext(s.books, x)
    case Decide(_) => Decided(x)
    case Exec(_, helperRetries) => AfterExec(x, x.seen == s.version, helperRetries)
    case RedisError(_) => Denied(x.pos, x.req, Refused(AllocatorError, 0.0, 0))
    case RecordRejection(_) => Idle
    case Abandon(_) => Abandoned(x.h)
    case Fill(_, _) => Live(x.h)
    case PushReport(_) => Reported(x.h)
    case Cleanup(_) => Cleaned(x.h)
    case ReleaseSlot(_) => Idle
    case Fail(_) => Idle
  }

  /** The leak list once `pos` is off the books; with `released`, its slot is given back as well. */
  function Settled(leaked: seq<Option<Seat>>, pos: PosId, released: bool): seq<Option<Seat>> {
    seq(|leaked|, k requires 0 <= k < |leaked| =>
      if leaked[k].None? || leaked[k].value.h.pos != pos then leaked[k]
      else if released then None
      else Some(leaked[k].value.(live := false)))
  }

  /** An exception escapes to the worker loop: the thread lives on, a held slot does not come back. */
  function NextLeaked(s: State, a: Action): seq<Option<Seat>>
    requires Enabled(s, a)
  {
    var x := s.workers[a.w];
    if a.Fail? && SeatOf(x).Some? then s.leaked + [SeatOf(x)]
    else if a.FlipCleanup? then Settled(s.leaked, x.prior, false)
    else if a.FlipRelease? then Settled(s.leaked, x.prior, true)
    else s.leaked
  }

  /** The effect an action leaves in the audit trail of its own lifecycle. */
  function EffectOf(s: State, a: Action): Option<Effect>
    requires Enabled(s, a)
  {
    var x := s.workers[a.w];
    match a
    case FlipLoad(_, _) => if NextWorker(s, a).Idle? then Some(Reject) else None
    case FlipAbort(_) => Some(Reject)
    case Gate(_, inputs) => if PreEntryGate.Gate(inputs, x.index).Rejected? then Some(Reject) else None
    case Exec(_, _) => if Commits(s, a) then Some(Reserve(x.req.index, x.req.premium)) else None
    case RecordRejection(_) => Some(Reject)
    case Abandon(_) => Some(Reject)
    case Fill(_, _) => Some(Open)
    case PushReport(_) => Some(Report)
    case Cleanup(_) => Some(Close)
    case ReleaseSlot(_) => Some(Release(x.h.index, x.h.premium))
    case Fail(_) => Some(Crash)
    case _ => None
  }

  function NextAudit(s: State, a: Action): map<PosId, seq<Effect>>
    requires Enabled(s, a)
  {
    var p := if a.Begin? then a.pos else PosOf(s.workers[a.w]).value;
    if a.Begin? then s.audit[p := []]
    else match EffectOf(s, a)
         case None => s.audit
         case Some(e) => s.audit[p := (if p in s.audit then s.audit[p] else []) + [e]]
  }

  predicate WritesBooks(s: State, a: Action)
    requires Enabled(s, a)
  {
    Commits(s, a) || a.ReleaseSlot? || a.FlipRelease?
  }

  function Apply(s: State, a: Action): State
    requires Enabled(s, a)
  {
    State(
      NextBooks(s, a),
      if WritesBooks(s, a) then s.version + 1 else s.version,
      NextLedger(s, a),
      s.workers[a.w := NextWorker(s, a)],
      NextLeaked(s, a),
      NextAudit(s, a))
  }

  predicate Init(s: State) {
    && s.books == Books(map[], 0.0, map[], 0, {})
    && s.ledger == Ledger({}, map[], {}, map[], map[])
    && (forall k :: 0 <= k < |s.workers| ==> s.workers[k] == Idle)
    && s.leaked == []
    && s.audit == map[]
  }

  /** A run: the states visited by a sequence of enabled actions. */
  ghost predicate IsRun(ss: seq<State>, acts: seq<Action>) {
    && |ss| == |acts| + 1
    && Init(ss[0])
    && forall j :: 0 <= j < |acts| ==> StepAt(ss, acts, j)
  }

  /** Action `j` leads from state `j` to the next one. */
  ghost predicate StepAt(ss: seq<State>, acts: seq<Action>, j: nat) {
    j < |acts| && j + 1 < |ss| && Enabled(ss[j], acts[j]) && ss[j + 1] == Apply(ss[j], acts[j])
  }

  /** No signal of the run carries the REVERSAL_FLIP intent. */
  predicate FlipFree(acts: seq<Action>) {
    forall j :: 0 <= j < |acts| ==> !(acts[j].Begin? && acts[j].flip)
  }
}
