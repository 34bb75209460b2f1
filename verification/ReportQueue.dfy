/**
  The bridge from worker threads to Postgres: `orders:reports:pending` is pushed at the tail by any
  number of workers, trimmed by them, and drained at the head by one loop that may put a report back.
  A report is known by its push number.
 */
module ReportQueue {
  import opened Core

  const LIMIT := 10_000

  /**
    The Redis list, the report in the drainer's hands, and where every other report went; `pushing`
    workers are between RPUSH and LTRIM, and `failedTrims` trims have failed since the last that worked.
   */
  datatype Queue = Queue(
    pushed: nat,
    pending: seq<nat>,
    inFlight: Option<nat>,
    persisted: seq<nat>,
    malformed: seq<nat>,
    trimmed: seq<nat>,
    lost: seq<nat>,
    pushing: nat,
    failedTrims: nat)

  /** One Redis round trip of a worker or of the drainer. */
  datatype Event =
    | Rpush
    | Ltrim
    | LtrimFails
    | Blpop
    | Persist
    | DropMalformed
    | Requeue
    | RequeueFails

  const EMPTY := Queue(0, [], None, [], [], [], [], 0, 0)

  predicate Enabled(q: Queue, e: Event) {
    match e
    case Rpush => true
    case Ltrim => q.pushing > 0
    case LtrimFails => q.pushing > 0
    case Blpop => q.inFlight.None? && q.pending != []
    case _ => q.inFlight.Some?
  }

  /** How many reports at the head LTRIM -10000 -1 cuts off. */
  function Excess(s: seq<nat>): nat {
    if |s| > LIMIT then |s| - LIMIT else 0
  }

  function Step(q: Queue, e: Event): Queue
    requires Enabled(q, e)
  {
    match e
    case Rpush => q.(pushed := q.pushed + 1, pending := q.pending + [q.pushed], pushing := q.pushing + 1)
    case Ltrim =>
      var n := Excess(q.pending);
      q.(pending := q.pending[n..], trimmed := q.trimmed + q.pending[..n], pushing := q.pushing - 1, failedTrims := 0)
    case LtrimFails => q.(pushing := q.pushing - 1, failedTrims := q.failedTrims + 1)
    case Blpop => q.(pending := q.pending[1..], inFlight := Some(q.pending[0]))
    case Persist => q.(inFlight := None, persisted := q.persisted + [q.inFlight.value])
    case DropMalformed => q.(inFlight := None, malformed := q.malformed + [q.inFlight.value])
    case Requeue => q.(inFlight := None, pending := [q.inFlight.value] + q.pending)
    case RequeueFails => q.(inFlight := None, lost := q.lost + [q.inFlight.value])
  }

  function Held(q: Queue): seq<nat> {
    if q.inFlight.Some? then [q.inFlight.value] else []
  }

  /** Database order: what is stored, what is being stored, what will be stored. */
  function Line(q: Queue): seq<nat> {
    q.persisted + Held(q) + q.pending
  }

  predicate Increasing(s: seq<nat>) {
    forall i, j :: 0 <= i < j < |s| ==> s[i] < s[j]
  }

  /** In how many places report `n` is. */
  function Copies(q: Queue, n: nat): nat {
    multiset(q.persisted)[n] + multiset(q.malformed)[n] + multiset(q.trimmed)[n] + multiset(q.lost)[n]
    + multiset(Held(q))[n] + multiset(q.pending)[n]
  }

  ghost predicate Inv(q: Queue) {
    && Increasing(Line(q))
    && (forall n :: n in Line(q) ==> n < q.pushed)
    && (forall n: nat :: Copies(q, n) == if n < q.pushed then 1 else 0)
    && |q.pending| + |Held(q)| <= LIMIT + 1 + q.pushing + q.failedTrims
  }

  /** Dropping a stretch from an increasing sequence leaves it increasing. */
  lemma CutKeepsOrder(s: seq<nat>, i: nat, j: nat)
    requires Increasing(s) && i <= j <= |s|
    ensures Increasing(s[..i] + s[j..])
    ensures forall n :: n in s[..i] + s[j..] ==> n in s
  {
  }

  lemma AppendKeepsOrder(s: seq<nat>, top: nat)
    requires Increasing(s) && forall n :: n in s ==> n < top
    ensures Increasing(s + [top]) && forall n :: n in s + [top] ==> n < top + 1
  {
    assert forall i :: 0 <= i < |s| ==> s[i] in s;
  }

  /** Apart from RPUSH, a step cuts a stretch (often empty) out of the line. */
  lemma LineAfter(q: Queue, e: Event) returns (from: nat, to: nat)
    requires Enabled(q, e) && !e.Rpush?
    ensures from <= to <= |Line(q)|
    ensures Line(Step(q, e)) == Line(q)[..from] + Line(q)[to..]
  {
    var done := |q.persisted|;
    from := if e.Ltrim? then done + |Held(q)| else done;
    to := if e.Ltrim? then from + Excess(q.pending) else if e.DropMalformed? || e.RequeueFails? then from + 1 else from;
  }

  lemma StepOrder(q: Queue, e: Event)
    requires Increasing(Line(q)) && (forall n :: n in Line(q) ==> n < q.pushed) && Enabled(q, e)
    ensures Increasing(Line(Step(q, e))) && forall n :: n in Line(Step(q, e)) ==> n < Step(q, e).pushed
  {
    if e.Rpush? {
      assert Line(Step(q, e)) == Line(q) + [q.pushed];
      AppendKeepsOrder(Line(q), q.pushed);
    } else {
      var from, to := LineAfter(q, e);
      CutKeepsOrder(Line(q), from, to);
    }
  }

  /** A step moves a report from one place to another, or adds the next number. */
  lemma StepConserves(q: Queue, e: Event, n: nat)
    requires Enabled(q, e)
    ensures Copies(Step(q, e), n) == Copies(q, n) + if e.Rpush? && n == q.pushed then 1 else 0
  {
    var cut := Excess(q.pending);
    assert q.pending == q.pending[..cut] + q.pending[cut..];
    if e.Blpop? {
      assert q.pending == [q.pending[0]] + q.pending[1..];
    }
  }

  lemma StepInv(q: Queue, e: Event)
    requires Inv(q) && Enabled(q, e)
    ensures Inv(Step(q, e))
  {
    StepOrder(q, e);
    forall n: nat ensures Copies(Step(q, e), n) == if n < Step(q, e).pushed then 1 else 0 {
      StepConserves(q, e, n);
    }
  }

  ghost predicate IsRun(qs: seq<Queue>, es: seq<Event>) {
    && |qs| == |es| + 1 && qs[0] == EMPTY
    && forall j :: 0 <= j < |es| ==> Enabled(qs[j], es[j]) && qs[j + 1] == Step(qs[j], es[j])
  }

  lemma {:induction false} RunInv(qs: seq<Queue>, es: seq<Event>, j: nat)
    requires IsRun(qs, es) && j < |qs|
    ensures Inv(qs[j])
  {
    if j == 0 {
      assert Line(EMPTY) == [];
    } else {
      RunInv(qs, es, j - 1);
      StepInv(qs[j - 1], es[j - 1]);
    }
  }

  /**
    After any interleaving: each pushed report is in exactly one place; stored, in-hand and queued
    reports are in push order despite requeues; and the backlog is bounded.
   */
  lemma NoReportLostOrDoubled(qs: seq<Queue>, es: seq<Event>, j: nat, n: nat)
    requires IsRun(qs, es) && j < |qs| && n < qs[j].pushed
    ensures Copies(qs[j], n) == 1
    ensures Increasing(qs[j].persisted + Held(qs[j]) + qs[j].pending)
    ensures |qs[j].pending| + |Held(qs[j])| <= 10_001 + qs[j].pushing + qs[j].failedTrims
  {
    RunInv(qs, es, j);
  }

  function Count(es: seq<Event>, e: Event): nat {
    if es == [] then 0 else Count(es[..|es| - 1], e) + if es[|es| - 1] == e then 1 else 0
  }

  /** The trims that failed since the last that worked. */
  function FailedSince(es: seq<Event>): nat {
    if es == [] || es[|es| - 1] == Ltrim then 0
    else FailedSince(es[..|es| - 1]) + if es[|es| - 1] == LtrimFails then 1 else 0
  }

  /** Both counters of the backlog bound, read off the events. */
  lemma {:induction false} TrimsCounted(qs: seq<Queue>, es: seq<Event>, j: nat)
    requires IsRun(qs, es) && j < |qs|
    ensures qs[j].pushed == Count(es[..j], Rpush)
    ensures qs[j].pushing == Count(es[..j], Rpush) - Count(es[..j], Ltrim) - Count(es[..j], LtrimFails)
    ensures qs[j].failedTrims == FailedSince(es[..j])
  {
    if j > 0 {
      TrimsCounted(qs, es, j - 1);
      assert es[..j][..j - 1] == es[..j - 1];
    }
  }

  /** A report is trimmed only when 10000 newer ones are waiting, and only older reports go. */
  lemma TrimDropsOldest(q: Queue, n: nat)
    requires Inv(q) && Enabled(q, Ltrim)
    requires n in q.pending && n !in Step(q, Ltrim).pending
    ensures |Step(q, Ltrim).pending| == 10_000
    ensures forall m :: m in Step(q, Ltrim).pending ==> n < m
  {
    var cut := Excess(q.pending);
    var i :| 0 <= i < |q.pending| && q.pending[i] == n;
    assert forall k :: cut <= k < |q.pending| ==> q.pending[k] == q.pending[cut..][k - cut];
    var base := |q.persisted| + |Held(q)|;
    forall m | m in Step(q, Ltrim).pending ensures n < m {
      var j :| cut <= j < |q.pending| && q.pending[j] == m;
      assert Line(q)[base + i] == n && Line(q)[base + j] == m;
    }
  }

  /** One turn of the drain loop: reports buffered meanwhile before and during the INSERT, and how it ended. */
  datatype Turn = Turn(before: nat, during: nat, outcome: Event)

  predicate Outcome(e: Event) { e.Persist? || e.DropMalformed? || e.Requeue? || e.RequeueFails? }

  predicate Script(turns: seq<Turn>) { forall k :: 0 <= k < |turns| ==> Outcome(turns[k].outcome) }

  /** A worker buffers one report: append, then cut the list back. */
  function Pushed(q: Queue): Queue { Step(Step(q, Rpush), Ltrim) }

  function Buffered(q: Queue, n: nat): (r: Queue)
    ensures r.inFlight == q.inFlight
  {
    if n == 0 then q else Pushed(Buffered(q, n - 1))
  }

  /** The queue and the two counters of the loop. */
  datatype Progress = Progress(q: Queue, drained: nat, requeued: nat)

  /** Reports arrive; the oldest is popped, if there is one; more arrive while it is being stored; it is settled. */
  function TurnAfter(p: Progress, t: Turn): (r: Progress)
    requires p.q.inFlight.None? && Outcome(t.outcome)
    ensures r.q.inFlight.None?
  {
    var b := Buffered(p.q, t.before);
    if b.pending == [] then p.(q := b)
    else
      var settled := Step(Buffered(Step(b, Blpop), t.during), t.outcome);
      Progress(settled,
               p.drained + if t.outcome.Persist? then 1 else 0,
               p.requeued + if t.outcome.Requeue? then 1 else 0)
  }

  function DrainAfter(q: Queue, turns: seq<Turn>): (r: Progress)
    requires q.inFlight.None? && Script(turns)
    ensures r.q.inFlight.None?
  {
    if turns == [] then Progress(q, 0, 0)
    else TurnAfter(DrainAfter(q, turns[..|turns| - 1]), turns[|turns| - 1])
  }

  /** Pushes keep the invariant, leave every other place alone, and of the queued reports drop only the oldest. */
  lemma {:induction false} BufferedKeeps(q: Queue, n: nat)
    requires Inv(q)
    ensures var r := Buffered(q, n);
            && Inv(r) && r.pushed == q.pushed + n && r.pushing == q.pushing
            && r.persisted == q.persisted && r.malformed == q.malformed && r.lost == q.lost && q.trimmed <= r.trimmed
            && r.trimmed + r.pending == q.trimmed + q.pending + Numbers(q.pushed, n)
            && (n > 0 ==> |r.pending| <= 10_000)
  {
    if n > 0 {
      BufferedKeeps(q, n - 1);
      var r := Buffered(q, n - 1);
      StepInv(r, Rpush);
      StepInv(Step(r, Rpush), Ltrim);
      PushedMoves(r);
      assert Numbers(q.pushed, n) == Numbers(q.pushed, n - 1) + [r.pushed];
    }
  }

  /** The push numbers from `from` on. */
  function Numbers(from: nat, n: nat): seq<nat> { seq(n, k requires 0 <= k => from + k) }

  lemma PushedMoves(q: Queue)
    ensures Pushed(q).trimmed + Pushed(q).pending == q.trimmed + q.pending + [q.pushed]
    ensures q.trimmed <= Pushed(q).trimmed && |Pushed(q).pending| <= LIMIT
  {
    var line, cut := q.pending + [q.pushed], Excess(q.pending + [q.pushed]);
    assert line == line[..cut] + line[cut..];
  }

  /** What the drain has achieved when the queue was `q` at its start. */
  ghost predicate Drains(q: Queue, p: Progress) {
    && Inv(p.q) && p.q.inFlight.None? && p.q.pushing == q.pushing
    && q.persisted <= p.q.persisted && |p.q.persisted| == |q.persisted| + p.drained
    && q.lost <= p.q.lost && q.malformed <= p.q.malformed && q.trimmed <= p.q.trimmed
  }

  lemma TurnDrains(q: Queue, p: Progress, t: Turn)
    requires Drains(q, p) && Outcome(t.outcome)
    ensures Drains(q, TurnAfter(p, t))
    ensures !t.outcome.RequeueFails? ==> TurnAfter(p, t).q.lost == p.q.lost
  {
    BufferedKeeps(p.q, t.before);
    var b := Buffered(p.q, t.before);
    if b.pending != [] {
      StepInv(b, Blpop);
      BufferedKeeps(Step(b, Blpop), t.during);
      StepInv(Buffered(Step(b, Blpop), t.during), t.outcome);
    }
  }

  /**
    Whatever the database does, stored reports are only ever added to and `drained` counts them, and
    a report is lost only when its put-back fails.
   */
  lemma {:induction false} DrainKeeps(q: Queue, turns: seq<Turn>)
    requires Inv(q) && q.inFlight.None? && Script(turns)
    ensures Drains(q, DrainAfter(q, turns))
    ensures (forall k :: 0 <= k < |turns| ==> !turns[k].outcome.RequeueFails?) ==> DrainAfter(q, turns).q.lost == q.lost
  {
    if turns != [] {
      var n := |turns| - 1;
      DrainKeeps(q, turns[..n]);
      TurnDrains(q, DrainAfter(q, turns[..n]), turns[n]);
    }
  }

  lemma DrainNext(q: Queue, turns: seq<Turn>, k: nat)
    requires q.inFlight.None? && Script(turns) && k < |turns|
    ensures DrainAfter(q, turns[..k + 1]) == TurnAfter(DrainAfter(q, turns[..k]), turns[k])
  {
    assert turns[..k + 1][..k] == turns[..k];
  }

  /** Between turns the stored and the queued reports together are in push order. */
  lemma OrderedBetweenTurns(q: Queue)
    requires Inv(q) && q.inFlight.None?
    ensures Increasing(q.persisted + q.pending)
  {
    assert Line(q) == q.persisted + q.pending;
  }

  /** A database that stores everything, with nobody pushing, empties the queue in its own order. */
  lemma {:induction false} HealthyDrainEmpties(q: Queue, turns: seq<Turn>)
    requires q.inFlight.None? && |turns| <= |q.pending|
    requires forall k :: 0 <= k < |turns| ==> turns[k] == Turn(0, 0, Persist)
    ensures Script(turns)
    ensures var r := DrainAfter(q, turns);
            && r.q.persisted == q.persisted + q.pending[..|turns|] && r.q.pending == q.pending[|turns|..]
            && r.drained == |turns|
  {
    if turns != [] {
      var n := |turns| - 1;
      HealthyDrainEmpties(q, turns[..n]);
      assert q.pending[n..][0] == q.pending[n] && q.pending[n..][1..] == q.pending[n + 1..];
      assert q.pending[..n] + [q.pending[n]] == q.pending[..n + 1];
    }
  }

  /** The shared list and the drainer's bookkeeping, changed in place. */
  class PendingReports {
    var pushed: nat
    var pending: seq<nat>
    var inFlight: Option<nat>
    var persisted: seq<nat>
    var malformed: seq<nat>
    var trimmed: seq<nat>
    var lost: seq<nat>

    function View(): Queue
      reads this
    {
      Queue(pushed, pending, inFlight, persisted, malformed, trimmed, lost, 0, 0)
    }

    constructor ()
      ensures View() == EMPTY && Inv(View())
    {
      pushed, pending, inFlight := 0, [], None;
      persisted, malformed, trimmed, lost := [], [], [], [];
      new;
      RunInv([EMPTY], [], 0);
    }

    /** A worker buffers one report: append, then cut the list back to the newest 10000. */
    method Buffer()
      requires Inv(View())
      modifies this
      ensures Inv(View()) && View() == Pushed(old(View()))
      ensures |pending| <= 10_000 && old(pushed) in pending
    {
      ghost var mid := Step(View(), Rpush);
      StepInv(View(), Rpush);
      StepInv(mid, Ltrim);
      pending := pending + [pushed];
      pushed := pushed + 1;
      var cut := Excess(pending);
      trimmed := trimmed + pending[..cut];
      pending := pending[cut..];
      assert pending[|pending| - 1] == old(pushed);
    }

    /** Any number of pushes in a row. */
    method BufferMany(n: nat)
      requires Inv(View())
      modifies this
      ensures Inv(View()) && View() == Buffered(old(View()), n)
    {
      for k := 0 to n
        invariant Inv(View()) && View() == Buffered(old(View()), k)
      {
        Buffer();
      }
    }

    /** The end of one turn: store, drop, put back at the head, or lose the report in hand. */
    method Settle(outcome: Event)
      requires Inv(View()) && inFlight.Some?
      requires Outcome(outcome)
      modifies this
      ensures View() == Step(old(View()), outcome) && Inv(View())
    {
      StepInv(View(), outcome);
      var report := inFlight.value;
      inFlight := None;
      if outcome == Persist {
        persisted := persisted + [report];
      } else if outcome == DropMalformed {
        malformed := malformed + [report];
      } else if outcome == Requeue {
        pending := [report] + pending;
      } else {
        lost := lost + [report];
      }
    }

    /** One BLPOP with its INSERT, while workers keep buffering. */
    method DrainOne(t: Turn, drained: nat, requeued: nat) returns (drained': nat, requeued': nat)
      requires Inv(View()) && inFlight.None? && Outcome(t.outcome)
      modifies this
      ensures Inv(View())
      ensures Progress(View(), drained', requeued') == TurnAfter(Progress(old(View()), drained, requeued), t)
    {
      drained', requeued' := drained, requeued;
      BufferMany(t.before);
      if pending == [] {
        return;
      }
      StepInv(View(), Blpop);
      inFlight, pending := Some(pending[0]), pending[1..];
      BufferMany(t.during);
      Settle(t.outcome);
      if t.outcome.Persist? {
        drained' := drained + 1;
      } else if t.outcome.Requeue? {
        requeued' := requeued + 1;
      }
    }

    /**
      The drain loop.  The queue and both counters are what the turns lead to; stored reports are
      only ever added to, in push order, and a report is lost only when its put-back fails.
     */
    method Drain(turns: seq<Turn>) returns (drained: nat, requeued: nat)
      requires Inv(View()) && inFlight.None? && Script(turns)
      modifies this
      ensures Progress(View(), drained, requeued) == DrainAfter(old(View()), turns)
      ensures Inv(View()) && inFlight.None?
      ensures old(persisted) <= persisted && |persisted| == |old(persisted)| + drained
      ensures Increasing(persisted + pending)
      ensures (forall k :: 0 <= k < |turns| ==> !turns[k].outcome.RequeueFails?) ==> lost == old(lost)
    {
      drained, requeued := 0, 0;
      ghost var start := View();
      for k := 0 to |turns|
        invariant Inv(View()) && inFlight.None?
        invariant Progress(View(), drained, requeued) == DrainAfter(start, turns[..k])
      {
        DrainNext(start, turns, k);
        drained, requeued := DrainOne(turns[k], drained, requeued);
      }
      assert turns[..|turns|] == turns;
      DrainKeeps(start, turns);
      OrderedBetweenTurns(View());
    }
  }
}
