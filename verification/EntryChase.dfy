/** Stages B and C in live mode: place a limit order, chase the ask, watch the order's events. */
module EntryChase {
  import opened Core

  const TICK := 100.0

  datatype Config = Config(buffer: real, drift: real, ceiling: real, timeoutMs: int, graceMs: int)

  datatype EventKind = Fill(qty: Option<int>, price: Option<real>) | PartialFill | RejectEvent | Other

  datatype OrderEvent = OrderEvent(order: string, kind: EventKind)

  /** What one XREAD brings: an error, nothing (then the ask is looked up), or a batch of events. */
  datatype Reply = Broken | Quiet(ask: Option<real>) | Batch(events: seq<OrderEvent>)

  /** One turn of the monitor loop: the clock at its top, the reply, and the clock after it. */
  datatype Turn = Turn(topMs: int, reply: Reply, afterMs: int)

  datatype Abandon = LeafMissing | NoAsk | PlaceRejected | CeilingBreached(ask: real) | BrokerReject | OpenTimeout

  datatype EntryResult = Entered(qty: int, price: real) | Abandoned(why: Abandon)

  function LimitPrice(cfg: Config, ask: real): real { RoundTo(ask + cfg.buffer, TICK) }

  // ---------------------------------------------------------------- reading a batch

  predicate HasReject(events: seq<OrderEvent>, order: string) {
    exists i :: 0 <= i < |events| && events[i].order == order && events[i].kind.RejectEvent?
  }

  /** The last fill of the order in a batch: it overwrites any earlier one. */
  function LastFill(events: seq<OrderEvent>, order: string): (fill: Option<EventKind>)
    ensures fill.Some? ==> fill.value.Fill?
  {
    if events == [] then None
    else
      var e := events[|events| - 1];
      if e.order == order && e.kind.Fill? then Some(e.kind) else LastFill(events[..|events| - 1], order)
  }

  /** A fill event without a quantity counts as a full fill. */
  function FilledQty(fill: EventKind, ordered: int): int
    requires fill.Fill?
  {
    if fill.qty.Some? then fill.qty.value else ordered
  }

  /** A fill event without a price counts as filled at the price first submitted. */
  function FilledPrice(fill: EventKind, submitted: real): real
    requires fill.Fill?
  {
    if fill.price.Some? then fill.price.value else submitted
  }

  /** Event `i` is a fill of the order, and no later one is. */
  predicate NewestFill(events: seq<OrderEvent>, order: string, i: int) {
    && 0 <= i < |events| && events[i].order == order && events[i].kind.Fill?
    && forall j :: i < j < |events| ==> !(events[j].order == order && events[j].kind.Fill?)
  }

  predicate NoFill(events: seq<OrderEvent>, order: string) {
    forall i :: 0 <= i < |events| ==> !(events[i].order == order && events[i].kind.Fill?)
  }

  /** A further event that is no fill of the order leaves the newest fill where it was. */
  lemma NewestFillStays(events: seq<OrderEvent>, order: string, i: int)
    requires events != [] && !(events[|events| - 1].order == order && events[|events| - 1].kind.Fill?)
    requires NewestFill(events[..|events| - 1], order, i)
    ensures NewestFill(events, order, i) && events[i] == events[..|events| - 1][i]
  {
    assert forall j :: 0 <= j < |events| - 1 ==> events[..|events| - 1][j] == events[j];
  }

  lemma NoFillStays(events: seq<OrderEvent>, order: string)
    requires events != [] && !(events[|events| - 1].order == order && events[|events| - 1].kind.Fill?)
    ensures NoFill(events, order) <==> NoFill(events[..|events| - 1], order)
  {
    assert forall j :: 0 <= j < |events| - 1 ==> events[..|events| - 1][j] == events[j];
  }

  /** The fill kept from a batch is there exactly when the batch has one, and is the newest. */
  lemma {:induction false} LastFillFound(events: seq<OrderEvent>, order: string)
    ensures LastFill(events, order).None? <==> NoFill(events, order)
    ensures LastFill(events, order).Some? ==> exists i :: NewestFill(events, order, i) && events[i].kind == LastFill(events, order).value
  {
    if events != [] {
      var n := |events| - 1;
      var front := events[..n];
      if events[n].order == order && events[n].kind.Fill? {
        assert NewestFill(events, order, n);
      } else {
        LastFillFound(front, order);
        NoFillStays(events, order);
        if LastFill(front, order).Some? {
          var i :| NewestFill(front, order, i) && front[i].kind == LastFill(front, order).value;
          NewestFillStays(events, order, i);
        }
      }
    }
  }

  /** A limit price is the ask plus the buffer, to the nearest paisa. */
  lemma LimitNearAsk(cfg: Config, ask: real)
    ensures -0.005 <= LimitPrice(cfg, ask) - (ask + cfg.buffer) <= 0.005
  {
    RoundToError(ask + cfg.buffer, TICK);
    WithinPaisa(LimitPrice(cfg, ask) - (ask + cfg.buffer));
  }

  lemma WithinPaisa(d: real)
    requires -0.5 <= d * TICK <= 0.5
    ensures -0.005 <= d <= 0.005
  {
  }

  predicate HasPartial(events: seq<OrderEvent>, order: string) {
    exists i :: 0 <= i < |events| && events[i].order == order && events[i].kind.PartialFill?
  }

  /** The inner loop over one batch. */
  method ScanBatch(events: seq<OrderEvent>, order: string, nowMs: int, partialAt: Option<int>)
    returns (rejected: bool, fill: Option<EventKind>, partialAt': Option<int>)
    ensures rejected <==> HasReject(events, order)
    ensures !rejected ==> fill == LastFill(events, order)
    ensures !rejected ==> partialAt' == if HasPartial(events, order) then Some(nowMs) else partialAt
  {
    rejected, fill, partialAt' := false, None, partialAt;
    for k := 0 to |events|
      invariant !rejected && !HasReject(events[..k], order) && fill == LastFill(events[..k], order)
      invariant partialAt' == if HasPartial(events[..k], order) then Some(nowMs) else partialAt
    {
      var e := events[k];
      assert events[..k + 1][..k] == events[..k] && events[..k + 1][k] == e;
      if e.order == order {
        match e.kind
        case Fill(_, _) => fill := Some(e.kind);
        case PartialFill => partialAt' := Some(nowMs);
        case RejectEvent => rejected := true; return;
        case Other =>
      }
    }
    assert events[..|events|] == events;
  }

  // ---------------------------------------------------------------- the chase

  /** Each reference ask is above the one before it by at least the drift and less than the ceiling. */
  predicate Climbs(cfg: Config, asks: seq<real>) {
    forall i :: 0 < i < |asks| ==> cfg.drift <= asks[i] - asks[i - 1] < cfg.ceiling
  }

  lemma ClimbsOn(cfg: Config, asks: seq<real>, ask: real)
    requires Climbs(cfg, asks) && asks != [] && cfg.drift <= ask - asks[|asks| - 1] < cfg.ceiling
    ensures Climbs(cfg, asks + [ask])
  {
    assert forall i :: 0 <= i < |asks| ==> (asks + [ask])[i] == asks[i];
  }

  /** After `k` modifications the reference ask lies between `k` drifts and `k` ceilings above the start. */
  lemma {:induction false} ChaseEnvelope(cfg: Config, asks: seq<real>, k: nat)
    requires Climbs(cfg, asks) && k < |asks|
    ensures asks[0] + k as real * cfg.drift <= asks[k] <= asks[0] + k as real * cfg.ceiling
    ensures k > 0 ==> asks[k] < asks[0] + k as real * cfg.ceiling
  {
    if k > 0 {
      ChaseEnvelope(cfg, asks, k - 1);
      OneMore(k, cfg.drift);
      OneMore(k, cfg.ceiling);
    }
  }

  lemma OneMore(k: nat, x: real)
    requires k > 0
    ensures k as real * x == (k - 1) as real * x + x
  {
    assert k as real == (k - 1) as real + 1.0;
  }

  /** With a non-negative drift the limit price sent to the broker never falls. */
  lemma {:induction false} LimitNeverFalls(cfg: Config, asks: seq<real>, i: nat, j: nat)
    requires Climbs(cfg, asks) && cfg.drift >= 0.0 && i <= j < |asks|
    ensures LimitPrice(cfg, asks[i]) <= LimitPrice(cfg, asks[j])
  {
    if i < j {
      LimitNeverFalls(cfg, asks, i, j - 1);
      RoundToMonotone(asks[j - 1] + cfg.buffer, asks[j] + cfg.buffer, TICK);
    }
  }

  /** A quiet XREAD blocks for its full time, and the clock does not run backwards. */
  predicate Blocks(start: int, turns: seq<Turn>) {
    && (turns != [] ==> turns[0].topMs >= start)
    && forall i :: 0 < i < |turns| ==>
         turns[i].topMs >= turns[i - 1].topMs + if turns[i - 1].reply.Quiet? then 500 else 0
  }

  function QuietTurns(turns: seq<Turn>): nat {
    if turns == [] then 0
    else QuietTurns(turns[..|turns| - 1]) + if turns[|turns| - 1].reply.Quiet? then 1 else 0
  }

  lemma {:induction false} QuietTakesTime(start: int, turns: seq<Turn>, n: nat)
    requires Blocks(start, turns) && n < |turns|
    ensures turns[n].topMs >= start + 500 * QuietTurns(turns[..n])
  {
    if n > 0 {
      QuietTakesTime(start, turns, n - 1);
      assert turns[..n][..n - 1] == turns[..n - 1];
    }
  }

  lemma QuietTurnsNext(turns: seq<Turn>, n: nat)
    requires n < |turns|
    ensures QuietTurns(turns[..n + 1]) == QuietTurns(turns[..n]) + if turns[n].reply.Quiet? then 1 else 0
  {
    assert turns[..n + 1][..n] == turns[..n];
  }

  /** Turns that start before the deadline leave room for so many quiet ones and no more. */
  lemma {:induction false} QuietTurnsBounded(start: int, turns: seq<Turn>, used: nat, timeoutMs: int)
    requires Blocks(start, turns) && used <= |turns|
    requires forall i :: 0 <= i < used ==> turns[i].topMs < start + timeoutMs
    ensures QuietTurns(turns[..used]) > 0 ==> 500 * (QuietTurns(turns[..used]) - 1) < timeoutMs
  {
    if used > 0 {
      QuietTurnsBounded(start, turns, used - 1, timeoutMs);
      QuietTurnsNext(turns, used - 1);
      QuietTakesTime(start, turns, used - 1);
    }
  }

  /** A batch that settles the order as filled. */
  predicate FillsOrder(t: Turn, order: string, qty: int) {
    && t.reply.Batch?
    && !HasReject(t.reply.events, order)
    && LastFill(t.reply.events, order).Some?
    && FilledQty(LastFill(t.reply.events, order).value, qty) != 0
  }

  /** A reply that leaves the order open. */
  predicate LeavesOpen(t: Turn, order: string) {
    t.reply.Batch? ==> !HasReject(t.reply.events, order) && LastFill(t.reply.events, order).None?
  }

  /** When the newest partial fill was seen in the first `n` turns. */
  function PartialSeen(turns: seq<Turn>, n: nat, order: string): Option<int>
    requires n <= |turns|
  {
    if n == 0 then None
    else
      var t := turns[n - 1];
      if t.reply.Batch? && HasPartial(t.reply.events, order) then Some(t.afterMs) else PartialSeen(turns, n - 1, order)
  }

  /** A quiet turn shows this ask. */
  predicate Shows(t: Turn, ask: real) { t.reply == Quiet(Some(ask)) && ask > 0.0 }

  /** The reference asks after the first `n` turns: the first one, and each quoted ask from the drift up to the ceiling. */
  function References(cfg: Config, ask0: real, turns: seq<Turn>, n: nat): (asks: seq<real>)
    requires n <= |turns|
    ensures asks != [] && asks[0] == ask0
  {
    if n == 0 then [ask0]
    else
      var asks, t := References(cfg, ask0, turns, n - 1), turns[n - 1];
      if t.reply.Quiet? && t.reply.ask.Some? && Shows(t, t.reply.ask.value)
         && cfg.drift <= t.reply.ask.value - asks[|asks| - 1] < cfg.ceiling
      then asks + [t.reply.ask.value]
      else asks
  }

  /** Turn `i` shows an ask that has run away from the reference of that moment. */
  predicate Breaches(cfg: Config, ask0: real, turns: seq<Turn>, i: nat)
    requires i < |turns|
  {
    && turns[i].reply.Quiet? && turns[i].reply.ask.Some? && Shows(turns[i], turns[i].reply.ask.value)
    && var asks := References(cfg, ask0, turns, i);
       turns[i].reply.ask.value - asks[|asks| - 1] >= cfg.ceiling
  }

  lemma {:induction false} ReferencesClimb(cfg: Config, ask0: real, turns: seq<Turn>, n: nat)
    requires n <= |turns|
    ensures Climbs(cfg, References(cfg, ask0, turns, n))
    ensures |References(cfg, ask0, turns, n)| - 1 <= QuietTurns(turns[..n])
  {
    if n > 0 {
      ReferencesClimb(cfg, ask0, turns, n - 1);
      QuietTurnsNext(turns, n - 1);
      var asks, t := References(cfg, ask0, turns, n - 1), turns[n - 1];
      if References(cfg, ask0, turns, n) != asks {
        ClimbsOn(cfg, asks, t.reply.ask.value);
      }
    }
  }

  /**
    Turn `i` lets the loop go on: a readable reply, the order still open, the ask below the ceiling,
    no partial fill past its grace.
   */
  predicate GoesOn(cfg: Config, ask0: real, turns: seq<Turn>, i: nat, order: string)
    requires i < |turns|
  {
    && !turns[i].reply.Broken? && LeavesOpen(turns[i], order) && !Breaches(cfg, ask0, turns, i)
    && (turns[i].reply.Batch? && PartialSeen(turns, i + 1, order).Some? ==>
          turns[i].afterMs - PartialSeen(turns, i + 1, order).value <= cfg.graceMs)
  }

  /** The drift check of a quiet turn: give up at the ceiling, chase from the drift on, else wait. */
  method Chase(cfg: Config, asks: seq<real>, seen: Option<real>) returns (breached: bool, asks': seq<real>)
    requires |asks| > 0
    ensures breached <==> seen.Some? && seen.value > 0.0 && seen.value - asks[|asks| - 1] >= cfg.ceiling
    ensures asks' ==
              if seen.Some? && seen.value > 0.0 && cfg.drift <= seen.value - asks[|asks| - 1] < cfg.ceiling
              then asks + [seen.value] else asks
  {
    breached, asks' := false, asks;
    if seen.Some? && seen.value > 0.0 {
      var ref := asks[|asks| - 1];
      if seen.value - ref >= cfg.ceiling {
        breached := true;
      } else if seen.value - ref >= cfg.drift {
        asks' := asks + [seen.value];
      }
    }
  }

  /** Why the monitor ended after `used` turns with `result`. */
  ghost predicate Ends(cfg: Config, ask0: real, qty: int, order: string, startMs: int, turns: seq<Turn>, used: nat, result: EntryResult)
    requires used <= |turns|
  {
    // no turn starts after the deadline, and every turn but the last let the loop go on
    && (forall i :: 0 <= i < used ==> turns[i].topMs < startMs + cfg.timeoutMs)
    && (forall i :: 0 <= i < used - 1 ==> GoesOn(cfg, ask0, turns, i, order))
    // entered exactly when the last turn filled the order, with the quantity and price of the fill
    && (result.Entered? <==> used > 0 && FillsOrder(turns[used - 1], order, qty))
    && (result.Entered? ==>
          var fill := LastFill(turns[used - 1].reply.events, order).value;
          && result.qty == (if fill.qty.Some? then fill.qty.value else qty) && result.qty != 0
          && result.price == (if fill.price.Some? then fill.price.value else LimitPrice(cfg, ask0)))
    // the three ways to abandon, each with its cause
    && (result == Abandoned(BrokerReject) <==>
          used > 0 && turns[used - 1].reply.Batch? && HasReject(turns[used - 1].reply.events, order))
    && (result.Abandoned? && result.why.CeilingBreached? <==> used > 0 && Breaches(cfg, ask0, turns, used - 1))
    && (result.Abandoned? && result.why.CeilingBreached? ==> Shows(turns[used - 1], result.why.ask))
    && (result == Abandoned(OpenTimeout) ==>
          || used == |turns|
          || turns[used].topMs >= startMs + cfg.timeoutMs
          || (used > 0 && !GoesOn(cfg, ask0, turns, used - 1, order)))
    && (result.Abandoned? ==> result.why in {OpenTimeout, BrokerReject} || result.why.CeilingBreached?)
  }

  /** The loop has gone on through `used` turns. */
  ghost predicate Watching(cfg: Config, ask0: real, order: string, startMs: int, turns: seq<Turn>, used: nat) {
    && used <= |turns|
    && forall i :: 0 <= i < used ==> turns[i].topMs < startMs + cfg.timeoutMs && GoesOn(cfg, ask0, turns, i, order)
  }

  /** An order that is still open when the loop stops has timed out. */
  lemma EndsByTimeout(cfg: Config, ask0: real, qty: int, order: string, startMs: int, turns: seq<Turn>, used: nat)
    requires Watching(cfg, ask0, order, startMs, turns, used)
    requires used == |turns| || turns[used].topMs >= startMs + cfg.timeoutMs
    ensures Ends(cfg, ask0, qty, order, startMs, turns, used, Abandoned(OpenTimeout))
  {
    assert used > 0 ==> GoesOn(cfg, ask0, turns, used - 1, order);
  }

  /** What a turn that does not let the loop go on makes of the entry. */
  function TurnResult(cfg: Config, ask0: real, qty: int, order: string, turns: seq<Turn>, i: nat): EntryResult
    requires i < |turns|
  {
    var t := turns[i];
    if Breaches(cfg, ask0, turns, i) then Abandoned(CeilingBreached(t.reply.ask.value))
    else if t.reply.Batch? && HasReject(t.reply.events, order) then Abandoned(BrokerReject)
    else if FillsOrder(t, order, qty) then
      var fill := LastFill(t.reply.events, order).value;
      Entered(FilledQty(fill, qty), FilledPrice(fill, LimitPrice(cfg, ask0)))
    else Abandoned(OpenTimeout)
  }

  lemma EndsAtTurn(cfg: Config, ask0: real, qty: int, order: string, startMs: int, turns: seq<Turn>, last: nat)
    requires Watching(cfg, ask0, order, startMs, turns, last) && last < |turns|
    requires turns[last].topMs < startMs + cfg.timeoutMs && !GoesOn(cfg, ask0, turns, last, order)
    ensures Ends(cfg, ask0, qty, order, startMs, turns, last + 1, TurnResult(cfg, ask0, qty, order, turns, last))
  {
  }

  lemma WatchesOn(cfg: Config, ask0: real, order: string, startMs: int, turns: seq<Turn>, n: nat)
    requires Watching(cfg, ask0, order, startMs, turns, n) && n < |turns|
    requires turns[n].topMs < startMs + cfg.timeoutMs && GoesOn(cfg, ask0, turns, n, order)
    ensures Watching(cfg, ask0, order, startMs, turns, n + 1)
  {
  }

  /** One turn of the loop: `None` to go on, else how the entry ends. */
  method TakeTurn(cfg: Config, ask0: real, qty: int, order: string, turns: seq<Turn>, i: nat, asks: seq<real>, partialAt: Option<int>)
    returns (end: Option<EntryResult>, asks': seq<real>, partialAt': Option<int>)
    requires i < |turns| && asks == References(cfg, ask0, turns, i) && partialAt == PartialSeen(turns, i, order)
    ensures asks' == References(cfg, ask0, turns, i + 1)
    ensures end.None? <==> GoesOn(cfg, ask0, turns, i, order)
    ensures end.None? ==> partialAt' == PartialSeen(turns, i + 1, order)
    ensures end.Some? ==> end.value == TurnResult(cfg, ask0, qty, order, turns, i)
  {
    var t := turns[i];
    end, asks', partialAt' := None, asks, partialAt;
    match t.reply
    case Broken =>
      end := Some(Abandoned(OpenTimeout));
    case Quiet(seen) =>
      var breached;
      breached, asks' := Chase(cfg, asks, seen);
      if breached {
        end := Some(Abandoned(CeilingBreached(seen.value)));
      }
    case Batch(events) =>
      var rejected, fill;
      rejected, fill, partialAt' := ScanBatch(events, order, t.afterMs, partialAt);
      if rejected {
        end := Some(Abandoned(BrokerReject));
      } else if fill.Some? && FilledQty(fill.value, qty) != 0 {
        end := Some(Entered(FilledQty(fill.value, qty), FilledPrice(fill.value, LimitPrice(cfg, ask0))));
      } else if fill.Some? || (partialAt'.Some? && t.afterMs - partialAt'.value > cfg.graceMs) {
        end := Some(Abandoned(OpenTimeout));
      }
  }

  /**
    The monitor loop over a script of turns.  `asks` lists the reference asks, one more per MODIFY;
    `used` is the number of turns consumed.
   */
  method Monitor(cfg: Config, ask0: real, qty: int, order: string, startMs: int, turns: seq<Turn>)
    returns (result: EntryResult, asks: seq<real>, used: nat)
    ensures used <= |turns| && asks == References(cfg, ask0, turns, used)
    ensures Ends(cfg, ask0, qty, order, startMs, turns, used, result)
  {
    var partialAt: Option<int> := None;
    asks, used := [ask0], 0;
    while used < |turns| && turns[used].topMs < startMs + cfg.timeoutMs
      invariant Watching(cfg, ask0, order, startMs, turns, used)
      invariant asks == References(cfg, ask0, turns, used) && partialAt == PartialSeen(turns, used, order)
    {
      var end;
      end, asks, partialAt := TakeTurn(cfg, ask0, qty, order, turns, used, asks, partialAt);
      used := used + 1;
      if end.Some? {
        EndsAtTurn(cfg, ask0, qty, order, startMs, turns, used - 1);
        return end.value, asks, used;
      }
      WatchesOn(cfg, ask0, order, startMs, turns, used - 1);
    }
    EndsByTimeout(cfg, ask0, qty, order, startMs, turns, used);
    result := Abandoned(OpenTimeout);
  }

  /** With blocking reads, the number of MODIFYs is bounded by the timeout over the block time. */
  lemma ModifiesBounded(cfg: Config, asks: seq<real>, startMs: int, turns: seq<Turn>, used: nat)
    requires Blocks(startMs, turns) && used <= |turns| && |asks| > 0
    requires forall i :: 0 <= i < used ==> turns[i].topMs < startMs + cfg.timeoutMs
    requires |asks| - 1 <= QuietTurns(turns[..used])
    ensures |asks| > 1 ==> 500 * (|asks| - 2) < cfg.timeoutMs
  {
    QuietTurnsBounded(startMs, turns, used, cfg.timeoutMs);
  }

  /** What is promised of the reference asks of one entry. */
  predicate Chased(cfg: Config, asks: seq<real>, startMs: int, turns: seq<Turn>) {
    && (forall k: nat :: 0 < k < |asks| ==>
          asks[0] + k as real * cfg.drift <= asks[k] < asks[0] + k as real * cfg.ceiling)
    && (cfg.drift >= 0.0 ==> forall k: nat :: 0 < k < |asks| ==> LimitPrice(cfg, asks[k - 1]) <= LimitPrice(cfg, asks[k]))
    && (Blocks(startMs, turns) && |asks| > 1 ==> 500 * (|asks| - 2) < cfg.timeoutMs)
  }

  lemma ChasedWhenClimbing(cfg: Config, asks: seq<real>, startMs: int, turns: seq<Turn>, used: nat)
    requires Climbs(cfg, asks) && |asks| > 0 && used <= |turns| && |asks| - 1 <= QuietTurns(turns[..used])
    requires forall i :: 0 <= i < used ==> turns[i].topMs < startMs + cfg.timeoutMs
    ensures Chased(cfg, asks, startMs, turns)
  {
    forall k: nat | 0 < k < |asks|
      ensures asks[0] + k as real * cfg.drift <= asks[k] < asks[0] + k as real * cfg.ceiling
    {
      ChaseEnvelope(cfg, asks, k);
    }
    if cfg.drift >= 0.0 {
      forall k: nat | 0 < k < |asks| ensures LimitPrice(cfg, asks[k - 1]) <= LimitPrice(cfg, asks[k]) {
        LimitNeverFalls(cfg, asks, k - 1, k);
      }
    }
    if Blocks(startMs, turns) {
      ModifiesBounded(cfg, asks, startMs, turns, used);
    }
  }

  /**
    The whole live entry, with the failures before the order exists; `asks` lists the reference asks,
    `used` counts the turns of the monitor.
   */
  method SubmitAndMonitor(cfg: Config, leaf: Option<real>, placed: bool, qty: int, order: string, startMs: int, turns: seq<Turn>)
    returns (result: EntryResult, asks: seq<real>, used: nat)
    ensures leaf.None? <==> result == Abandoned(LeafMissing)
    ensures leaf.Some? && leaf.value <= 0.0 <==> result == Abandoned(NoAsk)
    ensures leaf.Some? && leaf.value > 0.0 && !placed <==> result == Abandoned(PlaceRejected)
    // no order, no chase; otherwise the monitor's promise about this very order
    ensures used <= |turns|
    ensures if leaf.Some? && leaf.value > 0.0 && placed
            then asks == References(cfg, leaf.value, turns, used)
                 && Ends(cfg, leaf.value, qty, order, startMs, turns, used, result)
            else asks == [] && used == 0
    ensures result.Entered? <==>
              leaf.Some? && leaf.value > 0.0 && placed && used > 0 && FillsOrder(turns[used - 1], order, qty)
    // the envelope, the rising limit and the bound on modifications
    ensures Chased(cfg, asks, startMs, turns)
  {
    asks, used := [], 0;
    if leaf.None? {
      return Abandoned(LeafMissing), asks, used;
    }
    if leaf.value <= 0.0 {
      return Abandoned(NoAsk), asks, used;
    }
    if !placed {
      return Abandoned(PlaceRejected), asks, used;
    }
    result, asks, used := Monitor(cfg, leaf.value, qty, order, startMs, turns);
    ReferencesClimb(cfg, leaf.value, turns, used);
    ChasedWhenClimbing(cfg, asks, startMs, turns, used);
  }

  /**
    A full fill is not enough to enter: a reject read in the same batch turns it into an abandoned
    entry.  Together with `Monitor` this is exact, since any other batch with that fill enters.
   */
  lemma FillThenRejectIsAbandoned(order: string, qty: int)
    requires qty > 0
    ensures var fill := OrderEvent(order, Fill(Some(qty), None));
            var alone := Turn(0, Batch([fill]), 0);
            var both := Turn(0, Batch([fill, OrderEvent(order, RejectEvent)]), 0);
            FillsOrder(alone, order, qty) && !FillsOrder(both, order, qty) && !LeavesOpen(both, order)
  {
    var fill := OrderEvent(order, Fill(Some(qty), None));
    var both := [fill, OrderEvent(order, RejectEvent)];
    assert both[1].order == order && both[1].kind.RejectEvent?;
    assert LastFill([fill], order) == Some(fill.kind);
  }
}
