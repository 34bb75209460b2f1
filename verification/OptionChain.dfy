/** The tick processor: merging ticks into the in-memory option chains and writing dirty chains back. */
module OptionChain {
  import opened Core

  type Index = string
  type Token = string

  datatype Field = Ltp | Bid | Ask | BidQty | AskQty | TotalBidQty | TotalAskQty | Vol | Oi
  datatype Ladder = BidPrices | AskPrices | BidQtys | AskQtys

  /** A parsed tick; a field that the broker did not send is absent. */
  datatype Tick = Tick(token: Token, values: map<Field, real>, depth: map<Ladder, seq<Option<real>>>, ts: int)

  datatype Leaf = Leaf(token: Token, values: map<Field, real>, depth: map<Ladder, seq<Option<real>>>, ts: int)

  /** One index's chain: the strikes of its window and the leaves present. */
  datatype Chain = Chain(strikes: set<int>, leaves: map<(int, Side), Leaf>)

  datatype Slot = SpotSlot(index: Index) | LeafSlot(index: Index, strike: int, side: Side)

  const EMPTY_LADDER: seq<Option<real>> := [None, None, None, None, None]
  const FLUSH_MS := 50

  function Value(l: Leaf, f: Field): real { if f in l.values then l.values[f] else 0.0 }

  function Levels(l: Leaf, d: Ladder): seq<Option<real>> { if d in l.depth then l.depth[d] else EMPTY_LADDER }

  predicate Sends(t: Tick, d: Ladder) { d in t.depth && exists p :: p in t.depth[d] && p.Some? }

  const NEW_LEAF := Leaf("", map[], map[], 0)

  /** Field by field: the tick's value if it has one, else what was there, else zero. */
  function Merge(was: Leaf, t: Tick): Leaf {
    Leaf(
      if was.token != "" then was.token else t.token,
      map f: Field :: if f in t.values then t.values[f] else Value(was, f),
      map d: Ladder :: if Sends(t, d) then t.depth[d] else Levels(was, d),
      t.ts)
  }

  /** Strikes outside the window are ignored. */
  function UpdateLeaf(c: Chain, strike: int, side: Side, t: Tick): Chain {
    if strike !in c.strikes then c
    else
      var was := if (strike, side) in c.leaves then c.leaves[(strike, side)] else NEW_LEAF;
      c.(leaves := c.leaves[(strike, side) := Merge(was, t)])
  }

  datatype State = State(
    tokens: map<Token, Slot>,
    chains: map<Index, Chain>,
    stored: map<Index, Chain>,
    dirty: set<Index>)

  function ChainOf(m: map<Index, Chain>, i: Index): Chain {
    if i in m then m[i] else Chain({}, map[])
  }

  /** The in-memory effect of one tick. */
  function Touched(s: State, t: Tick): map<Index, Chain> {
    if t.token in s.tokens && s.tokens[t.token].LeafSlot? then
      var LeafSlot(i, k, side) := s.tokens[t.token];
      s.chains[i := UpdateLeaf(ChainOf(s.chains, i), k, side, t)]
    else s.chains
  }

  /** One tick; when the stream write fails the exception skips the dirty mark, not the merge. */
  function Process(s: State, t: Tick, written: bool): State {
    var next := s.(chains := Touched(s, t));
    if t.token in s.tokens && s.tokens[t.token].LeafSlot? && written
    then next.(dirty := s.dirty + {s.tokens[t.token].index})
    else next
  }

  /** Outside the dirty set, Redis holds exactly the chain in memory. */
  ghost predicate Synced(s: State) {
    forall i :: i !in s.dirty ==> ChainOf(s.stored, i) == ChainOf(s.chains, i)
  }

  /** The write-back keeps its promise on a tick exactly when the write succeeds, or nothing was at stake. */
  lemma ProcessSyncedExactly(s: State, t: Tick, written: bool)
    requires Synced(s)
    ensures Synced(Process(s, t, written)) <==>
              || written
              || t.token !in s.tokens
              || s.tokens[t.token].SpotSlot?
              || s.tokens[t.token].index in s.dirty
              || ChainOf(Touched(s, t), s.tokens[t.token].index) == ChainOf(s.chains, s.tokens[t.token].index)
  {
    var n := Process(s, t, written);
    if t.token in s.tokens && s.tokens[t.token].LeafSlot? {
      var i := s.tokens[t.token].index;
      assert forall j :: j != i ==> ChainOf(n.chains, j) == ChainOf(s.chains, j);
    }
  }

  // ---------------------------------------------------------------- the token index

  /** Leaf at a slot, if any. */
  function LeafAt(chains: map<Index, Chain>, i: Index, k: int, side: Side): (leaf: Option<Leaf>)
    ensures leaf.Some? <==> i in chains && (k, side) in chains[i].leaves
    ensures leaf.Some? ==> leaf.value == chains[i].leaves[(k, side)]
  {
    if i in chains && (k, side) in chains[i].leaves then Some(chains[i].leaves[(k, side)]) else None
  }

  /** The index sends a token to a leaf exactly when that leaf carries the token. */
  ghost predicate ExactInverse(s: State) {
    && (forall tok, i, k, side :: tok in s.tokens && s.tokens[tok] == LeafSlot(i, k, side) <==>
          tok != "" && LeafAt(s.chains, i, k, side).Some? && LeafAt(s.chains, i, k, side).value.token == tok)
    && (forall i, k, side :: LeafAt(s.chains, i, k, side).Some? ==> k in s.chains[i].strikes)
  }

  /** What boot lists, in order: every spot token and every leaf token, with its slot. */
  datatype Entry = Entry(slot: Slot, token: Token)

  /** The boot loop: later entries overwrite earlier ones, empty tokens are skipped. */
  method BuildIndex(entries: seq<Entry>) returns (index: map<Token, Slot>)
    ensures forall tok :: tok in index <==> tok != "" && exists j :: 0 <= j < |entries| && entries[j].token == tok
    ensures forall tok :: tok in index ==>
              exists j :: 0 <= j < |entries| && entries[j] == Entry(index[tok], tok)
                          && forall l :: j < l < |entries| ==> entries[l].token != tok
  {
    index := map[];
    for n := 0 to |entries|
      invariant forall tok :: tok in index <==> tok != "" && exists j :: 0 <= j < n && entries[j].token == tok
      invariant forall tok :: tok in index ==>
                  exists j :: 0 <= j < n && entries[j] == Entry(index[tok], tok)
                              && forall l :: j < l < n ==> entries[l].token != tok
    {
      if entries[n].token != "" {
        index := index[entries[n].token := entries[n].slot];
      }
    }
  }

  /** With distinct tokens, the index built at boot is an exact inverse of the leaves listed. */
  lemma BootIndexExact(entries: seq<Entry>, s: State)
    requires forall j, l :: 0 <= j < l < |entries| && entries[j].token == entries[l].token ==> entries[j].token == ""
    requires forall i, k, side, tok :: Entry(LeafSlot(i, k, side), tok) in entries <==>
               LeafAt(s.chains, i, k, side).Some? && LeafAt(s.chains, i, k, side).value.token == tok
    requires forall i, k, side :: LeafAt(s.chains, i, k, side).Some? ==> k in s.chains[i].strikes
    requires forall tok :: tok in s.tokens <==> tok != "" && exists j :: 0 <= j < |entries| && entries[j].token == tok
    requires forall tok :: tok in s.tokens ==> Entry(s.tokens[tok], tok) in entries
    ensures ExactInverse(s)
  {
    forall tok, i, k, side
      ensures tok in s.tokens && s.tokens[tok] == LeafSlot(i, k, side) <==>
              tok != "" && LeafAt(s.chains, i, k, side).Some? && LeafAt(s.chains, i, k, side).value.token == tok
    {
      if tok != "" && Entry(LeafSlot(i, k, side), tok) in entries {
        var j :| 0 <= j < |entries| && entries[j] == Entry(LeafSlot(i, k, side), tok);
        var l :| 0 <= l < |entries| && entries[l] == Entry(s.tokens[tok], tok);
        assert j == l;
      }
    }
  }

  /** Ticks never move a token: the index stays an exact inverse. */
  lemma ProcessKeepsInverse(s: State, t: Tick, written: bool)
    requires ExactInverse(s)
    ensures ExactInverse(Process(s, t, written))
  {
    var n := Process(s, t, written);
    if t.token in s.tokens && s.tokens[t.token].LeafSlot? {
      var LeafSlot(i, k, side) := s.tokens[t.token];
      assert s.tokens[t.token] == LeafSlot(i, k, side);
      assert LeafAt(s.chains, i, k, side).value.token == t.token;
      assert LeafAt(n.chains, i, k, side) == Some(Merge(LeafAt(s.chains, i, k, side).value, t));
      assert forall i', k', side' :: (i', k', side') != (i, k, side) ==>
          LeafAt(n.chains, i', k', side') == LeafAt(s.chains, i', k', side');
    }
  }

  // ---------------------------------------------------------------- runs of ticks

  /** A tick together with the fate of its stream write. */
  datatype Arrival = Arrival(tick: Tick, written: bool)

  function After(s: State, xs: seq<Arrival>): State {
    if xs == [] then s
    else Process(After(s, xs[..|xs| - 1]), xs[|xs| - 1].tick, xs[|xs| - 1].written)
  }

  /** The newest value sent for a token, or the initial one. */
  function LastSent(xs: seq<Arrival>, tok: Token, f: Field, initial: real): real {
    if xs == [] then initial
    else
      var t := xs[|xs| - 1].tick;
      if t.token == tok && f in t.values then t.values[f] else LastSent(xs[..|xs| - 1], tok, f, initial)
  }

  lemma {:induction false} AfterKeepsInverse(s: State, xs: seq<Arrival>)
    requires ExactInverse(s)
    ensures ExactInverse(After(s, xs)) && After(s, xs).tokens == s.tokens
  {
    if xs != [] {
      AfterKeepsInverse(s, xs[..|xs| - 1]);
      ProcessKeepsInverse(After(s, xs[..|xs| - 1]), xs[|xs| - 1].tick, xs[|xs| - 1].written);
    }
  }

  /** The merge, field by field: what the tick sends wins, a ladder counting as sent if any of its levels is known. */
  lemma MergeExactly(was: Leaf, t: Tick, f: Field, d: Ladder)
    ensures var now := Merge(was, t);
            && now.token == (if was.token == "" then t.token else was.token) && now.ts == t.ts
            && f in now.values && d in now.depth
            && now.values[f] == (if f in t.values then t.values[f] else if f in was.values then was.values[f] else 0.0)
            && now.depth[d] == (if d in t.depth && (exists i :: 0 <= i < |t.depth[d]| && t.depth[d][i].Some?) then t.depth[d]
                                else if d in was.depth then was.depth[d] else [None, None, None, None, None])
  {
    if d in t.depth && exists i :: 0 <= i < |t.depth[d]| && t.depth[d][i].Some? {
      var i :| 0 <= i < |t.depth[d]| && t.depth[d][i].Some?;
      assert t.depth[d][i] in t.depth[d];
    }
  }

  /** A slot inside the window takes the merge, a slot outside is ignored, and every other slot stays. */
  lemma UpdateExactly(c: Chain, strike: int, side: Side, t: Tick, k: int, other: Side)
    ensures var now := UpdateLeaf(c, strike, side, t);
            && now.strikes == c.strikes
            && (strike !in c.strikes ==> now == c)
            && ((k, other) != (strike, side) ==>
                  ((k, other) in now.leaves <==> (k, other) in c.leaves)
                  && ((k, other) in c.leaves ==> now.leaves[(k, other)] == c.leaves[(k, other)]))
            && (strike in c.strikes ==>
                  && (strike, side) in now.leaves
                  && now.leaves[(strike, side)] ==
                       Merge(if (strike, side) in c.leaves then c.leaves[(strike, side)] else Leaf("", map[], map[], 0), t))
  {
  }

  /** A tick of an unknown token, or of a spot, changes no chain. */
  lemma OtherTicksIgnored(s: State, t: Tick, written: bool)
    requires t.token !in s.tokens || s.tokens[t.token].SpotSlot?
    ensures Process(s, t, written) == s
  {
  }

  /** A leaf listens to the ticks of its own token and to no other. */
  lemma OneTick(s: State, tok: Token, t: Tick, written: bool)
    requires ExactInverse(s) && tok in s.tokens && s.tokens[tok].LeafSlot?
    ensures var LeafSlot(i, k, side) := s.tokens[tok];
            var was, now := LeafAt(s.chains, i, k, side), LeafAt(Process(s, t, written).chains, i, k, side);
            && was.Some? && was.value.token == tok && tok != ""
            && now == Some(if t.token == tok then Merge(was.value, t) else was.value)
  {
    var LeafSlot(i, k, side) := s.tokens[tok];
    assert s.tokens[tok] == LeafSlot(i, k, side);
    if t.token in s.tokens && s.tokens[t.token].LeafSlot? {
      var LeafSlot(i', k', side') := s.tokens[t.token];
      assert s.tokens[t.token] == LeafSlot(i', k', side');
    }
  }

  /** The newest ladder sent for a token, or the initial one. */
  function LastLadder(xs: seq<Arrival>, tok: Token, d: Ladder, initial: seq<Option<real>>): seq<Option<real>> {
    if xs == [] then initial
    else
      var t := xs[|xs| - 1].tick;
      if t.token == tok && d in t.depth && (exists i :: 0 <= i < |t.depth[d]| && t.depth[d][i].Some?) then t.depth[d]
      else LastLadder(xs[..|xs| - 1], tok, d, initial)
  }

  /** After any ticks, each scalar of a leaf is the last value sent for its token, each ladder the last one sent. */
  lemma {:induction false} LeafHoldsLastSent(s: State, xs: seq<Arrival>, tok: Token, f: Field, d: Ladder)
    requires ExactInverse(s) && tok in s.tokens && s.tokens[tok].LeafSlot?
    ensures var LeafSlot(i, k, side) := s.tokens[tok];
            var was, now := LeafAt(s.chains, i, k, side), LeafAt(After(s, xs).chains, i, k, side);
            && was.Some? && now.Some? && now.value.token == tok
            && Value(now.value, f) == LastSent(xs, tok, f, Value(was.value, f))
            && Levels(now.value, d) == LastLadder(xs, tok, d, Levels(was.value, d))
  {
    if xs == [] {
      assert s.tokens[tok] == LeafSlot(s.tokens[tok].index, s.tokens[tok].strike, s.tokens[tok].side);
    } else {
      var front, x := xs[..|xs| - 1], xs[|xs| - 1];
      LeafHoldsLastSent(s, front, tok, f, d);
      AfterKeepsInverse(s, front);
      OneTick(After(s, front), tok, x.tick, x.written);
      var slot := s.tokens[tok];
      MergeExactly(LeafAt(After(s, front).chains, slot.index, slot.strike, slot.side).value, x.tick, f, d);
    }
  }

  // ---------------------------------------------------------------- the loop

  /** One turn of the loop: a frame of ticks, or nothing within the timeout, and the clock afterwards. */
  datatype Turn = Frame(arrivals: seq<Arrival>, nowMs: int) | Timeout(nowMs: int)

  predicate AllWritten(xs: seq<Arrival>) {
    forall k :: 0 <= k < |xs| ==> xs[k].written
  }

  predicate TurnWritten(t: Turn) {
    t.Frame? ==> AllWritten(t.arrivals)
  }

  /** All ticks of a script of turns, in order. */
  function Arrivals(turns: seq<Turn>): seq<Arrival> {
    if turns == [] then []
    else Arrivals(turns[..|turns| - 1]) +
         if turns[|turns| - 1].Frame? then turns[|turns| - 1].arrivals else []
  }

  /** Memory depends on the ticks alone, not on how they were batched nor on what was flushed meanwhile. */
  lemma {:induction false} AfterInBatches(s: State, xs: seq<Arrival>, mid: State, ys: seq<Arrival>)
    requires mid.tokens == s.tokens && mid.chains == After(s, xs).chains
    ensures After(s, xs + ys).chains == After(mid, ys).chains && After(s, xs + ys).tokens == s.tokens
    ensures After(mid, ys).tokens == s.tokens
    decreases |ys|, |xs|
  {
    if ys == [] {
      assert xs + ys == xs;
      if xs != [] {
        var n := |xs| - 1;
        AfterInBatches(s, xs[..n], After(s, xs[..n]).(tokens := s.tokens), []);
        assert xs[..n] + [] == xs[..n];
      }
    } else {
      var n := |ys| - 1;
      assert (xs + ys)[..|xs| + n] == xs + ys[..n];
      AfterInBatches(s, xs, mid, ys[..n]);
    }
  }

  // ---------------------------------------------------------------- the loop as a function of its turns

  /** Every dirty chain written back, and no other. */
  function Flushed(s: State): State {
    s.(stored := s.stored + (map i | i in s.dirty :: ChainOf(s.chains, i)), dirty := {})
  }

  /** What the loop carries from turn to turn. */
  datatype Loop = Loop(s: State, lastFlushMs: int)

  function TurnStep(l: Loop, t: Turn): Loop {
    var s := if t.Frame? then After(l.s, t.arrivals) else l.s;
    if t.nowMs - l.lastFlushMs >= FLUSH_MS && s.dirty != {} then Loop(Flushed(s), t.nowMs) else Loop(s, l.lastFlushMs)
  }

  function LoopAfter(l: Loop, turns: seq<Turn>): Loop {
    if turns == [] then l else TurnStep(LoopAfter(l, turns[..|turns| - 1]), turns[|turns| - 1])
  }

  /**
    A turn flushes exactly when something is dirty and 50 ms have gone by since the last flush; then
    every chain it holds dirty is stored and the clock restarts, otherwise the store is not touched.
   */
  lemma FlushesEvery50Ms(l: Loop, t: Turn)
    ensures var s, next := if t.Frame? then After(l.s, t.arrivals) else l.s, TurnStep(l, t);
            && next.s.chains == s.chains
            && (if s.dirty != {} && t.nowMs >= l.lastFlushMs + 50
                then && next.s.dirty == {} && next.lastFlushMs == t.nowMs
                     && (forall i :: i in s.dirty ==> i in next.s.stored && next.s.stored[i] == ChainOf(s.chains, i))
                     && (forall i :: i !in s.dirty ==> ChainOf(next.s.stored, i) == ChainOf(s.stored, i))
                else next.s == s && next.lastFlushMs == l.lastFlushMs)
  {
  }

  lemma FlushedEverywhere(s: State)
    requires Synced(s)
    ensures forall i :: ChainOf(Flushed(s).stored, i) == ChainOf(s.chains, i)
  {
  }

  lemma {:induction false} AfterSynced(s: State, xs: seq<Arrival>)
    requires Synced(s) && AllWritten(xs)
    ensures Synced(After(s, xs))
  {
    if xs != [] {
      var front, x := xs[..|xs| - 1], xs[|xs| - 1];
      AfterSynced(s, front);
      ProcessSyncedExactly(After(s, front), x.tick, x.written);
    }
  }

  /** When every stream write succeeds, store and memory agree outside the dirty set after every turn. */
  lemma {:induction false} LoopSynced(l: Loop, turns: seq<Turn>)
    requires Synced(l.s) && forall k :: 0 <= k < |turns| ==> TurnWritten(turns[k])
    ensures Synced(LoopAfter(l, turns).s)
  {
    if turns != [] {
      var front, t := turns[..|turns| - 1], turns[|turns| - 1];
      LoopSynced(l, front);
      var before := LoopAfter(l, front).s;
      if t.Frame? {
        AfterSynced(before, t.arrivals);
        FlushedEverywhere(After(before, t.arrivals));
      } else {
        FlushedEverywhere(before);
      }
    }
  }

  /** The memory of the loop is the ticks of all frames, in order. */
  lemma {:induction false} LoopChains(l: Loop, turns: seq<Turn>)
    ensures LoopAfter(l, turns).s.chains == After(l.s, Arrivals(turns)).chains
    ensures LoopAfter(l, turns).s.tokens == l.s.tokens
  {
    if turns != [] {
      var front, t := turns[..|turns| - 1], turns[|turns| - 1];
      LoopChains(l, front);
      var ticks := if t.Frame? then t.arrivals else [];
      AfterInBatches(l.s, Arrivals(front), LoopAfter(l, front).s, ticks);
    }
  }

  class TickProcessor {
    const tokens: map<Token, Slot>
    var chains: map<Index, Chain>
    var stored: map<Index, Chain>
    var dirty: set<Index>
    var lastFlushMs: int

    function View(): State
      reads this
    {
      State(tokens, chains, stored, dirty)
    }

    /** Boot: memory is loaded from Redis, so nothing is dirty. */
    constructor (index: map<Token, Slot>, loaded: map<Index, Chain>, nowMs: int)
      ensures View() == State(index, loaded, loaded, {}) && Synced(View())
    {
      tokens, chains, stored, dirty, lastFlushMs := index, loaded, loaded, {}, nowMs;
    }

    /** Write every dirty chain back, and no other; the caller then clears the set. */
    method FlushChains()
      modifies this`stored, this`dirty
      ensures View() == Flushed(old(View()))
    {
      var todo := dirty;
      while todo != {}
        invariant todo <= dirty == old(dirty)
        invariant stored == old(stored) + (map i | i in dirty - todo :: ChainOf(chains, i))
        decreases todo
      {
        var i :| i in todo;
        stored := stored[i := ChainOf(chains, i)];
        todo := todo - {i};
      }
      dirty := {};
    }

    /** The ticks of one frame, in order. */
    method ApplyFrame(arrivals: seq<Arrival>)
      modifies this`chains, this`dirty
      ensures View() == After(old(View()), arrivals)
    {
      for n := 0 to |arrivals|
        invariant View() == After(old(View()), arrivals[..n])
      {
        var x := arrivals[n];
        ghost var before := View();
        assert arrivals[..n + 1][..n] == arrivals[..n];
        if x.tick.token in tokens && tokens[x.tick.token].LeafSlot? {
          var slot := tokens[x.tick.token];
          chains := chains[slot.index := UpdateLeaf(ChainOf(chains, slot.index), slot.strike, slot.side, x.tick)];
          if x.written {
            dirty := dirty + {slot.index};
          }
        }
        assert View() == Process(before, x.tick, x.written);
      }
      assert arrivals[..|arrivals|] == arrivals;
    }

    /**
      The loop until shutdown, with its final flush.  Memory has taken every tick of every frame in
      order; when every stream write succeeds, Redis and memory agree outside the dirty set after
      each turn, and everywhere at the end.
     */
    method Run(turns: seq<Turn>)
      modifies this
      ensures View() == Flushed(LoopAfter(Loop(old(View()), old(lastFlushMs)), turns).s)
      ensures chains == After(old(View()), Arrivals(turns)).chains && dirty == {}
      ensures old(Synced(View())) && (forall k :: 0 <= k < |turns| ==> TurnWritten(turns[k])) ==>
                && (forall n :: 0 <= n <= |turns| ==> Synced(LoopAfter(Loop(old(View()), old(lastFlushMs)), turns[..n]).s))
                && (forall i :: ChainOf(stored, i) == ChainOf(chains, i))
    {
      ghost var start := Loop(View(), lastFlushMs);
      for n := 0 to |turns|
        invariant Loop(View(), lastFlushMs) == LoopAfter(start, turns[..n])
      {
        assert turns[..n + 1][..n] == turns[..n];
        if turns[n].Frame? {
          ApplyFrame(turns[n].arrivals);
        }
        if turns[n].nowMs - lastFlushMs >= FLUSH_MS && dirty != {} {
          FlushChains();
          lastFlushMs := turns[n].nowMs;
        }
      }
      assert turns[..|turns|] == turns;
      LoopEnds(start, turns);
      if dirty != {} {
        FlushChains();
      }
    }
  }

  /** What the turns promise, before and after the final flush. */
  lemma LoopEnds(l: Loop, turns: seq<Turn>)
    ensures LoopAfter(l, turns).s.chains == After(l.s, Arrivals(turns)).chains
    ensures Synced(l.s) && (forall k :: 0 <= k < |turns| ==> TurnWritten(turns[k])) ==>
              && (forall n :: 0 <= n <= |turns| ==> Synced(LoopAfter(l, turns[..n]).s))
              && (forall i :: ChainOf(Flushed(LoopAfter(l, turns).s).stored, i) == ChainOf(LoopAfter(l, turns).s.chains, i))
  {
    LoopChains(l, turns);
    if Synced(l.s) && (forall k :: 0 <= k < |turns| ==> TurnWritten(turns[k])) {
      forall n | 0 <= n <= |turns| ensures Synced(LoopAfter(l, turns[..n]).s) {
        LoopSynced(l, turns[..n]);
      }
      assert turns[..|turns|] == turns;
      FlushedEverywhere(LoopAfter(l, turns).s);
    }
  }
}
