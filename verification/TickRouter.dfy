/** Fan-out of tick notifications to vessels, kept in step with their baskets. */
module TickRouter {
  import opened StrikeBasket

  /** A vessel is known by its dirty event. */
  type Vessel = nat
  type Routes = map<Token, seq<Vessel>>

  const PREFIX := "market_data:pub:tick:"

  function Channel(t: Token): string { PREFIX + t }

  predicate Routed(routes: Routes, t: Token, v: Vessel) {
    t in routes && v in routes[t]
  }

  predicate NoDuplicates(s: seq<Vessel>) {
    forall i, j :: 0 <= i < j < |s| ==> s[i] != s[j]
  }

  /** No token keeps an empty list and no vessel is listed twice. */
  predicate Tidy(routes: Routes) {
    forall t :: t in routes ==> routes[t] != [] && NoDuplicates(routes[t])
  }

  /** Routing as recomputed from the baskets. */
  ghost predicate Agrees(routes: Routes, baskets: map<Vessel, set<Token>>) {
    Tidy(routes) && forall t, v :: Routed(routes, t, v) <==> v in baskets && t in baskets[v]
  }

  function Remove(s: seq<Vessel>, v: Vessel): seq<Vessel> {
    if s == [] then [] else if s[0] == v then s[1..] else [s[0]] + Remove(s[1..], v)
  }

  lemma {:induction false} RemoveExact(s: seq<Vessel>, v: Vessel)
    requires NoDuplicates(s)
    ensures NoDuplicates(Remove(s, v))
    ensures forall u :: u in Remove(s, v) <==> u in s && u != v
  {
    if s != [] {
      RemoveExact(s[1..], v);
      assert s[0] !in s[1..];
    }
  }

  function Desired(routes: Routes): set<string> {
    set t | t in routes :: Channel(t)
  }

  /** Distinct tokens have distinct channels, so the subscribed set determines the tokens. */
  lemma DesiredExact(routes: Routes, t: Token)
    ensures "market_data:pub:tick:" + t in Desired(routes) <==> t in routes
  {
    if Channel(t) in Desired(routes) {
      var u :| u in routes && Channel(u) == Channel(t);
      assert u == Channel(u)[|PREFIX|..] == Channel(t)[|PREFIX|..] == t;
    }
  }

  class Router {
    var routes: Routes
    var subscribed: set<string>
    var connected: bool

    constructor ()
      ensures routes == map[] && subscribed == {} && !connected
      ensures Agrees(routes, map[])
    {
      routes, subscribed, connected := map[], {}, false;
    }

    /** Adds exactly one pair; a second call changes nothing. */
    method Register(t: Token, v: Vessel)
      requires Tidy(routes)
      modifies this`routes
      ensures Tidy(routes)
      ensures forall u, w :: Routed(routes, u, w) <==> Routed(old(routes), u, w) || (u == t && w == v)
      ensures old(Routed(routes, t, v)) ==> routes == old(routes)
    {
      var listed := if t in routes then routes[t] else [];
      if v !in listed {
        routes := routes[t := listed + [v]];
        assert v in routes[t] by { assert routes[t][|listed|] == v; }
      }
    }

    /** Removes exactly one pair, and the token with its last vessel. */
    method Unregister(t: Token, v: Vessel)
      requires Tidy(routes)
      modifies this`routes
      ensures Tidy(routes)
      ensures forall u, w :: Routed(routes, u, w) <==> Routed(old(routes), u, w) && !(u == t && w == v)
    {
      var listed := if t in routes then routes[t] else [];
      RemoveExact(listed, v);
      var kept := if v in listed then Remove(listed, v) else listed;
      if kept == [] {
        routes := routes - {t};
      } else {
        routes := routes[t := kept];
        assert forall w :: w in kept <==> w in listed && w != v;
      }
    }

    /** Subscribe to what is missing, drop what is no longer wanted. */
    method Reconcile()
      modifies this`subscribed
      ensures subscribed == if connected then Desired(routes) else old(subscribed)
    {
      if !connected {
        return;
      }
      var desired := Desired(routes);
      var toAdd, toDrop := desired - subscribed, subscribed - desired;
      while toAdd != {}
        invariant subscribed + toAdd == old(subscribed) + desired
        invariant toDrop == old(subscribed) - desired
        decreases toAdd
      {
        var ch :| ch in toAdd;
        subscribed, toAdd := subscribed + {ch}, toAdd - {ch};
      }
      while toDrop != {}
        invariant subscribed - toDrop == desired && desired <= subscribed
        decreases toDrop
      {
        var ch :| ch in toDrop;
        subscribed, toDrop := subscribed - {ch}, toDrop - {ch};
      }
    }

    /** The subscriber loop starts: the connection is there and whatever was registered before is subscribed. */
    method Connect()
      modifies this`connected, this`subscribed
      ensures connected && subscribed == Desired(routes)
    {
      connected := true;
      Reconcile();
    }

    /** The route part of applying a transition for vessel `v`. */
    method Reroute(v: Vessel, added: set<Token>, dropped: set<Token>)
      requires Tidy(routes) && added !! dropped
      modifies this`routes
      ensures Tidy(routes)
      ensures forall t, w :: Routed(routes, t, w) <==>
                if w == v then t in added || (Routed(old(routes), t, w) && t !in dropped) else Routed(old(routes), t, w)
    {
      var todo := added;
      while todo != {}
        invariant Tidy(routes) && todo <= added
        invariant forall t, w :: Routed(routes, t, w) <==> Routed(old(routes), t, w) || (w == v && t in added - todo)
        decreases todo
      {
        var t :| t in todo;
        Register(t, v);
        todo := todo - {t};
      }
      todo := dropped;
      while todo != {}
        invariant Tidy(routes) && todo <= dropped
        invariant forall t, w :: Routed(routes, t, w) <==>
                    (Routed(old(routes), t, w) || (w == v && t in added)) && !(w == v && t in dropped - todo)
        decreases todo
      {
        var t :| t in todo;
        Unregister(t, v);
        todo := todo - {t};
      }
    }
  }

  /** Routing by difference equals routing by recomputation. */
  lemma AgreesAfterShift(routes: Routes, after: Routes, baskets: map<Vessel, set<Token>>, v: Vessel, have: set<Token>, want: set<Token>)
    requires Agrees(routes, baskets) && Tidy(after)
    requires have == if v in baskets then baskets[v] else {}
    requires forall t, w :: Routed(after, t, w) <==>
               if w == v then t in want - have || (Routed(routes, t, w) && t !in have - want) else Routed(routes, t, w)
    ensures Agrees(after, baskets[v := want])
  {
  }

  /** Applying a transition: move the routes by its two differences, then reconcile the subscriptions. */
  method ApplyTransition(router: Router, v: Vessel, t: Transition, ghost have: set<Token>, ghost baskets: map<Vessel, set<Token>>)
    requires Agrees(router.routes, baskets) && have == if v in baskets then baskets[v] else {}
    requires t.added == AllTokens(t.basket) - have && t.dropped == have - AllTokens(t.basket)
    modifies router
    ensures Agrees(router.routes, baskets[v := AllTokens(t.basket)]) && router.connected == old(router.connected)
    ensures router.connected ==> router.subscribed == Desired(router.routes)
  {
    router.Reroute(v, t.added, t.dropped);
    AgreesAfterShift(old(router.routes), router.routes, baskets, v, have, AllTokens(t.basket));
    router.Reconcile();
  }

  /** A basket check of one vessel: shift if due, and bring routes and subscriptions in line. */
  method EnsureBasket(router: Router, v: Vessel, basket: Basket, x: Sample, cfg: StrikeBasket.Config,
                      ghost baskets: map<Vessel, set<Token>>)
    returns (next: Basket, dropped: set<Token>)
    requires cfg.step > 0
    requires Agrees(router.routes, baskets)
    requires AllTokens(basket) == if v in baskets then baskets[v] else {}
    modifies router
    ensures next == Next(basket, x, cfg) && router.connected == old(router.connected)
    ensures Agrees(router.routes, baskets[v := AllTokens(next)])
    ensures dropped == AllTokens(basket) - AllTokens(next)
    ensures router.connected && (MaybeShift(basket, x, cfg).Some? || old(router.subscribed == Desired(router.routes))) ==>
              router.subscribed == Desired(router.routes)
  {
    ShiftTokens(basket, x, cfg);
    var t := MaybeShift(basket, x, cfg);
    if t.None? {
      AgreesAfterShift(router.routes, router.routes, baskets, v, AllTokens(basket), AllTokens(basket));
      next, dropped := basket, {};
    } else {
      next, dropped := t.value.basket, t.value.dropped;
      ApplyTransition(router, v, t.value, AllTokens(basket), baskets);
    }
  }

  const NO_BASKET := Basket(0, [], [], map[], map[], 0)

  /** What happens to a fleet: a basket check of one vessel, or the router's connection coming up. */
  datatype Event = Check(v: Vessel, x: Sample) | Connect

  /** Every vessel has its own configuration. */
  type Configs = Vessel -> StrikeBasket.Config

  ghost predicate Configured(cfgs: Configs) {
    forall v: Vessel :: cfgs(v).step > 0
  }

  /** The checks of one vessel, in order. */
  function ChecksOf(events: seq<Event>, v: Vessel): seq<Sample> {
    if events == [] then []
    else
      var e := events[|events| - 1];
      ChecksOf(events[..|events| - 1], v) + if e.Check? && e.v == v then [e.x] else []
  }

  /** The basket that a vessel's own checks lead to. */
  function Expected(events: seq<Event>, v: Vessel, cfg: StrikeBasket.Config): Basket
    requires cfg.step > 0
  {
    After(NO_BASKET, ChecksOf(events, v), cfg)
  }

  /** A vessel's basket moves with its own checks only. */
  lemma OneMoreEvent(events: seq<Event>, k: nat, v: Vessel, cfg: StrikeBasket.Config)
    requires cfg.step > 0 && k < |events|
    ensures Expected(events[..k + 1], v, cfg) ==
              var was := Expected(events[..k], v, cfg);
              if events[k].Check? && events[k].v == v then Next(was, events[k].x, cfg) else was
  {
    var mine := ChecksOf(events[..k], v);
    assert events[..k + 1][..k] == events[..k];
    if events[k].Check? && events[k].v == v {
      assert (mine + [events[k].x])[..|mine|] == mine;
    } else {
      assert mine + [] == mine;
    }
  }

  function BasketOf(fleet: map<Vessel, Basket>, v: Vessel): Basket { if v in fleet then fleet[v] else NO_BASKET }

  /** Every vessel has the basket that its own checks among the first `k` events lead to. */
  ghost predicate InStep(fleet: map<Vessel, Basket>, events: seq<Event>, k: nat, cfgs: Configs)
    requires Configured(cfgs) && k <= |events|
  {
    && (forall v :: BasketOf(fleet, v) == Expected(events[..k], v, cfgs(v)))
    && (forall i :: 0 <= i < k && events[i].Check? ==> events[i].v in fleet)
  }

  lemma InStepNext(fleet: map<Vessel, Basket>, events: seq<Event>, k: nat, cfgs: Configs)
    requires Configured(cfgs) && k < |events| && InStep(fleet, events, k, cfgs)
    ensures events[k].Connect? ==> InStep(fleet, events, k + 1, cfgs)
    ensures events[k].Check? ==>
              var v := events[k].v;
              InStep(fleet[v := Next(BasketOf(fleet, v), events[k].x, cfgs(v))], events, k + 1, cfgs)
  {
    forall u ensures Expected(events[..k + 1], u, cfgs(u)) ==
                       if events[k].Check? && events[k].v == u then Next(BasketOf(fleet, u), events[k].x, cfgs(u))
                       else BasketOf(fleet, u)
    {
      OneMoreEvent(events, k, u, cfgs(u));
    }
  }

  function TokensOf(fleet: map<Vessel, Basket>): map<Vessel, set<Token>> { map v | v in fleet :: AllTokens(fleet[v]) }

  /** What the router owes the fleet. */
  ghost predicate Serves(routes: Routes, subscribed: set<string>, connected: bool, fleet: map<Vessel, Basket>) {
    && Agrees(routes, TokensOf(fleet))
    && (connected ==> subscribed == Desired(routes))
  }

  /** One more event: the vessel's basket and the routes move together. */
  method HandleOne(router: Router, fleet: map<Vessel, Basket>, events: seq<Event>, k: nat, cfgs: Configs)
    returns (fleet': map<Vessel, Basket>)
    requires Configured(cfgs) && k < |events| && InStep(fleet, events, k, cfgs)
    requires Serves(router.routes, router.subscribed, router.connected, fleet)
    modifies router
    ensures InStep(fleet', events, k + 1, cfgs)
    ensures Serves(router.routes, router.subscribed, router.connected, fleet')
    ensures router.connected == (old(router.connected) || events[k].Connect?)
  {
    InStepNext(fleet, events, k, cfgs);
    match events[k]
    case Connect =>
      router.Connect();
      fleet' := fleet;
    case Check(v, x) =>
      ghost var tokens := TokensOf(fleet);
      var next, dropped := EnsureBasket(router, v, BasketOf(fleet, v), x, cfgs(v), tokens);
      fleet' := fleet[v := next];
      assert TokensOf(fleet') == tokens[v := AllTokens(next)];
  }

  lemma FleetInStep(fleet: map<Vessel, Basket>, events: seq<Event>, v: Vessel, cfgs: Configs)
    requires Configured(cfgs) && InStep(fleet, events, |events|, cfgs) && v in fleet
    ensures fleet[v] == Expected(events, v, cfgs(v))
  {
    assert events[..|events|] == events;
    assert fleet[v] == BasketOf(fleet, v);
  }

  lemma FleetServed(routes: Routes, fleet: map<Vessel, Basket>)
    requires Agrees(routes, TokensOf(fleet))
    ensures Tidy(routes) && forall t, v :: Routed(routes, t, v) <==> v in fleet && t in AllTokens(fleet[v])
  {
    forall t, v ensures Routed(routes, t, v) <==> v in fleet && t in AllTokens(fleet[v]) {
      assert Routed(routes, t, v) <==> v in TokensOf(fleet) && t in TokensOf(fleet)[v];
    }
  }

  /**
    A fleet of vessels, each with its own configuration, whose baskets are checked in any order, the
    router connecting at any time: every vessel has the basket its own checks lead to and is woken by
    exactly the tokens of that basket, and from the connection on the subscribed channels are the
    ones desired, what was registered before it included.
   */
  method RunFleet(router: Router, events: seq<Event>, cfgs: Configs) returns (fleet: map<Vessel, Basket>)
    requires Configured(cfgs) && router.routes == map[] && router.subscribed == {}
    modifies router
    ensures forall v :: v in fleet ==> fleet[v] == Expected(events, v, cfgs(v))
    ensures forall k :: 0 <= k < |events| && events[k].Check? ==> events[k].v in fleet
    ensures Tidy(router.routes)
    ensures forall t, v :: Routed(router.routes, t, v) <==>
              v in fleet && (t in fleet[v].ceTokens.Values || t in fleet[v].peTokens.Values)
    ensures router.connected <==> old(router.connected) || Connect in events
    ensures router.connected ==> router.subscribed == Desired(router.routes)
  {
    fleet := map[];
    for k := 0 to |events|
      invariant InStep(fleet, events, k, cfgs)
      invariant Serves(router.routes, router.subscribed, router.connected, fleet)
      invariant router.connected <==> old(router.connected) || Connect in events[..k]
    {
      assert events[..k + 1] == events[..k] + [events[k]];
      fleet := HandleOne(router, fleet, events, k, cfgs);
    }
    FleetServed(router.routes, fleet);
    forall v | v in fleet ensures fleet[v] == Expected(events, v, cfgs(v)) {
      FleetInStep(fleet, events, v, cfgs);
    }
    assert events[..|events|] == events;
  }
}
