/**
  Runs of the Dolev protocol come to rest: relayed paths grow by a node per hop, and
  a delivery, after which empty paths start anew, happens once per node. So from every
  reachable state correct nodes alone reach one with nothing left to handle, and after
  a broadcast everybody who can deliver has delivered there.
 */
module DolevRest {
  import opened Weights
  import opened PathHeights
  import opened Dissemination
  import opened DolevNetwork
  import opened DolevDelivery
  import R = Routes

  // ---- How much is left to do ----

  ghost function HeightIn(net: Net): Packet -> nat {
    (m: Packet) => Height(net.cfg.n, net.source, m)
  }

  ghost function Undelivered(nodes: seq<NodeState>): nat {
    if nodes == [] then 0
    else Undelivered(nodes[..|nodes| - 1]) + if nodes[|nodes| - 1].delivered then 0 else 1
  }

  lemma {:induction false} UndeliveredUpdate(nodes: seq<NodeState>, u: nat, st: NodeState)
    requires u < |nodes| && (nodes[u].delivered ==> st.delivered)
    ensures Undelivered(nodes[u := st]) == Undelivered(nodes) - if st.delivered && !nodes[u].delivered then 1 else 0
  {
    var k := |nodes| - 1;
    if u == k {
      assert nodes[u := st][..k] == nodes[..k];
    } else {
      UndeliveredUpdate(nodes[..k], u, st);
      assert nodes[u := st][..k] == nodes[..k][u := st];
    }
  }

  /** What a delivery is worth. */
  ghost function Price(net: Net): nat {
    Pow(Links(net.neighbors) + 1, net.cfg.n + 1)
  }

  ghost function LoadIn(net: Net, transit: multiset<Packet>): nat {
    Load(transit, Links(net.neighbors), HeightIn(net))
  }

  ghost function Work(net: Net, s: State): nat {
    LoadIn(net, s.transit) + Worth(Undelivered(s.nodes), Price(net))
  }

  // ---- Every step does some of it ----

  /** Does this message make an undelivered node start empty paths? */
  ghost predicate Pays(net: Net, s: State, m: Packet)
    requires ValidNet(net) && |s.nodes| == net.cfg.n && Enabled(net, s, Handle(m))
  {
    && Emptied(net, s, m) && m.from != net.source && m.to != net.source && !Dropped(net.cfg, s.nodes[m.to], m)
  }

  lemma OutIsLower(net: Net, s: State, m: Packet, p: Packet)
    requires ValidNet(net) && Shape(net, s) && Enabled(net, s, Handle(m)) && p in Out(net, s, m) && !Pays(net, s, m)
    ensures HeightIn(net)(p) < HeightIn(net)(m)
  {
    OutMember(net, s, m, p);
    if m.to != net.source && m.from != net.source {
      RelayIsLower(net.cfg.n, net.source, m, p);
    } else {
      FirstHopsAreHigh(net.cfg.n, net.source, m, p);
    }
  }

  lemma OutBound(net: Net, s: State, m: Packet)
    requires ValidNet(net) && |s.nodes| == net.cfg.n && Enabled(net, s, Handle(m))
    ensures |Out(net, s, m)| <= Links(net.neighbors)
  {
    RelaysLength(m.to, net.neighbors[m.to], net.source, Emptied(net, s, m), Assembled(net.source, m));
    DegreeBound(net.neighbors, m.to);
  }

  lemma OutIsOrdinary(net: Net, s: State, m: Packet, p: Packet)
    requires ValidNet(net) && |s.nodes| == net.cfg.n && Enabled(net, s, Handle(m)) && p in Out(net, s, m)
    requires m.to != net.source
    ensures HeightIn(net)(p) <= net.cfg.n
  {
    OutMember(net, s, m, p);
  }

  lemma PaidLoad(net: Net, s: State, m: Packet)
    requires ValidNet(net) && |s.nodes| == net.cfg.n && Enabled(net, s, Handle(m)) && m.to != net.source
    ensures LoadIn(net, s.transit - multiset{m} + multiset(Out(net, s, m))) < LoadIn(net, s.transit) + Price(net)
  {
    var out, height := Out(net, s, m), HeightIn(net);
    OutBound(net, s, m);
    forall p | p in out ensures height(p) <= net.cfg.n { OutIsOrdinary(net, s, m, p); }
    OrdinaryLoad(net, s.transit, height, m, out);
  }

  lemma OrdinaryLoad(net: Net, transit: multiset<Packet>, height: Packet -> nat, m: Packet, out: seq<Packet>)
    requires m in transit && |out| <= Links(net.neighbors) && forall p | p in out :: height(p) <= net.cfg.n
    ensures Load(transit - multiset{m} + multiset(out), Links(net.neighbors), height)
          < Load(transit, Links(net.neighbors), height) + Price(net)
  {
    BoundedLoad(transit, Links(net.neighbors), height, m, out, net.cfg.n);
  }

  lemma UnpaidLoad(net: Net, s: State, m: Packet)
    requires ValidNet(net) && Shape(net, s) && Enabled(net, s, Handle(m)) && !Pays(net, s, m)
    ensures LoadIn(net, s.transit - multiset{m} + multiset(Out(net, s, m))) < LoadIn(net, s.transit)
  {
    var out := Out(net, s, m);
    OutBound(net, s, m);
    forall p | p in out ensures HeightIn(net)(p) < HeightIn(net)(m) { OutIsLower(net, s, m, p); }
    LowerLoad(s.transit, Links(net.neighbors), HeightIn(net), m, out);
  }

  lemma HandleLoad(net: Net, s: State, m: Packet)
    requires ValidNet(net) && Shape(net, s) && Enabled(net, s, Handle(m))
    ensures LoadIn(net, After(net, s, Handle(m)).transit) < LoadIn(net, s.transit)
            + if Pays(net, s, m) then Price(net) else 0
  {
    if Pays(net, s, m) { PaidLoad(net, s, m); } else { UnpaidLoad(net, s, m); }
  }

  lemma HandleUndelivered(net: Net, s: State, m: Packet)
    requires ValidNet(net) && |s.nodes| == net.cfg.n && Enabled(net, s, Handle(m))
    ensures Undelivered(After(net, s, Handle(m)).nodes) <= Undelivered(s.nodes) - if Pays(net, s, m) then 1 else 0
  {
    UndeliveredUpdate(s.nodes, m.to, NextState(net.cfg, net.source, net.source, s.nodes[m.to], m));
  }

  lemma HandleWorks(net: Net, s: State, m: Packet)
    requires ValidNet(net) && Shape(net, s) && Enabled(net, s, Handle(m))
    ensures Work(net, After(net, s, Handle(m))) < Work(net, s)
  {
    HandleLoad(net, s, m);
    HandleUndelivered(net, s, m);
    var next := After(net, s, Handle(m));
    LessInAll(LoadIn(net, next.transit), Undelivered(next.nodes), LoadIn(net, s.transit), Undelivered(s.nodes),
        Price(net));
  }

  // ---- So runs come to rest ----

  /** No message to a correct node is pending, whoever sent it. */
  ghost predicate Drained(net: Net, s: State) {
    forall m | m in s.transit :: !Correct(net, m.to)
  }

  /** `longer` continues the run `events` with steps of correct nodes. */
  ghost predicate OnlyHandles(events: seq<Event>, longer: seq<Event>) {
    events <= longer && forall i | |events| <= i < |longer| :: longer[i].Handle?
  }

  lemma HandledFirst(events: seq<Event>, m: Packet, longer: seq<Event>)
    requires OnlyHandles(events + [Handle(m)], longer)
    ensures OnlyHandles(events, longer)
  {
    assert (events + [Handle(m)])[|events|] == longer[|events|];
  }

  lemma HandleNext(net: Net, events: seq<Event>, m: Packet)
    requires ValidNet(net) && Run(net, events).Some? && m in Run(net, events).value.transit && Correct(net, m.to)
    ensures var next := Run(net, events + [Handle(m)]);
            && next.Some? && Work(net, next.value) < Work(net, Run(net, events).value)
            && next.value.broadcast == Run(net, events).value.broadcast
  {
    ShapeAlways(net, events);
    EveryMessageCanBeHandled(net, events, m);
    RunStep(net, events, Handle(m));
    HandleWorks(net, Run(net, events).value, m);
  }

  /** Under any modifications every run can be continued, by correct nodes alone, until nothing
      is left to handle. */
  lemma {:induction false} RunsComeToRest(net: Net, events: seq<Event>) returns (longer: seq<Event>)
    requires ValidNet(net) && Run(net, events).Some?
    ensures OnlyHandles(events, longer) && Run(net, longer).Some? && Drained(net, Run(net, longer).value)
    ensures Run(net, longer).value.broadcast == Run(net, events).value.broadcast
    decreases Work(net, Run(net, events).value)
  {
    var s := Run(net, events).value;
    if Drained(net, s) {
      longer := events;
    } else {
      var m :| m in s.transit && Correct(net, m.to);
      HandleNext(net, events, m);
      longer := RunsComeToRest(net, events + [Handle(m)]);
      HandledFirst(events, m, longer);
    }
  }

  /** Can this node deliver, as far as the correct nodes go? */
  ghost predicate Served(net: Net, v: nat) {
    && Correct(net, v) && v != net.source
    && (Linked(net, net.source, v) || R.Served(net.neighbors, net.faulty, net.cfg.f + 1, net.source, v))
  }

  /** With all modifications on, every run in which the source has broadcast has a continuation by
      correct nodes after which all neighbours of the source, and all nodes with `f + 1` disjoint
      correct routes from it, have delivered. */
  lemma BroadcastsAreDelivered(net: Net, events: seq<Event>) returns (longer: seq<Event>)
    requires FullNet(net) && Run(net, events).Some? && Run(net, events).value.broadcast
    ensures OnlyHandles(events, longer) && Run(net, longer).Some?
    ensures forall v: nat | Served(net, v) && v < net.cfg.n :: Run(net, longer).value.nodes[v].delivered
  {
    longer := RunsComeToRest(net, events);
    var s := Run(net, longer).value;
    assert Reachable(net, s) && Quiescent(net, s);
    forall v: nat | Served(net, v) && v < net.cfg.n
      ensures s.nodes[v].delivered
    {
      var routes: seq<seq<nat>> :| Linked(net, net.source, v) ||
          (|routes| == net.cfg.f + 1 && DisjointRoutes(net, routes, v));
      DeliveredWhenQuiescent(net, s, routes, v);
    }
  }
}
