/**
  Runs of Bracha over Dolev come to rest under any modifications: relayed paths grow, own
  Echo and Ready messages are sent once, and so is the empty path after a delivery. As it is
  deployed, a start by a correct broadcaster leads to a delivery at every correct node.
 */
module BrachaDolevRest {
  import opened Counting
  import opened Phases
  import opened Weights
  import opened PathHeights
  import opened BrachaDolevHandler
  import opened BrachaDolev
  import opened BrachaDolevDelivery
  import D = Dissemination

  ghost function HeightIn(net: Net): Message -> nat {
    (m: Message) => Height(net.cfg.n, m.key.origin, m.packet)
  }

  /** A node sends at most one relay and its own Echo and Ready to each neighbour. */
  ghost function Degree(net: Net): nat {
    3 * Links(net.neighbors)
  }

  /** What an own message is worth. */
  ghost function Price(net: Net): nat {
    Pow(Degree(net) + 1, net.cfg.n + 2)
  }

  ghost function LoadIn(net: Net, transit: multiset<Message>): nat {
    Load(transit, Degree(net), HeightIn(net))
  }

  /** How many own Echo and Ready messages the nodes have not sent yet. */
  ghost function Unsent(nodes: seq<NodeState>): nat {
    if nodes == [] then 0
    else
      var k := |nodes| - 1;
      Unsent(nodes[..k]) + UnsentBy(k, nodes[k].phase)
  }

  ghost function UnsentBy(u: nat, ph: Phase): nat {
    (if u in ph.echoes then 0 else 1) + if u in ph.readys then 0 else 1
  }

  lemma {:induction false} UnsentUpdate(nodes: seq<NodeState>, u: nat, st: NodeState)
    requires u < |nodes|
    ensures Unsent(nodes[u := st]) == Unsent(nodes) - UnsentBy(u, nodes[u].phase) + UnsentBy(u, st.phase)
  {
    var k := |nodes| - 1;
    if u == k {
      assert nodes[u := st][..k] == nodes[..k];
    } else {
      UnsentUpdate(nodes[..k], u, st);
      assert nodes[u := st][..k] == nodes[..k][u := st];
    }
  }

  /** The messages with these keys that nodes have not delivered yet. */
  ghost function Pending(net: Net, s: State, keys: set<Key>): (pending: set<(nat, Key)>)
    requires |s.nodes| == net.cfg.n
    ensures forall u: nat, key ::
            (u, key) in pending <==> u < net.cfg.n && key in keys && !At(net.cfg, s.nodes[u], key).delivered
  {
    set u, key | u in Below(net.cfg.n) && key in keys && !At(net.cfg, s.nodes[u], key).delivered :: (u, key)
  }

  /** The keys of everything that can still be sent by correct nodes. */
  ghost predicate Covers(net: Net, s: State, keys: set<Key>) {
    && (forall m | m in s.transit :: m.key in keys)
    && forall kind, u: nat | u < net.cfg.n :: Key(kind, u) in keys
  }

  lemma SomeKeys(net: Net, s: State) returns (keys: set<Key>)
    ensures Covers(net, s, keys)
  {
    keys := (set m | m in s.transit :: m.key)
            + (set u | u in Below(net.cfg.n) :: Key(Echo, u)) + (set u | u in Below(net.cfg.n) :: Key(Ready, u));
    forall kind, u: nat | u < net.cfg.n
      ensures Key(kind, u) in keys
    {
      assert kind == Echo || kind == Ready;
    }
  }

  ghost function Left(net: Net, s: State, keys: set<Key>): nat
    requires |s.nodes| == net.cfg.n
  {
    Unsent(s.nodes) + |Pending(net, s, keys)|
  }

  ghost function Work(net: Net, s: State, keys: set<Key>): nat
    requires |s.nodes| == net.cfg.n
  {
    LoadIn(net, s.transit) + Worth(Left(net, s, keys), Price(net))
  }

  // ---- Every step does some of it ----

  lemma {:induction false} OwnLength(self: nat, neighbors: seq<nat>, own: seq<Kind>)
    ensures |OwnMessages(self, neighbors, own)| == |own| * |neighbors|
  {
    if own != [] {
      OwnLength(self, neighbors, own[1..]);
      assert |own| * |neighbors| == |neighbors| + (|own| - 1) * |neighbors|;
    }
  }

  lemma OutBound(net: Net, s: State, m: Message)
    requires ValidNet(net) && |s.nodes| == net.cfg.n && Enabled(net, s, Handle(m))
    ensures |Out(net, s, m)| <= Degree(net)
  {
    var u, own := m.packet.to, Reaction(net, s, m).own;
    var st := At(net.cfg, s.nodes[u], m.key);
    OwnLength(u, net.neighbors[u], own);
    DegreeBound(net.neighbors, u);
    var empty := net.cfg.mods.mod2 && D.Delivers(net.cfg, net.broadcaster, m.key.origin, st, m.packet);
    RelaysLength(u, net.neighbors[u], m.key.origin, empty, D.Assembled(m.key.origin, m.packet));
    AtMostTwice(|own|, |net.neighbors[u]|);
  }

  lemma AtMostTwice(a: nat, b: nat)
    requires a <= 2
    ensures a * b <= 2 * b
  {
  }

  /** Does this message make a node deliver and start empty paths? */
  ghost predicate Pays(net: Net, s: State, m: Message)
    requires |s.nodes| == net.cfg.n && Enabled(net, s, Handle(m))
  {
    var st := At(net.cfg, s.nodes[m.packet.to], m.key);
    && net.cfg.mods.mod2 && !D.Dropped(net.cfg, st, m.packet) && m.packet.from != m.key.origin
    && m.packet.to != m.key.origin
    && D.Delivers(net.cfg, net.broadcaster, m.key.origin, st, m.packet)
  }

  lemma RelayLower(net: Net, s: State, m: Message, q: Message)
    requires ValidNet(net) && Shape(net, s) && Enabled(net, s, Handle(m)) && RelayOut(net, s, m, q) && !Pays(net, s, m)
    ensures HeightIn(net)(q) < HeightIn(net)(m)
  {
    if m.packet.from != m.key.origin && m.packet.to != m.key.origin {
      RelayIsLower(net.cfg.n, m.key.origin, m.packet, q.packet);
    } else {
      FirstHopsAreHigh(net.cfg.n, m.key.origin, m.packet, q.packet);
    }
  }

  /** Ordinary relays alone weigh less. */
  lemma RelayLoad(net: Net, s: State, m: Message)
    requires ValidNet(net) && Shape(net, s) && Enabled(net, s, Handle(m)) && Reaction(net, s, m).own == []
    requires !Pays(net, s, m)
    ensures LoadIn(net, s.transit - multiset{m} + multiset(Out(net, s, m))) < LoadIn(net, s.transit)
  {
    var out := Out(net, s, m);
    OutBound(net, s, m);
    forall q | q in out
      ensures HeightIn(net)(q) < HeightIn(net)(m)
    {
      OutMember(net, s, m, q);
      RelayLower(net, s, m, q);
    }
    LowerLoad(s.transit, Degree(net), HeightIn(net), m, out);
  }

  lemma OutIsBounded(net: Net, s: State, m: Message, q: Message)
    requires ValidNet(net) && Shape(net, s) && Enabled(net, s, Handle(m)) && q in Out(net, s, m)
    ensures HeightIn(net)(q) <= net.cfg.n + 1
  {
    OutMember(net, s, m, q);
  }

  /** Own messages and empty paths cost something that happens once. */
  lemma OwnLoad(net: Net, s: State, m: Message)
    requires ValidNet(net) && Shape(net, s) && Enabled(net, s, Handle(m))
    ensures LoadIn(net, s.transit - multiset{m} + multiset(Out(net, s, m))) < LoadIn(net, s.transit) + Price(net)
  {
    var out := Out(net, s, m);
    OutBound(net, s, m);
    forall q | q in out ensures HeightIn(net)(q) <= net.cfg.n + 1 { OutIsBounded(net, s, m, q); }
    BoundedIn(net, s.transit, m, out);
  }

  lemma BoundedIn(net: Net, transit: multiset<Message>, m: Message, out: seq<Message>)
    requires m in transit && |out| <= Degree(net) && forall q | q in out :: HeightIn(net)(q) <= net.cfg.n + 1
    ensures LoadIn(net, transit - multiset{m} + multiset(out)) < LoadIn(net, transit) + Price(net)
  {
    BoundedLoad(transit, Degree(net), HeightIn(net), m, out, net.cfg.n + 1);
  }

  lemma CountedUnsent(cfg: D.Config, u: nat, b: nat, ph: Phase, key: Key)
    ensures var counted := Counted(cfg, u, b, ph, key);
            UnsentBy(u, counted.phase) <= UnsentBy(u, ph) - if counted.own == [] then 0 else 1
  {
  }

  lemma HandleUnsent(net: Net, s: State, m: Message)
    requires ValidNet(net) && |s.nodes| == net.cfg.n && Enabled(net, s, Handle(m))
    ensures Unsent(After(net, s, Handle(m)).nodes) <= Unsent(s.nodes) - if Reaction(net, s, m).own == [] then 0 else 1
  {
    var u := m.packet.to;
    CountedUnsent(net.cfg, u, net.broadcaster, s.nodes[u].phase, m.key);
    UnsentUpdate(s.nodes, u, After(net, s, Handle(m)).nodes[u]);
  }

  lemma HandlePending(net: Net, s: State, m: Message, keys: set<Key>)
    requires ValidNet(net) && |s.nodes| == net.cfg.n && Enabled(net, s, Handle(m)) && m.key in keys
    ensures |Pending(net, After(net, s, Handle(m)), keys)| <= |Pending(net, s, keys)| - if Pays(net, s, m) then 1 else 0
  {
    var before, after := Pending(net, s, keys), Pending(net, After(net, s, Handle(m)), keys);
    DeliveredStays(net, s, m, keys);
    if Pays(net, s, m) {
      var paid := (m.packet.to, m.key);
      assert paid in before && paid !in after;
      SubsetCard(after + {paid}, before);
    } else {
      SubsetCard(after, before);
    }
  }

  lemma DeliveredStays(net: Net, s: State, m: Message, keys: set<Key>)
    requires ValidNet(net) && |s.nodes| == net.cfg.n && Enabled(net, s, Handle(m)) && m.key in keys
    ensures Pending(net, After(net, s, Handle(m)), keys) <= Pending(net, s, keys)
    ensures At(net.cfg, After(net, s, Handle(m)).nodes[m.packet.to], m.key)
         == D.NextState(net.cfg, net.broadcaster, m.key.origin, At(net.cfg, s.nodes[m.packet.to], m.key), m.packet)
  {
    forall x | x in Pending(net, After(net, s, Handle(m)), keys)
      ensures x in Pending(net, s, keys)
    {
      assert x == (x.0, x.1);
    }
  }

  lemma HandleWorks(net: Net, s: State, m: Message, keys: set<Key>)
    requires ValidNet(net) && Shape(net, s) && Enabled(net, s, Handle(m)) && m.key in keys
    ensures Work(net, After(net, s, Handle(m)), keys) < Work(net, s, keys)
  {
    HandleUnsent(net, s, m);
    HandlePending(net, s, m, keys);
    if Reaction(net, s, m).own == [] && !Pays(net, s, m) { RelayLoad(net, s, m); } else { OwnLoad(net, s, m); }
    var next := After(net, s, Handle(m));
    LessInAll(LoadIn(net, next.transit), Left(net, next, keys), LoadIn(net, s.transit), Left(net, s, keys), Price(net));
  }

  lemma CoversNext(net: Net, s: State, m: Message, keys: set<Key>)
    requires ValidNet(net) && |s.nodes| == net.cfg.n && Enabled(net, s, Handle(m)) && Covers(net, s, keys)
    ensures Covers(net, After(net, s, Handle(m)), keys)
  {
    forall q | q in Out(net, s, m)
      ensures q.key in keys
    {
      OutMember(net, s, m, q);
    }
  }

  // ---- So runs come to rest ----

  /** No message to a correct node is pending, whoever sent it. */
  ghost predicate Drained(net: Net, s: State) {
    forall m | m in s.transit :: !Correct(net, m.packet.to)
  }

  /** `longer` continues the run `events` with steps of correct nodes. */
  ghost predicate OnlyHandles(events: seq<Event>, longer: seq<Event>) {
    events <= longer && forall i | |events| <= i < |longer| :: longer[i].Handle?
  }

  lemma HandledFirst(events: seq<Event>, m: Message, longer: seq<Event>)
    requires OnlyHandles(events + [Handle(m)], longer)
    ensures OnlyHandles(events, longer)
  {
    assert (events + [Handle(m)])[|events|] == longer[|events|];
  }

  lemma HandleNext(net: Net, events: seq<Event>, m: Message, keys: set<Key>)
    requires ValidNet(net) && Run(net, events).Some? && Covers(net, Run(net, events).value, keys)
    requires m in Run(net, events).value.transit && Correct(net, m.packet.to)
    ensures var next := Run(net, events + [Handle(m)]);
            && next.Some? && Work(net, next.value, keys) < Work(net, Run(net, events).value, keys)
            && next.value.started == Run(net, events).value.started && Covers(net, next.value, keys)
  {
    var s := Run(net, events).value;
    ShapeAlways(net, events);
    EveryMessageCanBeHandled(net, s, m);
    RunStep(net, events, Handle(m));
    HandleWorks(net, s, m, keys);
    CoversNext(net, s, m, keys);
  }

  lemma {:induction false} Drain(net: Net, events: seq<Event>, keys: set<Key>) returns (longer: seq<Event>)
    requires ValidNet(net) && Run(net, events).Some? && Covers(net, Run(net, events).value, keys)
    ensures OnlyHandles(events, longer) && Run(net, longer).Some? && Drained(net, Run(net, longer).value)
    ensures Run(net, longer).value.started == Run(net, events).value.started
    decreases Work(net, Run(net, events).value, keys)
  {
    var s := Run(net, events).value;
    if Drained(net, s) {
      longer := events;
    } else {
      var m :| m in s.transit && Correct(net, m.packet.to);
      HandleNext(net, events, m, keys);
      longer := Drain(net, events + [Handle(m)], keys);
      HandledFirst(events, m, longer);
    }
  }

  /** Under any modifications every run can be continued, by correct nodes alone, until nothing is
      left to handle. */
  lemma RunsComeToRest(net: Net, events: seq<Event>) returns (longer: seq<Event>)
    requires ValidNet(net) && Run(net, events).Some?
    ensures OnlyHandles(events, longer) && Run(net, longer).Some? && Drained(net, Run(net, longer).value)
    ensures Run(net, longer).value.started == Run(net, events).value.started
  {
    var keys := SomeKeys(net, Run(net, events).value);
    longer := Drain(net, events, keys);
  }

  /** Every run in which a correct broadcaster has started has a continuation by correct nodes
      after which all correct nodes have delivered. */
  lemma BroadcastsAreDelivered(net: Net, events: seq<Event>) returns (longer: seq<Event>)
    requires Resilient(net) && WellConnected(net) && Correct(net, net.broadcaster)
    requires Run(net, events).Some? && Run(net, events).value.started
    ensures OnlyHandles(events, longer) && Run(net, longer).Some?
    ensures forall u: nat | Correct(net, u) :: Run(net, longer).value.nodes[u].phase.delivered
  {
    longer := RunsComeToRest(net, events);
    var s := Run(net, longer).value;
    assert Reachable(net, s) && Quiescent(net, s);
    forall u: nat | Correct(net, u)
      ensures s.nodes[u].phase.delivered
    {
      Validity(net, s, u);
    }
  }
}
