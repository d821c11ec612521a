/**
  Where Bracha over certified propagation loses a broadcast. Nodes that are made ready by `f`
  faulty Readys and the broadcaster's never send their Echo; if the rest falls short of an echo
  quorum, nobody delivers. On complete graphs this happens exactly without the slack that
  validity asks for.
 */
module BrachaCpaValidity {
  import opened Counting
  import opened Options
  import opened Phases
  import opened Topology
  import opened BrachaCpa
  import opened BrachaCpaDelivery
  import opened BrachaCpaRest

  // ---- Complete graphs ----

  ghost predicate Complete(net: Net) {
    forall u: nat, v: nat | u < net.cfg.n && v < net.cfg.n && u != v :: Linked(net, u, v)
  }

  lemma CompleteIsCertifiable(net: Net)
    requires Resilient(net) && Complete(net)
    ensures Certifiable(net)
  {
    forall e | Correct(net, e)
      ensures exists order :: Propagates(net, e, order)
    {
      var rest := Enumerate(CorrectNodes(net) - {e});
      var order := [e] + rest;
      assert forall v :: v in Elements(rest) <==> Correct(net, v) && v != e;
      forall i | 0 < i < |order|
        ensures Correct(net, order[i]) && Fed(net, e, order[..i], order[i])
      {
        assert rest[i - 1] in Elements(rest) && Linked(net, e, order[i]);
      }
      assert Propagates(net, e, order);
    }
  }

  // ---- Who is late ----

  /** The `late` nodes will skip their Echo, and one Echo of `q` misleads the broadcaster alone. */
  ghost predicate Split(net: Net, late: set<nat>, q: nat) {
    && Resilient(net) && Complete(net) && Correct(net, net.cfg.broadcaster) && net.cfg.broadcaster !in late
    && q in net.faulty && |net.faulty| == net.cfg.f && (forall x | x in late :: Correct(net, x))
    && |late| < net.cfg.f && |Early(net, late)| == QuorumSize(net.cfg.n, net.cfg.f) - 1
  }

  ghost function Early(net: Net, late: set<nat>): (early: set<nat>)
    requires ValidNet(net)
    ensures forall x :: x in early <==> Correct(net, x) && x !in late
  {
    CorrectNodes(net) - late
  }

  /** Messages that leave the nodes stuck: faulty Echos beyond the broadcaster, and faulty
      Readys beyond the late nodes, come from too few neighbours. */
  ghost predicate Harmless(net: Net, late: set<nat>, q: nat, m: Message)
    requires ValidNet(net)
  {
    var b, e := net.cfg.broadcaster, m.key.origin;
    match m.key.kind
    case Echo => e in Early(net, late) || (e == q && (m.from == b || (m.from == q && m.to == b)))
    case Ready => e == b || e in late || (e in net.faulty && (m.from in late || (m.from == e && m.to in late)))
  }

  /** A late node has heard Readys only, until it sends its own. */
  ghost predicate Muted(cfg: Config, st: NodeState) {
    if st.sentReady then st.sentEcho
    else !st.sentEcho && st.echoes == {} && st.both <= st.readys && Heard(st.heard, Key(Echo, cfg.broadcaster)) == {}
  }

  ghost predicate Bounded(net: Net, late: set<nat>, q: nat, x: nat, echoes: set<nat>, readys: set<nat>)
    requires ValidNet(net)
  {
    && echoes <= Early(net, late) + (if x == net.cfg.broadcaster then {q} else {})
    && readys <= {net.cfg.broadcaster} + late + (if x in late then net.faulty else {})
  }

  ghost predicate FewHeard(net: Net, late: set<nat>, q: nat, x: nat, heard: map<Key, set<nat>>) {
    && (x != net.cfg.broadcaster ==> Heard(heard, Key(Echo, q)) <= {net.cfg.broadcaster})
    && (x !in late ==> forall c | c in net.faulty :: Heard(heard, Key(Ready, c)) <= late)
  }

  ghost predicate Stuck(net: Net, late: set<nat>, q: nat, x: nat, st: NodeState)
    requires ValidNet(net)
  {
    && Bounded(net, late, q, x, st.echoes, st.readys) && FewHeard(net, late, q, x, st.heard)
    && (x in late ==> Muted(net.cfg, st)) && (x !in late && x != net.cfg.broadcaster ==> !st.sentReady)
  }

  ghost predicate OwnExpected(net: Net, late: set<nat>, key: Key)
    requires ValidNet(net)
  {
    match key.kind
    case Echo => key.origin in Early(net, late)
    case Ready => key.origin == net.cfg.broadcaster || key.origin in late
  }

  ghost predicate AllStuck(net: Net, late: set<nat>, q: nat, t: State)
    requires ValidNet(net)
  {
    && |t.nodes| == net.cfg.n && Key(Echo, net.cfg.broadcaster) in t.own
    && TransitHarmless(net, late, q, t) && NodesStuck(net, late, q, t.nodes)
    && (forall key | key in t.own :: OwnExpected(net, late, key))
  }

  ghost predicate TransitHarmless(net: Net, late: set<nat>, q: nat, t: State)
    requires ValidNet(net)
  {
    forall m | m in t.transit && Correct(net, m.to) :: Harmless(net, late, q, m)
  }

  ghost predicate NodesStuck(net: Net, late: set<nat>, q: nat, nodes: seq<NodeState>)
    requires ValidNet(net)
  {
    forall x | 0 <= x < |nodes| && Correct(net, x) :: Stuck(net, late, q, x, nodes[x])
  }

  /** Late nodes may handle Readys, and all that comes after their own. */
  ghost predicate Timely(late: set<nat>, st: NodeState, m: Message) {
    m.to in late ==> m.key.kind == Ready || st.sentReady
  }

  // ---- One step leaves everybody stuck ----

  lemma FewHeardNext(net: Net, late: set<nat>, q: nat, st: NodeState, m: Message)
    requires Split(net, late, q) && Harmless(net, late, q, m) && FewHeard(net, late, q, m.to, st.heard)
    ensures FewHeard(net, late, q, m.to, Noted(st, m).heard)
  {
  }

  /** What a faulty node sent to few is validated by few. */
  lemma ValidatedByFew(net: Net, late: set<nat>, q: nat, st: NodeState, m: Message)
    requires Split(net, late, q) && Harmless(net, late, q, m) && FewHeard(net, late, q, m.to, st.heard)
    requires Validates(net.cfg, Noted(st, m), m)
    ensures m.key == Key(Echo, q) ==> m.to == net.cfg.broadcaster
    ensures m.key.kind == Ready && m.key.origin in net.faulty ==> m.to in late
  {
    FewHeardNext(net, late, q, st, m);
    var heard := Heard(Noted(st, m).heard, m.key);
    if m.key == Key(Echo, q) && m.to != net.cfg.broadcaster { SubsetCard(heard, {net.cfg.broadcaster}); }
    if m.key.kind == Ready && m.key.origin in net.faulty && m.to !in late { SubsetCard(heard, late); }
  }

  lemma BoundedNext(net: Net, late: set<nat>, q: nat, st: NodeState, m: Message)
    requires Split(net, late, q) && Harmless(net, late, q, m) && FewHeard(net, late, q, m.to, st.heard)
    requires Bounded(net, late, q, m.to, st.echoes, st.readys)
    ensures var before := Before(net.cfg, st, m); Bounded(net, late, q, m.to, before.echoes, before.readys)
  {
    if Validates(net.cfg, Noted(st, m), m) { ValidatedByFew(net, late, q, st, m); }
  }

  /** An early node other than the broadcaster is not made ready. */
  lemma NotReady(net: Net, late: set<nat>, q: nat, x: nat, st: NodeState)
    requires Split(net, late, q) && Bounded(net, late, q, x, st.echoes, st.readys) && x !in late
    requires x != net.cfg.broadcaster
    ensures !IsReady(net.cfg, st)
  {
    SubsetCard(st.echoes, Early(net, late));
    SubsetCard(st.readys, {net.cfg.broadcaster} + late);
  }

  /** A late node sends its Ready, if anything. */
  lemma MutedNext(cfg: Config, st: NodeState, m: Message)
    requires Muted(cfg, st) && (m.key.kind == Ready || st.sentReady) && NotValidated(cfg, st.heard, m.key)
    ensures Muted(cfg, Received(cfg, st, m)) && OwnMessage(cfg, Before(cfg, st, m)) != Some(Echo)
  {
    var before := Before(cfg, st, m);
    BeforeHeard(cfg, st, m);
    ReceivedIsOwned(cfg, st, m);
    if !st.sentReady {
      assert Heard(before.heard, Key(Echo, cfg.broadcaster)) == {};
      SubsetCard(before.both, before.readys);
    }
  }

  /** Own messages that keep everybody stuck. */
  lemma OwnIsExpected(net: Net, late: set<nat>, q: nat, st: NodeState, m: Message)
    requires Split(net, late, q) && Stuck(net, late, q, m.to, st) && Harmless(net, late, q, m) && Timely(late, st, m)
    requires Correct(net, m.to) && NotValidated(net.cfg, st.heard, m.key)
    ensures var own := OwnMessage(net.cfg, Before(net.cfg, st, m));
            own.Some? ==> OwnExpected(net, late, Key(own.value, m.to))
  {
    BoundedNext(net, late, q, st, m);
    if m.to in late {
      MutedNext(net.cfg, st, m);
    } else if m.to != net.cfg.broadcaster {
      NotReady(net, late, q, m.to, Before(net.cfg, st, m));
    }
  }

  lemma OwnedIsBounded(net: Net, late: set<nat>, q: nat, x: nat, st: NodeState, own: Option<Kind>)
    requires ValidNet(net) && Bounded(net, late, q, x, st.echoes, st.readys)
    requires own.Some? ==> OwnExpected(net, late, Key(own.value, x))
    ensures var after := Owned(x, st, own); Bounded(net, late, q, x, after.echoes, after.readys)
  {
  }

  lemma BoundedReceived(net: Net, late: set<nat>, q: nat, st: NodeState, m: Message)
    requires Split(net, late, q) && Stuck(net, late, q, m.to, st) && Harmless(net, late, q, m) && Timely(late, st, m)
    requires Correct(net, m.to) && NotValidated(net.cfg, st.heard, m.key)
    ensures var after := Received(net.cfg, st, m); Bounded(net, late, q, m.to, after.echoes, after.readys)
  {
    var before := Before(net.cfg, st, m);
    BoundedNext(net, late, q, st, m);
    OwnIsExpected(net, late, q, st, m);
    OwnedIsBounded(net, late, q, m.to, before, OwnMessage(net.cfg, before));
    ReceivedIsOwned(net.cfg, st, m);
  }

  lemma StaysUnready(cfg: Config, st: NodeState, m: Message)
    requires NotValidated(cfg, st.heard, m.key) && !IsReady(cfg, Before(cfg, st, m)) && !st.sentReady
    ensures !Received(cfg, st, m).sentReady
  {
    BeforeHeard(cfg, st, m);
    ReceivedIsOwned(cfg, st, m);
  }

  lemma StuckNext(net: Net, late: set<nat>, q: nat, st: NodeState, m: Message)
    requires Split(net, late, q) && Stuck(net, late, q, m.to, st) && Harmless(net, late, q, m) && Timely(late, st, m)
    requires Correct(net, m.to)
    ensures Stuck(net, late, q, m.to, Received(net.cfg, st, m))
  {
    if NotValidated(net.cfg, st.heard, m.key) {
      FewHeardNext(net, late, q, st, m);
      ReceivedHeard(net.cfg, st, m);
      BoundedReceived(net, late, q, st, m);
      if m.to in late {
        MutedNext(net.cfg, st, m);
      } else if m.to != net.cfg.broadcaster {
        BoundedNext(net, late, q, st, m);
        NotReady(net, late, q, m.to, Before(net.cfg, st, m));
        StaysUnready(net.cfg, st, m);
      }
    }
  }

  lemma ForwardIsHarmless(net: Net, late: set<nat>, q: nat, st: NodeState, m: Message, w: nat)
    requires Split(net, late, q) && Harmless(net, late, q, m) && FewHeard(net, late, q, m.to, st.heard)
    requires Validates(net.cfg, Noted(st, m), m)
    ensures Harmless(net, late, q, Message(m.key, m.to, w))
  {
    ValidatedByFew(net, late, q, st, m);
  }

  lemma OwnKeyIsExpected(net: Net, late: set<nat>, q: nat, t: State, m: Message, key: Key)
    requires Split(net, late, q) && |t.nodes| == net.cfg.n && Enabled(net, t, Handle(m))
    requires Timely(late, t.nodes[m.to], m)
    requires Harmless(net, late, q, m) && Stuck(net, late, q, m.to, t.nodes[m.to]) && key in OwnKey(net, t, m)
    ensures OwnExpected(net, late, key)
  {
    OwnIsExpected(net, late, q, t.nodes[m.to], m);
  }

  lemma ExpectedIsHarmless(net: Net, late: set<nat>, q: nat, m: Message)
    requires ValidNet(net) && OwnExpected(net, late, m.key)
    ensures Harmless(net, late, q, m)
  {
  }

  lemma SentIsHarmless(net: Net, late: set<nat>, q: nat, t: State, m: Message, p: Message)
    requires Split(net, late, q) && |t.nodes| == net.cfg.n && Enabled(net, t, Handle(m))
    requires Timely(late, t.nodes[m.to], m)
    requires Harmless(net, late, q, m) && Stuck(net, late, q, m.to, t.nodes[m.to])
    requires p in Sent(net.cfg, net.neighbors[m.to], t.nodes[m.to], m)
    ensures Harmless(net, late, q, p)
  {
    SentKeys(net, t, m, p);
    if p.key in OwnKey(net, t, m) {
      OwnKeyIsExpected(net, late, q, t, m, p.key);
      ExpectedIsHarmless(net, late, q, p);
    } else {
      ForwardIsHarmless(net, late, q, t.nodes[m.to], m, p.to);
      assert p == Message(m.key, m.to, p.to);
    }
  }

  lemma TransitHandle(net: Net, late: set<nat>, q: nat, t: State, m: Message)
    requires Split(net, late, q) && AllStuck(net, late, q, t) && Enabled(net, t, Handle(m))
    requires Timely(late, t.nodes[m.to], m)
    ensures TransitHarmless(net, late, q, After(net, t, Handle(m)))
  {
    var next := After(net, t, Handle(m));
    assert Harmless(net, late, q, m) && Stuck(net, late, q, m.to, t.nodes[m.to]);
    forall p | p in next.transit && Correct(net, p.to)
      ensures Harmless(net, late, q, p)
    {
      if p !in t.transit { SentIsHarmless(net, late, q, t, m, p); }
    }
  }

  lemma OwnHandle(net: Net, late: set<nat>, q: nat, t: State, m: Message)
    requires Split(net, late, q) && AllStuck(net, late, q, t) && Enabled(net, t, Handle(m))
    requires Timely(late, t.nodes[m.to], m)
    ensures forall key | key in After(net, t, Handle(m)).own :: OwnExpected(net, late, key)
  {
    assert Harmless(net, late, q, m) && Stuck(net, late, q, m.to, t.nodes[m.to]);
    forall key | key in After(net, t, Handle(m)).own
      ensures OwnExpected(net, late, key)
    {
      if key in OwnKey(net, t, m) { OwnKeyIsExpected(net, late, q, t, m, key); }
    }
  }

  lemma NodesStuckUpdate(net: Net, late: set<nat>, q: nat, nodes: seq<NodeState>, u: nat, st: NodeState)
    requires ValidNet(net) && NodesStuck(net, late, q, nodes) && u < |nodes| && Stuck(net, late, q, u, st)
    ensures NodesStuck(net, late, q, nodes[u := st])
  {
  }

  lemma StuckHandle(net: Net, late: set<nat>, q: nat, t: State, m: Message)
    requires Split(net, late, q) && AllStuck(net, late, q, t) && Enabled(net, t, Handle(m))
    requires Timely(late, t.nodes[m.to], m)
    ensures AllStuck(net, late, q, After(net, t, Handle(m)))
  {
    assert Harmless(net, late, q, m) && Stuck(net, late, q, m.to, t.nodes[m.to]);
    StuckNext(net, late, q, t.nodes[m.to], m);
    NodesStuckUpdate(net, late, q, t.nodes, m.to, Received(net.cfg, t.nodes[m.to], m));
    TransitHandle(net, late, q, t, m);
    OwnHandle(net, late, q, t, m);
  }

  // ---- The broadcaster and the early nodes ----

  lemma {:induction false} InjectAll(net: Net, events: seq<Event>, all: set<Message>) returns (longer: seq<Event>)
    requires ValidNet(net) && Run(net, events).Some? && forall m | m in all :: m.from in net.faulty
    ensures Run(net, longer).Some?
    ensures var s := Run(net, events).value; Run(net, longer).value == s.(transit := s.transit + multiset(all))
    decreases |all|
  {
    var s := Run(net, events).value;
    if all == {} {
      longer := events;
      assert s.transit + multiset(all) == s.transit;
    } else {
      var m :| m in all;
      var most := InjectAll(net, events, all - {m});
      RunNext(net, most, Inject(m));
      longer := most + [Inject(m)];
      assert multiset(all - {m}) + multiset{m} == multiset(all);
    }
  }

  /** The message has been handled, or still will be. */
  ghost predicate Accounted(net: Net, t: State, m: Message)
    requires m.to < |t.nodes|
  {
    m in t.transit || Certain(net.cfg, t.nodes[m.to], m.key)
  }

  lemma AccountedHandle(net: Net, t: State, m: Message, p: Message)
    requires |t.nodes| == net.cfg.n == |net.neighbors| && Enabled(net, t, Handle(m)) && p.to < net.cfg.n
    requires Accounted(net, t, p) && p.from == p.key.origin
    ensures Accounted(net, After(net, t, Handle(m)), p)
  {
    HeardStays(net.cfg, t.nodes[m.to], m);
  }

  ghost predicate EarlyInv(net: Net, late: set<nat>, q: nat, t: State)
    requires ValidNet(net)
  {
    AllStuck(net, late, q, t) &&
        (q < net.cfg.n && net.cfg.broadcaster < net.cfg.n ==> Accounted(net, t, Misleading(net, q)))
  }

  /** The Echo of `q`, which the broadcaster alone gets. */
  ghost function Misleading(net: Net, q: nat): Message {
    Message(Key(Echo, q), q, net.cfg.broadcaster)
  }

  ghost function Fresh(net: Net): State
    requires ValidNet(net)
  {
    State(seq(net.cfg.n, _ => FRESH), multiset{}, {})
  }

  lemma Started(net: Net, late: set<nat>, q: nat) returns (events: seq<Event>)
    requires Split(net, late, q)
    ensures Run(net, events).Some? && EarlyInv(net, late, q, Run(net, events).value)
  {
    RunNext(net, [], Broadcast);
    assert [] + [Broadcast] == [Broadcast];
    events := InjectAll(net, [Broadcast], {Misleading(net, q)});
    StartIsStuck(net, late, q);
  }

  lemma StartIsStuck(net: Net, late: set<nat>, q: nat)
    requires Split(net, late, q)
    ensures var t := After(net, Fresh(net), Broadcast);
            EarlyInv(net, late, q, t.(transit := t.transit + multiset({Misleading(net, q)})))
  {
    var t := After(net, Fresh(net), Broadcast);
    var next := t.(transit := t.transit + multiset({Misleading(net, q)}));
    forall m | m in next.transit
      ensures Harmless(net, late, q, m)
    {
      FirstMessages(net, m);
    }
    forall x | 0 <= x < net.cfg.n && Correct(net, x)
      ensures Stuck(net, late, q, x, next.nodes[x])
    {
      FreshIsStuck(net, late, q, x);
    }
  }

  lemma FreshIsStuck(net: Net, late: set<nat>, q: nat, x: nat)
    requires Split(net, late, q)
    ensures Stuck(net, late, q, x, FRESH)
    ensures x == net.cfg.broadcaster ==> Stuck(net, late, q, x, FRESH.(sentEcho := true, echoes := {x}))
  {
  }

  lemma EarlyPhase(net: Net, late: set<nat>, q: nat) returns (events: seq<Event>)
    requires Split(net, late, q)
    ensures Run(net, events).Some? && EarlyInv(net, late, q, Run(net, events).value)
    ensures forall m | m in Run(net, events).value.transit && Correct(net, m.to) :: m.to in late
  {
    var start := Started(net, late, q);
    var keys := SomeKeys(net, Run(net, start).value);
    var some, inv := (m: Message) => m.to !in late, (t: State) => EarlyInv(net, late, q, t);
    forall t: State, m | inv(t) && |t.nodes| == net.cfg.n && Enabled(net, t, Handle(m)) && some(m)
      ensures inv(After(net, t, Handle(m)))
    {
      StuckHandle(net, late, q, t, m);
      AccountedHandle(net, t, m, Misleading(net, q));
    }
    events := DrainSome(net, start, some, inv, keys);
  }

  /** No message is pending for early nodes. */
  ghost predicate EarlyDone(net: Net, late: set<nat>, q: nat, t: State) {
    && Split(net, late, q) && EarlyInv(net, late, q, t) && Live(net, t)
    && forall m | m in t.transit && Correct(net, m.to) :: m.to in late
  }

  /** What correct nodes have sent is certain at early nodes then. */
  lemma EarlyKnows(net: Net, late: set<nat>, q: nat, t: State, key: Key, x: nat)
    requires EarlyDone(net, late, q, t) && key in t.own && x in Early(net, late)
    ensures key.origin in HeardFrom(t.nodes[x], key.kind)
  {
    var e := key.origin;
    assert Correct(net, e);
    assert NodeLive(net.cfg, t.nodes[x]) && OwnLive(t.own, x, t.nodes[x]);
    if x != e { assert Holder(net, t, e, key) && Reached(net, t, e, x, key); }
    KnownIsCounted(net.cfg, t.own, t.nodes[x], key, x);
  }

  lemma EarlyEcho(net: Net, late: set<nat>, q: nat, t: State, x: nat)
    requires EarlyDone(net, late, q, t) && x in Early(net, late)
    ensures Key(Echo, x) in t.own
  {
    var b := net.cfg.broadcaster;
    assert Stuck(net, late, q, x, t.nodes[x]);
    assert NodeLive(net.cfg, t.nodes[x]) && OwnLive(t.own, x, t.nodes[x]);
    EarlyKnows(net, late, q, t, Key(Echo, b), x);
  }

  lemma EarlyCounted(net: Net, late: set<nat>, q: nat, t: State)
    requires EarlyDone(net, late, q, t)
    ensures Early(net, late) <= t.nodes[net.cfg.broadcaster].echoes
  {
    forall x | x in Early(net, late)
      ensures x in t.nodes[net.cfg.broadcaster].echoes
    {
      EarlyEcho(net, late, q, t, x);
      EarlyKnows(net, late, q, t, Key(Echo, x), net.cfg.broadcaster);
    }
  }

  lemma MisleadingCounted(net: Net, late: set<nat>, q: nat, t: State)
    requires EarlyDone(net, late, q, t)
    ensures q in t.nodes[net.cfg.broadcaster].echoes
  {
    var b := net.cfg.broadcaster;
    assert NodeLive(net.cfg, t.nodes[b]);
    assert Accounted(net, t, Misleading(net, q)) && Certain(net.cfg, t.nodes[b], Key(Echo, q));
  }

  /** So the broadcaster sends its Ready. */
  lemma BroadcasterReady(net: Net, late: set<nat>, q: nat, t: State)
    requires EarlyDone(net, late, q, t)
    ensures Key(Ready, net.cfg.broadcaster) in t.own
  {
    var b := net.cfg.broadcaster;
    EarlyCounted(net, late, q, t);
    MisleadingCounted(net, late, q, t);
    assert q !in Early(net, late);
    SubsetCard(Early(net, late) + {q}, t.nodes[b].echoes);
    assert t.nodes[b].sentReady;
    assert NodeLive(net.cfg, t.nodes[b]);
  }

  // ---- The late nodes ----

  ghost function FaultyReadys(net: Net, late: set<nat>): (all: set<Message>)
    ensures forall m ::
            m in all <==> m.key.kind == Ready && m.key.origin in net.faulty && m.from == m.key.origin && m.to in late
  {
    set c, x | c in net.faulty && x in late :: Message(Key(Ready, c), c, x)
  }

  ghost predicate LateInv(net: Net, late: set<nat>, q: nat, t: State)
    requires ValidNet(net)
  {
    && AllStuck(net, late, q, t) && Key(Ready, net.cfg.broadcaster) in t.own
    && forall m | m in FaultyReadys(net, late) && m.to < net.cfg.n :: Accounted(net, t, m)
  }

  lemma LateHandle(net: Net, late: set<nat>, q: nat, t: State, m: Message)
    requires Split(net, late, q) && LateInv(net, late, q, t) && Enabled(net, t, Handle(m))
    requires Timely(late, t.nodes[m.to], m)
    ensures LateInv(net, late, q, After(net, t, Handle(m)))
  {
    StuckHandle(net, late, q, t, m);
    forall p | p in FaultyReadys(net, late) && p.to < net.cfg.n
      ensures Accounted(net, After(net, t, Handle(m)), p)
    {
      AccountedHandle(net, t, m, p);
    }
  }

  lemma LateStart(net: Net, late: set<nat>, q: nat) returns (events: seq<Event>)
    requires Split(net, late, q)
    ensures Run(net, events).Some? && LateInv(net, late, q, Run(net, events).value)
  {
    var early := EarlyPhase(net, late, q);
    LiveAlways(net, early);
    BroadcasterReady(net, late, q, Run(net, early).value);
    events := InjectAll(net, early, FaultyReadys(net, late));
    var t := Run(net, events).value;
    forall m | m in t.transit && Correct(net, m.to)
      ensures Harmless(net, late, q, m)
    {
      assert m in Run(net, early).value.transit || m in FaultyReadys(net, late);
    }
  }

  ghost predicate LateDone(net: Net, late: set<nat>, q: nat, t: State) {
    && Split(net, late, q) && LateInv(net, late, q, t) && Live(net, t)
    && forall m | m in t.transit && Correct(net, m.to) && m.to in late :: m.key.kind != Ready
  }

  lemma FaultyReadyCounted(net: Net, late: set<nat>, q: nat, t: State, x: nat, c: nat)
    requires LateDone(net, late, q, t) && x in late && c in net.faulty
    ensures c in t.nodes[x].readys
  {
    var m := Message(Key(Ready, c), c, x);
    assert NodeLive(net.cfg, t.nodes[x]);
    assert m in FaultyReadys(net, late) && Accounted(net, t, m);
    assert Certain(net.cfg, t.nodes[x], m.key);
  }

  lemma BroadcasterReadyCounted(net: Net, late: set<nat>, q: nat, t: State, x: nat)
    requires LateDone(net, late, q, t) && x in late
    ensures net.cfg.broadcaster in t.nodes[x].readys
  {
    var b := net.cfg.broadcaster;
    assert NodeLive(net.cfg, t.nodes[x]);
    assert Holder(net, t, b, Key(Ready, b)) && Reached(net, t, b, x, Key(Ready, b));
    assert Certain(net.cfg, t.nodes[x], Key(Ready, b));
  }

  lemma LateReadys(net: Net, late: set<nat>, q: nat, t: State, x: nat)
    requires LateDone(net, late, q, t) && x in late
    ensures Heralds(net) <= t.nodes[x].readys
  {
    forall c | c in Heralds(net)
      ensures c in t.nodes[x].readys
    {
      LateReadyCounted(net, late, q, t, x, c);
    }
  }

  /** Whose Readys reach the late nodes first. */
  ghost function Heralds(net: Net): (heralds: set<nat>)
    ensures forall c :: c in heralds <==> c in net.faulty || c == net.cfg.broadcaster
  {
    net.faulty + {net.cfg.broadcaster}
  }

  lemma LateReadyCounted(net: Net, late: set<nat>, q: nat, t: State, x: nat, c: nat)
    requires LateDone(net, late, q, t) && x in late && c in Heralds(net)
    ensures c in t.nodes[x].readys
  {
    if c in net.faulty {
      FaultyReadyCounted(net, late, q, t, x, c);
    } else {
      BroadcasterReadyCounted(net, late, q, t, x);
    }
  }

  lemma EnoughReadys(cfg: Config, st: NodeState, some: set<nat>)
    requires NodeLive(cfg, st) && some <= st.readys && |some| >= cfg.f + 1
    ensures st.sentReady
  {
    SubsetCard(some, st.readys);
  }

  /** Every late node sends its Ready, on those of the faulty nodes and of the broadcaster. */
  lemma LateReady(net: Net, late: set<nat>, q: nat, t: State, x: nat)
    requires LateDone(net, late, q, t) && x in late
    ensures t.nodes[x].sentReady
  {
    LateReadys(net, late, q, t, x);
    LateIsLive(net, late, q, t, x);
    FaultyAndBroadcaster(net);
    EnoughReadys(net.cfg, t.nodes[x], Heralds(net));
  }

  lemma LateIsLive(net: Net, late: set<nat>, q: nat, t: State, x: nat)
    requires LateDone(net, late, q, t) && x in late
    ensures NodeLive(net.cfg, t.nodes[x]) && |net.faulty| == net.cfg.f && Correct(net, net.cfg.broadcaster)
  {
  }

  lemma FaultyAndBroadcaster(net: Net)
    requires Correct(net, net.cfg.broadcaster)
    ensures |Heralds(net)| == |net.faulty| + 1
  {
  }

  lemma LatePhase(net: Net, late: set<nat>, q: nat) returns (events: seq<Event>)
    requires Split(net, late, q)
    ensures Run(net, events).Some? && AllStuck(net, late, q, Run(net, events).value)
    ensures forall x | x in late :: Run(net, events).value.nodes[x].sentReady
  {
    var start := LateStart(net, late, q);
    var keys := SomeKeys(net, Run(net, start).value);
    var some, inv := (m: Message) => m.to in late && m.key.kind == Ready, (t: State) => LateInv(net, late, q, t);
    forall t: State, m | inv(t) && |t.nodes| == net.cfg.n && Enabled(net, t, Handle(m)) && some(m)
      ensures inv(After(net, t, Handle(m)))
    {
      LateHandle(net, late, q, t, m);
    }
    events := DrainSome(net, start, some, inv, keys);
    LiveAlways(net, events);
    forall x | x in late
      ensures Run(net, events).value.nodes[x].sentReady
    {
      LateReady(net, late, q, Run(net, events).value, x);
    }
  }

  // ---- Nobody delivers ----

  ghost predicate LastInv(net: Net, late: set<nat>, q: nat, t: State)
    requires ValidNet(net)
  {
    AllStuck(net, late, q, t) && AllReady(late, t.nodes)
  }

  ghost predicate AllReady(late: set<nat>, nodes: seq<NodeState>) {
    forall x | x in late && x < |nodes| :: nodes[x].sentReady
  }

  lemma AllReadyUpdate(cfg: Config, late: set<nat>, nodes: seq<NodeState>, m: Message)
    requires AllReady(late, nodes) && m.to < |nodes|
    ensures AllReady(late, nodes[m.to := Received(cfg, nodes[m.to], m)])
  {
    FlagsStay(cfg, nodes[m.to], m);
    assert Said(nodes[m.to], Ready) ==> Said(Received(cfg, nodes[m.to], m), Ready);
  }

  lemma LastHandle(net: Net, late: set<nat>, q: nat, t: State, m: Message)
    requires Split(net, late, q) && LastInv(net, late, q, t) && Enabled(net, t, Handle(m))
    ensures LastInv(net, late, q, After(net, t, Handle(m)))
  {
    StuckHandle(net, late, q, t, m);
    AllReadyUpdate(net.cfg, late, t.nodes, m);
  }

  lemma NobodyDelivers(net: Net, late: set<nat>, q: nat, t: State, x: nat)
    requires Split(net, late, q) && AllStuck(net, late, q, t) && NetKeeps(net, t) && Correct(net, x)
    ensures !t.nodes[x].delivered
  {
    assert Stuck(net, late, q, x, t.nodes[x]) && NodeKeeps(net, t.own, t.nodes[x]);
    var all := {net.cfg.broadcaster} + late + net.faulty;
    assert |all| <= 1 + |late| + |net.faulty|;
    SubsetCard(t.nodes[x].readys, all);
  }

  /** A run in which a correct broadcaster starts and everything has been handled, but nobody delivers. */
  lemma BroadcastIsLost(net: Net, late: set<nat>, q: nat) returns (t: State)
    requires Split(net, late, q)
    ensures Reachable(net, t) && |t.nodes| == net.cfg.n && Quiescent(net, t) && Key(Echo, net.cfg.broadcaster) in t.own
    ensures forall x: nat | Correct(net, x) :: !t.nodes[x].delivered
  {
    var start := LatePhase(net, late, q);
    var keys := SomeKeys(net, Run(net, start).value);
    var some, inv := (m: Message) => true, (t: State) => LastInv(net, late, q, t);
    forall t: State, m | inv(t) && |t.nodes| == net.cfg.n && Enabled(net, t, Handle(m)) && some(m)
      ensures inv(After(net, t, Handle(m)))
    {
      LastHandle(net, late, q, t, m);
    }
    var events := DrainSome(net, start, some, inv, keys);
    NetKeepsAlways(net, events);
    t := Run(net, events).value;
    forall x: nat | Correct(net, x) ensures !t.nodes[x].delivered { NobodyDelivers(net, late, q, t, x); }
    assert forall m | m in t.transit :: some(m);
  }

  // ---- Exactly when validity holds ----

  /** Once a correct broadcaster has started, in every quiescent state all correct nodes have delivered. */
  ghost predicate ValidityHolds(net: Net)
    requires ValidNet(net)
  {
    forall s, u: nat | Reachable(net, s) && Quiescent(net, s) && Key(Echo, net.cfg.broadcaster) in s.own &&
        Correct(net, u) ::
      u < |s.nodes| && s.nodes[u].delivered
  }

  lemma SomebodyIsLate(net: Net) returns (late: set<nat>, q: nat)
    requires Resilient(net) && Complete(net) && |net.faulty| == net.cfg.f && Correct(net, net.cfg.broadcaster)
    requires !Slack(net.cfg)
    ensures Split(net, late, q)
  {
    q := Escape(net.faulty, {});
    var b, correct := net.cfg.broadcaster, CorrectNodes(net);
    CorrectCard(net);
    var count := net.cfg.n - net.cfg.f + 1 - QuorumSize(net.cfg.n, net.cfg.f);
    assert |correct - {b}| == |correct| - 1;
    late := Choose(correct - {b}, count);
    assert late <= correct;
    assert |correct - late| == |correct| - |late|;
  }

  lemma CorrectCard(net: Net)
    requires ValidNet(net)
    ensures |CorrectNodes(net)| == net.cfg.n - |net.faulty|
  {
    assert net.faulty <= Below(net.cfg.n);
    assert CorrectNodes(net) == Below(net.cfg.n) - net.faulty;
    assert |Below(net.cfg.n) - net.faulty| == |Below(net.cfg.n)| - |net.faulty|;
  }

  lemma StateLength(net: Net, s: State)
    requires ValidNet(net) && Reachable(net, s)
    ensures |s.nodes| == net.cfg.n
  {
  }

  /** On a complete graph with `f` faulty nodes validity holds exactly with that slack. */
  lemma ValidityExactly(net: Net)
    requires Resilient(net) && Complete(net) && |net.faulty| == net.cfg.f && Correct(net, net.cfg.broadcaster)
    ensures ValidityHolds(net) <==> Slack(net.cfg)
  {
    if Slack(net.cfg) {
      CompleteIsCertifiable(net);
      forall s, u: nat | Reachable(net, s) && Quiescent(net, s) && Key(Echo, net.cfg.broadcaster) in s.own &&
          Correct(net, u)
        ensures u < |s.nodes| && s.nodes[u].delivered
      {
        StateLength(net, s);
        Validity(net, s, u);
      }
    } else {
      var late, q := SomebodyIsLate(net);
      var t := BroadcastIsLost(net, late, q);
      assert Correct(net, net.cfg.broadcaster) && !t.nodes[net.cfg.broadcaster].delivered;
    }
  }
}
