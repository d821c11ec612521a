/**
  Runs of Bracha over Dolev for one broadcast, over an arbitrary graph: what a correct
  node counts was sent, as long as faulty nodes cannot bounce forged copies off their
  originators, and the exact condition for that.
 */
module BrachaDolev {
  import opened Counting
  import opened Options
  import opened Phases
  import opened Topology
  import opened DisjointSearch
  import opened Taint
  import opened BrachaDolevHandler
  import D = Dissemination

  // ---- Runs ----

  datatype Net = Net(cfg: D.Config, neighbors: seq<seq<nat>>, faulty: set<nat>, broadcaster: nat)

  datatype Message = Message(key: Key, packet: D.Packet)

  datatype NodeState = NodeState(messages: map<Key, D.NodeState>, phase: Phase)

  /** `own`: the Echo and Ready messages that correct nodes have sent as their own;
      `sent`: all messages of correct nodes so far; `started`: the broadcaster has started. */
  datatype State = State(nodes: seq<NodeState>, transit: multiset<Message>, own: set<Key>, sent: set<Message>,
      started: bool)

  datatype Event =
    | Broadcast              // a correct broadcaster starts
    | Handle(m: Message)     // a correct node handles a message
    | Absorb(m: Message)     // a faulty node takes a message in
    | Inject(m: Message)     // a faulty node sends whatever it likes, under its own name

  ghost predicate ValidNet(net: Net) {
    && net.cfg.f + 1 <= net.cfg.n == |net.neighbors| && net.broadcaster < net.cfg.n
    && |net.faulty| <= net.cfg.f && (forall q | q in net.faulty :: q < net.cfg.n)
    && (forall u, i | 0 <= u < net.cfg.n && 0 <= i < |net.neighbors[u]| ::
          net.neighbors[u][i] < net.cfg.n && net.neighbors[u][i] != u)
    && (forall u, v | Linked(net, u, v) :: Linked(net, v, u))
  }

  predicate Linked(net: Net, u: nat, v: nat) {
    u < |net.neighbors| && v in net.neighbors[u]
  }

  ghost predicate Correct(net: Net, u: nat) {
    u < net.cfg.n && u !in net.faulty
  }

  /** A message that the links admit: true sender, existing link, known nodes on the path. */
  ghost predicate Sendable(net: Net, p: D.Packet) {
    && p.from < net.cfg.n && p.to < net.cfg.n && Linked(net, p.from, p.to)
    && forall i | 0 <= i < |p.path| :: p.path[i] < net.cfg.n
  }

  function At(cfg: D.Config, st: NodeState, key: Key): D.NodeState {
    if key in st.messages then st.messages[key] else D.NodeState(false, D.NoLists(cfg.n), {})
  }

  ghost predicate Enabled(net: Net, s: State, e: Event)
    requires |s.nodes| == net.cfg.n
  {
    match e
    case Broadcast => !s.started && Correct(net, net.broadcaster)
    case Handle(m) => m in s.transit && Correct(net, m.packet.to)
                      && D.FitsIn(net.cfg, At(net.cfg, s.nodes[m.packet.to], m.key), m.packet)
    case Absorb(m) => m in s.transit && m.packet.to in net.faulty
    case Inject(m) => m.packet.from in net.faulty && Sendable(net, m.packet)
  }

  function Messages(key: Key, packets: seq<D.Packet>): seq<Message> {
    seq(|packets|, i requires 0 <= i < |packets| => Message(key, packets[i]))
  }

  function OwnMessages(self: nat, neighbors: seq<nat>, own: seq<Kind>): seq<Message> {
    if own == [] then []
    else Messages(Key(own[0], self), OwnPackets(self, neighbors)) + OwnMessages(self, neighbors, own[1..])
  }

  ghost function Reaction(net: Net, s: State, m: Message): Outcome
    requires |s.nodes| == net.cfg.n && Enabled(net, s, Handle(m))
  {
    var st := s.nodes[m.packet.to];
    Handled(net.cfg, net.broadcaster, st.phase, At(net.cfg, st, m.key), m.key, m.packet)
  }

  /** What a correct node sends on handling `m`. */
  ghost function Out(net: Net, s: State, m: Message): seq<Message>
    requires |s.nodes| == net.cfg.n == |net.neighbors| && Enabled(net, s, Handle(m))
  {
    var u := m.packet.to;
    OwnMessages(u, net.neighbors[u], Reaction(net, s, m).own)
    + Messages(m.key,
        D.Output(net.cfg, net.neighbors[u], net.broadcaster, m.key.origin, At(net.cfg, s.nodes[u], m.key), m.packet))
  }

  function FirstMessages(net: Net): seq<Message>
    requires net.broadcaster < |net.neighbors|
  {
    Messages(Key(Echo, net.broadcaster), OwnPackets(net.broadcaster, net.neighbors[net.broadcaster]))
  }

  ghost function After(net: Net, s: State, e: Event): (next: State)
    requires |s.nodes| == net.cfg.n == |net.neighbors| && net.broadcaster < net.cfg.n && Enabled(net, s, e)
    ensures |next.nodes| == net.cfg.n
  {
    match e
    case Broadcast =>
      var b, ph := net.broadcaster, s.nodes[net.broadcaster].phase;
      State(s.nodes[b := s.nodes[b].(phase := ph.(echoes := ph.echoes + {b}))],
            s.transit + multiset(FirstMessages(net)),
            s.own + {Key(Echo, b)},
            s.sent + (set p | p in FirstMessages(net)),
            true)
    case Handle(m) =>
      var u := m.packet.to;
      var st := D.NextState(net.cfg, net.broadcaster, m.key.origin, At(net.cfg, s.nodes[u], m.key), m.packet);
      var reaction, out := Reaction(net, s, m), Out(net, s, m);
      State(s.nodes[u := NodeState(s.nodes[u].messages[m.key := st], reaction.phase)],
            s.transit - multiset{m} + multiset(out),
            s.own + OwnKeys(u, reaction.own),
            s.sent + (set p | p in out),
            s.started)
    case Absorb(m) => s.(transit := s.transit - multiset{m})
    case Inject(m) => s.(transit := s.transit + multiset{m})
  }

  ghost function OwnKeys(u: nat, own: seq<Kind>): set<Key> {
    set kind | kind in own :: Key(kind, u)
  }

  ghost function Initial(net: Net): State {
    State(seq(net.cfg.n, _ => NodeState(map[], FRESH)), multiset{}, {}, {}, false)
  }

  ghost function Run(net: Net, events: seq<Event>): (r: Option<State>)
    requires ValidNet(net)
    ensures r.Some? ==> |r.value.nodes| == net.cfg.n
  {
    if events == [] then Some(Initial(net))
    else
      var k := |events| - 1;
      var before := Run(net, events[..k]);
      if before.Some? && Enabled(net, before.value, events[k]) then
        Some(After(net, before.value, events[k]))
      else None
  }

  lemma RunStep(net: Net, events: seq<Event>, e: Event)
    requires ValidNet(net) && Run(net, events).Some? && Enabled(net, Run(net, events).value, e)
    ensures Run(net, events + [e]) == Some(After(net, Run(net, events).value, e))
  {
    assert (events + [e])[..|events|] == events;
  }

  ghost predicate Reachable(net: Net, s: State)
    requires ValidNet(net)
  {
    exists events :: Run(net, events) == Some(s)
  }

  // ---- What handlers send ----

  lemma {:induction false} OwnMessagesOf(self: nat, neighbors: seq<nat>, own: seq<Kind>, m: Message)
    ensures m in OwnMessages(self, neighbors, own)
       <==> m.key in OwnKeys(self, own) && m.packet == D.Packet(self, m.packet.to, []) && m.packet.to in neighbors
  {
    if own != [] {
      MessagesOf(Key(own[0], self), self, neighbors, m);
      OwnMessagesOf(self, neighbors, own[1..], m);
      assert forall kind :: kind in own <==> kind == own[0] || kind in own[1..];
    }
  }

  lemma MessagesOf(key: Key, self: nat, neighbors: seq<nat>, m: Message)
    ensures m in Messages(key, OwnPackets(self, neighbors))
       <==> m.key == key && m.packet == D.Packet(self, m.packet.to, []) && m.packet.to in neighbors
  {
    var packets := OwnPackets(self, neighbors);
    if m.key == key && m.packet == D.Packet(self, m.packet.to, []) && m.packet.to in neighbors {
      var i :| 0 <= i < |neighbors| && neighbors[i] == m.packet.to;
      assert Messages(key, packets)[i] == m;
    }
  }

  /** What a correct node sends: its own messages, and the relays of this one. */
  lemma OutMember(net: Net, s: State, m: Message, q: Message)
    requires |s.nodes| == net.cfg.n == |net.neighbors| && Enabled(net, s, Handle(m))
    ensures q in Out(net, s, m) <==> OwnOut(net, s, m, q) || RelayOut(net, s, m, q)
  {
    var u, st := m.packet.to, At(net.cfg, s.nodes[m.packet.to], m.key);
    var path := D.Assembled(m.key.origin, m.packet);
    var empty := net.cfg.mods.mod2 && D.Delivers(net.cfg, net.broadcaster, m.key.origin, st, m.packet);
    var relays := D.Output(net.cfg, net.neighbors[u], net.broadcaster, m.key.origin, st, m.packet);
    OwnMessagesOf(u, net.neighbors[u], Reaction(net, s, m).own, q);
    D.RelaysMember(u, net.neighbors[u], m.key.origin, empty, path, q.packet);
    assert q in Messages(m.key, relays) ==> q.packet in relays && q.key == m.key;
    if q.key == m.key && q.packet in relays {
      var i :| 0 <= i < |relays| && relays[i] == q.packet;
      assert Messages(m.key, relays)[i] == q;
    }
  }

  ghost predicate OwnOut(net: Net, s: State, m: Message, q: Message)
    requires |s.nodes| == net.cfg.n == |net.neighbors| && Enabled(net, s, Handle(m))
  {
    q.key in OwnKeys(m.packet.to, Reaction(net, s, m).own) && q.packet == D.Packet(m.packet.to, q.packet.to, [])
    && Linked(net, m.packet.to, q.packet.to)
  }

  ghost predicate RelayOut(net: Net, s: State, m: Message, q: Message)
    requires |s.nodes| == net.cfg.n == |net.neighbors| && Enabled(net, s, Handle(m))
  {
    var st := At(net.cfg, s.nodes[m.packet.to], m.key);
    && !D.Dropped(net.cfg, st, m.packet) && q.key == m.key && q.packet.from == m.packet.to
    && Linked(net, m.packet.to, q.packet.to) && q.packet.to != m.key.origin
    && if net.cfg.mods.mod2 && D.Delivers(net.cfg, net.broadcaster, m.key.origin, st, m.packet) then q.packet.path == []
       else q.packet.path == D.Assembled(m.key.origin, m.packet) && q.packet.to !in q.packet.path
  }

  /** The message's own key takes the step, all others stay. */
  lemma AtAfter(net: Net, s: State, m: Message)
    requires |s.nodes| == net.cfg.n == |net.neighbors| && net.broadcaster < net.cfg.n && Enabled(net, s, Handle(m))
    ensures var st := s.nodes[m.packet.to];
            forall key :: At(net.cfg, After(net, s, Handle(m)).nodes[m.packet.to], key)
                       == if key != m.key then At(net.cfg, st, key)
                          else D.NextState(net.cfg, net.broadcaster, m.key.origin, At(net.cfg, st, key), m.packet)
  {
  }

  // ---- Shape: what every reachable state looks like ----

  ghost predicate Shaped(net: Net, st: NodeState) {
    forall key | key in st.messages :: |st.messages[key].lists| == net.cfg.n && WellFormed(st.messages[key].lists)
  }

  ghost predicate Shape(net: Net, s: State) {
    && |s.nodes| == net.cfg.n
    && (forall u {:trigger Shaped(net, s.nodes[u])} | 0 <= u < net.cfg.n :: Shaped(net, s.nodes[u]))
    && (forall m | m in s.transit :: Sendable(net, m.packet))
    && (forall m | m in s.sent :: Sendable(net, m.packet) && Correct(net, m.packet.from))
    && (forall key | key in s.own :: Correct(net, key.origin))
  }

  /** Every message that arrives at a correct node can be handled. */
  lemma EveryMessageCanBeHandled(net: Net, s: State, m: Message)
    requires ValidNet(net) && Shape(net, s) && m in s.transit && Correct(net, m.packet.to)
    ensures Enabled(net, s, Handle(m))
  {
    assert Shaped(net, s.nodes[m.packet.to]);
  }

  lemma OutIsSendable(net: Net, s: State, m: Message, q: Message)
    requires ValidNet(net) && Shape(net, s) && Enabled(net, s, Handle(m)) && q in Out(net, s, m)
    ensures Sendable(net, q.packet) && q.packet.from == m.packet.to
  {
    OutMember(net, s, m, q);
  }

  lemma ShapeHandle(net: Net, s: State, m: Message)
    requires ValidNet(net) && Shape(net, s) && Enabled(net, s, Handle(m))
    ensures Shape(net, After(net, s, Handle(m)))
  {
    var next := After(net, s, Handle(m));
    forall q | q in Out(net, s, m)
      ensures Sendable(net, q.packet) && Correct(net, q.packet.from)
    {
      OutIsSendable(net, s, m, q);
    }
    forall u | 0 <= u < net.cfg.n
      ensures Shaped(net, next.nodes[u])
    {
      assert Shaped(net, s.nodes[u]);
    }
  }

  lemma FirstAreSendable(net: Net)
    requires ValidNet(net)
    ensures forall q | q in FirstMessages(net) :: Sendable(net, q.packet) && q.packet.from == net.broadcaster
  {
    var b := net.broadcaster;
    forall q | q in FirstMessages(net)
      ensures Sendable(net, q.packet) && q.packet.from == b
    {
      MessagesOf(Key(Echo, b), b, net.neighbors[b], q);
    }
  }

  lemma ShapeOther(net: Net, s: State, e: Event)
    requires ValidNet(net) && Shape(net, s) && Enabled(net, s, e) && !e.Handle?
    ensures Shape(net, After(net, s, e))
  {
    var next := After(net, s, e);
    FirstAreSendable(net);
    forall u | 0 <= u < net.cfg.n
      ensures Shaped(net, next.nodes[u])
    {
      assert Shaped(net, s.nodes[u]);
    }
  }

  lemma {:induction false} ShapeAlways(net: Net, events: seq<Event>)
    requires ValidNet(net) && Run(net, events).Some?
    ensures Shape(net, Run(net, events).value)
  {
    if events != [] {
      var k := |events| - 1;
      ShapeAlways(net, events[..k]);
      var s := Run(net, events[..k]).value;
      if events[k].Handle? { ShapeHandle(net, s, events[k].m); } else { ShapeOther(net, s, events[k]); }
    }
  }

  // ---- What the network keeps ----

  ghost predicate FaultyNeighbor(net: Net, e: nat) {
    exists q :: q in net.faulty && Linked(net, q, e)
  }

  ghost predicate CorrectNeighbor(net: Net, e: nat) {
    exists c :: Correct(net, c) && Linked(net, e, c)
  }

  /** No faulty node can bounce a forged copy off its originator: MOD_1 is off, or every
      correct node lacks faulty neighbours or lacks correct ones. */
  ghost predicate NoBounce(net: Net) {
    !net.cfg.mods.mod1 || forall e | Correct(net, e) :: !FaultyNeighbor(net, e) || !CorrectNeighbor(net, e)
  }

  /** The broadcaster, which the search leaves out of the comparison, cannot abuse that: it is
      correct, or it has no correct neighbour. */
  ghost predicate NoAbuse(net: Net) {
    Correct(net, net.broadcaster) || !CorrectNeighbor(net, net.broadcaster)
  }

  /** Networks in which counting is genuine. */
  ghost predicate Sound(net: Net) {
    ValidNet(net) && NoAbuse(net) && NoBounce(net)
  }

  /** The faulty nodes that the search does not leave out of the comparison. */
  ghost function Bad(net: Net): set<nat> {
    net.faulty - {net.broadcaster}
  }

  /** An Echo or Ready that a correct originator never sent is all tainted paths, nowhere accepted. */
  ghost predicate MessageKeeps(net: Net, own: set<Key>, key: Key, st: D.NodeState) {
    && |st.lists| == net.cfg.n && WellFormed(st.lists)
    && (key.origin in net.faulty || key in own || (!st.delivered && TaintedLists(Bad(net), st.lists)))
  }

  ghost predicate PhaseKeeps(net: Net, own: set<Key>, ph: Phase) {
    && (forall e | e in ph.echoes && e !in net.faulty :: Key(Echo, e) in own)
    && (forall e | e in ph.readys && e !in net.faulty :: Key(Ready, e) in own)
    && (ph.delivered ==> |ph.readys| >= 2 * net.cfg.f + 1)
  }

  ghost predicate NodeKeeps(net: Net, own: set<Key>, st: NodeState) {
    (forall key | key in st.messages :: MessageKeeps(net, own, key, st.messages[key])) && PhaseKeeps(net, own, st.phase)
  }

  ghost predicate NodesKeep(net: Net, s: State) {
    |s.nodes| == net.cfg.n
    && forall u {:trigger NodeKeeps(net, s.own, s.nodes[u])} | 0 <= u < net.cfg.n :: NodeKeeps(net, s.own, s.nodes[u])
  }

  /** A message of a correct originator reaches that originator only from a faulty neighbour, and
      a forged one has a tainted path, also when the originator itself passes it on. */
  ghost predicate TransitKeeps(net: Net, own: set<Key>, m: Message) {
    && Sendable(net, m.packet)
    && (m.packet.to == m.key.origin && m.key.origin !in net.faulty ==> FaultyNeighbor(net, m.key.origin))
    && (m.packet.from in net.faulty || m.key.origin in net.faulty || m.key in own || Bounced(net, m))
  }

  ghost predicate Bounced(net: Net, m: Message) {
    && TaintedPath(Bad(net), m.packet.path)
    && (m.packet.from == m.key.origin ==> FaultyNeighbor(net, m.key.origin))
  }

  ghost predicate NetKeeps(net: Net, s: State) {
    && NodesKeep(net, s) && (forall m | m in s.transit :: TransitKeeps(net, s.own, m))
    && (forall key | key in s.own :: Correct(net, key.origin))
  }

  lemma HandledMessageKeeps(net: Net, s: State, m: Message)
    requires ValidNet(net) && NetKeeps(net, s) && m in s.transit && Correct(net, m.packet.to)
    ensures Enabled(net, s, Handle(m)) && MessageKeeps(net, s.own, m.key, At(net.cfg, s.nodes[m.packet.to], m.key))
  {
    assert NodeKeeps(net, s.own, s.nodes[m.packet.to]) && TransitKeeps(net, s.own, m);
  }

  ghost predicate Forged(net: Net, s: State, key: Key) {
    key.origin !in net.faulty && key !in s.own
  }

  lemma NoForgedDirect(net: Net, s: State, m: Message)
    requires Sound(net) && NetKeeps(net, s) && Enabled(net, s, Handle(m)) && Forged(net, s, m.key)
    ensures !D.Direct(net.cfg, m.key.origin, m.packet)
    ensures m.packet.from in Bad(net) || TaintedPath(Bad(net), m.packet.path)
  {
    assert TransitKeeps(net, s.own, m);
    if m.packet.from == net.broadcaster && m.packet.from in net.faulty {
      assert CorrectNeighbor(net, net.broadcaster);
      assert false;
    }
    if m.packet.from == m.key.origin {
      assert CorrectNeighbor(net, m.packet.from);
    }
  }

  /** A forged message stays tainted, is not accepted, and is passed on with tainted paths. */
  lemma ForgedStaysTainted(net: Net, s: State, m: Message)
    requires Sound(net) && NetKeeps(net, s) && Enabled(net, s, Handle(m)) && Forged(net, s, m.key)
    ensures var st := At(net.cfg, s.nodes[m.packet.to], m.key);
            && TaintedPath(Bad(net), D.Assembled(m.key.origin, m.packet))
            && TaintedLists(Bad(net), D.Stored(net.cfg, m.key.origin, st, m.packet))
            && !st.delivered && !D.Delivers(net.cfg, net.broadcaster, m.key.origin, st, m.packet)
  {
    HandledMessageKeeps(net, s, m);
    NoForgedDirect(net, s, m);
    var st := At(net.cfg, s.nodes[m.packet.to], m.key);
    TaintedAssembled(Bad(net), m.key.origin, m.packet);
    TaintedStored(net.cfg, Bad(net), m.key.origin, st, m.packet);
    NoTaintedDelivery(net, D.Stored(net.cfg, m.key.origin, st, m.packet), m.packet.from);
  }

  lemma NoTaintedDelivery(net: Net, lists: Lists, from: nat)
    requires Sound(net) && WellFormed(lists) && TaintedLists(Bad(net), lists)
    ensures !NewestDisjoint(lists, net.broadcaster, net.cfg.f + 1, from)
  {
    forall pick | Family(lists, pick, net.broadcaster)
      ensures |pick| <= net.cfg.f
    {
      TaintedFamilyIsSmall(Bad(net), lists, pick, net.broadcaster);
      SubsetCard(Bad(net), net.faulty);
    }
  }

  lemma MessageKeepsOn(net: Net, s: State, m: Message)
    requires Sound(net) && NetKeeps(net, s) && Enabled(net, s, Handle(m))
    ensures var st := At(net.cfg, s.nodes[m.packet.to], m.key);
            MessageKeeps(net, s.own, m.key, D.NextState(net.cfg, net.broadcaster, m.key.origin, st, m.packet))
  {
    HandledMessageKeeps(net, s, m);
    if Forged(net, s, m.key) { ForgedStaysTainted(net, s, m); }
  }

  lemma CountedKeeps(net: Net, own: set<Key>, u: nat, ph: Phase, key: Key)
    requires PhaseKeeps(net, own, ph) && (key.origin in net.faulty || key in own)
    ensures var counted := Counted(net.cfg, u, net.broadcaster, ph, key);
            PhaseKeeps(net, own + OwnKeys(u, counted.own), counted.phase)
  {
    var counted := Counted(net.cfg, u, net.broadcaster, ph, key);
    assert key == Key(key.kind, key.origin);
    forall kind | kind in counted.own
      ensures Key(kind, u) in OwnKeys(u, counted.own)
    {
    }
    CountedOwn(net.cfg, u, net.broadcaster, ph, key);
    SubsetCard(ph.readys, counted.phase.readys);
  }

  /** Whoever joins a set is the counted originator, or the node itself as it sends. */
  lemma CountedOwn(cfg: D.Config, u: nat, b: nat, ph: Phase, key: Key)
    ensures var counted := Counted(cfg, u, b, ph, key);
            && ph.echoes <= counted.phase.echoes && ph.readys <= counted.phase.readys
            && (forall e | e in counted.phase.echoes ::
                 e in ph.echoes || key == Key(Echo, e) || (e == u && Echo in counted.own))
            && (forall e | e in counted.phase.readys ::
                 e in ph.readys || key == Key(Ready, e) || (e == u && Ready in counted.own))
  {
    assert key == Key(key.kind, key.origin);
    match key.kind
    case Echo => EchoOwn(cfg, u, b, ph, key.origin);
    case Ready =>
  }

  lemma EchoOwn(cfg: D.Config, u: nat, b: nat, ph: Phase, origin: nat)
    ensures var counted := Counted(cfg, u, b, ph, Key(Echo, origin));
            && ph.echoes <= counted.phase.echoes <= ph.echoes + {origin, u}
            && (u in counted.phase.echoes ==> u in ph.echoes || u == origin || Echo in counted.own)
            && ph.readys <= counted.phase.readys <= ph.readys + {u}
            && (u in counted.phase.readys ==> u in ph.readys || Ready in counted.own)
  {
  }

  lemma PhaseKeepsOn(net: Net, s: State, m: Message)
    requires Sound(net) && NetKeeps(net, s) && Enabled(net, s, Handle(m))
    ensures var reaction := Reaction(net, s, m);
            PhaseKeeps(net, s.own + OwnKeys(m.packet.to, reaction.own), reaction.phase)
  {
    var u := m.packet.to;
    var st := At(net.cfg, s.nodes[u], m.key);
    assert NodeKeeps(net, s.own, s.nodes[u]);
    if D.Accepts(net.cfg, net.broadcaster, m.key.origin, st, m.packet) {
      if Forged(net, s, m.key) { ForgedStaysTainted(net, s, m); }
      CountedKeeps(net, s.own, u, s.nodes[u].phase, m.key);
    }
  }

  lemma NodeKeepsMore(net: Net, own: set<Key>, more: set<Key>, st: NodeState)
    requires NodeKeeps(net, own, st)
    ensures NodeKeeps(net, own + more, st)
  {
  }

  lemma RelayKeeps(net: Net, s: State, m: Message, q: Message)
    requires Sound(net) && NetKeeps(net, s) && Enabled(net, s, Handle(m)) && RelayOut(net, s, m, q)
    ensures TransitKeeps(net, s.own, q)
  {
    assert TransitKeeps(net, s.own, m);
    if Forged(net, s, m.key) { ForgedStaysTainted(net, s, m); }
  }

  lemma HandleTransit(net: Net, s: State, m: Message, q: Message)
    requires Sound(net) && NetKeeps(net, s) && Enabled(net, s, Handle(m)) && q in After(net, s, Handle(m)).transit
    ensures TransitKeeps(net, After(net, s, Handle(m)).own, q)
  {
    OutMember(net, s, m, q);
    if RelayOut(net, s, m, q) {
      RelayKeeps(net, s, m, q);
    } else if !OwnOut(net, s, m, q) {
      assert q in s.transit && TransitKeeps(net, s.own, q);
    }
  }

  lemma NetKeepsHandle(net: Net, s: State, m: Message)
    requires Sound(net) && NetKeeps(net, s) && Enabled(net, s, Handle(m))
    ensures NetKeeps(net, After(net, s, Handle(m)))
  {
    var next, u := After(net, s, Handle(m)), m.packet.to;
    forall q | q in next.transit ensures TransitKeeps(net, next.own, q) { HandleTransit(net, s, m, q); }
    HandlerKeeps(net, s, m);
    forall v | 0 <= v < net.cfg.n
      ensures NodeKeeps(net, next.own, next.nodes[v])
    {
      if v != u { NodeKeepsMore(net, s.own, OwnKeys(u, Reaction(net, s, m).own), s.nodes[v]); }
    }
  }

  lemma HandlerKeeps(net: Net, s: State, m: Message)
    requires Sound(net) && NetKeeps(net, s) && Enabled(net, s, Handle(m))
    ensures var next := After(net, s, Handle(m)); NodeKeeps(net, next.own, next.nodes[m.packet.to])
  {
    var u := m.packet.to;
    MessageKeepsOn(net, s, m);
    PhaseKeepsOn(net, s, m);
    NodeKeepsMore(net, s.own, OwnKeys(u, Reaction(net, s, m).own), s.nodes[u]);
  }

  lemma NetKeepsBroadcast(net: Net, s: State)
    requires Sound(net) && NetKeeps(net, s) && Enabled(net, s, Broadcast)
    ensures NetKeeps(net, After(net, s, Broadcast))
  {
    var next, b := After(net, s, Broadcast), net.broadcaster;
    forall q | q in next.transit
      ensures TransitKeeps(net, next.own, q)
    {
      MessagesOf(Key(Echo, b), b, net.neighbors[b], q);
      assert q in s.transit ==> TransitKeeps(net, s.own, q);
    }
    forall v | 0 <= v < net.cfg.n
      ensures NodeKeeps(net, next.own, next.nodes[v])
    {
      NodeKeepsMore(net, s.own, {Key(Echo, b)}, s.nodes[v]);
    }
  }

  lemma NetKeepsStep(net: Net, s: State, e: Event)
    requires Sound(net) && NetKeeps(net, s) && Enabled(net, s, e)
    ensures NetKeeps(net, After(net, s, e))
  {
    match e
    case Broadcast => NetKeepsBroadcast(net, s);
    case Handle(m) => NetKeepsHandle(net, s, m);
    case Absorb(m) => assert NodesKeep(net, After(net, s, e));
    case Inject(m) => assert NodesKeep(net, After(net, s, e));
  }

  lemma {:induction false} NetKeepsAlways(net: Net, events: seq<Event>)
    requires Sound(net)
    ensures Run(net, events).Some? ==> NetKeeps(net, Run(net, events).value)
  {
    if events != [] {
      var k := |events| - 1;
      NetKeepsAlways(net, events[..k]);
      if Run(net, events).Some? {
        NetKeepsStep(net, Run(net, events[..k]).value, events[k]);
      }
    }
  }

  // ---- Safety ----

  /** What a correct node counts of a correct originator, that originator sent, whatever
      `f` faulty nodes send and relay. */
  lemma CountedIsGenuine(net: Net, s: State, u: nat, e: nat)
    requires Sound(net) && Reachable(net, s) && Correct(net, u) && e !in net.faulty
    ensures e in s.nodes[u].phase.echoes ==> Key(Echo, e) in s.own
    ensures e in s.nodes[u].phase.readys ==> Key(Ready, e) in s.own
  {
    var events :| Run(net, events) == Some(s);
    NetKeepsAlways(net, events);
    assert NodeKeeps(net, s.own, s.nodes[u]);
  }

  lemma FaultyAreTooFew(net: Net, some: set<nat>)
    requires ValidNet(net) && some <= net.faulty
    ensures |some| <= net.cfg.f && |some| < QuorumSize(net.cfg.n, net.cfg.f)
  {
    SubsetCard(some, net.faulty);
  }

  /** While no correct node has sent anything of its own, none is made to. */
  lemma NothingOwnYet(net: Net, s: State, m: Message)
    requires Sound(net) && Correct(net, net.broadcaster) && NetKeeps(net, s) && Enabled(net, s, Handle(m))
    requires s.own == {}
    ensures Reaction(net, s, m).own == []
  {
    var u := m.packet.to;
    assert NodeKeeps(net, s.own, s.nodes[u]);
    if Forged(net, s, m.key) {
      ForgedStaysTainted(net, s, m);
    } else {
      var ph := s.nodes[u].phase;
      assert m.key.origin in net.faulty && ph.echoes <= net.faulty && ph.readys <= net.faulty;
      FaultyAreTooFew(net, ph.echoes);
      FaultyAreTooFew(net, ph.readys);
      FaultyAreTooFew(net, ph.echoes + {m.key.origin});
      FaultyAreTooFew(net, ph.readys + {m.key.origin});
    }
  }

  lemma {:induction false} SilentUntilBroadcast(net: Net, events: seq<Event>)
    requires Sound(net) && Correct(net, net.broadcaster) && Broadcast !in events
    ensures Run(net, events).Some? ==> Run(net, events).value.own == {}
  {
    if events != [] {
      var k := |events| - 1;
      SilentUntilBroadcast(net, events[..k]);
      NetKeepsAlways(net, events[..k]);
      if Run(net, events).Some? && events[k].Handle? {
        NothingOwnYet(net, Run(net, events[..k]).value, events[k].m);
      }
    }
  }

  lemma NotDeliveredYet(net: Net, s: State, u: nat)
    requires Sound(net) && NetKeeps(net, s) && s.own == {} && Correct(net, u)
    ensures !s.nodes[u].phase.delivered
  {
    assert NodeKeeps(net, s.own, s.nodes[u]);
    assert s.nodes[u].phase.readys <= net.faulty;
    FaultyAreTooFew(net, s.nodes[u].phase.readys);
  }

  /** If a correct broadcaster never starts, no correct node ever sends its own Echo or
      Ready, and none delivers. */
  lemma Integrity(net: Net, events: seq<Event>, u: nat)
    requires Sound(net) && Correct(net, net.broadcaster) && Broadcast !in events
    requires Run(net, events).Some? && Correct(net, u)
    ensures Run(net, events).value.own == {}
    ensures !Run(net, events).value.nodes[u].phase.delivered
  {
    SilentUntilBroadcast(net, events);
    NetKeepsAlways(net, events);
    NotDeliveredYet(net, Run(net, events).value, u);
  }

  // ---- Where the first Ready comes from ----

  ghost predicate EchoQuorum(net: Net, s: State, u: nat) {
    Correct(net, u) && u < |s.nodes| && |s.nodes[u].phase.echoes| >= QuorumSize(net.cfg.n, net.cfg.f)
  }

  ghost predicate ReadyHasOrigin(net: Net, s: State) {
    (exists u: nat :: EchoQuorum(net, s, u)) || forall key | key in s.own :: key.kind != Ready
  }

  lemma EchoesGrow(net: Net, s: State, e: Event, u: nat)
    requires ValidNet(net) && |s.nodes| == net.cfg.n && Enabled(net, s, e) && EchoQuorum(net, s, u)
    ensures EchoQuorum(net, After(net, s, e), u)
  {
    var next := After(net, s, e);
    if e.Handle? { CountedOwn(net.cfg, e.m.packet.to, net.broadcaster, s.nodes[e.m.packet.to].phase, e.m.key); }
    SubsetCard(s.nodes[u].phase.echoes, next.nodes[u].phase.echoes);
  }

  /** Without an echo quorum the first Ready would need a Ready of the broadcaster, or
      `f + 1` Readys of faulty nodes. */
  lemma FirstReadyNeedsQuorum(net: Net, s: State, m: Message)
    requires Sound(net) && Correct(net, net.broadcaster) && NetKeeps(net, s) && Enabled(net, s, Handle(m))
    requires (forall key | key in s.own :: key.kind != Ready) && Ready in Reaction(net, s, m).own
    ensures EchoQuorum(net, After(net, s, Handle(m)), m.packet.to)
  {
    var ph := s.nodes[m.packet.to].phase;
    assert NodeKeeps(net, s.own, s.nodes[m.packet.to]);
    assert ph.readys <= net.faulty;
    FaultyAreTooFew(net, ph.readys);
    if m.key.kind == Ready {
      if Forged(net, s, m.key) { ForgedStaysTainted(net, s, m); }
      FaultyAreTooFew(net, ph.readys + {m.key.origin});
    }
  }

  lemma OriginStep(net: Net, s: State, e: Event)
    requires Sound(net) && Correct(net, net.broadcaster) && NetKeeps(net, s) && Enabled(net, s, e)
    requires ReadyHasOrigin(net, s)
    ensures ReadyHasOrigin(net, After(net, s, e))
  {
    if u: nat :| EchoQuorum(net, s, u) {
      EchoesGrow(net, s, e, u);
    } else if e.Handle? && Ready in Reaction(net, s, e.m).own {
      FirstReadyNeedsQuorum(net, s, e.m);
    }
  }

  lemma {:induction false} OriginAlways(net: Net, events: seq<Event>)
    requires Sound(net) && Correct(net, net.broadcaster)
    ensures Run(net, events).Some? ==> ReadyHasOrigin(net, Run(net, events).value)
  {
    if events != [] {
      var k := |events| - 1;
      OriginAlways(net, events[..k]);
      NetKeepsAlways(net, events[..k]);
      if Run(net, events).Some? {
        OriginStep(net, Run(net, events[..k]).value, events[k]);
      }
    }
  }

  /** The correct nodes among those whose Ready node `u` has counted. */
  ghost function CorrectReadys(net: Net, s: State, u: nat): set<nat>
    requires u < |s.nodes|
  {
    s.nodes[u].phase.readys - net.faulty
  }

  /** A delivery rests on the Readys of `f + 1` correct nodes. */
  lemma DeliveryRestsOnCorrectReadys(net: Net, s: State, u: nat)
    requires Sound(net) && Reachable(net, s) && Correct(net, u) && s.nodes[u].phase.delivered
    ensures |CorrectReadys(net, s, u)| >= net.cfg.f + 1
    ensures forall e | e in CorrectReadys(net, s, u) :: Correct(net, e) && Key(Ready, e) in s.own
  {
    var events :| Run(net, events) == Some(s);
    NetKeepsAlways(net, events);
    assert NodeKeeps(net, s.own, s.nodes[u]);
    DifferenceCard(s.nodes[u].phase.readys, net.faulty);
  }

  /** With a correct broadcaster a correct node's Ready, and so a delivery, goes back to an echo quorum
      at a correct node. */
  lemma ReadyOrigin(net: Net, s: State, e: nat)
    requires Sound(net) && Correct(net, net.broadcaster) && Reachable(net, s) && Key(Ready, e) in s.own
    ensures exists v: nat :: EchoQuorum(net, s, v)
  {
    var events :| Run(net, events) == Some(s);
    OriginAlways(net, events);
  }

  /** Two echo quorums share a correct node that did send its Echo. */
  lemma EchoQuorumsMeet(net: Net, s: State, u: nat, v: nat) returns (e: nat)
    requires Sound(net) && Reachable(net, s) && EchoQuorum(net, s, u) && EchoQuorum(net, s, v)
    ensures Correct(net, e) && e in s.nodes[u].phase.echoes && e in s.nodes[v].phase.echoes && Key(Echo, e) in s.own
  {
    var events :| Run(net, events) == Some(s);
    NetKeepsAlways(net, events);
    CountedInRange(net, s, u);
    CountedInRange(net, s, v);
    e := QuorumsShareACorrectNode(net.cfg.n, net.cfg.f, net.faulty, s.nodes[u].phase.echoes, s.nodes[v].phase.echoes);
    CountedIsGenuine(net, s, u, e);
  }

  lemma CountedInRange(net: Net, s: State, u: nat)
    requires Sound(net) && NetKeeps(net, s) && Correct(net, u)
    ensures forall e | e in s.nodes[u].phase.echoes :: e < net.cfg.n
  {
    assert NodeKeeps(net, s.own, s.nodes[u]);
    forall e | e in s.nodes[u].phase.echoes
      ensures e < net.cfg.n
    {
      assert e in net.faulty || Key(Echo, e) in s.own;
    }
  }

  // ---- When counting is genuine ----

  /** What correct nodes count of correct originators, these sent, in every run. */
  ghost predicate Genuine(net: Net)
    requires ValidNet(net)
  {
    forall s, u: nat | Reachable(net, s) && Correct(net, u) :: u < |s.nodes| && CountsGenuine(net, s, u)
  }

  ghost predicate CountsGenuine(net: Net, s: State, u: nat)
    requires u < |s.nodes|
  {
    forall e: nat | e !in net.faulty ::
      && (e in s.nodes[u].phase.echoes ==> Key(Echo, e) in s.own)
      && (e in s.nodes[u].phase.readys ==> Key(Ready, e) in s.own)
  }

  lemma ReachableNext(net: Net, s: State, e: Event)
    requires ValidNet(net) && Reachable(net, s) && |s.nodes| == net.cfg.n && Enabled(net, s, e)
    ensures Reachable(net, After(net, s, e))
  {
    var events :| Run(net, events) == Some(s);
    RunStep(net, events, e);
  }

  /** A faulty node gets a first message to a correct one. */
  lemma InjectFirst(net: Net, m: Message) returns (s: State)
    requires ValidNet(net) && m.packet.from in net.faulty && Sendable(net, m.packet)
    ensures Reachable(net, s) && s == Initial(net).(transit := multiset{m})
  {
    assert Run(net, []) == Some(Initial(net));
    ReachableNext(net, Initial(net), Inject(m));
    s := After(net, Initial(net), Inject(m));
  }

  /** A fresh node that stores one path, from somebody else than the originator, only relays it. */
  lemma FirstCopyIsRelayed(net: Net, s: State, m: Message, to: nat) returns (next: State)
    requires ValidNet(net) && net.cfg.f >= 1 && Reachable(net, s) && |s.nodes| == net.cfg.n && m in s.transit
    requires Correct(net, m.packet.to) && s.nodes[m.packet.to] == NodeState(map[], FRESH) && Sendable(net, m.packet)
    requires m.packet.from != m.key.origin && m.packet.path == []
    requires Linked(net, m.packet.to, to) && to != m.key.origin && to != m.packet.from
    ensures Reachable(net, next) && next.own == s.own && next.nodes == s.nodes[m.packet.to := next.nodes[m.packet.to]]
    ensures Message(m.key, D.Packet(m.packet.to, to, [m.packet.from])) in next.transit
    ensures forall p | p in s.transit && p != m :: p in next.transit
  {
    FirstCopyRelays(net, s, m, to);
    ReachableNext(net, s, Handle(m));
    next := After(net, s, Handle(m));
    assert OwnKeys(m.packet.to, []) == {};
  }

  lemma FirstCopyRelays(net: Net, s: State, m: Message, to: nat)
    requires ValidNet(net) && net.cfg.f >= 1 && |s.nodes| == net.cfg.n && m in s.transit
    requires Correct(net, m.packet.to) && s.nodes[m.packet.to] == NodeState(map[], FRESH) && Sendable(net, m.packet)
    requires m.packet.from != m.key.origin && m.packet.path == []
    requires Linked(net, m.packet.to, to) && to != m.key.origin && to != m.packet.from
    ensures Enabled(net, s, Handle(m)) && Reaction(net, s, m).own == []
    ensures Message(m.key, D.Packet(m.packet.to, to, [m.packet.from])) in Out(net, s, m)
  {
    D.NoLoneDelivery(net.cfg, net.broadcaster, m.key.origin, m.packet);
    assert D.Assembled(m.key.origin, m.packet) == [m.packet.from];
    OutMember(net, s, m, Message(m.key, D.Packet(m.packet.to, to, [m.packet.from])));
  }

  /** A node that counts an Echo sends nothing in its originator's name. */
  lemma CountedUnsent(net: Net, s: State, m: Message)
    requires ValidNet(net) && Reachable(net, s) && |s.nodes| == net.cfg.n && Enabled(net, s, Handle(m))
    requires m.key.kind == Echo && m.key !in s.own && m.key.origin != m.packet.to
    requires D.Accepts(net.cfg, net.broadcaster, m.key.origin, At(net.cfg, s.nodes[m.packet.to], m.key), m.packet)
    ensures var next := After(net, s, Handle(m));
            Reachable(net, next) && m.key.origin in next.nodes[m.packet.to].phase.echoes && m.key !in next.own
  {
    ReachableNext(net, s, Handle(m));
  }

  /** Under MOD_1 a faulty node bounces an Echo off its originator, which never sent it. */
  lemma BounceIsCounted(net: Net, q: nat, e: nat, c: nat) returns (s: State)
    requires ValidNet(net) && net.cfg.mods.mod1 && q in net.faulty && Correct(net, e) && Correct(net, c)
    requires Linked(net, q, e) && Linked(net, e, c)
    ensures Reachable(net, s) && |s.nodes| == net.cfg.n && e in s.nodes[c].phase.echoes && Key(Echo, e) !in s.own
  {
    SubsetCard({q}, net.faulty);
    var m := Message(Key(Echo, e), D.Packet(q, e, []));
    s := InjectFirst(net, m);
    s := FirstCopyIsRelayed(net, s, m, c);
    var bounced := Message(Key(Echo, e), D.Packet(e, c, [q]));
    CountedUnsent(net, s, bounced);
    s := After(net, s, Handle(bounced));
  }

  lemma SoundIsGenuine(net: Net)
    requires Sound(net)
    ensures Genuine(net)
  {
    forall s, u: nat | Reachable(net, s) && Correct(net, u)
      ensures u < |s.nodes| && CountsGenuine(net, s, u)
    {
      RunLength(net, s);
      forall e: nat | e !in net.faulty
        ensures e in s.nodes[u].phase.echoes ==> Key(Echo, e) in s.own
        ensures e in s.nodes[u].phase.readys ==> Key(Ready, e) in s.own
      {
        CountedIsGenuine(net, s, u, e);
      }
    }
  }

  lemma BounceIsNotGenuine(net: Net)
    requires ValidNet(net) && !NoBounce(net)
    ensures !Genuine(net)
  {
    var e :| Correct(net, e) && FaultyNeighbor(net, e) && CorrectNeighbor(net, e);
    var q :| q in net.faulty && Linked(net, q, e);
    var c :| Correct(net, c) && Linked(net, e, c);
    var s := BounceIsCounted(net, q, e, c);
    assert !CountsGenuine(net, s, c);
  }

  lemma RunLength(net: Net, s: State)
    requires ValidNet(net) && Reachable(net, s)
    ensures |s.nodes| == net.cfg.n
  {
  }

  /** With a correct broadcaster, counting is genuine in every run exactly when MOD_1 is off or
      every correct node lacks faulty neighbours or lacks correct ones. */
  lemma CountingIsGenuineExactly(net: Net)
    requires ValidNet(net) && Correct(net, net.broadcaster)
    ensures Genuine(net) <==> NoBounce(net)
  {
    if NoBounce(net) { SoundIsGenuine(net); } else { BounceIsNotGenuine(net); }
  }

  // ---- A faulty broadcaster ----

  /** All `f` faulty nodes, the broadcaster among them, are linked to `u`; so is `e`, another
      correct neighbour of the broadcaster. */
  ghost predicate Exposed(net: Net, u: nat, e: nat) {
    && ValidNet(net) && net.broadcaster in net.faulty && |net.faulty| == net.cfg.f
    && Correct(net, u) && Correct(net, e) && Linked(net, net.broadcaster, e) && Linked(net, e, u) && u != e
    && forall q | q in net.faulty :: Linked(net, q, u)
  }

  ghost function ListsFor(net: Net, s: State, u: nat, e: nat): Lists
    requires u < |s.nodes|
  {
    At(net.cfg, s.nodes[u], Key(Echo, e)).lists
  }

  /** `u` has not yet counted the Echo that `e` never sent. */
  ghost predicate Undecided(net: Net, s: State, u: nat, e: nat)
    requires ValidNet(net)
  {
    && Reachable(net, s) && u < |s.nodes| && Key(Echo, e) !in s.own
    && !At(net.cfg, s.nodes[u], Key(Echo, e)).delivered
    && !HasDisjoint(ListsFor(net, s, u, e), net.broadcaster, net.cfg.f + 1)
  }

  ghost predicate Deceived(net: Net, s: State, u: nat, e: nat)
    requires ValidNet(net)
  {
    Reachable(net, s) && u < |s.nodes| && e in s.nodes[u].phase.echoes && Key(Echo, e) !in s.own
  }

  /** One more copy is stored, if it does not make `u` count. */
  ghost predicate StoredToo(lists: Lists, more: Lists, m: Message, n: nat) {
    && Holds(more, m.packet.from, D.MaskOf(D.Assembled(m.key.origin, m.packet), n))
    && forall from, mask | Holds(lists, from, mask) :: Holds(more, from, mask)
  }

  lemma TakeIn(net: Net, s: State, u: nat, e: nat, m: Message) returns (next: State)
    requires ValidNet(net) && Undecided(net, s, u, e) && m in s.transit && m.key == Key(Echo, e)
    requires m.packet.to == u != e
    requires Correct(net, u) && !D.Dropped(net.cfg, At(net.cfg, s.nodes[u], m.key), m.packet)
    ensures Deceived(net, next, u, e)
            || (Undecided(net, next, u, e) &&
                StoredToo(ListsFor(net, s, u, e), ListsFor(net, next, u, e), m, net.cfg.n))
  {
    var events :| Run(net, events) == Some(s);
    ShapeAlways(net, events);
    EveryMessageCanBeHandled(net, s, m);
    next := After(net, s, Handle(m));
    var st := At(net.cfg, s.nodes[u], m.key);
    if D.Delivers(net.cfg, net.broadcaster, e, st, m.packet) {
      CountedUnsent(net, s, m);
    } else {
      ReachableNext(net, s, Handle(m));
      NothingCounted(net, s, m);
      D.StaysUndecided(net.cfg, net.broadcaster, e, st, m.packet);
      GrowHolds(st.lists, m.packet.from, D.MaskOf(D.Assembled(e, m.packet), net.cfg.n));
    }
  }

  lemma NothingCounted(net: Net, s: State, m: Message)
    requires ValidNet(net) && |s.nodes| == net.cfg.n && Enabled(net, s, Handle(m)) && Correct(net, m.packet.to)
    requires var st := At(net.cfg, s.nodes[m.packet.to], m.key);
             !st.delivered && !D.Delivers(net.cfg, net.broadcaster, m.key.origin, st, m.packet)
    ensures After(net, s, Handle(m)).own == s.own
  {
    assert OwnKeys(m.packet.to, []) == {};
  }

  lemma GrowHolds(lists: Lists, from: nat, mask: Mask)
    requires from < |lists|
    ensures Holds(Grow(lists, from, mask), from, mask)
    ensures forall l: nat, held | Holds(lists, l, held) :: Holds(Grow(lists, from, mask), l, held)
  {
    var more := Grow(lists, from, mask);
    assert more[from][|lists[from]|] == mask;
    forall l: nat, held | Holds(lists, l, held)
      ensures Holds(more, l, held)
    {
      var k :| 0 <= k < |lists[l]| && lists[l][k] == held;
      assert more[l][k] == held;
    }
  }

  /** What `u` stores: the copy that the broadcaster had `e` relay, and one copy of each faulty node. */
  ghost function ForgedMask(net: Net, e: nat, x: nat): Mask {
    D.MaskOf([if x == e then net.broadcaster else x], net.cfg.n)
  }

  lemma ForgedApart(net: Net, e: nat)
    requires e !in net.faulty && net.broadcaster in net.faulty
    ensures forall x, y | x in net.faulty + {e} && y in net.faulty + {e} && x != y ::
              Apart(ForgedMask(net, e, x), ForgedMask(net, e, y), net.broadcaster)
  {
  }

  ghost predicate ForgedHeld(net: Net, lists: Lists, e: nat, senders: set<nat>) {
    forall x | x in senders :: Holds(lists, x, ForgedMask(net, e, x))
  }

  lemma ForgedDecides(net: Net, lists: Lists, u: nat, e: nat)
    requires Exposed(net, u, e) && ForgedHeld(net, lists, e, net.faulty + {e})
    ensures HasDisjoint(lists, net.broadcaster, net.cfg.f + 1)
  {
    var mask := (x: nat) => ForgedMask(net, e, x);
    ForgedApart(net, e);
    HeldSetIsDisjoint(lists, net.faulty + {e}, mask, net.broadcaster);
  }

  lemma {:induction false} Collect(net: Net, s: State, u: nat, e: nat, done: set<nat>) returns (next: State)
    requires Exposed(net, u, e) && Undecided(net, s, u, e) && done <= net.faulty
    requires ForgedHeld(net, ListsFor(net, s, u, e), e, done + {e})
    ensures Deceived(net, next, u, e)
    decreases net.faulty - done
  {
    if c :| c in net.faulty && c !in done {
      next := OneMoreCopy(net, s, u, e, c, done);
      if !Deceived(net, next, u, e) { next := Collect(net, next, u, e, done + {c}); }
    } else {
      next := s;
      assert done == net.faulty;
      ForgedDecides(net, ListsFor(net, s, u, e), u, e);
      assert false;
    }
  }

  /** A faulty node sends its copy, and `u` handles it. */
  lemma OneMoreCopy(net: Net, s: State, u: nat, e: nat, c: nat, done: set<nat>) returns (next: State)
    requires Exposed(net, u, e) && Undecided(net, s, u, e) && c in net.faulty
    requires ForgedHeld(net, ListsFor(net, s, u, e), e, done + {e})
    ensures Deceived(net, next, u, e)
            || (Undecided(net, next, u, e) && ForgedHeld(net, ListsFor(net, next, u, e), e, done + {c} + {e}))
  {
    var m := Message(Key(Echo, e), D.Packet(c, u, []));
    RunLength(net, s);
    ReachableNext(net, s, Inject(m));
    next := After(net, s, Inject(m));
    next := TakeIn(net, next, u, e, m);
    assert D.Assembled(e, m.packet) == [c];
  }

  /** With a faulty broadcaster, whatever modifications are on, a run makes a correct node count
      an Echo that its correct originator never sent. */
  lemma FaultyBroadcasterForges(net: Net, u: nat, e: nat) returns (s: State)
    requires Exposed(net, u, e)
    ensures Reachable(net, s) && |s.nodes| == net.cfg.n && e in s.nodes[u].phase.echoes && Key(Echo, e) !in s.own
  {
    var b := net.broadcaster;
    SubsetCard({b}, net.faulty);
    s := InjectFirst(net, Message(Key(Echo, e), D.Packet(b, e, [])));
    s := FirstCopyIsRelayed(net, s, Message(Key(Echo, e), D.Packet(b, e, [])), u);
    D.NothingStored(net.cfg.n, b, net.cfg.f + 1);
    var m := Message(Key(Echo, e), D.Packet(e, u, [b]));
    var next := TakeIn(net, s, u, e, m);
    assert D.Assembled(e, m.packet) == [b];
    s := next;
    if !Deceived(net, s, u, e) { s := Collect(net, s, u, e, {}); }
    RunLength(net, s);
  }

  // ---- Complete graphs ----

  ghost predicate Complete(net: Net) {
    forall u: nat, v: nat | u < net.cfg.n && v < net.cfg.n && u != v :: Linked(net, u, v)
  }

  /** On a complete graph with `f` faulty and at least two correct nodes, counting is genuine exactly
      when the broadcaster is correct and MOD_1 is off, or nobody is faulty. */
  lemma GenuineExactly(net: Net)
    requires ValidNet(net) && Complete(net) && |net.faulty| == net.cfg.f && net.cfg.n >= net.cfg.f + 2
    ensures Genuine(net) <==> NoAbuse(net) && NoBounce(net)
    ensures NoAbuse(net) && NoBounce(net) <==> net.cfg.f == 0 || (Correct(net, net.broadcaster) && !net.cfg.mods.mod1)
  {
    var u, e := TwoCorrect(net);
    assert Correct(net, u) && Correct(net, e);
    if q :| q in net.faulty { assert FaultyNeighbor(net, u) && CorrectNeighbor(net, u); }
    if !NoBounce(net) {
      BounceIsNotGenuine(net);
    } else if NoAbuse(net) {
      SoundIsGenuine(net);
    } else {
      var s := FaultyBroadcasterForges(net, u, e);
      assert !CountsGenuine(net, s, u);
    }
  }

  lemma TwoCorrect(net: Net) returns (u: nat, e: nat)
    requires ValidNet(net) && net.cfg.n >= net.cfg.f + 2
    ensures Correct(net, u) && Correct(net, e) && u != e
  {
    u := Escape(Below(net.cfg.n), net.faulty);
    e := Escape(Below(net.cfg.n), net.faulty + {u});
  }
}
