/**
  Bracha's phases over certified propagation: Echo and Ready messages travel
  through an arbitrary graph, and a node validates one when its originator sent
  it directly or `f + 1` neighbours did. One broadcast, with a fixed broadcaster.
 */
module BrachaCpa {
  import opened Counting
  import opened Options
  import opened Phases
  import opened Topology

  datatype Message = Message(key: Key, from: nat, to: nat)

  /** `heard`: which neighbours sent each message. `echoes`, `readys`: the originators validated. */
  datatype NodeState = NodeState(heard: map<Key, set<nat>>, echoes: set<nat>, readys: set<nat>, both: set<nat>,
                                 sentEcho: bool, sentReady: bool, delivered: bool)

  const FRESH := NodeState(map[], {}, {}, {}, false, false, false)

  datatype Config = Config(n: nat, f: nat, broadcaster: nat)

  // ---- One message at one node ----

  function Heard(heard: map<Key, set<nat>>, key: Key): set<nat> {
    if key in heard then heard[key] else {}
  }

  /** Neither the originator nor `f + 1` neighbours have sent the message so far. */
  predicate NotValidated(cfg: Config, heard: map<Key, set<nat>>, key: Key) {
    key.origin !in Heard(heard, key) && |Heard(heard, key)| < cfg.f + 1
  }

  function Noted(st: NodeState, m: Message): NodeState {
    st.(heard := st.heard[m.key := Heard(st.heard, m.key) + {m.from}])
  }

  predicate Validates(cfg: Config, st: NodeState, m: Message) {
    m.key.origin == m.from || |Heard(st.heard, m.key)| >= cfg.f + 1
  }

  function Validated(cfg: Config, st: NodeState, m: Message): NodeState {
    if !Validates(cfg, st, m) then st
    else
      match m.key.kind
      case Echo => st.(echoes := st.echoes + {m.key.origin}, both := st.both + {m.key.origin})
      case Ready => st.(readys := st.readys + {m.key.origin}, both := st.both + {m.key.origin})
  }

  predicate IsReady(cfg: Config, st: NodeState) {
    |st.echoes| >= QuorumSize(cfg.n, cfg.f) || |st.readys| >= cfg.f + 1
  }

  predicate EchoDue(cfg: Config, st: NodeState) {
    var first := Key(Echo, cfg.broadcaster);
    |st.both| >= cfg.f + 1 || cfg.broadcaster in Heard(st.heard, first) || |Heard(st.heard, first)| >= cfg.f + 1
  }

  /** The node's own message that is due, Ready before Echo. */
  function OwnMessage(cfg: Config, st: NodeState): Option<Kind> {
    if !st.sentReady && IsReady(cfg, st) then Some(Ready)
    else if !st.sentEcho && EchoDue(cfg, st) then Some(Echo)
    else None
  }

  function Owned(self: nat, st: NodeState, own: Option<Kind>): NodeState {
    match own
    case None => st
    case Some(Ready) => st.(sentReady := true, sentEcho := true, readys := st.readys + {self})
    case Some(Echo) => st.(sentEcho := true, echoes := st.echoes + {self})
  }

  /** Validation, as far as the message is new. */
  function Before(cfg: Config, st: NodeState, m: Message): NodeState {
    Validated(cfg, Noted(st, m), m)
  }

  function Received(cfg: Config, st: NodeState, m: Message): NodeState {
    if !NotValidated(cfg, st.heard, m.key) then st
    else
      var before := Before(cfg, st, m);
      var after := Owned(m.to, before, OwnMessage(cfg, before));
      after.(delivered := after.delivered || |after.readys| >= QuorumSize(cfg.n, cfg.f))
  }

  /** The kind of the own message sent on receiving `m`. */
  function OwnSent(cfg: Config, st: NodeState, m: Message): Option<Kind> {
    if !NotValidated(cfg, st.heard, m.key) then None else OwnMessage(cfg, Before(cfg, st, m))
  }

  /** A message for every neighbour that `skip` does not contain. */
  function ToNeighbors(self: nat, neighbors: seq<nat>, key: Key, skip: set<nat>): seq<Message> {
    if neighbors == [] then []
    else
      var k := |neighbors| - 1;
      ToNeighbors(self, neighbors[..k], key, skip)
      + if neighbors[k] in skip then [] else [Message(key, self, neighbors[k])]
  }

  function Sent(cfg: Config, neighbors: seq<nat>, st: NodeState, m: Message): seq<Message> {
    if !NotValidated(cfg, st.heard, m.key) then []
    else
      var noted := Noted(st, m);
      var forwarded :=
        if Validates(cfg, noted, m) then ToNeighbors(m.to, neighbors, m.key, Heard(noted.heard, m.key)) else [];
      match OwnSent(cfg, st, m)
      case None => forwarded
      case Some(kind) => forwarded + ToNeighbors(m.to, neighbors, Key(kind, m.to), {})
  }

  class Peer {
    const cfg: Config
    const selfId: nat
    const quorumSize: nat
    const neighbors: seq<nat>

    var sentEcho: bool
    var sentReady: bool
    var delivered: bool
    var heardNodesPerMsg: map<Key, set<nat>>
    var validatedEchos: set<nat>
    var validatedReadys: set<nat>
    var validatedEchosOrReadys: set<nat>

    constructor (cfg: Config, selfId: nat, neighbors: seq<nat>)
      ensures this.cfg == cfg && this.selfId == selfId && this.neighbors == neighbors && Valid() && View() == FRESH
    {
      this.cfg, this.selfId, this.neighbors := cfg, selfId, neighbors;
      var size := ByzQuorumSize(cfg.n, cfg.f);
      quorumSize := size;
      sentEcho, sentReady, delivered := false, false, false;
      heardNodesPerMsg, validatedEchos, validatedReadys, validatedEchosOrReadys := map[], {}, {}, {};
    }

    ghost predicate Valid() {
      quorumSize == QuorumSize(cfg.n, cfg.f)
    }

    ghost function View(): NodeState
      reads this
    {
      NodeState(heardNodesPerMsg, validatedEchos, validatedReadys, validatedEchosOrReadys, sentEcho, sentReady,
          delivered)
    }

    /** The broadcaster's first message is its own Echo. */
    method FirstMessage() returns (out: seq<Message>)
      modifies this
      ensures View() == old(View()).(sentEcho := true, echoes := old(View()).echoes + {selfId})
      ensures out == ToNeighbors(selfId, neighbors, Key(Echo, selfId), {})
    {
      sentEcho := true;
      validatedEchos := validatedEchos + {selfId};
      out := SendTo(Key(Echo, selfId), {});
    }

    method ReceiveMessage(m: Message) returns (out: seq<Message>)
      requires Valid() && m.to == selfId
      modifies this
      ensures View() == Received(cfg, old(View()), m)
      ensures out == Sent(cfg, neighbors, old(View()), m)
    {
      ghost var was := View();
      var wasNotValidated :=
        m.key !in heardNodesPerMsg
        || (m.key.origin !in heardNodesPerMsg[m.key] && |heardNodesPerMsg[m.key]| < cfg.f + 1);
      if !wasNotValidated {
        return [];
      }
      if m.key in heardNodesPerMsg {
        heardNodesPerMsg := heardNodesPerMsg[m.key := heardNodesPerMsg[m.key] + {m.from}];
      } else {
        heardNodesPerMsg := heardNodesPerMsg[m.key := {} + {m.from}];
      }
      assert View() == Noted(was, m);
      var forwarded := Validate(m);
      assert View() == Before(cfg, was, m);
      var own := SendOwn();
      if !delivered && |validatedReadys| >= quorumSize {
        delivered := true;
      }
      out := forwarded + own;
    }

    /** Validates and forwards the message that was just noted, if it can be. */
    method Validate(m: Message) returns (forwarded: seq<Message>)
      requires m.key in heardNodesPerMsg
      modifies this
      ensures View() == Validated(cfg, old(View()), m)
      ensures forwarded == if Validates(cfg, old(View()), m)
                           then ToNeighbors(selfId, neighbors, m.key, Heard(old(heardNodesPerMsg), m.key)) else []
    {
      forwarded := [];
      var isValidated := m.key.origin == m.from || |heardNodesPerMsg[m.key]| >= cfg.f + 1;
      if isValidated {
        if m.key.kind == Echo {
          validatedEchos := validatedEchos + {m.key.origin};
        } else {
          validatedReadys := validatedReadys + {m.key.origin};
        }
        validatedEchosOrReadys := validatedEchosOrReadys + {m.key.origin};
        forwarded := SendTo(m.key, heardNodesPerMsg[m.key]);
      }
    }

    /** Sends the node's own Ready or Echo when it is due. */
    method SendOwn() returns (out: seq<Message>)
      requires Valid()
      modifies this
      ensures View() == Owned(selfId, old(View()), OwnMessage(cfg, old(View())))
      ensures out == match OwnMessage(cfg, old(View()))
                     case None => []
                     case Some(kind) => ToNeighbors(selfId, neighbors, Key(kind, selfId), {})
    {
      out := [];
      var isReady := |validatedEchos| >= quorumSize || |validatedReadys| >= cfg.f + 1;
      if !sentReady && isReady {
        out := SendTo(Key(Ready, selfId), {});
        sentReady := true;
        sentEcho := true;
        validatedReadys := validatedReadys + {selfId};
      } else if !sentEcho {
        var first := Key(Echo, cfg.broadcaster);
        if |validatedEchosOrReadys| >= cfg.f + 1
           || (first in heardNodesPerMsg
               && (cfg.broadcaster in heardNodesPerMsg[first] || |heardNodesPerMsg[first]| >= cfg.f + 1))
        {
          validatedEchos := validatedEchos + {selfId};
          out := SendTo(Key(Echo, selfId), {});
          sentEcho := true;
        }
      }
    }

    method SendTo(key: Key, skip: set<nat>) returns (out: seq<Message>)
      ensures out == ToNeighbors(selfId, neighbors, key, skip)
    {
      out := [];
      for i := 0 to |neighbors|
        invariant out == ToNeighbors(selfId, neighbors[..i], key, skip)
      {
        assert neighbors[..i + 1][..i] == neighbors[..i];
        if neighbors[i] !in skip {
          out := out + [Message(key, selfId, neighbors[i])];
        }
      }
      assert neighbors[..|neighbors|] == neighbors;
    }
  }

  // ---- Runs ----

  datatype Net = Net(cfg: Config, neighbors: seq<seq<nat>>, faulty: set<nat>)

  /** `own`: the Echo and Ready messages that correct nodes have sent as their own. */
  datatype State = State(nodes: seq<NodeState>, transit: multiset<Message>, own: set<Key>)

  datatype Event =
    | Broadcast              // a correct broadcaster starts
    | Handle(m: Message)     // a correct node handles a message
    | Absorb(m: Message)     // a faulty node takes a message in
    | Inject(m: Message)     // a faulty node sends whatever it likes, under its own name

  ghost predicate ValidNet(net: Net) {
    |net.neighbors| == net.cfg.n && |net.faulty| <= net.cfg.f && forall q | q in net.faulty :: q < net.cfg.n
  }

  ghost predicate Correct(net: Net, u: nat) {
    u < net.cfg.n && u !in net.faulty
  }

  ghost predicate Enabled(net: Net, s: State, e: Event) {
    match e
    case Broadcast => Correct(net, net.cfg.broadcaster)
    case Handle(m) => m in s.transit && Correct(net, m.to)
    case Absorb(m) => m in s.transit && m.to in net.faulty
    case Inject(m) => m.from in net.faulty
  }

  ghost function OwnKey(net: Net, s: State, m: Message): set<Key>
    requires m.to < |s.nodes|
  {
    match OwnSent(net.cfg, s.nodes[m.to], m)
    case None => {}
    case Some(kind) => {Key(kind, m.to)}
  }

  ghost function After(net: Net, s: State, e: Event): (next: State)
    requires |s.nodes| == net.cfg.n == |net.neighbors| && Enabled(net, s, e)
    ensures |next.nodes| == net.cfg.n
  {
    match e
    case Broadcast =>
      var b := net.cfg.broadcaster;
      State(s.nodes[b := s.nodes[b].(sentEcho := true, echoes := s.nodes[b].echoes + {b})],
            s.transit + multiset(ToNeighbors(b, net.neighbors[b], Key(Echo, b), {})),
            s.own + {Key(Echo, b)})
    case Handle(m) =>
      State(s.nodes[m.to := Received(net.cfg, s.nodes[m.to], m)],
            s.transit - multiset{m} + multiset(Sent(net.cfg, net.neighbors[m.to], s.nodes[m.to], m)),
            s.own + OwnKey(net, s, m))
    case Absorb(m) => s.(transit := s.transit - multiset{m})
    case Inject(m) => s.(transit := s.transit + multiset{m})
  }

  ghost function Run(net: Net, events: seq<Event>): (r: Option<State>)
    requires |net.neighbors| == net.cfg.n
    ensures r.Some? ==> |r.value.nodes| == net.cfg.n
  {
    if events == [] then Some(State(seq(net.cfg.n, _ => FRESH), multiset{}, {}))
    else
      var k := |events| - 1;
      var before := Run(net, events[..k]);
      if before.Some? && Enabled(net, before.value, events[k]) then
        Some(After(net, before.value, events[k]))
      else None
  }

  ghost predicate Reachable(net: Net, s: State)
    requires |net.neighbors| == net.cfg.n
  {
    exists events :: Run(net, events) == Some(s)
  }

  // ---- What the network keeps ----

  /** A message passed on by a correct node, of an originator that is not faulty, is genuine. */
  ghost predicate GenuineTransit(net: Net, s: State) {
    forall m | m in s.transit && m.from !in net.faulty && m.key.origin !in net.faulty :: m.key in s.own
  }

  ghost predicate GenuineHeard(net: Net, own: set<Key>, heard: map<Key, set<nat>>) {
    forall key, p | key in heard && p in heard[key] && p !in net.faulty && key.origin !in net.faulty :: key in own
  }

  ghost predicate GenuineValidated(net: Net, own: set<Key>, st: NodeState) {
    && (forall e | e in st.echoes && e !in net.faulty :: Key(Echo, e) in own)
    && (forall e | e in st.readys && e !in net.faulty :: Key(Ready, e) in own)
    && (forall e | e in st.both && e !in net.faulty :: Key(Echo, e) in own || Key(Ready, e) in own)
  }

  ghost predicate NodeKeeps(net: Net, own: set<Key>, st: NodeState) {
    && Genuine(net, own, st)
    && (st.delivered ==> |st.readys| >= QuorumSize(net.cfg.n, net.cfg.f))
  }

  ghost predicate NodesKeep(net: Net, s: State) {
    |s.nodes| == net.cfg.n
    && forall u {:trigger NodeKeeps(net, s.own, s.nodes[u])} | 0 <= u < net.cfg.n :: NodeKeeps(net, s.own, s.nodes[u])
  }

  /** Own messages are those of correct nodes. */
  ghost predicate OwnKeeps(net: Net, s: State) {
    forall key | key in s.own :: Correct(net, key.origin)
  }

  ghost predicate NetKeeps(net: Net, s: State) {
    NodesKeep(net, s) && GenuineTransit(net, s) && OwnKeeps(net, s)
  }

  /** A message that is validated and not of a faulty originator is genuine: the originator
      sent it over the link, or one of `f + 1` neighbours is correct. */
  lemma ValidatedIsGenuine(net: Net, s: State, m: Message)
    requires ValidNet(net) && NetKeeps(net, s) && Enabled(net, s, Handle(m)) && m.key.origin !in net.faulty
    requires Validates(net.cfg, Noted(s.nodes[m.to], m), m)
    ensures m.key in s.own
  {
    var st := s.nodes[m.to];
    assert NodeKeeps(net, s.own, st);
    if m.key.origin != m.from {
      var p := Escape(Heard(Noted(st, m).heard, m.key), net.faulty);
      assert p == m.from || (m.key in st.heard && p in st.heard[m.key]);
    }
  }

  lemma NotedKeeps(net: Net, s: State, m: Message)
    requires ValidNet(net) && NetKeeps(net, s) && Enabled(net, s, Handle(m))
    ensures GenuineHeard(net, s.own, Noted(s.nodes[m.to], m).heard)
  {
    var st := s.nodes[m.to];
    assert NodeKeeps(net, s.own, st);
    var noted := Noted(st, m);
    forall key, p | key in noted.heard && p in noted.heard[key] && p !in net.faulty && key.origin !in net.faulty
      ensures key in s.own
    {
      assert (key in st.heard && p in st.heard[key]) || (key == m.key && p == m.from);
    }
  }

  ghost predicate Genuine(net: Net, own: set<Key>, st: NodeState) {
    GenuineHeard(net, own, st.heard) && GenuineValidated(net, own, st)
  }

  lemma ValidatedKeeps(net: Net, own: set<Key>, st: NodeState, m: Message)
    requires Genuine(net, own, st)
    requires Validates(net.cfg, st, m) && m.key.origin !in net.faulty ==> m.key in own
    ensures Genuine(net, own, Validated(net.cfg, st, m))
  {
    assert m.key == Key(m.key.kind, m.key.origin);
  }

  lemma BeforeKeeps(net: Net, s: State, m: Message)
    requires ValidNet(net) && NetKeeps(net, s) && Enabled(net, s, Handle(m))
    ensures Genuine(net, s.own, Before(net.cfg, s.nodes[m.to], m))
  {
    var st := s.nodes[m.to];
    NotedKeeps(net, s, m);
    assert NodeKeeps(net, s.own, st);
    if Validates(net.cfg, Noted(st, m), m) && m.key.origin !in net.faulty {
      ValidatedIsGenuine(net, s, m);
    }
    ValidatedKeeps(net, s.own, Noted(st, m), m);
  }

  lemma OwnedKeeps(net: Net, own: set<Key>, self: nat, st: NodeState, kind: Kind)
    requires Genuine(net, own, st)
    ensures Genuine(net, own + {Key(kind, self)}, Owned(self, st, Some(kind)))
  {
  }

  lemma NodeKeepsMore(net: Net, own: set<Key>, more: set<Key>, st: NodeState)
    requires NodeKeeps(net, own, st)
    ensures NodeKeeps(net, own + more, st)
  {
  }

  lemma DeliveredKeeps(cfg: Config, st: NodeState, m: Message)
    requires st.delivered ==> |st.readys| >= QuorumSize(cfg.n, cfg.f)
    ensures var after := Received(cfg, st, m); after.delivered ==> |after.readys| >= QuorumSize(cfg.n, cfg.f)
  {
    if NotValidated(cfg, st.heard, m.key) {
      BeforeMonotone(cfg, st, m);
      var before := Before(cfg, st, m);
      var after := Owned(m.to, before, OwnMessage(cfg, before));
      OwnedMonotone(m.to, before, OwnMessage(cfg, before));
      SubsetCard(st.readys, after.readys);
    }
  }

  lemma ReceivedMonotone(cfg: Config, st: NodeState, m: Message)
    ensures st.echoes <= Received(cfg, st, m).echoes && st.readys <= Received(cfg, st, m).readys
  {
    if NotValidated(cfg, st.heard, m.key) {
      BeforeMonotone(cfg, st, m);
      var before := Before(cfg, st, m);
      OwnedMonotone(m.to, before, OwnMessage(cfg, before));
    }
  }

  lemma BeforeMonotone(cfg: Config, st: NodeState, m: Message)
    ensures st.echoes <= Before(cfg, st, m).echoes && st.readys <= Before(cfg, st, m).readys
    ensures Before(cfg, st, m).delivered == st.delivered
  {
  }

  lemma OwnedMonotone(self: nat, st: NodeState, own: Option<Kind>)
    ensures st.echoes <= Owned(self, st, own).echoes && st.readys <= Owned(self, st, own).readys
    ensures Owned(self, st, own).delivered == st.delivered
  {
  }

  lemma ReceivedKeeps(net: Net, s: State, m: Message)
    requires ValidNet(net) && NetKeeps(net, s) && Enabled(net, s, Handle(m))
    ensures NodeKeeps(net, s.own + OwnKey(net, s, m), Received(net.cfg, s.nodes[m.to], m))
  {
    var st := s.nodes[m.to];
    assert NodeKeeps(net, s.own, st);
    DeliveredKeeps(net.cfg, st, m);
    if NotValidated(net.cfg, st.heard, m.key) {
      BeforeKeeps(net, s, m);
      var before := Before(net.cfg, st, m);
      match OwnMessage(net.cfg, before)
      case None => assert OwnKey(net, s, m) == {};
      case Some(kind) => OwnedKeeps(net, s.own, m.to, before, kind);
    }
  }

  lemma {:induction false} ToNeighborsMember(self: nat, neighbors: seq<nat>, key: Key, skip: set<nat>, m: Message)
    ensures m in ToNeighbors(self, neighbors, key, skip)
       <==> m.key == key && m.from == self && m.to in neighbors && m.to !in skip
  {
    if neighbors != [] {
      var k := |neighbors| - 1;
      assert neighbors == neighbors[..k] + [neighbors[k]];
      ToNeighborsMember(self, neighbors[..k], key, skip, m);
    }
  }

  /** A correct node sends what it has just validated, and its own message. */
  lemma SentKeys(net: Net, s: State, m: Message, p: Message)
    requires |s.nodes| == net.cfg.n == |net.neighbors| && Enabled(net, s, Handle(m))
    requires p in Sent(net.cfg, net.neighbors[m.to], s.nodes[m.to], m)
    ensures p.from == m.to
    ensures (p.key == m.key && Validates(net.cfg, Noted(s.nodes[m.to], m), m)) || p.key in OwnKey(net, s, m)
  {
    var noted := Noted(s.nodes[m.to], m);
    ToNeighborsMember(m.to, net.neighbors[m.to], m.key, Heard(noted.heard, m.key), p);
    var own := OwnSent(net.cfg, s.nodes[m.to], m);
    if own.Some? { ToNeighborsMember(m.to, net.neighbors[m.to], Key(own.value, m.to), {}, p); }
  }

  lemma HandleTransit(net: Net, s: State, m: Message)
    requires ValidNet(net) && NetKeeps(net, s) && Enabled(net, s, Handle(m))
    ensures GenuineTransit(net, After(net, s, Handle(m)))
  {
    var next := After(net, s, Handle(m));
    var out := Sent(net.cfg, net.neighbors[m.to], s.nodes[m.to], m);
    forall p | p in next.transit && p.from !in net.faulty && p.key.origin !in net.faulty
      ensures p.key in next.own
    {
      if p in out {
        SentKeys(net, s, m, p);
        if p.key == m.key && Validates(net.cfg, Noted(s.nodes[m.to], m), m) { ValidatedIsGenuine(net, s, m); }
      } else {
        assert p in s.transit;
      }
    }
  }

  lemma NetKeepsHandle(net: Net, s: State, m: Message)
    requires ValidNet(net) && NetKeeps(net, s) && Enabled(net, s, Handle(m))
    ensures NetKeeps(net, After(net, s, Handle(m)))
  {
    var next := After(net, s, Handle(m));
    HandleTransit(net, s, m);
    ReceivedKeeps(net, s, m);
    forall u | 0 <= u < net.cfg.n
      ensures NodeKeeps(net, next.own, next.nodes[u])
    {
      if u != m.to { NodeKeepsMore(net, s.own, OwnKey(net, s, m), s.nodes[u]); }
    }
  }

  lemma NetKeepsBroadcast(net: Net, s: State)
    requires ValidNet(net) && NetKeeps(net, s) && Enabled(net, s, Broadcast)
    ensures NetKeeps(net, After(net, s, Broadcast))
  {
    var next, b := After(net, s, Broadcast), net.cfg.broadcaster;
    forall p | p in next.transit && p.from !in net.faulty && p.key.origin !in net.faulty
      ensures p.key in next.own
    {
      ToNeighborsMember(b, net.neighbors[b], Key(Echo, b), {}, p);
      assert p in s.transit || p in ToNeighbors(b, net.neighbors[b], Key(Echo, b), {});
    }
    forall u | 0 <= u < net.cfg.n
      ensures NodeKeeps(net, next.own, next.nodes[u])
    {
      NodeKeepsMore(net, s.own, {Key(Echo, b)}, s.nodes[u]);
    }
  }

  lemma NetKeepsStep(net: Net, s: State, e: Event)
    requires ValidNet(net) && NetKeeps(net, s) && Enabled(net, s, e)
    ensures NetKeeps(net, After(net, s, e))
  {
    match e
    case Broadcast => NetKeepsBroadcast(net, s);
    case Handle(m) => NetKeepsHandle(net, s, m);
    case Absorb(m) => assert NodesKeep(net, After(net, s, e));
    case Inject(m) => assert NodesKeep(net, After(net, s, e));
  }

  lemma {:induction false} NetKeepsAlways(net: Net, events: seq<Event>)
    requires ValidNet(net)
    ensures Run(net, events).Some? ==> NetKeeps(net, Run(net, events).value)
  {
    if events != [] {
      var k := |events| - 1;
      NetKeepsAlways(net, events[..k]);
      if Run(net, events).Some? {
        NetKeepsStep(net, Run(net, events[..k]).value, events[k]);
      }
    }
  }

  // ---- Safety ----

  /** In any graph, what a correct node has validated of a correct originator, that originator sent. */
  lemma ValidationIsGenuine(net: Net, s: State, u: nat, e: nat)
    requires ValidNet(net) && Reachable(net, s) && Correct(net, u) && e !in net.faulty
    ensures e in s.nodes[u].echoes ==> Key(Echo, e) in s.own
    ensures e in s.nodes[u].readys ==> Key(Ready, e) in s.own
  {
    var events :| Run(net, events) == Some(s);
    NetKeepsAlways(net, events);
    assert NodeKeeps(net, s.own, s.nodes[u]);
  }

  ghost predicate EchoQuorum(net: Net, s: State, u: nat) {
    Correct(net, u) && u < |s.nodes| && |s.nodes[u].echoes| >= QuorumSize(net.cfg.n, net.cfg.f)
  }

  ghost predicate ReadyHasOrigin(net: Net, s: State) {
    (exists u: nat :: EchoQuorum(net, s, u)) || forall key | key in s.own :: key.kind != Ready
  }

  lemma EchoesGrow(net: Net, s: State, e: Event, u: nat)
    requires |s.nodes| == net.cfg.n == |net.neighbors| && Enabled(net, s, e) && EchoQuorum(net, s, u)
    ensures EchoQuorum(net, After(net, s, e), u)
  {
    if e.Handle? { ReceivedMonotone(net.cfg, s.nodes[e.m.to], e.m); }
    var next := After(net, s, e);
    SubsetCard(s.nodes[u].echoes, next.nodes[u].echoes);
  }

  /** Without an echo quorum the first Ready would need `f + 1` Readys of faulty nodes. */
  lemma FirstReadyNeedsQuorum(net: Net, s: State, m: Message)
    requires ValidNet(net) && NetKeeps(net, s) && Enabled(net, s, Handle(m))
    requires (forall key | key in s.own :: key.kind != Ready) && OwnSent(net.cfg, s.nodes[m.to], m) == Some(Ready)
    ensures EchoQuorum(net, After(net, s, Handle(m)), m.to)
  {
    BeforeKeeps(net, s, m);
    var before := Before(net.cfg, s.nodes[m.to], m);
    assert before.readys <= net.faulty;
    SubsetCard(before.readys, net.faulty);
  }

  lemma OriginStep(net: Net, s: State, e: Event)
    requires ValidNet(net) && NetKeeps(net, s) && Enabled(net, s, e) && ReadyHasOrigin(net, s)
    ensures ReadyHasOrigin(net, After(net, s, e))
  {
    if u: nat :| EchoQuorum(net, s, u) {
      EchoesGrow(net, s, e, u);
    } else if e.Handle? && OwnSent(net.cfg, s.nodes[e.m.to], e.m) == Some(Ready) {
      FirstReadyNeedsQuorum(net, s, e.m);
    }
  }

  lemma {:induction false} OriginAlways(net: Net, events: seq<Event>)
    requires ValidNet(net)
    ensures Run(net, events).Some? ==> ReadyHasOrigin(net, Run(net, events).value)
  {
    if events != [] {
      var k := |events| - 1;
      OriginAlways(net, events[..k]);
      NetKeepsAlways(net, events[..k]);
      if Run(net, events).Some? {
        OriginStep(net, Run(net, events[..k]).value, events[k]);
      }
    }
  }

  /** A correct node's Ready goes back to an echo quorum that a correct node validated. */
  lemma ReadyOrigin(net: Net, s: State, e: nat)
    requires ValidNet(net) && Reachable(net, s) && Key(Ready, e) in s.own
    ensures exists u: nat :: EchoQuorum(net, s, u)
  {
    var events :| Run(net, events) == Some(s);
    OriginAlways(net, events);
  }

  /** The Echo senders a correct node has validated are among the `n` nodes. */
  lemma ValidatedInRange(net: Net, s: State, u: nat)
    requires ValidNet(net) && NetKeeps(net, s) && Correct(net, u)
    ensures forall e | e in s.nodes[u].echoes :: e < net.cfg.n
  {
    assert NodeKeeps(net, s.own, s.nodes[u]);
    forall e | e in s.nodes[u].echoes
      ensures e < net.cfg.n
    {
      assert e in net.faulty || Key(Echo, e) in s.own;
    }
  }

  /** Two echo quorums share a correct node that did send its Echo. */
  lemma EchoQuorumsMeet(net: Net, s: State, u: nat, v: nat) returns (e: nat)
    requires ValidNet(net) && Reachable(net, s) && EchoQuorum(net, s, u) && EchoQuorum(net, s, v)
    ensures Correct(net, e) && e in s.nodes[u].echoes && e in s.nodes[v].echoes && Key(Echo, e) in s.own
  {
    var events :| Run(net, events) == Some(s);
    NetKeepsAlways(net, events);
    ValidatedInRange(net, s, u);
    ValidatedInRange(net, s, v);
    e := QuorumsShareACorrectNode(net.cfg.n, net.cfg.f, net.faulty, s.nodes[u].echoes, s.nodes[v].echoes);
    ValidationIsGenuine(net, s, u, e);
  }

  /** The correct nodes among those whose Ready node `u` has validated. */
  ghost function CorrectReadys(net: Net, s: State, u: nat): set<nat>
    requires u < |s.nodes|
  {
    s.nodes[u].readys - net.faulty
  }

  /** A delivery rests on the Readys of `f + 1` correct nodes, and on an echo quorum. */
  lemma DeliveryRestsOnCorrectReadys(net: Net, s: State, u: nat)
    requires ValidNet(net) && Reachable(net, s) && Correct(net, u) && s.nodes[u].delivered
    requires net.cfg.n >= 3 * net.cfg.f + 1
    ensures |CorrectReadys(net, s, u)| >= net.cfg.f + 1
    ensures forall e | e in CorrectReadys(net, s, u) :: Correct(net, e) && Key(Ready, e) in s.own
    ensures exists v: nat :: EchoQuorum(net, s, v)
  {
    var events :| Run(net, events) == Some(s);
    NetKeepsAlways(net, events);
    assert NodeKeeps(net, s.own, s.nodes[u]);
    QuorumHasCorrectMajority(net.cfg.n, net.cfg.f, net.faulty, s.nodes[u].readys);
    forall e | e in CorrectReadys(net, s, u)
      ensures Correct(net, e) && Key(Ready, e) in s.own
    {
      ValidationIsGenuine(net, s, u, e);
    }
    var e := Escape(CorrectReadys(net, s, u), {});
    ReadyOrigin(net, s, e);
  }

  // ---- Integrity ----

  lemma FaultyAreTooFew(net: Net, some: set<nat>)
    requires ValidNet(net) && some <= net.faulty
    ensures |some| <= net.cfg.f && |some| < QuorumSize(net.cfg.n, net.cfg.f)
  {
    SubsetCard(some, net.faulty);
    assert net.faulty <= Below(net.cfg.n);
    SubsetCard(net.faulty, Below(net.cfg.n));
  }

  /** While no correct node has sent anything of its own, none is made to. */
  lemma NothingOwnYet(net: Net, s: State, m: Message)
    requires ValidNet(net) && NetKeeps(net, s) && Enabled(net, s, Handle(m)) && s.own == {}
    requires Correct(net, net.cfg.broadcaster)
    ensures OwnSent(net.cfg, s.nodes[m.to], m) == None
  {
    var before, first := Before(net.cfg, s.nodes[m.to], m), Key(Echo, net.cfg.broadcaster);
    BeforeKeeps(net, s, m);
    assert before.echoes <= net.faulty && before.readys <= net.faulty && before.both <= net.faulty;
    FaultyAreTooFew(net, before.echoes);
    FaultyAreTooFew(net, before.readys);
    FaultyAreTooFew(net, before.both);
    assert Heard(before.heard, first) <= net.faulty;
    FaultyAreTooFew(net, Heard(before.heard, first));
  }

  lemma {:induction false} SilentUntilBroadcast(net: Net, events: seq<Event>)
    requires ValidNet(net) && Correct(net, net.cfg.broadcaster) && Broadcast !in events
    ensures Run(net, events).Some? ==> Run(net, events).value.own == {}
  {
    if events != [] {
      var k := |events| - 1;
      SilentUntilBroadcast(net, events[..k]);
      NetKeepsAlways(net, events[..k]);
      if Run(net, events).Some? && events[k].Handle? {
        NothingOwnYet(net, Run(net, events[..k]).value, events[k].m);
      }
    }
  }

  /** Unless a correct broadcaster starts, no correct node sends an own Echo or Ready, nor
      delivers, whatever up to `f` faulty nodes do. */
  lemma Integrity(net: Net, events: seq<Event>, u: nat)
    requires ValidNet(net) && Correct(net, net.cfg.broadcaster) && Broadcast !in events
    requires Run(net, events).Some? && Correct(net, u)
    ensures Run(net, events).value.own == {}
    ensures !Run(net, events).value.nodes[u].delivered
  {
    SilentUntilBroadcast(net, events);
    NetKeepsAlways(net, events);
    NotDeliveredYet(net, Run(net, events).value, u);
  }

  lemma NotDeliveredYet(net: Net, s: State, u: nat)
    requires ValidNet(net) && NetKeeps(net, s) && s.own == {} && Correct(net, u)
    ensures !s.nodes[u].delivered
  {
    assert NodeKeeps(net, s.own, s.nodes[u]);
    assert s.nodes[u].readys <= net.faulty;
    FaultyAreTooFew(net, s.nodes[u].readys);
  }
}
