/**
  Bracha's echo and ready phases on a complete graph, for one broadcast: what a
  peer does with a message, and what that gives in every run.
 */
module Bracha {
  import opened Counting
  import opened Options
  import opened Phases
  import opened Topology

  datatype Message = Message(kind: Kind, from: nat, to: nat)

  /** One node's part of one broadcast. */
  datatype NodeState = NodeState(echoes: set<nat>, readys: set<nat>, sentEcho: bool, sentReady: bool, delivered: bool)

  const FRESH := NodeState({}, {}, false, false, false)

  // ---- One message at one node ----

  /** The sender sets and the delivery flag after a message from `from`. */
  function Counted(n: nat, f: nat, self: nat, st: NodeState, kind: Kind, from: nat): NodeState {
    match kind
    case Echo =>
      var echoes := st.echoes + {from, self};
      var quorum := |echoes| >= QuorumSize(n, f);
      var readys := if quorum then st.readys + {self} else st.readys;
      st.(echoes := echoes, readys := readys, delivered := st.delivered || (quorum && |readys| > 2 * f))
    case Ready =>
      var heard := st.readys + {from};
      var readys := if |heard| > f then heard + {self} else heard;
      st.(readys := readys, delivered := st.delivered || |readys| > 2 * f)
  }

  predicate IsReady(n: nat, f: nat, st: NodeState) {
    |st.readys| > f || |st.echoes| >= QuorumSize(n, f)
  }

  /** What the node sends next: its Ready before its Echo, one of them at most. */
  function Reaction(n: nat, f: nat, st: NodeState): Option<Kind> {
    if !st.sentReady && IsReady(n, f, st) then Some(Ready)
    else if !st.sentEcho then Some(Echo)
    else None
  }

  function Marked(st: NodeState, sent: Option<Kind>): NodeState {
    match sent
    case None => st
    case Some(Echo) => st.(sentEcho := true)
    case Some(Ready) => st.(sentReady := true)
  }

  function Received(n: nat, f: nat, self: nat, st: NodeState, kind: Kind, from: nat): NodeState {
    var counted := Counted(n, f, self, st, kind, from);
    Marked(counted, Reaction(n, f, counted))
  }

  /** One message for every node linked to `self`, itself excepted. */
  function ToAll(self: nat, links: seq<bool>, kind: Kind): seq<Message> {
    if links == [] then []
    else
      var to := |links| - 1;
      ToAll(self, links[..to], kind) + if links[to] && to != self then [Message(kind, self, to)] else []
  }

  function Sent(n: nat, f: nat, self: nat, links: seq<bool>, st: NodeState, kind: Kind, from: nat): seq<Message> {
    match Reaction(n, f, Counted(n, f, self, st, kind, from))
    case None => []
    case Some(k) => ToAll(self, links, k)
  }

  class Peer {
    const nodesNbr: nat
    const f: nat
    const selfId: nat
    const quorumSize: nat
    const connections: seq<bool>

    var sentEcho: bool
    var sentReady: bool
    var delivered: bool
    var rcvEcho: set<nat>
    var rcvReady: set<nat>

    constructor (nodesNbr: nat, f: nat, selfId: nat, connections: seq<bool>)
      ensures this.nodesNbr == nodesNbr && this.f == f && this.selfId == selfId && this.connections == connections
      ensures Valid() && View() == FRESH
    {
      this.nodesNbr, this.f, this.selfId, this.connections := nodesNbr, f, selfId, connections;
      var size := ByzQuorumSize(nodesNbr, f);
      quorumSize := size;
      sentEcho, sentReady, delivered, rcvEcho, rcvReady := false, false, false, {}, {};
    }

    ghost predicate Valid() {
      quorumSize == QuorumSize(nodesNbr, f)
    }

    ghost function View(): NodeState
      reads this
    {
      NodeState(rcvEcho, rcvReady, sentEcho, sentReady, delivered)
    }

    /** The broadcaster's first message is an Echo that changes nothing at home. */
    method FirstMessage() returns (out: seq<Message>)
      ensures out == ToAll(selfId, connections, Echo)
    {
      out := SendToAll(Echo);
    }

    method ReceiveMessage(kind: Kind, linkSender: nat) returns (out: seq<Message>)
      requires Valid()
      modifies this
      ensures View() == Received(nodesNbr, f, selfId, old(View()), kind, linkSender)
      ensures out == Sent(nodesNbr, f, selfId, connections, old(View()), kind, linkSender)
    {
      if kind == Echo {
        rcvEcho := rcvEcho + {linkSender};
        rcvEcho := rcvEcho + {selfId};
        assert rcvEcho == old(rcvEcho) + {linkSender, selfId};
        if |rcvEcho| >= quorumSize {
          rcvReady := rcvReady + {selfId};
          if |rcvReady| > 2 * f && !delivered {
            delivered := true;
          }
        }
      } else {
        rcvReady := rcvReady + {linkSender};
        if |rcvReady| > f {
          rcvReady := rcvReady + {selfId};
        }
        if |rcvReady| > 2 * f && !delivered {
          delivered := true;
        }
      }
      assert View() == Counted(nodesNbr, f, selfId, old(View()), kind, linkSender);
      var isReady := |rcvReady| > f || |rcvEcho| >= quorumSize;
      out := [];
      if !sentReady && isReady {
        sentReady := true;
        out := SendToAll(Ready);
      } else if !sentEcho {
        sentEcho := true;
        out := SendToAll(Echo);
      }
    }

    method SendToAll(kind: Kind) returns (out: seq<Message>)
      ensures out == ToAll(selfId, connections, kind)
    {
      out := [];
      for i := 0 to |connections|
        invariant out == ToAll(selfId, connections[..i], kind)
      {
        assert connections[..i + 1][..i] == connections[..i];
        if connections[i] && i != selfId {
          out := out + [Message(kind, selfId, i)];
        }
      }
      assert connections[..|connections|] == connections;
    }
  }

  // ---- Runs ----

  datatype Net = Net(n: nat, f: nat, faulty: set<nat>, broadcaster: nat)

  datatype State = State(nodes: seq<NodeState>, transit: multiset<Message>, broadcast: bool)

  datatype Event =
    | Broadcast              // a correct broadcaster starts
    | Handle(m: Message)     // a correct node handles a message
    | Absorb(m: Message)     // a faulty node takes a message in
    | Inject(m: Message)     // a faulty node sends whatever it likes, under its own name

  ghost predicate ValidNet(net: Net) {
    net.broadcaster < net.n && |net.faulty| <= net.f && forall q | q in net.faulty :: q < net.n
  }

  ghost predicate Correct(net: Net, u: nat) {
    u < net.n && u !in net.faulty
  }

  ghost function Initial(net: Net): State {
    State(seq(net.n, _ => FRESH), multiset{}, false)
  }

  function Everyone(n: nat): seq<bool> {
    seq(n, _ => true)
  }

  ghost predicate Enabled(net: Net, s: State, e: Event) {
    match e
    case Broadcast => !s.broadcast && Correct(net, net.broadcaster)
    case Handle(m) => m in s.transit && Correct(net, m.to)
    case Absorb(m) => m in s.transit && m.to in net.faulty
    case Inject(m) => m.from in net.faulty && m.to < net.n && m.to != m.from
  }

  ghost function After(net: Net, s: State, e: Event): (next: State)
    requires |s.nodes| == net.n && Enabled(net, s, e)
    ensures |next.nodes| == net.n
  {
    match e
    case Broadcast =>
      State(s.nodes, s.transit + multiset(ToAll(net.broadcaster, Everyone(net.n), Echo)), true)
    case Handle(m) =>
      State(s.nodes[m.to := Received(net.n, net.f, m.to, s.nodes[m.to], m.kind, m.from)],
            s.transit - multiset{m}
                + multiset(Sent(net.n, net.f, m.to, Everyone(net.n), s.nodes[m.to], m.kind, m.from)),
            s.broadcast)
    case Absorb(m) => s.(transit := s.transit - multiset{m})
    case Inject(m) => s.(transit := s.transit + multiset{m})
  }

  ghost function Run(net: Net, events: seq<Event>): (r: Option<State>)
    ensures r.Some? ==> |r.value.nodes| == net.n
  {
    if events == [] then Some(Initial(net))
    else
      var k := |events| - 1;
      var before := Run(net, events[..k]);
      if before.Some? && Enabled(net, before.value, events[k]) then
        Some(After(net, before.value, events[k]))
      else None
  }

  ghost predicate Reachable(net: Net, s: State) {
    exists events :: Run(net, events) == Some(s)
  }

  /** No message between correct nodes is pending. */
  ghost predicate Quiescent(net: Net, s: State) {
    forall m | m in s.transit :: !(Correct(net, m.from) && Correct(net, m.to))
  }

  // ---- What a node keeps ----

  ghost predicate NodeKeeps(net: Net, u: nat, st: NodeState) {
    && (u in st.readys <==> st.sentReady)
    && (st.delivered <==> |st.readys| > 2 * net.f)
    && (IsReady(net.n, net.f, st) ==> u in st.readys)
    && (st.echoes != {} ==> u in st.echoes)
    && (st.echoes + st.readys != {} && net.f >= 1 && net.n >= 3 * net.f + 1 ==> st.sentEcho)
    && (st.echoes + st.readys != {} ==> st.sentEcho || st.sentReady)
    && (forall x | x in st.echoes + st.readys :: x < net.n)
  }

  lemma CardAtMostTwo(a: nat, b: nat)
    ensures |{a, b}| <= 2
  {
    if a != b { assert {a, b} == {a} + {b}; }
  }

  /** The first message never makes a node ready when there are faults to tolerate. */
  lemma FirstMessageOnlyEchoes(net: Net, u: nat, kind: Kind, from: nat)
    requires net.f >= 1 && net.n >= 3 * net.f + 1
    ensures !IsReady(net.n, net.f, Counted(net.n, net.f, u, FRESH, kind, from))
  {
    CardAtMostTwo(from, u);
    assert {} + {from, u} == {from, u} && {} + {from} == {from};
  }

  lemma CountedMeans(net: Net, u: nat, st: NodeState, kind: Kind, from: nat)
    requires NodeKeeps(net, u, st) && u < net.n && from < net.n && from != u
    ensures var after := Counted(net.n, net.f, u, st, kind, from);
            && (IsReady(net.n, net.f, after) ==> u in after.readys)
            && (u in after.readys ==> st.sentReady || IsReady(net.n, net.f, after))
            && (after.delivered <==> |after.readys| > 2 * net.f)
            && st.echoes <= after.echoes && st.readys <= after.readys
  {
    match kind
    case Echo =>
      SubsetCard(st.readys, st.readys + {u});
    case Ready =>
      SubsetCard(st.readys, st.readys + {from});
      SubsetCard(st.readys + {from}, st.readys + {from} + {u});
  }

  lemma NodeKeepsOn(net: Net, u: nat, st: NodeState, kind: Kind, from: nat)
    requires ValidNet(net) && NodeKeeps(net, u, st) && u < net.n && from < net.n && from != u
    ensures NodeKeeps(net, u, Received(net.n, net.f, u, st, kind, from))
  {
    CountedMeans(net, u, st, kind, from);
    CountedMembers(net, u, st, kind, from);
    if net.f >= 1 && net.n >= 3 * net.f + 1 && !st.sentEcho {
      FirstMessageEchoed(net, u, st, kind, from);
    }
  }

  lemma CountedMembers(net: Net, u: nat, st: NodeState, kind: Kind, from: nat)
    requires (st.echoes != {} ==> u in st.echoes) && (forall x | x in st.echoes + st.readys :: x < net.n)
    requires u < net.n && from < net.n
    ensures var after := Counted(net.n, net.f, u, st, kind, from);
            && (after.echoes != {} ==> u in after.echoes)
            && (forall x | x in after.echoes + after.readys :: x < net.n)
  {
    match kind
    case Echo =>
      InRangeMore(net.n, st, st.echoes + {from, u}, st.readys + {u}, from, u);
    case Ready =>
      InRangeMore(net.n, st, st.echoes, st.readys + {from} + {u}, from, u);
  }

  lemma InRangeMore(n: nat, st: NodeState, echoes: set<nat>, readys: set<nat>, from: nat, u: nat)
    requires (forall x | x in st.echoes + st.readys :: x < n) && u < n && from < n
    requires echoes <= st.echoes + {from, u} && readys <= st.readys + {from, u}
    ensures (forall x | x in echoes :: x < n) && (forall x | x in readys :: x < n)
  {
    forall x | x in echoes || x in readys
      ensures x < n
    {
      assert x in st.echoes + st.readys || x == from || x == u;
    }
  }

  lemma FirstMessageEchoed(net: Net, u: nat, st: NodeState, kind: Kind, from: nat)
    requires NodeKeeps(net, u, st) && !st.sentEcho && net.f >= 1 && net.n >= 3 * net.f + 1
    ensures Received(net.n, net.f, u, st, kind, from).sentEcho
  {
    FirstMessageOnlyEchoes(net, u, kind, from);
    assert st.echoes <= st.echoes + st.readys && st.readys <= st.echoes + st.readys;
    assert st.echoes == {} && st.readys == {};
    assert Counted(net.n, net.f, u, st, kind, from).readys == Counted(net.n, net.f, u, FRESH, kind, from).readys;
    assert Counted(net.n, net.f, u, st, kind, from).echoes == Counted(net.n, net.f, u, FRESH, kind, from).echoes;
  }

  // ---- What the network keeps ----

  lemma {:induction false} ToAllMember(self: nat, links: seq<bool>, kind: Kind, m: Message)
    ensures m in ToAll(self, links, kind)
       <==> m.kind == kind && m.from == self && m.to != self && m.to < |links| && links[m.to]
  {
    if links != [] {
      ToAllMember(self, links[..|links| - 1], kind, m);
    }
  }

  /** `e` sent this kind of message to all. */
  ghost predicate HasSent(net: Net, s: State, e: nat, kind: Kind)
    requires e < |s.nodes|
  {
    match kind
    case Echo => s.nodes[e].sentEcho || (e == net.broadcaster && s.broadcast)
    case Ready => s.nodes[e].sentReady
  }

  function HeardFrom(st: NodeState, kind: Kind): set<nat> {
    match kind
    case Echo => st.echoes
    case Ready => st.readys
  }

  ghost predicate NodesKeep(net: Net, s: State) {
    |s.nodes| == net.n && forall u {:trigger NodeKeeps(net, u, s.nodes[u])} | 0 <= u < net.n ::
        NodeKeeps(net, u, s.nodes[u])
  }

  /** Messages carry the true sender. */
  ghost predicate Authentic(net: Net, s: State)
    requires |s.nodes| == net.n
  {
    forall m | m in s.transit ::
      m.from < net.n && m.to < net.n && m.from != m.to && (Correct(net, m.from) ==> HasSent(net, s, m.from, m.kind))
  }

  /** A correct node in a set of Ready senders did send its Ready. */
  ghost predicate Genuine(net: Net, s: State)
    requires |s.nodes| == net.n
  {
    forall u, e | 0 <= u < net.n && e in s.nodes[u].readys && Correct(net, e) :: s.nodes[e].sentReady
  }

  /** Nothing is lost between correct nodes. */
  ghost predicate Lossless(net: Net, s: State)
    requires |s.nodes| == net.n
  {
    forall e: nat, u: nat, kind | Correct(net, e) && Correct(net, u) && e != u && HasSent(net, s, e, kind) ::
        Arriving(s, kind, e, u)
  }

  ghost predicate Arriving(s: State, kind: Kind, e: nat, u: nat)
    requires u < |s.nodes|
  {
    Message(kind, e, u) in s.transit || e in HeardFrom(s.nodes[u], kind)
  }

  ghost predicate NetKeeps(net: Net, s: State) {
    NodesKeep(net, s) && Authentic(net, s) && Genuine(net, s) && Lossless(net, s)
  }

  lemma NetKeepsInitially(net: Net)
    ensures NetKeeps(net, Initial(net))
  {
  }

  lemma FirstMessages(net: Net, s: State, m: Message)
    requires |s.nodes| == net.n && Enabled(net, s, Broadcast)
    ensures m in After(net, s, Broadcast).transit
       <==> m in s.transit || (m.kind == Echo && m.from == net.broadcaster && m.to != m.from && m.to < net.n)
  {
    ToAllMember(net.broadcaster, Everyone(net.n), Echo, m);
  }

  lemma NetKeepsBroadcast(net: Net, s: State)
    requires ValidNet(net) && NetKeeps(net, s) && Enabled(net, s, Broadcast)
    ensures NetKeeps(net, After(net, s, Broadcast))
  {
    var next := After(net, s, Broadcast);
    forall m | m in next.transit
      ensures m.from < net.n && m.to < net.n && m.from != m.to
      ensures Correct(net, m.from) ==> HasSent(net, next, m.from, m.kind)
    {
      FirstMessages(net, s, m);
    }
    forall e: nat, u: nat, kind | Correct(net, e) && Correct(net, u) && e != u && HasSent(net, next, e, kind)
      ensures Arriving(next, kind, e, u)
    {
      FirstMessages(net, s, Message(kind, e, u));
      assert HasSent(net, s, e, kind) ==> Arriving(s, kind, e, u);
    }
  }

  lemma SentMember(net: Net, u: nat, st: NodeState, kind: Kind, from: nat, m: Message)
    ensures m in Sent(net.n, net.f, u, Everyone(net.n), st, kind, from)
       <==> && Reaction(net.n, net.f, Counted(net.n, net.f, u, st, kind, from)) == Some(m.kind)
            && m.from == u && m.to != u && m.to < net.n
  {
    ToAllMember(u, Everyone(net.n), m.kind, m);
    var k := Reaction(net.n, net.f, Counted(net.n, net.f, u, st, kind, from));
    if k.Some? { ToAllMember(u, Everyone(net.n), k.value, m); }
  }

  /** A step of one node only adds to what it heard and sent. */
  lemma ReceivedMonotone(net: Net, u: nat, st: NodeState, kind: Kind, from: nat)
    ensures var after := Received(net.n, net.f, u, st, kind, from);
            && st.echoes <= after.echoes <= st.echoes + {u, from} && st.readys <= after.readys <= st.readys + {u, from}
            && (st.sentEcho ==> after.sentEcho) && (st.sentReady ==> after.sentReady)
            && from in HeardFrom(after, kind)
            && (after.sentEcho ==>
                 st.sentEcho || Reaction(net.n, net.f, Counted(net.n, net.f, u, st, kind, from)) == Some(Echo))
            && (after.sentReady ==>
                 st.sentReady || Reaction(net.n, net.f, Counted(net.n, net.f, u, st, kind, from)) == Some(Ready))
            && (forall k :: Reaction(net.n, net.f, Counted(net.n, net.f, u, st, kind, from)) == Some(k) ==>
                 if k == Echo then after.sentEcho else after.sentReady)
            && (kind == Ready ==> after.readys <= st.readys + {from} || u in after.readys)
  {
  }

  lemma HandleTransit(net: Net, s: State, m: Message, p: Message)
    requires |s.nodes| == net.n && Enabled(net, s, Handle(m))
    ensures var next := After(net, s, Handle(m));
            var mine := p.from == m.to && p.to != m.to && p.to < net.n && HasSent(net, next, m.to, p.kind);
            && (p in next.transit ==> p in s.transit || mine)
            && (p in s.transit && p != m ==> p in next.transit)
            && (mine ==> HasSent(net, s, m.to, p.kind) || p in next.transit)
  {
    SentMember(net, m.to, s.nodes[m.to], m.kind, m.from, p);
    ReactionSends(net, s, m, p.kind);
  }

  /** A kind newly sent is the kind of the reaction. */
  lemma ReactionSends(net: Net, s: State, m: Message, kind: Kind)
    requires |s.nodes| == net.n && Enabled(net, s, Handle(m))
    ensures var reaction := Reaction(net.n, net.f, Counted(net.n, net.f, m.to, s.nodes[m.to], m.kind, m.from));
            HasSent(net, After(net, s, Handle(m)), m.to, kind) <==>
                HasSent(net, s, m.to, kind) || reaction == Some(kind)
  {
    ReceivedMonotone(net, m.to, s.nodes[m.to], m.kind, m.from);
  }

  lemma HandleSends(net: Net, s: State, m: Message, e: nat, kind: Kind)
    requires |s.nodes| == net.n && Enabled(net, s, Handle(m)) && e < net.n
    ensures HasSent(net, s, e, kind) ==> HasSent(net, After(net, s, Handle(m)), e, kind)
    ensures e != m.to && HasSent(net, After(net, s, Handle(m)), e, kind) ==> HasSent(net, s, e, kind)
  {
    ReceivedMonotone(net, m.to, s.nodes[m.to], m.kind, m.from);
  }

  lemma HandleAuthentic(net: Net, s: State, m: Message)
    requires NetKeeps(net, s) && Enabled(net, s, Handle(m))
    ensures Authentic(net, After(net, s, Handle(m)))
  {
    var next := After(net, s, Handle(m));
    forall p | p in next.transit
      ensures p.from < net.n && p.to < net.n && p.from != p.to
      ensures Correct(net, p.from) ==> HasSent(net, next, p.from, p.kind)
    {
      HandleTransit(net, s, m, p);
      if p in s.transit { HandleSends(net, s, m, p.from, p.kind); }
    }
  }

  lemma HandleGenuine(net: Net, s: State, m: Message)
    requires NetKeeps(net, s) && Enabled(net, s, Handle(m))
    requires NodeKeeps(net, m.to, After(net, s, Handle(m)).nodes[m.to])
    ensures Genuine(net, After(net, s, Handle(m)))
  {
    var next := After(net, s, Handle(m));
    ReceivedMonotone(net, m.to, s.nodes[m.to], m.kind, m.from);
    forall u, e | 0 <= u < net.n && e in next.nodes[u].readys && Correct(net, e)
      ensures next.nodes[e].sentReady
    {
      HandleSends(net, s, m, e, Ready);
      if u == m.to && e !in s.nodes[u].readys && e != u {
        assert e == m.from && m.kind == Ready;
        assert HasSent(net, s, e, Ready);
      }
    }
  }

  lemma HandleLossless(net: Net, s: State, m: Message)
    requires NetKeeps(net, s) && Enabled(net, s, Handle(m))
    ensures Lossless(net, After(net, s, Handle(m)))
  {
    var next := After(net, s, Handle(m));
    ReceivedMonotone(net, m.to, s.nodes[m.to], m.kind, m.from);
    forall e: nat, u: nat, kind | Correct(net, e) && Correct(net, u) && e != u && HasSent(net, next, e, kind)
      ensures Arriving(next, kind, e, u)
    {
      HandleTransit(net, s, m, Message(kind, e, u));
      HandleSends(net, s, m, e, kind);
      assert HasSent(net, s, e, kind) ==> Arriving(s, kind, e, u);
    }
  }

  lemma NetKeepsHandle(net: Net, s: State, m: Message)
    requires ValidNet(net) && NetKeeps(net, s) && Enabled(net, s, Handle(m))
    ensures NetKeeps(net, After(net, s, Handle(m)))
  {
    assert NodeKeeps(net, m.to, s.nodes[m.to]);
    NodeKeepsOn(net, m.to, s.nodes[m.to], m.kind, m.from);
    HandleAuthentic(net, s, m);
    HandleGenuine(net, s, m);
    HandleLossless(net, s, m);
    var next := After(net, s, Handle(m));
    forall u | 0 <= u < net.n
      ensures NodeKeeps(net, u, next.nodes[u])
    {
      assert NodeKeeps(net, u, s.nodes[u]);
    }
  }

  lemma NetKeepsFaulty(net: Net, s: State, e: Event)
    requires ValidNet(net) && NetKeeps(net, s) && Enabled(net, s, e) && (e.Absorb? || e.Inject?)
    ensures NetKeeps(net, After(net, s, e))
  {
    var next := After(net, s, e);
    assert forall x: nat, kind | x < net.n :: HasSent(net, next, x, kind) == HasSent(net, s, x, kind);
    forall x: nat, u: nat, kind | Correct(net, x) && Correct(net, u) && x != u && HasSent(net, next, x, kind)
      ensures Arriving(next, kind, x, u)
    {
      assert Arriving(s, kind, x, u);
    }
    assert NodesKeep(net, next) && Authentic(net, next);
  }

  lemma NetKeepsStep(net: Net, s: State, e: Event)
    requires ValidNet(net) && NetKeeps(net, s) && Enabled(net, s, e)
    ensures NetKeeps(net, After(net, s, e))
  {
    match e
    case Broadcast => NetKeepsBroadcast(net, s);
    case Handle(m) => NetKeepsHandle(net, s, m);
    case _ => NetKeepsFaulty(net, s, e);
  }

  lemma {:induction false} NetKeepsAlways(net: Net, events: seq<Event>)
    requires ValidNet(net)
    ensures Run(net, events).Some? ==> NetKeeps(net, Run(net, events).value)
  {
    if events == [] {
      NetKeepsInitially(net);
    } else {
      var k := |events| - 1;
      NetKeepsAlways(net, events[..k]);
      if Run(net, events).Some? {
        NetKeepsStep(net, Run(net, events[..k]).value, events[k]);
      }
    }
  }

  // ---- Totality ----

  ghost predicate Delivered(net: Net, s: State, u: nat) {
    u < |s.nodes| && s.nodes[u].delivered
  }

  ghost predicate AllDelivered(net: Net, s: State) {
    forall u: nat | Correct(net, u) :: Delivered(net, s, u)
  }

  /** The correct nodes. */
  ghost function CorrectNodes(net: Net): (c: set<nat>)
    requires ValidNet(net)
    ensures forall u: nat :: u in c <==> Correct(net, u)
    ensures |c| >= net.n - net.f
  {
    DifferenceCard(Below(net.n), net.faulty);
    Below(net.n) - net.faulty
  }

  /** Readys that are not pending have been counted, one's own included. */
  lemma ReadyCounted(net: Net, s: State, e: nat, u: nat)
    requires NetKeeps(net, s) && Quiescent(net, s) && Correct(net, e) && Correct(net, u) && s.nodes[e].sentReady
    ensures e in s.nodes[u].readys
  {
    assert NodeKeeps(net, u, s.nodes[u]);
    assert e != u ==> HasSent(net, s, e, Ready) && Arriving(s, Ready, e, u);
  }

  /** `f + 1` Readys of correct nodes make every correct node ready. */
  lemma ReadysSpread(net: Net, s: State, origin: set<nat>, u: nat)
    requires NetKeeps(net, s) && Quiescent(net, s) && Correct(net, u)
    requires |origin| > net.f && forall e | e in origin :: Correct(net, e) && s.nodes[e].sentReady
    ensures s.nodes[u].sentReady
  {
    forall e | e in origin
      ensures e in s.nodes[u].readys
    {
      ReadyCounted(net, s, e, u);
    }
    SubsetCard(origin, s.nodes[u].readys);
    assert NodeKeeps(net, u, s.nodes[u]);
  }

  /** The Readys of all correct nodes make every correct node deliver. */
  lemma AllReadysDeliver(net: Net, s: State, u: nat)
    requires ValidNet(net) && NetKeeps(net, s) && Quiescent(net, s) && net.n >= 3 * net.f + 1 && Correct(net, u)
    requires forall e: nat | Correct(net, e) :: s.nodes[e].sentReady
    ensures Delivered(net, s, u)
  {
    forall e | e in CorrectNodes(net)
      ensures e in s.nodes[u].readys
    {
      ReadyCounted(net, s, e, u);
    }
    SubsetCard(CorrectNodes(net), s.nodes[u].readys);
    assert NodeKeeps(net, u, s.nodes[u]);
  }

  /** Once `f + 1` correct nodes have sent Ready and nothing is pending, all have delivered. */
  lemma EnoughReadys(net: Net, s: State, origin: set<nat>)
    requires ValidNet(net) && NetKeeps(net, s) && Quiescent(net, s) && net.n >= 3 * net.f + 1
    requires |origin| > net.f && forall e | e in origin :: Correct(net, e) && s.nodes[e].sentReady
    ensures AllDelivered(net, s)
  {
    forall u: nat | Correct(net, u) ensures s.nodes[u].sentReady { ReadysSpread(net, s, origin, u); }
    forall u: nat | Correct(net, u) ensures Delivered(net, s, u) { AllReadysDeliver(net, s, u); }
  }

  /** In a quiescent state all correct nodes have delivered, or none. */
  lemma Totality(net: Net, s: State, p: nat)
    requires ValidNet(net) && net.n >= 3 * net.f + 1 && Reachable(net, s) && Quiescent(net, s)
    requires Correct(net, p) && Delivered(net, s, p)
    ensures AllDelivered(net, s)
  {
    var events :| Run(net, events) == Some(s);
    NetKeepsAlways(net, events);
    assert NodeKeeps(net, p, s.nodes[p]);
    var origin := s.nodes[p].readys - net.faulty;
    DifferenceCard(s.nodes[p].readys, net.faulty);
    forall e | e in origin
      ensures Correct(net, e) && s.nodes[e].sentReady
    {
      assert e in s.nodes[p].echoes + s.nodes[p].readys;
    }
    EnoughReadys(net, s, origin);
  }

  // ---- Validity ----

  /** After a broadcast every correct node, the broadcaster included, has reacted. */
  lemma EveryoneReacted(net: Net, s: State, u: nat)
    requires ValidNet(net) && NetKeeps(net, s) && Quiescent(net, s) && net.n >= 3 * net.f + 1 && net.n >= 2
    requires s.broadcast && Correct(net, net.broadcaster) && Correct(net, u)
    ensures s.nodes[u].echoes + s.nodes[u].readys != {}
  {
    var b := net.broadcaster;
    assert HasSent(net, s, b, Echo);
    if u != b {
      assert Arriving(s, Echo, b, u) && b in s.nodes[u].echoes + s.nodes[u].readys;
    } else {
      var v := Escape(CorrectNodes(net), {b});
      assert Arriving(s, Echo, b, v) && b in s.nodes[v].echoes + s.nodes[v].readys;
      assert NodeKeeps(net, v, s.nodes[v]);
      var kind := if s.nodes[v].sentEcho then Echo else Ready;
      assert HasSent(net, s, v, kind) && Arriving(s, kind, v, u);
      assert v in s.nodes[u].echoes + s.nodes[u].readys;
    }
  }

  /** When every correct node has sent its Echo, every correct node gets ready. */
  lemma EchoesMakeReady(net: Net, s: State, u: nat)
    requires ValidNet(net) && NetKeeps(net, s) && Quiescent(net, s) && net.n >= 3 * net.f + 1 && net.n >= 2
    requires Correct(net, u)
    requires forall v: nat | Correct(net, v) :: s.nodes[v].sentEcho
    ensures s.nodes[u].sentReady
  {
    var other := Escape(CorrectNodes(net), {u});
    forall v | v in CorrectNodes(net)
      ensures v in s.nodes[u].echoes
    {
      assert HasSent(net, s, other, Echo) && HasSent(net, s, v, Echo);
      assert Arriving(s, Echo, other, u) && other in s.nodes[u].echoes;
      assert NodeKeeps(net, u, s.nodes[u]);
      assert v != u ==> Arriving(s, Echo, v, u);
    }
    SubsetCard(CorrectNodes(net), s.nodes[u].echoes);
    assert NodeKeeps(net, u, s.nodes[u]);
  }

  lemma AllReadyDelivers(net: Net, s: State)
    requires ValidNet(net) && NetKeeps(net, s) && Quiescent(net, s) && net.n >= 3 * net.f + 1
    requires forall u: nat | Correct(net, u) :: s.nodes[u].sentReady
    ensures AllDelivered(net, s)
  {
    EnoughReadys(net, s, CorrectNodes(net));
  }

  /** After a broadcast by a correct node, a quiescent state has every correct node delivered. */
  lemma Validity(net: Net, s: State)
    requires ValidNet(net) && net.n >= 3 * net.f + 1 && net.n >= 2 && Reachable(net, s) && Quiescent(net, s)
    requires s.broadcast && Correct(net, net.broadcaster)
    ensures AllDelivered(net, s)
  {
    var events :| Run(net, events) == Some(s);
    NetKeepsAlways(net, events);
    forall u: nat | Correct(net, u)
      ensures s.nodes[u].sentEcho || s.nodes[u].sentReady
      ensures net.f >= 1 ==> s.nodes[u].sentEcho
    {
      EveryoneReacted(net, s, u);
      assert NodeKeeps(net, u, s.nodes[u]);
    }
    if u: nat :| Correct(net, u) && s.nodes[u].sentReady && net.f == 0 {
      EnoughReadys(net, s, {u});
    } else {
      forall u: nat | Correct(net, u)
        ensures s.nodes[u].sentReady
      {
        EchoesMakeReady(net, s, u);
      }
      AllReadyDelivers(net, s);
    }
  }

  ghost predicate ValidityHolds(net: Net) {
    forall s | Reachable(net, s) && Quiescent(net, s) && s.broadcast :: AllDelivered(net, s)
  }

  /** A lone node never hears from anyone, so it does not deliver its own broadcast. With any
      other node around, validity holds. */
  lemma ValidityExactly(net: Net)
    requires ValidNet(net) && net.n >= 3 * net.f + 1 && Correct(net, net.broadcaster)
    ensures ValidityHolds(net) <==> net.n >= 2
  {
    if net.n >= 2 {
      forall s | Reachable(net, s) && Quiescent(net, s) && s.broadcast
        ensures AllDelivered(net, s)
      {
        Validity(net, s);
      }
    } else {
      LoneNode(net);
    }
  }

  lemma LoneNode(net: Net)
    requires ValidNet(net) && net.n == 1 && Correct(net, net.broadcaster)
    ensures !ValidityHolds(net)
  {
    var events := [Broadcast];
    assert events[..0] == [];
    assert Run(net, []) == Some(Initial(net)) && Enabled(net, Initial(net), Broadcast);
    var s := After(net, Initial(net), Broadcast);
    assert Run(net, events) == Some(s);
    forall m
      ensures m !in ToAll(net.broadcaster, Everyone(net.n), Echo)
    {
      ToAllMember(net.broadcaster, Everyone(net.n), Echo, m);
    }
    assert Reachable(net, s) && Quiescent(net, s) && s.broadcast;
    assert !Delivered(net, s, 0);
  }

  // ---- Where the first Ready comes from ----

  ghost predicate EchoQuorum(net: Net, s: State, u: nat) {
    Correct(net, u) && u < |s.nodes| && |s.nodes[u].echoes| >= QuorumSize(net.n, net.f)
  }

  ghost predicate ReadyHasOrigin(net: Net, s: State) {
    (exists u: nat :: EchoQuorum(net, s, u)) || forall u: nat | Correct(net, u) && u < |s.nodes| ::
        !s.nodes[u].sentReady
  }

  lemma OriginStep(net: Net, s: State, e: Event)
    requires ValidNet(net) && NetKeeps(net, s) && Enabled(net, s, e) && ReadyHasOrigin(net, s)
    ensures ReadyHasOrigin(net, After(net, s, e))
  {
    var next := After(net, s, e);
    if u: nat :| EchoQuorum(net, s, u) {
      if e.Handle? { ReceivedMonotone(net, e.m.to, s.nodes[e.m.to], e.m.kind, e.m.from); }
      SubsetCard(s.nodes[u].echoes, next.nodes[u].echoes);
      assert EchoQuorum(net, next, u);
    } else if e.Handle? && !EchoQuorum(net, next, e.m.to) {
      NoReadyYet(net, s, e.m);
    }
  }

  lemma ReadySender(net: Net, s: State, u: nat, x: nat)
    requires NetKeeps(net, s) && u < net.n && x in s.nodes[u].readys
    ensures x < net.n && (x in net.faulty || s.nodes[x].sentReady)
  {
    assert NodeKeeps(net, u, s.nodes[u]) && x in s.nodes[u].echoes + s.nodes[u].readys;
    assert x < net.n;
  }

  lemma ReadyMessage(net: Net, s: State, m: Message)
    requires NetKeeps(net, s) && m in s.transit && m.kind == Ready
    ensures m.from < net.n && (m.from in net.faulty || s.nodes[m.from].sentReady)
  {
    assert m.from < net.n;
    assert Correct(net, m.from) ==> HasSent(net, s, m.from, Ready);
  }

  /** Ready messages of faulty nodes alone, and no echo quorum, do not make a node ready. */
  lemma NoReadyYet(net: Net, s: State, m: Message)
    requires ValidNet(net) && NetKeeps(net, s) && Enabled(net, s, Handle(m))
    requires forall u: nat | Correct(net, u) :: !s.nodes[u].sentReady
    requires !EchoQuorum(net, After(net, s, Handle(m)), m.to)
    ensures !After(net, s, Handle(m)).nodes[m.to].sentReady
  {
    var st := s.nodes[m.to];
    assert NodeKeeps(net, m.to, st);
    forall x | x in st.readys
      ensures x in net.faulty
    {
      ReadySender(net, s, m.to, x);
    }
    if m.kind == Ready { ReadyMessage(net, s, m); }
    SubsetCard(st.readys, net.faulty);
    if m.kind == Ready { SubsetCard(st.readys + {m.from}, net.faulty); }
  }

  lemma {:induction false} OriginAlways(net: Net, events: seq<Event>)
    requires ValidNet(net)
    ensures Run(net, events).Some? ==> ReadyHasOrigin(net, Run(net, events).value)
  {
    if events != [] {
      var k := |events| - 1;
      OriginAlways(net, events[..k]);
      NetKeepsAlways(net, events[..k]);
      if Run(net, events).Some? {
        OriginStep(net, Run(net, events[..k]).value, events[k]);
      }
    }
  }

  /** A correct node that is ready, or has delivered, goes back to an echo quorum at a correct node. */
  lemma ReadyOrigin(net: Net, s: State, u: nat)
    requires ValidNet(net) && Reachable(net, s) && Correct(net, u)
    requires s.nodes[u].sentReady || s.nodes[u].delivered
    ensures exists v: nat :: EchoQuorum(net, s, v)
  {
    var events :| Run(net, events) == Some(s);
    OriginAlways(net, events);
    NetKeepsAlways(net, events);
    assert NodeKeeps(net, u, s.nodes[u]);
  }

  // ---- Runs come to rest ----

  /** No message to a correct node is pending, whoever sent it. */
  ghost predicate Drained(net: Net, s: State) {
    forall m | m in s.transit :: !Correct(net, m.to)
  }

  /** How many Echo and Ready messages the nodes have not sent yet. */
  ghost function Unsent(nodes: seq<NodeState>): nat {
    if nodes == [] then 0
    else
      var last := nodes[|nodes| - 1];
      Unsent(nodes[..|nodes| - 1]) + (if last.sentEcho then 0 else 1) + if last.sentReady then 0 else 1
  }

  ghost function UnsentBy(st: NodeState): nat {
    (if st.sentEcho then 0 else 1) + if st.sentReady then 0 else 1
  }

  lemma {:induction false} UnsentUpdate(nodes: seq<NodeState>, u: nat, st: NodeState)
    requires u < |nodes|
    ensures Unsent(nodes[u := st]) == Unsent(nodes) - UnsentBy(nodes[u]) + UnsentBy(st)
  {
    var k := |nodes| - 1;
    if u == k {
      assert nodes[u := st][..k] == nodes[..k];
    } else {
      UnsentUpdate(nodes[..k], u, st);
      assert nodes[u := st][..k] == nodes[..k][u := st];
    }
  }

  lemma {:induction false} ToAllLength(self: nat, links: seq<bool>, kind: Kind)
    ensures |ToAll(self, links, kind)| <= |links|
  {
    if links != [] { ToAllLength(self, links[..|links| - 1], kind); }
  }

  ghost function Work(net: Net, s: State): nat {
    net.n * Unsent(s.nodes) + |s.transit|
  }

  /** Handling a message uses it up, and new ones cost an unsent Echo or Ready. */
  lemma HandleWorks(net: Net, s: State, m: Message)
    requires |s.nodes| == net.n && Enabled(net, s, Handle(m))
    ensures Work(net, After(net, s, Handle(m))) < Work(net, s)
  {
    var st := s.nodes[m.to];
    var after := Received(net.n, net.f, m.to, st, m.kind, m.from);
    var out := Sent(net.n, net.f, m.to, Everyone(net.n), st, m.kind, m.from);
    UnsentUpdate(s.nodes, m.to, after);
    SendingCosts(net, m.to, st, m.kind, m.from);
    assert |s.transit - multiset{m}| == |s.transit| - 1;
    WorkFalls(net.n, Unsent(s.nodes), Unsent(s.nodes[m.to := after]), |s.transit|, |out|);
  }

  lemma WorkFalls(n: nat, unsent: nat, next: nat, pending: nat, sent: nat)
    requires pending > 0 && sent <= n && ((next == unsent && sent == 0) || next == unsent - 1)
    ensures n * next + (pending - 1 + sent) < n * unsent + pending
  {
    if next == unsent - 1 { assert n * (unsent - 1) == n * unsent - n; }
  }

  lemma SendingCosts(net: Net, u: nat, st: NodeState, kind: Kind, from: nat)
    ensures var out := Sent(net.n, net.f, u, Everyone(net.n), st, kind, from);
            var after := Received(net.n, net.f, u, st, kind, from);
            |out| <= net.n && ((UnsentBy(after) == UnsentBy(st) && out == []) || UnsentBy(after) == UnsentBy(st) - 1)
  {
    var counted := Counted(net.n, net.f, u, st, kind, from);
    match Reaction(net.n, net.f, counted)
    case None =>
    case Some(k) => ToAllLength(u, Everyone(net.n), k);
  }

  lemma RunStep(net: Net, events: seq<Event>, e: Event)
    requires Run(net, events).Some? && Enabled(net, Run(net, events).value, e)
    ensures Run(net, events + [e]) == Some(After(net, Run(net, events).value, e))
  {
    assert (events + [e])[..|events|] == events;
  }

  /** `longer` continues the run `events` with steps of correct nodes. */
  ghost predicate OnlyHandles(events: seq<Event>, longer: seq<Event>) {
    events <= longer && forall i | |events| <= i < |longer| :: longer[i].Handle?
  }

  lemma HandledFirst(events: seq<Event>, m: Message, longer: seq<Event>)
    requires OnlyHandles(events + [Handle(m)], longer)
    ensures OnlyHandles(events, longer)
  {
    assert (events + [Handle(m)])[|events|] == longer[|events|];
  }

  lemma HandleNext(net: Net, events: seq<Event>, m: Message)
    requires Run(net, events).Some? && Enabled(net, Run(net, events).value, Handle(m))
    ensures var next := Run(net, events + [Handle(m)]);
            next.Some? && Work(net, next.value) < Work(net, Run(net, events).value)
  {
    RunStep(net, events, Handle(m));
    HandleWorks(net, Run(net, events).value, m);
  }

  /** Every run can be continued, by correct nodes alone, until nothing is left to handle. */
  lemma {:induction false} RunsComeToRest(net: Net, events: seq<Event>) returns (longer: seq<Event>)
    requires Run(net, events).Some?
    ensures OnlyHandles(events, longer)
    ensures Run(net, longer).Some? && Drained(net, Run(net, longer).value)
    decreases Work(net, Run(net, events).value)
  {
    var s := Run(net, events).value;
    if Drained(net, s) {
      longer := events;
    } else {
      var m :| m in s.transit && Correct(net, m.to);
      HandleNext(net, events, m);
      longer := RunsComeToRest(net, events + [Handle(m)]);
      HandledFirst(events, m, longer);
    }
  }

  // ---- Integrity fails as soon as one node is faulty ----

  ghost predicate IntegrityHolds(net: Net) {
    forall s, u | Reachable(net, s) && !s.broadcast && Correct(net, u) :: !Delivered(net, s, u)
  }

  lemma {:induction false} NothingHappens(net: Net, events: seq<Event>)
    requires net.faulty == {} && Run(net, events).Some? && !Run(net, events).value.broadcast
    ensures Run(net, events) == Some(Initial(net))
  {
    if events != [] {
      NothingHappens(net, events[..|events| - 1]);
    }
  }

  /** A faulty node's Echo to every correct node, on its way or arrived. */
  ghost predicate Provoked(net: Net, s: State, q: nat) {
    |s.nodes| == net.n && forall u: nat | Correct(net, u) :: Arriving(s, Echo, q, u)
  }

  ghost predicate EchoesUnderWay(s: State, q: nat, upTo: nat) {
    forall u: nat | u < upTo && u != q :: Message(Echo, q, u) in s.transit
  }

  lemma MoreUnderWay(s: State, q: nat, u: nat)
    requires EchoesUnderWay(s, q, u)
    ensures EchoesUnderWay(s.(transit := s.transit + multiset{Message(Echo, q, u)}), q, u + 1)
  {
  }

  lemma InjectOne(net: Net, events: seq<Event>, q: nat, u: nat) returns (longer: seq<Event>)
    requires Run(net, events).Some? && q in net.faulty && u < net.n && u != q
    requires !Run(net, events).value.broadcast && EchoesUnderWay(Run(net, events).value, q, u)
    ensures Run(net, longer).Some? && !Run(net, longer).value.broadcast
    ensures EchoesUnderWay(Run(net, longer).value, q, u + 1)
  {
    var e := Inject(Message(Echo, q, u));
    RunStep(net, events, e);
    MoreUnderWay(Run(net, events).value, q, u);
    longer := events + [e];
  }

  lemma {:induction false} InjectToAll(net: Net, q: nat, i: nat) returns (events: seq<Event>)
    requires ValidNet(net) && q in net.faulty && i <= net.n
    ensures Run(net, events).Some? && !Run(net, events).value.broadcast && EchoesUnderWay(Run(net, events).value, q, i)
  {
    if i == 0 {
      events := [];
    } else {
      events := InjectToAll(net, q, i - 1);
      if i - 1 != q {
        events := InjectOne(net, events, q, i - 1);
      }
    }
  }

  lemma ProvokedStep(net: Net, s: State, m: Message, q: nat)
    requires Provoked(net, s, q) && Enabled(net, s, Handle(m))
    ensures Provoked(net, After(net, s, Handle(m)), q)
  {
    var next := After(net, s, Handle(m));
    ReceivedMonotone(net, m.to, s.nodes[m.to], m.kind, m.from);
    forall u: nat | Correct(net, u)
      ensures Arriving(next, Echo, q, u)
    {
      HandleTransit(net, s, m, Message(Echo, q, u));
      assert Arriving(s, Echo, q, u);
    }
  }

  lemma {:induction false} StaysProvoked(net: Net, events: seq<Event>, i: nat, q: nat)
    requires i <= |events| && Run(net, events).Some? && Run(net, events[..i]).Some?
    requires (forall k | i <= k < |events| :: events[k].Handle?) && Provoked(net, Run(net, events[..i]).value, q)
    ensures Provoked(net, Run(net, events).value, q)
    ensures Run(net, events).value.broadcast == Run(net, events[..i]).value.broadcast
    decreases |events|
  {
    if i == |events| {
      assert events[..i] == events;
    } else {
      var k := |events| - 1;
      assert events[..k][..i] == events[..i];
      StaysProvoked(net, events[..k], i, q);
      ProvokedStep(net, Run(net, events[..k]).value, events[k].m, q);
    }
  }

  /** When the Echo of one faulty node has reached all correct nodes and nothing is pending, they have all delivered. */
  lemma ProvokedDeliver(net: Net, s: State, q: nat)
    requires ValidNet(net) && NetKeeps(net, s) && Drained(net, s) && Provoked(net, s, q) && q in net.faulty
    requires net.n >= 3 * net.f + 1
    ensures AllDelivered(net, s)
  {
    SubsetCard({q}, net.faulty);
    forall u: nat | Correct(net, u)
      ensures s.nodes[u].sentEcho
    {
      assert Arriving(s, Echo, q, u) && NodeKeeps(net, u, s.nodes[u]);
      assert q in s.nodes[u].echoes + s.nodes[u].readys;
    }
    forall u: nat | Correct(net, u)
      ensures s.nodes[u].sentReady
    {
      EchoesMakeReady(net, s, u);
    }
    AllReadyDelivers(net, s);
  }

  /** A node echoes any first message, so one faulty node can make all correct nodes deliver
      a broadcast that its correct broadcaster never started; without a faulty node nothing
      is ever delivered unasked. */
  lemma IntegrityExactly(net: Net)
    requires ValidNet(net) && net.n >= 3 * net.f + 1 && Correct(net, net.broadcaster)
    ensures IntegrityHolds(net) <==> net.faulty == {}
  {
    if q :| q in net.faulty {
      var events := InjectToAll(net, q, net.n);
      var longer := RunsComeToRest(net, events);
      assert longer[..|events|] == events;
      StaysProvoked(net, longer, |events|, q);
      var s := Run(net, longer).value;
      NetKeepsAlways(net, longer);
      ProvokedDeliver(net, s, q);
      var u := Escape(CorrectNodes(net), {});
      assert Reachable(net, s) && !s.broadcast && Correct(net, u) && Delivered(net, s, u);
    } else {
      forall s, u | Reachable(net, s) && !s.broadcast && Correct(net, u)
        ensures !Delivered(net, s, u)
      {
        var events :| Run(net, events) == Some(s);
        NothingHappens(net, events);
      }
    }
  }
}
