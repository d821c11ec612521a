/**
  The handlers of a node do what the network models say: a node's fields represent one entry of a
  network state, and each call is one step of the network there, with the same messages.
 */
module HandlerSimulation {
  import opened Phases
  import D = Dissemination
  import DH = DolevHandler
  import DN = DolevNetwork
  import BH = BrachaDolevHandler
  import BN = BrachaDolev

  // ---- Bracha over Dolev ----

  /** What a node has stored of every message. */
  type Views = imap<D.MessageId, D.NodeState>

  ghost function ViewsOf(store: D.Disseminator): (views: Views)
    reads store
    ensures forall id :: id in views && views[id] == store.View(id)
  {
    imap id: D.MessageId | true :: store.View(id)
  }

  ghost predicate Shows(cfg: D.Config, views: Views, broadcast: D.BroadcastId, st: BN.NodeState) {
    && (forall e: nat :: ShowsAt(views, D.MessageId(D.HdrEcho, broadcast, e), BN.At(cfg, st, Key(Echo, e))))
    && (forall e: nat :: ShowsAt(views, D.MessageId(D.HdrReady, broadcast, e), BN.At(cfg, st, Key(Ready, e))))
  }

  ghost predicate ShowsAt(views: Views, id: D.MessageId, st: D.NodeState) {
    id in views && views[id] == st
  }

  /** The node's fields hold, under their own headers, what the network state says of this broadcast. */
  ghost predicate Represents(node: BH.Node, broadcast: D.BroadcastId, st: BN.NodeState)
    reads node, node.store
  {
    node.PhaseView(broadcast) == st.phase && Shows(node.cfg, ViewsOf(node.store), broadcast, st)
  }

  /** The node is the one at position `u` of the network. */
  ghost predicate Placed(node: BH.Node, net: BN.Net, u: nat) {
    u < |net.neighbors| && node.cfg == net.cfg && node.self == u && node.neighbors == net.neighbors[u]
  }

  /** The same messages, with the broadcast they belong to. */
  ghost predicate SameWires(out: seq<BH.Wire>, sent: seq<BN.Message>, broadcast: D.BroadcastId) {
    && |out| == |sent|
    && forall i | 0 <= i < |out| :: out[i] == BH.Wire(broadcast, sent[i].key, sent[i].packet)
  }

  method NewNode(net: BN.Net, u: nat, ghost broadcast: D.BroadcastId) returns (node: BH.Node)
    requires BN.ValidNet(net) && u < net.cfg.n
    ensures node.Valid() && Placed(node, net, u) && Represents(node, broadcast, BN.Initial(net).nodes[u])
  {
    node := new BH.Node(net.cfg, u, net.neighbors[u]);
  }

  lemma WiresSame(broadcast: D.BroadcastId, key: Key, packets: seq<D.Packet>)
    ensures SameWires(BH.Wires(broadcast, key, packets), BN.Messages(key, packets), broadcast)
  {
  }

  lemma SameWiresMore(a: seq<BH.Wire>, b: seq<BH.Wire>, c: seq<BN.Message>, d: seq<BN.Message>,
                      broadcast: D.BroadcastId)
    requires SameWires(a, c, broadcast) && SameWires(b, d, broadcast)
    ensures SameWires(a + b, c + d, broadcast)
  {
  }

  lemma {:induction false} OwnWiresSame(broadcast: D.BroadcastId, self: nat, neighbors: seq<nat>, own: seq<Kind>)
    ensures SameWires(BH.OwnWires(broadcast, self, neighbors, own), BN.OwnMessages(self, neighbors, own), broadcast)
  {
    if own != [] {
      WiresSame(broadcast, Key(own[0], self), BH.OwnPackets(self, neighbors));
      OwnWiresSame(broadcast, self, neighbors, own[1..]);
      SameWiresMore(BH.Wires(broadcast, Key(own[0], self), BH.OwnPackets(self, neighbors)),
                    BH.OwnWires(broadcast, self, neighbors, own[1..]),
                    BN.Messages(Key(own[0], self), BH.OwnPackets(self, neighbors)),
                    BN.OwnMessages(self, neighbors, own[1..]), broadcast);
    }
  }

  /** The broadcaster's first step. */
  method Start(node: BH.Node, ghost net: BN.Net, ghost s: BN.State) returns (out: seq<BH.Wire>)
    requires BN.ValidNet(net) && |s.nodes| == net.cfg.n && BN.Enabled(net, s, BN.Broadcast)
    requires node.Valid() && Placed(node, net, net.broadcaster)
    requires Represents(node, D.BroadcastId(node.self, node.myBroadcastId), s.nodes[net.broadcaster])
    modifies node, node.store
    ensures node.Valid()
    ensures Represents(node, D.BroadcastId(node.self, old(node.myBroadcastId)),
                       BN.After(net, s, BN.Broadcast).nodes[net.broadcaster])
    ensures SameWires(out, BN.FirstMessages(net), D.BroadcastId(node.self, old(node.myBroadcastId)))
    ensures var broadcast := D.BroadcastId(node.self, old(node.myBroadcastId));
            && (forall other | other != broadcast :: node.PhaseView(other) == old(node.PhaseView(other)))
            && forall id: D.MessageId | id.broadcast != broadcast :: node.store.View(id) == old(node.store.View(id))
  {
    out := node.InitBroadcast();
  }

  ghost function HeaderOf(key: Key): D.Header {
    match key.kind
    case Echo => D.HdrEcho
    case Ready => D.HdrReady
  }

  ghost predicate OthersStay(before: Views, after: Views, id: D.MessageId) {
    forall other | other != id && other in before :: ShowsAt(after, other, before[other])
  }

  /** When the message's own key takes the step and all others stay, the network's step is shown. */
  lemma StepIsShown(net: BN.Net, s: BN.State, m: BN.Message, broadcast: D.BroadcastId, before: Views, after: Views)
    requires |s.nodes| == net.cfg.n == |net.neighbors| && net.broadcaster < net.cfg.n
    requires BN.Enabled(net, s, BN.Handle(m))
    requires Shows(net.cfg, before, broadcast, s.nodes[m.packet.to])
    requires var st := BN.At(net.cfg, s.nodes[m.packet.to], m.key);
             ShowsAt(after, D.MessageId(HeaderOf(m.key), broadcast, m.key.origin),
                     D.NextState(net.cfg, net.broadcaster, m.key.origin, st, m.packet))
    requires OthersStay(before, after, D.MessageId(HeaderOf(m.key), broadcast, m.key.origin))
    ensures Shows(net.cfg, after, broadcast, BN.After(net, s, BN.Handle(m)).nodes[m.packet.to])
  {
    var u, next := m.packet.to, BN.After(net, s, BN.Handle(m)).nodes[m.packet.to];
    BN.AtAfter(net, s, m);
    forall e: nat
      ensures ShowsAt(after, D.MessageId(D.HdrEcho, broadcast, e), BN.At(net.cfg, next, Key(Echo, e)))
    {
      assert ShowsAt(before, D.MessageId(D.HdrEcho, broadcast, e), BN.At(net.cfg, s.nodes[u], Key(Echo, e)));
    }
    forall e: nat
      ensures ShowsAt(after, D.MessageId(D.HdrReady, broadcast, e), BN.At(net.cfg, next, Key(Ready, e)))
    {
      assert ShowsAt(before, D.MessageId(D.HdrReady, broadcast, e), BN.At(net.cfg, s.nodes[u], Key(Ready, e)));
    }
  }

  lemma SameOut(net: BN.Net, s: BN.State, m: BN.Message, broadcast: D.BroadcastId)
    requires |s.nodes| == net.cfg.n == |net.neighbors| && BN.Enabled(net, s, BN.Handle(m))
    ensures var u := m.packet.to;
            var relays := D.Output(net.cfg, net.neighbors[u], net.broadcaster, m.key.origin,
                                   BN.At(net.cfg, s.nodes[u], m.key), m.packet);
            SameWires(BH.OwnWires(broadcast, u, net.neighbors[u], BN.Reaction(net, s, m).own)
                      + BH.Wires(broadcast, m.key, relays), BN.Out(net, s, m), broadcast)
  {
    var u, own := m.packet.to, BN.Reaction(net, s, m).own;
    var st := BN.At(net.cfg, s.nodes[u], m.key);
    var relays := D.Output(net.cfg, net.neighbors[u], net.broadcaster, m.key.origin, st, m.packet);
    OwnWiresSame(broadcast, u, net.neighbors[u], own);
    WiresSame(broadcast, m.key, relays);
    SameWiresMore(BH.OwnWires(broadcast, u, net.neighbors[u], own), BH.Wires(broadcast, m.key, relays),
                  BN.OwnMessages(u, net.neighbors[u], own), BN.Messages(m.key, relays), broadcast);
  }

  /** The handler that is registered for the kind of message does the network's step at this node,
      sends what the network says, and leaves every other broadcast alone. It fails only where the
      search reads beyond a list. */
  method Receive(node: BH.Node, msg: BH.Wire, ghost net: BN.Net, ghost s: BN.State)
    returns (beyond: bool, out: seq<BH.Wire>)
    requires BN.ValidNet(net) && |s.nodes| == net.cfg.n && msg.broadcast.broadcaster == net.broadcaster
    requires BN.Enabled(net, s, BN.Handle(BN.Message(msg.key, msg.packet)))
    requires node.Valid() && Placed(node, net, msg.packet.to)
    requires Represents(node, msg.broadcast, s.nodes[msg.packet.to])
    modifies node, node.store
    ensures var m := BN.Message(msg.key, msg.packet);
            && (beyond <==> D.Fails(net.cfg, net.broadcaster, m.key.origin,
                 BN.At(net.cfg, s.nodes[m.packet.to], m.key), m.packet))
            && (!beyond ==>
                  && node.Valid() && Represents(node, msg.broadcast, BN.After(net, s, BN.Handle(m)).nodes[m.packet.to])
                  && SameWires(out, BN.Out(net, s, m), msg.broadcast))
    ensures forall other | other != msg.broadcast :: node.PhaseView(other) == old(node.PhaseView(other))
    ensures forall id: D.MessageId | id.broadcast != msg.broadcast :: node.store.View(id) == old(node.store.View(id))
  {
    ghost var before, m := ViewsOf(node.store), BN.Message(msg.key, msg.packet);
    assert ShowsAt(before, D.MessageId(HeaderOf(m.key), msg.broadcast, m.key.origin),
        BN.At(net.cfg, s.nodes[m.packet.to], m.key));
    if msg.key.kind == Echo {
      beyond, out := node.HandleEcho(msg);
    } else {
      beyond, out := node.HandleReady(msg);
    }
    ghost var after, id := ViewsOf(node.store), D.MessageId(HeaderOf(m.key), msg.broadcast, m.key.origin);
    assert OthersStay(before, after, id);
    if !beyond {
      StepIsShown(net, s, m, msg.broadcast, before, after);
      SameOut(net, s, m, msg.broadcast);
    }
  }

  // ---- Dolev ----

  /** The node's fields hold, under the Dolev header, what the network state says of this broadcast. */
  ghost predicate RepresentsDolev(node: DH.Node, broadcast: D.BroadcastId, st: D.NodeState)
    reads node, node.store
  {
    node.store.View(D.MessageId(D.HdrDolev, broadcast, broadcast.broadcaster)) == st
  }

  ghost predicate PlacedDolev(node: DH.Node, net: DN.Net, u: nat) {
    u < |net.neighbors| && node.cfg == net.cfg && node.self == u && node.neighbors == net.neighbors[u]
  }

  ghost predicate SamePackets(out: seq<DH.Dolev>, sent: seq<D.Packet>, broadcast: D.BroadcastId) {
    && |out| == |sent|
    && forall i | 0 <= i < |out| :: out[i] == DH.Dolev(broadcast, sent[i])
  }

  method NewDolevNode(net: DN.Net, u: nat, ghost broadcast: D.BroadcastId) returns (node: DH.Node)
    requires DN.ValidNet(net) && u < net.cfg.n
    ensures node.Valid() && PlacedDolev(node, net, u) && RepresentsDolev(node, broadcast, DN.Initial(net).nodes[u])
  {
    node := new DH.Node(net.cfg, u, net.neighbors[u]);
  }

  /** The source's first step: whether its own message counts as delivered depends on whether the
      unset field of its key happens to name the source. */
  method StartDolev(node: DH.Node, stray: int, ghost net: DN.Net, ghost s: DN.State) returns (out: seq<DH.Dolev>)
    requires DN.ValidNet(net) && |s.nodes| == net.cfg.n && !s.broadcast
    requires node.Valid() && PlacedDolev(node, net, net.source)
    requires RepresentsDolev(node, D.BroadcastId(node.self, node.myBroadcastId), s.nodes[net.source])
    modifies node, node.store
    ensures var broadcast, e := D.BroadcastId(node.self, old(node.myBroadcastId)), DN.Broadcast(stray == net.source);
            && node.Valid() && RepresentsDolev(node, broadcast, DN.After(net, s, e).nodes[net.source])
            && SamePackets(out, DN.FirstPackets(net), broadcast)
            && forall id: D.MessageId | id.broadcast != broadcast :: node.store.View(id) == old(node.store.View(id))
  {
    out := node.InitDolevBroadcast(stray);
  }

  /** The handler does the network's step at this node, sends what the network says, and leaves
      every other broadcast alone. It fails only where the search reads beyond a list. */
  method ReceiveDolev(node: DH.Node, msg: DH.Dolev, ghost net: DN.Net, ghost s: DN.State)
    returns (beyond: bool, out: seq<DH.Dolev>)
    requires DN.ValidNet(net) && |s.nodes| == net.cfg.n && msg.broadcast.broadcaster == net.source
    requires DN.Enabled(net, s, DN.Handle(msg.packet))
    requires node.Valid() && PlacedDolev(node, net, msg.packet.to)
    requires RepresentsDolev(node, msg.broadcast, s.nodes[msg.packet.to])
    modifies node.store
    ensures var m := msg.packet;
            && (beyond <==> D.Fails(net.cfg, net.source, net.source, s.nodes[m.to], m))
            && (!beyond ==>
                  && node.Valid() && RepresentsDolev(node, msg.broadcast, DN.After(net, s, DN.Handle(m)).nodes[m.to])
                  && SamePackets(out, DN.Out(net, s, m), msg.broadcast))
    ensures forall id: D.MessageId | id.broadcast != msg.broadcast :: node.store.View(id) == old(node.store.View(id))
  {
    beyond, out := node.HandleDolev(msg);
  }
}
