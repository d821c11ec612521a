/**
  A node that runs Bracha's phases over Dolev dissemination: every Echo and every
  Ready is itself disseminated, and counts once `f + 1` disjoint paths have brought it.
 */
module BrachaDolevHandler {
  import opened Phases
  import opened Topology
  import D = Dissemination

  // ---- The phases of one broadcast ----

  datatype Phase = Phase(echoes: set<nat>, readys: set<nat>, delivered: bool)

  const FRESH := Phase({}, {}, false)

  /** What counting one more message leads to: the sets, and the own messages to send. */
  datatype Outcome = Outcome(phase: Phase, own: seq<Kind>)

  function Counted(cfg: D.Config, self: nat, b: nat, ph: Phase, key: Key): Outcome {
    match key.kind
    case Echo =>
      var heard := ph.echoes + {key.origin};
      var echo := self !in heard && (b in heard || |heard| >= cfg.f + 1);
      var echoes := if echo then heard + {self} else heard;
      var ready := self !in ph.readys && (|echoes| >= QuorumSize(cfg.n, cfg.f) || |ph.readys| >= cfg.f + 1);
      Outcome(ph.(echoes := echoes, readys := if ready then ph.readys + {self} else ph.readys),
              (if echo then [Echo] else []) + if ready then [Ready] else [])
    case Ready =>
      var heard := ph.readys + {key.origin};
      var ready := self !in heard && (b in heard || |heard| >= cfg.f + 1);
      var readys := if ready then heard + {self} else heard;
      Outcome(ph.(readys := readys, delivered := ph.delivered || |readys| >= 2 * cfg.f + 1),
              if ready then [Ready] else [])
  }

  ghost function Handled(cfg: D.Config, b: nat, ph: Phase, st: D.NodeState, key: Key, m: D.Packet): Outcome
    requires D.FitsIn(cfg, st, m)
  {
    if D.Accepts(cfg, b, key.origin, st, m) then Counted(cfg, m.to, b, ph, key) else Outcome(ph, [])
  }

  function OwnPackets(self: nat, neighbors: seq<nat>): seq<D.Packet> {
    seq(|neighbors|, i requires 0 <= i < |neighbors| => D.Packet(self, neighbors[i], []))
  }

  // ---- The handlers ----

  datatype Wire = Wire(broadcast: D.BroadcastId, key: Key, packet: D.Packet)

  function IdOf(broadcast: D.BroadcastId, key: Key): D.MessageId {
    D.MessageId(if key.kind == Echo then D.HdrEcho else D.HdrReady, broadcast, key.origin)
  }

  function Wires(broadcast: D.BroadcastId, key: Key, packets: seq<D.Packet>): seq<Wire> {
    seq(|packets|, i requires 0 <= i < |packets| => Wire(broadcast, key, packets[i]))
  }

  /** The node's own Echo and Ready, to all its neighbours. */
  function OwnWires(broadcast: D.BroadcastId, self: nat, neighbors: seq<nat>, own: seq<Kind>): seq<Wire> {
    if own == [] then []
    else
      Wires(broadcast, Key(own[0], self), OwnPackets(self, neighbors))
      + OwnWires(broadcast, self, neighbors, own[1..])
  }

  lemma OwnWiresOf(broadcast: D.BroadcastId, self: nat, neighbors: seq<nat>, kind: Kind)
    ensures OwnWires(broadcast, self, neighbors, [kind])
            == Wires(broadcast, Key(kind, self), OwnPackets(self, neighbors))
    ensures OwnWires(broadcast, self, neighbors, [Echo] + [kind])
         == Wires(broadcast, Key(Echo, self), OwnPackets(self, neighbors))
            + OwnWires(broadcast, self, neighbors, [kind])
  {
    assert ([Echo] + [kind])[1..] == [kind];
  }

  class Node {
    const cfg: D.Config
    const self: nat
    const neighbors: seq<nat>
    const byzQuorumSize: nat
    const store: D.Disseminator
    var myBroadcastId: int
    var rcvEchos: map<D.BroadcastId, set<nat>>
    var rcvReadys: map<D.BroadcastId, set<nat>>
    var deliveredBroad: set<D.BroadcastId>

    ghost predicate Valid()
      reads this, store
    {
      && store.Valid() && store.cfg == cfg && store.self == self && store.neighbors == neighbors
      && byzQuorumSize == QuorumSize(cfg.n, cfg.f)
    }

    function PhaseView(broadcast: D.BroadcastId): Phase
      reads this
    {
      Phase(if broadcast in rcvEchos then rcvEchos[broadcast] else {},
            if broadcast in rcvReadys then rcvReadys[broadcast] else {},
            broadcast in deliveredBroad)
    }

    constructor (cfg: D.Config, self: nat, neighbors: seq<nat>)
      requires cfg.f + 1 <= cfg.n
      ensures Valid() && fresh(store) && this.cfg == cfg && this.self == self && this.neighbors == neighbors
      ensures forall id :: store.View(id) == D.NodeState(false, D.NoLists(cfg.n), {})
      ensures forall broadcast :: PhaseView(broadcast) == FRESH
    {
      this.cfg, this.self, this.neighbors := cfg, self, neighbors;
      var size := ByzQuorumSize(cfg.n, cfg.f);
      byzQuorumSize := size;
      store := new D.Disseminator(cfg, self, neighbors);
      myBroadcastId := 0;
      rcvEchos, rcvReadys, deliveredBroad := map[], map[], {};
    }

    /** The broadcaster's first message is its own Echo. */
    method InitBroadcast() returns (out: seq<Wire>)
      requires Valid()
      modifies this, store
      ensures Valid() && myBroadcastId == old(myBroadcastId) + 1
      ensures var broadcast := D.BroadcastId(self, old(myBroadcastId));
              var was, id := old(PhaseView(broadcast)), D.MessageId(D.HdrDolev, broadcast, self);
              && out == Wires(broadcast, Key(Echo, self), OwnPackets(self, neighbors))
              && PhaseView(broadcast) == was.(echoes := was.echoes + {self})
              && (forall other | other != broadcast :: PhaseView(other) == old(PhaseView(other)))
              && store.View(id) == old(store.View(id)).(delivered := true)
              && (forall other | other != id :: store.View(other) == old(store.View(other)))
    {
      var broadcast := D.BroadcastId(self, myBroadcastId);
      CountEcho(broadcast, self);
      store.MarkDelivered(D.MessageId(D.HdrDolev, broadcast, self));
      out := Wires(broadcast, Key(Echo, self), OwnPackets(self, neighbors));
      myBroadcastId := myBroadcastId + 1;
    }

    method CountEcho(broadcast: D.BroadcastId, e: nat)
      modifies this`rcvEchos
      ensures var was := old(PhaseView(broadcast)); PhaseView(broadcast) == was.(echoes := was.echoes + {e})
      ensures broadcast in rcvEchos && forall other | other != broadcast :: PhaseView(other) == old(PhaseView(other))
    {
      rcvEchos := rcvEchos[broadcast := (if broadcast in rcvEchos then rcvEchos[broadcast] else {}) + {e}];
    }

    method CountReady(broadcast: D.BroadcastId, e: nat)
      modifies this`rcvReadys
      ensures var was := old(PhaseView(broadcast)); PhaseView(broadcast) == was.(readys := was.readys + {e})
      ensures forall other | other != broadcast :: PhaseView(other) == old(PhaseView(other))
    {
      rcvReadys := rcvReadys[broadcast := (if broadcast in rcvReadys then rcvReadys[broadcast] else {}) + {e}];
    }

    method SendEcho(broadcast: D.BroadcastId) returns (out: seq<Wire>)
      modifies this`rcvEchos
      ensures out == Wires(broadcast, Key(Echo, self), OwnPackets(self, neighbors))
      ensures var was := old(PhaseView(broadcast)); PhaseView(broadcast) == was.(echoes := was.echoes + {self})
      ensures forall other | other != broadcast :: PhaseView(other) == old(PhaseView(other))
    {
      out := Wires(broadcast, Key(Echo, self), OwnPackets(self, neighbors));
      CountEcho(broadcast, self);
    }

    method SendReady(broadcast: D.BroadcastId) returns (out: seq<Wire>)
      modifies this`rcvReadys
      ensures out == Wires(broadcast, Key(Ready, self), OwnPackets(self, neighbors))
      ensures var was := old(PhaseView(broadcast)); PhaseView(broadcast) == was.(readys := was.readys + {self})
      ensures forall other | other != broadcast :: PhaseView(other) == old(PhaseView(other))
    {
      out := Wires(broadcast, Key(Ready, self), OwnPackets(self, neighbors));
      CountReady(broadcast, self);
    }

    /** Sends the own Echo when it is due. */
    method GenerateEcho(broadcast: D.BroadcastId) returns (out: seq<Wire>)
      requires broadcast in rcvEchos
      modifies this`rcvEchos
      ensures var was := old(PhaseView(broadcast));
              var due := self !in was.echoes && (broadcast.broadcaster in was.echoes || |was.echoes| >= cfg.f + 1);
              && PhaseView(broadcast) == was.(echoes := if due then was.echoes + {self} else was.echoes)
              && out == if due then Wires(broadcast, Key(Echo, self), OwnPackets(self, neighbors)) else []
      ensures broadcast in rcvEchos && forall other | other != broadcast :: PhaseView(other) == old(PhaseView(other))
    {
      out := [];
      if self !in rcvEchos[broadcast]
         && (broadcast.broadcaster in rcvEchos[broadcast] || |rcvEchos[broadcast]| >= cfg.f + 1)
      {
        out := SendEcho(broadcast);
      }
    }

    /** Counts an Echo, and sends the own Echo and the own Ready when they are due. */
    method EchoPhase(broadcast: D.BroadcastId, origin: nat) returns (out: seq<Wire>)
      requires byzQuorumSize == QuorumSize(cfg.n, cfg.f)
      modifies this`rcvEchos, this`rcvReadys
      ensures PhaseDone(broadcast, Key(Echo, origin), out)
    {
      CountEcho(broadcast, origin);
      out := GenerateEcho(broadcast);
      var readys := if broadcast in rcvReadys then rcvReadys[broadcast] else {};
      if self !in readys && (|rcvEchos[broadcast]| >= byzQuorumSize || |readys| >= cfg.f + 1) {
        var ready := SendReady(broadcast);
        out := out + ready;
      }
      OwnWiresOf(broadcast, self, neighbors, Echo);
      OwnWiresOf(broadcast, self, neighbors, Ready);
    }

    /** Counts a Ready, sends the own one when it is due, and delivers the broadcast on `2f + 1`. */
    method ReadyPhase(broadcast: D.BroadcastId, origin: nat) returns (out: seq<Wire>)
      modifies this`rcvReadys, this`deliveredBroad
      ensures PhaseDone(broadcast, Key(Ready, origin), out)
    {
      var b := broadcast.broadcaster;
      CountReady(broadcast, origin);
      out := [];
      if self !in rcvReadys[broadcast] && (b in rcvReadys[broadcast] || |rcvReadys[broadcast]| >= cfg.f + 1) {
        out := SendReady(broadcast);
      }
      if |rcvReadys[broadcast]| >= 2 * cfg.f + 1 && broadcast !in deliveredBroad {
        deliveredBroad := deliveredBroad + {broadcast};
      }
      OwnWiresOf(broadcast, self, neighbors, Ready);
    }

    twostate predicate PhaseDone(broadcast: D.BroadcastId, key: Key, out: seq<Wire>)
      reads this
    {
      var counted := Counted(cfg, self, broadcast.broadcaster, old(PhaseView(broadcast)), key);
      && PhaseView(broadcast) == counted.phase
      && (forall other | other != broadcast :: PhaseView(other) == old(PhaseView(other)))
      && out == OwnWires(broadcast, self, neighbors, counted.own)
    }

    /** `beyond` reports that the search read beyond a list. */
    method HandleEcho(msg: Wire) returns (beyond: bool, out: seq<Wire>)
      requires Valid() && msg.key.kind == Echo && msg.packet.to == self && msg.packet.from < cfg.n
      requires forall i | 0 <= i < |msg.packet.path| :: msg.packet.path[i] < cfg.n
      modifies this, store
      ensures Performed(msg, beyond, out) && (!beyond ==> Valid())
    {
      var accepted, relays;
      beyond, accepted, relays := store.Disseminate(IdOf(msg.broadcast, msg.key), msg.key.origin, msg.packet);
      out := [];
      if !beyond && accepted {
        out := EchoPhase(msg.broadcast, msg.key.origin);
      }
      out := out + Wires(msg.broadcast, msg.key, relays);
    }

    /** Likewise for a Ready. */
    method HandleReady(msg: Wire) returns (beyond: bool, out: seq<Wire>)
      requires Valid() && msg.key.kind == Ready && msg.packet.to == self && msg.packet.from < cfg.n
      requires forall i | 0 <= i < |msg.packet.path| :: msg.packet.path[i] < cfg.n
      modifies this, store
      ensures Performed(msg, beyond, out) && (!beyond ==> Valid())
    {
      var accepted, relays;
      beyond, accepted, relays := store.Disseminate(IdOf(msg.broadcast, msg.key), msg.key.origin, msg.packet);
      out := [];
      if !beyond && accepted {
        out := ReadyPhase(msg.broadcast, msg.key.origin);
      }
      out := out + Wires(msg.broadcast, msg.key, relays);
    }

    /** The handlers' whole effect: on the state of the message, on the phases of its broadcast,
        on nothing else, and what is sent. When the search reads beyond a list, only the state of
        the message is open. */
    twostate predicate Performed(msg: Wire, beyond: bool, out: seq<Wire>)
      reads this, store
    {
      var id, b, m := IdOf(msg.broadcast, msg.key), msg.broadcast.broadcaster, msg.packet;
      var was := old(store.View(id));
      && D.FitsIn(cfg, was, m)
      && (beyond <==> D.Fails(cfg, b, msg.key.origin, was, m))
      && (!beyond ==> store.View(id) == D.NextState(cfg, b, msg.key.origin, was, m))
      && (forall other | other != id :: store.View(other) == old(store.View(other)))
      && (forall other | other != msg.broadcast :: PhaseView(other) == old(PhaseView(other)))
      && (!beyond ==> PhasesPerformed(msg, was, out))
    }

    /** What happens to the phases, given the state `was` of the message before. */
    twostate predicate PhasesPerformed(msg: Wire, was: D.NodeState, out: seq<Wire>)
      requires D.FitsIn(cfg, was, msg.packet)
      reads this
    {
      var b, m := msg.broadcast.broadcaster, msg.packet;
      var handled := Handled(cfg, b, old(PhaseView(msg.broadcast)), was, msg.key, m);
      && PhaseView(msg.broadcast) == handled.phase
      && out == OwnWires(msg.broadcast, self, neighbors, handled.own)
                + Wires(msg.broadcast, msg.key, D.Output(cfg, neighbors, b, msg.key.origin, was, m))
    }
  }
}
