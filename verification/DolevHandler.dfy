/** A node of the Dolev protocol: it disseminates broadcasts of every source. */
module DolevHandler {
  import opened Dissemination

  datatype Dolev = Dolev(broadcast: BroadcastId, packet: Packet)

  function Keyed(broadcast: BroadcastId, packets: seq<Packet>): seq<Dolev> {
    seq(|packets|, i requires 0 <= i < |packets| => Dolev(broadcast, packets[i]))
  }

  class Node {
    const cfg: Config
    const self: nat
    const neighbors: seq<nat>
    const store: Disseminator
    var myBroadcastId: int

    ghost predicate Valid()
      reads this, store
    {
      store.Valid() && store.cfg == cfg && store.self == self && store.neighbors == neighbors
    }

    constructor (cfg: Config, self: nat, neighbors: seq<nat>)
      requires cfg.f + 1 <= cfg.n
      ensures Valid() && fresh(store) && this.cfg == cfg && this.self == self && this.neighbors == neighbors
      ensures forall id :: store.View(id) == NodeState(false, NoLists(cfg.n), {})
    {
      this.cfg, this.self, this.neighbors := cfg, self, neighbors;
      store := new Disseminator(cfg, self, neighbors);
      myBroadcastId := 0;
    }

    /** Starts a broadcast. The handler leaves the originator field of its own
        key unset, so that field is whatever `stray` happens to be. */
    method InitDolevBroadcast(stray: int) returns (out: seq<Dolev>)
      requires Valid()
      modifies this, store
      ensures Valid() && myBroadcastId == old(myBroadcastId) + 1
      ensures var broadcast := BroadcastId(self, old(myBroadcastId));
              var id := MessageId(HdrDolev, broadcast, stray);
              && out == Keyed(broadcast,
                   seq(|neighbors|, i requires 0 <= i < |neighbors| => Packet(self, neighbors[i], [])))
              && store.View(id) == old(store.View(id)).(delivered := true)
              && forall other | other != id :: store.View(other) == old(store.View(other))
    {
      var broadcast := BroadcastId(self, myBroadcastId);
      store.MarkDelivered(MessageId(HdrDolev, broadcast, stray));
      out := [];
      for i := 0 to |neighbors|
        invariant out == Keyed(broadcast, seq(i, k requires 0 <= k < i => Packet(self, neighbors[k], [])))
      {
        out := out + [Dolev(broadcast, Packet(self, neighbors[i], []))];
      }
      myBroadcastId := myBroadcastId + 1;
    }

    /** `beyond` reports that the search read beyond a list; then only the other identifiers are known. */
    method HandleDolev(msg: Dolev) returns (beyond: bool, out: seq<Dolev>)
      requires Valid() && msg.packet.to == self && msg.packet.from < cfg.n
      requires forall i | 0 <= i < |msg.packet.path| :: msg.packet.path[i] < cfg.n
      modifies store
      ensures var source := msg.broadcast.broadcaster;
              var id := MessageId(HdrDolev, msg.broadcast, source);
              var was := old(store.View(id));
              && FitsIn(cfg, was, msg.packet)
              && (beyond <==> Fails(cfg, source, source, was, msg.packet))
              && (!beyond ==>
                  && store.View(id) == NextState(cfg, source, source, was, msg.packet)
                  && out == Keyed(msg.broadcast, Output(cfg, neighbors, source, source, was, msg.packet)))
              && forall other | other != id :: store.View(other) == old(store.View(other))
      ensures !beyond ==> Valid()
    {
      var source := msg.broadcast.broadcaster;
      var accepted, relays;
      beyond, accepted, relays := store.Disseminate(MessageId(HdrDolev, msg.broadcast, source), source, msg.packet);
      out := Keyed(msg.broadcast, relays);
    }
  }
}
