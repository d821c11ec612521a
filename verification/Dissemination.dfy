/**
  Dissemination of one message along paths, with the five modifications of Bonomi
  et al., as the Dolev and the Bracha-Dolev handlers share it. `Disseminator` keeps
  the handlers' fields for it; `NextState` and `Output` say what a received copy
  does to the state of its identifier.
 */
module Dissemination {
  import opened Counting
  import opened DisjointSearch
  import opened FullSearch

  datatype Mods = Mods(mod1: bool, mod2: bool, mod3: bool, mod4: bool, mod5: bool)

  const ALL_MODS := Mods(true, true, true, true, true)

  datatype Config = Config(n: nat, f: nat, mods: Mods)

  /** What the network needs to know of a message: its link and its path field. */
  datatype Packet = Packet(from: nat, to: nat, path: seq<nat>)

  /** A broadcast as messages name it. */
  datatype BroadcastId = BroadcastId(broadcaster: nat, broadcast: int)

  datatype Header = HdrDolev | HdrEcho | HdrReady

  /** The handlers' own key for a message. */
  datatype MessageId = MessageId(header: Header, broadcast: BroadcastId, originator: int)

  /** The part of a node's state that belongs to one message identifier. */
  datatype NodeState = NodeState(delivered: bool, lists: Lists, heardEmpty: set<nat>)

  function NoLists(n: nat): (lists: Lists)
    ensures |lists| == n && WellFormed(lists)
  {
    seq(n, _ => [])
  }

  lemma NothingStored(n: nat, omit: nat, m: nat)
    requires m > 0
    ensures !HasDisjoint(NoLists(n), omit, m)
  {
    forall pick | Picks(NoLists(n), pick)
      ensures |pick| == 0
    {
      assert pick.Keys == {};
      assert |pick| == |pick.Keys|;
    }
  }

  function MaskOf(path: seq<nat>, n: nat): (mask: Mask)
    ensures |mask| == n
  {
    seq(n, i requires 0 <= i < n => i in path)
  }

  /** The received path, extended by the link it came over unless that starts at the originator. */
  function Assembled(origin: nat, m: Packet): seq<nat> {
    if m.from == origin then m.path else m.path + [m.from]
  }

  /** The messages sent on: an empty path to everybody but the originator after a
      delivery, otherwise the assembled path to whoever is not on it. */
  function Relays(self: nat, neighbors: seq<nat>, origin: nat, empty: bool, path: seq<nat>): seq<Packet> {
    if neighbors == [] then []
    else
      var k := |neighbors| - 1;
      var to := neighbors[k];
      Relays(self, neighbors[..k], origin, empty, path) +
      if to == origin then []
      else if empty then [Packet(self, to, [])]
      else if to !in path then [Packet(self, to, path)]
      else []
  }

  lemma {:induction false} RelaysMember(self: nat, neighbors: seq<nat>, origin: nat, empty: bool, path: seq<nat>,
                                        p: Packet)
    ensures p in Relays(self, neighbors, origin, empty, path)
       <==> && p.from == self && p.to in neighbors && p.to != origin
            && if empty then p.path == [] else p.path == path && p.to !in path
  {
    if neighbors != [] {
      var k := |neighbors| - 1;
      assert neighbors == neighbors[..k] + [neighbors[k]];
      RelaysMember(self, neighbors[..k], origin, empty, path, p);
    }
  }

  predicate Dropped(cfg: Config, st: NodeState, m: Packet) {
    || (cfg.mods.mod5 && st.delivered)
    || (cfg.mods.mod4 && exists i | 0 <= i < |m.path| :: m.path[i] in st.heardEmpty)
  }

  ghost predicate FitsIn(cfg: Config, st: NodeState, m: Packet) {
    && cfg.f + 1 <= cfg.n && |st.lists| == cfg.n && WellFormed(st.lists)
    && m.from < cfg.n && forall i | 0 <= i < |m.path| :: m.path[i] < cfg.n
  }

  ghost function Stored(cfg: Config, origin: nat, st: NodeState, m: Packet): (lists: Lists)
    requires FitsIn(cfg, st, m)
    ensures |lists| == cfg.n && WellFormed(lists) && lists[m.from] != []
  {
    Grow(st.lists, m.from, MaskOf(Assembled(origin, m), cfg.n))
  }

  ghost predicate Direct(cfg: Config, origin: nat, m: Packet) {
    cfg.mods.mod1 && m.from == origin
  }

  /** The test for disjoint paths leaves node `omit` out of the comparison. */
  ghost predicate Indirect(cfg: Config, omit: nat, origin: nat, st: NodeState, m: Packet)
    requires FitsIn(cfg, st, m)
  {
    !st.delivered && !Direct(cfg, origin, m) &&
    NewestDisjoint(Stored(cfg, origin, st, m), omit, cfg.f + 1, m.from)
  }

  ghost predicate Delivers(cfg: Config, omit: nat, origin: nat, st: NodeState, m: Packet)
    requires FitsIn(cfg, st, m)
  {
    Direct(cfg, origin, m) || Indirect(cfg, omit, origin, st, m)
  }

  ghost function NextState(cfg: Config, omit: nat, origin: nat, st: NodeState, m: Packet): (next: NodeState)
    requires FitsIn(cfg, st, m)
    ensures |next.lists| == cfg.n && WellFormed(next.lists)
  {
    if Dropped(cfg, st, m) then st
    else
      NodeState(st.delivered || Delivers(cfg, omit, origin, st, m),
                Stored(cfg, origin, st, m),
                if cfg.mods.mod4 && m.path == [] then st.heardEmpty + {m.from} else st.heardEmpty)
  }

  ghost function Output(cfg: Config, neighbors: seq<nat>, omit: nat, origin: nat, st: NodeState, m: Packet): seq<Packet>
    requires FitsIn(cfg, st, m)
  {
    if Dropped(cfg, st, m) then []
    else
      Relays(m.to, neighbors, origin, cfg.mods.mod2 && Delivers(cfg, omit, origin, st, m), Assembled(origin, m))
  }

  /** The message counts from now on. */
  ghost predicate Accepts(cfg: Config, omit: nat, origin: nat, st: NodeState, m: Packet)
    requires FitsIn(cfg, st, m)
  {
    !Dropped(cfg, st, m) && !st.delivered && Delivers(cfg, omit, origin, st, m)
  }

  /** The handler's search reads beyond a list. */
  ghost predicate Fails(cfg: Config, omit: nat, origin: nat, st: NodeState, m: Packet)
    requires FitsIn(cfg, st, m)
  {
    && !Dropped(cfg, st, m) && !st.delivered && !Direct(cfg, origin, m)
    && ReadsBeyond(Stored(cfg, origin, st, m), omit, cfg.f + 1, m.from)
  }

  /** An undelivered message has no `f + 1` disjoint stored paths. */
  ghost predicate Undecided(cfg: Config, omit: nat, st: NodeState) {
    !st.delivered ==> !HasDisjoint(st.lists, omit, cfg.f + 1)
  }

  lemma StaysUndecided(cfg: Config, omit: nat, origin: nat, st: NodeState, m: Packet)
    requires FitsIn(cfg, st, m) && Undecided(cfg, omit, st)
    ensures Undecided(cfg, omit, NextState(cfg, omit, origin, st, m))
  {
    GrownFamily(st.lists, omit, cfg.f + 1, m.from, MaskOf(Assembled(origin, m), cfg.n));
  }

  /** A message is delivered exactly when `f + 1` disjoint paths of it are stored or, under MOD_1, one
      that came from its originator. */
  ghost predicate Decided(cfg: Config, omit: nat, origin: nat, st: NodeState) {
    st.delivered <==>
      HasDisjoint(st.lists, omit, cfg.f + 1) || (cfg.mods.mod1 && origin < |st.lists| && st.lists[origin] != [])
  }

  lemma StaysDecided(cfg: Config, omit: nat, origin: nat, st: NodeState, m: Packet)
    requires FitsIn(cfg, st, m) && Decided(cfg, omit, origin, st)
    ensures Decided(cfg, omit, origin, NextState(cfg, omit, origin, st, m))
  {
    if !Dropped(cfg, st, m) {
      GrownFamily(st.lists, omit, cfg.f + 1, m.from, MaskOf(Assembled(origin, m), cfg.n));
      var lists := Stored(cfg, origin, st, m);
      assert origin < |lists| ==> (lists[origin] != [] <==> st.lists[origin] != [] || m.from == origin);
    }
  }

  /** One stored path is not enough when there are faults to tolerate. */
  lemma NoLoneDelivery(cfg: Config, omit: nat, origin: nat, m: Packet)
    requires cfg.f >= 1
    requires FitsIn(cfg, NodeState(false, NoLists(cfg.n), {}), m)
    ensures !NewestDisjoint(Stored(cfg, origin, NodeState(false, NoLists(cfg.n), {}), m), omit, cfg.f + 1, m.from)
  {
    var lists := Stored(cfg, origin, NodeState(false, NoLists(cfg.n), {}), m);
    forall pick | Picks(lists, pick)
      ensures |pick| <= 1
    {
      assert forall i | i in pick :: i == m.from;
      SubsetCard(pick.Keys, {m.from});
      assert |pick| == |pick.Keys|;
    }
  }

  // ---- The loops and fields of the handlers ----

  /** The relay loop of all handlers. */
  method RelayLoop(self: nat, neighbors: seq<nat>, origin: nat, empty: bool, path: seq<nat>) returns (out: seq<Packet>)
    ensures out == Relays(self, neighbors, origin, empty, path)
  {
    out := [];
    for i := 0 to |neighbors|
      invariant out == Relays(self, neighbors[..i], origin, empty, path)
    {
      assert neighbors[..i + 1][..i] == neighbors[..i];
      var to := neighbors[i];
      if to == origin {
        continue;
      }
      if empty {
        out := out + [Packet(self, to, [])];
      } else {
        var isInPath := false;
        for j := 0 to |path|
          invariant isInPath <==> exists k | 0 <= k < j :: to == path[k]
        {
          if to == path[j] {
            isInPath := true;
            break;
          }
        }
        if !isInPath {
          out := out + [Packet(self, to, path)];
        }
      }
    }
    assert neighbors[..|neighbors|] == neighbors;
  }

  /** Does the path go through one of the given nodes? */
  method GoesThrough(path: seq<nat>, heard: set<nat>) returns (found: bool)
    ensures found <==> exists i | 0 <= i < |path| :: path[i] in heard
  {
    for i := 0 to |path|
      invariant forall k | 0 <= k < i :: path[k] !in heard
    {
      if path[i] in heard {
        return true;
      }
    }
    found := false;
  }

  class Disseminator {
    const cfg: Config
    const self: nat
    const neighbors: seq<nat>
    var deliveredMsgs: set<MessageId>
    var paths: map<MessageId, Lists>
    var neighborsThatDelivered: map<MessageId, set<nat>>

    /** The stored lists have their shape. */
    ghost predicate Shaped()
      reads this
    {
      && cfg.f + 1 <= cfg.n
      && forall id | id in paths :: |paths[id]| == cfg.n && WellFormed(paths[id])
    }

    /** And every undelivered message is still undecided. */
    ghost predicate Valid()
      reads this
    {
      Shaped() && forall id: MessageId :: Undecided(cfg, id.broadcast.broadcaster, View(id))
    }

    function View(id: MessageId): NodeState
      reads this
    {
      NodeState(id in deliveredMsgs,
                if id in paths then paths[id] else NoLists(cfg.n),
                if id in neighborsThatDelivered then neighborsThatDelivered[id] else {})
    }

    constructor (cfg: Config, self: nat, neighbors: seq<nat>)
      requires cfg.f + 1 <= cfg.n
      ensures Valid() && this.cfg == cfg && this.self == self && this.neighbors == neighbors
      ensures forall id :: View(id) == NodeState(false, NoLists(cfg.n), {})
    {
      this.cfg, this.self, this.neighbors := cfg, self, neighbors;
      deliveredMsgs, paths, neighborsThatDelivered := {}, map[], map[];
      new;
      forall id: MessageId ensures Undecided(cfg, id.broadcast.broadcaster, View(id)) {
        NothingStored(cfg.n, id.broadcast.broadcaster, cfg.f + 1);
      }
    }

    method MarkDelivered(id: MessageId)
      requires Valid()
      modifies this`deliveredMsgs
      ensures Valid() && deliveredMsgs == old(deliveredMsgs) + {id}
      ensures View(id) == old(View(id)).(delivered := true)
      ensures forall other | other != id :: View(other) == old(View(other))
    {
      deliveredMsgs := deliveredMsgs + {id};
      forall x: MessageId ensures Undecided(cfg, x.broadcast.broadcaster, View(x)) {
        if x != id { assert View(x) == old(View(x)); }
      }
    }

    /** What every handler does with a copy up to its delivery: filter it, store its path, search,
        and relay. `beyond` reports that the search read beyond a list; then nothing more is known
        of this message. */
    method Disseminate(id: MessageId, origin: nat, m: Packet)
      returns (beyond: bool, accepted: bool, relays: seq<Packet>)
      requires Valid() && m.to == self && m.from < cfg.n && forall i | 0 <= i < |m.path| :: m.path[i] < cfg.n
      modifies this
      ensures var was, omit := old(View(id)), id.broadcast.broadcaster;
              && FitsIn(cfg, was, m)
              && (beyond <==> Fails(cfg, omit, origin, was, m))
              && (!beyond ==>
                  && View(id) == NextState(cfg, omit, origin, was, m)
                  && (accepted <==> Accepts(cfg, omit, origin, was, m))
                  && relays == Output(cfg, neighbors, omit, origin, was, m))
      ensures !beyond ==> Valid()
      ensures forall other | other != id :: View(other) == old(View(other))
    {
      ghost var was := View(id);
      var wasDelivered := id in deliveredMsgs;
      beyond, accepted, relays := false, false, [];
      if cfg.mods.mod5 && wasDelivered {
        return;
      }
      if cfg.mods.mod4 {
        var ignore := NoteEmptyPath(id, m);
        if ignore {
          return;
        }
      }
      var delivering;
      beyond, delivering := StoreAndDeliver(id, origin, m, wasDelivered);
      if beyond {
        return;
      }
      accepted := !wasDelivered && delivering;
      relays := RelayLoop(self, neighbors, origin, cfg.mods.mod2 && delivering, Assembled(origin, m));
    }

    method StoreAndDeliver(id: MessageId, origin: nat, m: Packet, wasDelivered: bool)
      returns (beyond: bool, delivering: bool)
      requires Valid() && FitsIn(cfg, View(id), m) && wasDelivered == View(id).delivered
      modifies this`paths, this`deliveredMsgs
      ensures var was, omit := old(View(id)), id.broadcast.broadcaster;
              && (beyond <==>
                    && !was.delivered && !Direct(cfg, origin, m)
                    && ReadsBeyond(Stored(cfg, origin, was, m), omit, cfg.f + 1, m.from))
              && (!beyond ==>
                  && (delivering <==> Delivers(cfg, omit, origin, was, m))
                  && View(id) == was.(lists := Stored(cfg, origin, was, m), delivered := was.delivered || delivering))
      ensures !beyond ==> Valid()
      ensures forall other | other != id :: View(other) == old(View(other))
    {
      ghost var was, omit := View(id), id.broadcast.broadcaster;
      var path := Assembled(origin, m);
      StorePath(id, m.from, path);
      if !wasDelivered { UndecidedBefore(was.lists, omit, cfg.f + 1, m.from, MaskOf(path, cfg.n)); }
      beyond, delivering := Deliver(id, origin, m.from, wasDelivered);
      GrownFamily(was.lists, omit, cfg.f + 1, m.from, MaskOf(path, cfg.n));
    }

    /** Ignores paths through a neighbour that sent an empty path; remembers new ones. */
    method NoteEmptyPath(id: MessageId, m: Packet) returns (ignore: bool)
      modifies this`neighborsThatDelivered
      ensures var heard := old(View(id)).heardEmpty;
              && (ignore <==> exists i | 0 <= i < |m.path| :: m.path[i] in heard)
              && View(id) == old(View(id)).(heardEmpty := if m.path == [] then heard + {m.from} else heard)
      ensures forall other | other != id :: View(other) == old(View(other))
    {
      var heard := if id in neighborsThatDelivered then neighborsThatDelivered[id] else {};
      ignore := GoesThrough(m.path, heard);
      if !ignore && |m.path| == 0 {
        neighborsThatDelivered := neighborsThatDelivered[id := heard + {m.from}];
      }
    }

    method StorePath(id: MessageId, from: nat, path: seq<nat>)
      requires Shaped() && from < cfg.n
      modifies this`paths
      ensures Shaped() && id in paths
      ensures View(id) == old(View(id)).(lists := Grow(old(View(id)).lists, from, MaskOf(path, cfg.n)))
      ensures forall other | other != id :: View(other) == old(View(other))
    {
      if id !in paths {
        paths := paths[id := NoLists(cfg.n)];
      }
      paths := paths[id := Grow(paths[id], from, MaskOf(path, cfg.n))];
    }

    /** Delivery: direct under MOD_1, or by the search as it is written. */
    method Deliver(id: MessageId, origin: nat, from: nat, wasDelivered: bool) returns (beyond: bool, delivering: bool)
      requires Shaped() && id in paths && from < cfg.n && View(id).lists[from] != []
      requires wasDelivered == View(id).delivered
      requires !wasDelivered ==> OnlyNewest(View(id).lists, id.broadcast.broadcaster, cfg.f + 1, from)
      modifies this`deliveredMsgs
      ensures var lists, omit, direct := old(View(id)).lists, id.broadcast.broadcaster, cfg.mods.mod1 && from == origin;
              && (beyond <==> !wasDelivered && !direct && ReadsBeyond(lists, omit, cfg.f + 1, from))
              && (!beyond ==>
                    (delivering <==> direct || (!wasDelivered && NewestDisjoint(lists, omit, cfg.f + 1, from))))
              && View(id) == old(View(id)).(delivered := wasDelivered || (!beyond && delivering))
      ensures forall other | other != id :: View(other) == old(View(other))
    {
      beyond, delivering := false, cfg.mods.mod1 && from == origin;
      if !wasDelivered && !delivering {
        var omit := id.broadcast.broadcaster;
        var verdict := FullSearch.MsgCanBeDelivered(paths[id], omit, cfg.f, from);
        AnswerIsRight(paths[id], omit, cfg.f + 1, from, verdict);
        if verdict == BeyondList {
          return true, false;
        }
        delivering := verdict == Disjoint;
      }
      if delivering {
        deliveredMsgs := deliveredMsgs + {id};
      }
    }
  }
}
