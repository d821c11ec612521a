/**
  Delivery under all five modifications. Once the source has broadcast and the
  messages between correct nodes have been handled, every correct node with
  `f + 1` disjoint correct routes from the source has delivered: relaying empty
  paths, ignoring paths through nodes that sent one, and falling silent after a
  delivery lose nothing.
 */
module DolevDelivery {
  import opened Options
  import opened DisjointSearch
  import opened Dissemination
  import opened DolevNetwork
  import R = Routes

  ghost predicate FullNet(net: Net) {
    ValidNet(net) && net.cfg.mods == ALL_MODS
  }

  /** `w` stored the assembled path and sent it to every neighbour it had to. */
  ghost predicate Passed(net: Net, s: State, w: nat, path: seq<nat>)
    requires |s.nodes| == net.cfg.n
  {
    && w < net.cfg.n && path != [] && Last(path) < |s.nodes[w].lists|
    && MaskOf(path, net.cfg.n) in s.nodes[w].lists[Last(path)]
    && forall z: nat | Linked(net, w, z) && z != net.source && z !in path :: Packet(w, z, path) in s.sent
  }

  function Last(path: seq<nat>): nat
    requires path != []
  {
    path[|path| - 1]
  }

  /** A node whose state still matters: correct, not the source, not done. */
  ghost predicate Waiting(net: Net, s: State, w: nat) {
    w < |s.nodes| && Correct(net, w) && w != net.source && !s.nodes[w].delivered
  }

  ghost predicate IgnoredBy(st: NodeState, path: seq<nat>) {
    exists x: nat :: x in path && x in st.heardEmpty
  }

  ghost predicate FirstCopies(net: Net, s: State)
    requires |s.nodes| == net.cfg.n
  {
    && (s.broadcast ==> forall w: nat | Linked(net, net.source, w) :: Packet(net.source, w, []) in s.sent)
    && (forall p | p in s.sent && p.from == net.source && p.path == [] && Waiting(net, s, p.to) ::
          p in s.transit)
  }

  ghost predicate LaterCopies(net: Net, s: State)
    requires |s.nodes| == net.cfg.n
  {
    forall p | p in s.sent && p.from != net.source && Waiting(net, s, p.to) ::
      Accounted(net, s, p)
  }

  ghost predicate Accounted(net: Net, s: State, p: Packet)
    requires |s.nodes| == net.cfg.n && p.to < net.cfg.n
  {
    || p in s.transit
    || Passed(net, s, p.to, p.path + [p.from])
    || IgnoredBy(s.nodes[p.to], p.path)
  }

  ghost predicate Announced(net: Net, s: State)
    requires |s.nodes| == net.cfg.n
  {
    forall u: nat, w: nat | u < net.cfg.n && Correct(net, u) && u != net.source && s.nodes[u].delivered
                    && Linked(net, u, w) && w != net.source :: Packet(u, w, []) in s.sent
  }

  ghost predicate Remembered(net: Net, s: State)
    requires |s.nodes| == net.cfg.n
  {
    forall w: nat | Waiting(net, s, w) :: RememberedBy(net, s, w)
  }

  ghost predicate RememberedBy(net: Net, s: State, w: nat)
    requires |s.nodes| == net.cfg.n && w < net.cfg.n
  {
    forall x: nat | x in s.nodes[w].heardEmpty :: x != net.source && Passed(net, s, w, [x])
  }

  ghost predicate Progress(net: Net, s: State) {
    && Shape(net, s)
    && FirstCopies(net, s) && LaterCopies(net, s) && Announced(net, s)
    && Remembered(net, s) && AllUndecided(net, s)
  }

  // ---- One step ----

  /** Nothing that holds of a node's record is lost when lists and history grow. */
  ghost predicate Extends(s: State, t: State) {
    && |s.nodes| == |t.nodes| && s.sent <= t.sent
    && forall u | 0 <= u < |s.nodes| ::
         && |s.nodes[u].lists| == |t.nodes[u].lists|
         && (s.nodes[u].delivered ==> t.nodes[u].delivered)
         && s.nodes[u].heardEmpty <= t.nodes[u].heardEmpty
         && forall i, mask | 0 <= i < |s.nodes[u].lists| && mask in s.nodes[u].lists[i] :: mask in t.nodes[u].lists[i]
  }

  lemma PassedExtends(net: Net, s: State, t: State, w: nat, path: seq<nat>)
    requires |s.nodes| == net.cfg.n && Extends(s, t) && Passed(net, s, w, path)
    ensures Passed(net, t, w, path)
  {
  }

  lemma HandleExtends(net: Net, s: State, m: Packet)
    requires ValidNet(net) && Shape(net, s) && Enabled(net, s, Handle(m))
    ensures Extends(s, After(net, s, Handle(m)))
  {
  }

  /** The message just handled is accounted for at its receiver. */
  lemma HandledMessage(net: Net, s: State, m: Packet)
    requires FullNet(net) && Shape(net, s) && Enabled(net, s, Handle(m))
    requires Waiting(net, After(net, s, Handle(m)), m.to)
    ensures m.from == net.source ==> m.path != []
    ensures !Dropped(net.cfg, s.nodes[m.to], m) ==>
              m.from != net.source && Passed(net, After(net, s, Handle(m)), m.to, m.path + [m.from])
    ensures Dropped(net.cfg, s.nodes[m.to], m) ==> IgnoredBy(s.nodes[m.to], m.path)
  {
    var t := After(net, s, Handle(m));
    if !Dropped(net.cfg, s.nodes[m.to], m) {
      assert !Delivers(net.cfg, net.source, net.source, s.nodes[m.to], m);
      var path := Assembled(net.source, m);
      var lists := t.nodes[m.to].lists;
      assert lists[m.from][|lists[m.from]| - 1] == MaskOf(path, net.cfg.n);
      forall z: nat | Linked(net, m.to, z) && z != net.source && z !in path
        ensures Packet(m.to, z, path) in t.sent
      {
        OutMember(net, s, m, Packet(m.to, z, path));
      }
    }
  }

  lemma FirstCopiesHandle(net: Net, s: State, m: Packet)
    requires FullNet(net) && Progress(net, s) && Enabled(net, s, Handle(m))
    ensures FirstCopies(net, After(net, s, Handle(m)))
  {
    var t := After(net, s, Handle(m));
    HandleExtends(net, s, m);
    forall p | p in t.sent && p.from == net.source && p.path == [] && Waiting(net, t, p.to)
      ensures p in t.transit
    {
      if p == m {
        HandledMessage(net, s, m);
      } else if p !in s.sent {
        assert p in Out(net, s, m);
      } else {
        assert Waiting(net, s, p.to);
      }
    }
  }

  lemma LaterCopiesHandle(net: Net, s: State, m: Packet)
    requires FullNet(net) && Progress(net, s) && Enabled(net, s, Handle(m))
    ensures LaterCopies(net, After(net, s, Handle(m)))
  {
    var t := After(net, s, Handle(m));
    HandleExtends(net, s, m);
    forall p | p in t.sent && p.from != net.source && Waiting(net, t, p.to)
      ensures Accounted(net, t, p)
    {
      if p == m {
        HandledMessage(net, s, m);
      } else if p !in s.sent {
        assert p in Out(net, s, m);
      } else {
        AccountedStays(net, s, t, m, p);
      }
    }
  }

  lemma AccountedStays(net: Net, s: State, t: State, m: Packet, p: Packet)
    requires |s.nodes| == net.cfg.n && p.to < net.cfg.n && Extends(s, t)
    requires Accounted(net, s, p) && p != m
    requires forall q | q in s.transit && q != m :: q in t.transit
    ensures Accounted(net, t, p)
  {
    if Passed(net, s, p.to, p.path + [p.from]) {
      PassedExtends(net, s, t, p.to, p.path + [p.from]);
    }
  }

  lemma AnnouncedHandle(net: Net, s: State, m: Packet)
    requires FullNet(net) && Progress(net, s) && Enabled(net, s, Handle(m))
    ensures Announced(net, After(net, s, Handle(m)))
  {
    var t := After(net, s, Handle(m));
    forall u: nat, w: nat | u < net.cfg.n && Correct(net, u) && u != net.source && t.nodes[u].delivered
                    && Linked(net, u, w) && w != net.source
      ensures Packet(u, w, []) in t.sent
    {
      if !s.nodes[u].delivered {
        OutMember(net, s, m, Packet(u, w, []));
      }
    }
  }

  lemma RememberedHandle(net: Net, s: State, m: Packet)
    requires FullNet(net) && Progress(net, s) && Enabled(net, s, Handle(m))
    ensures Remembered(net, After(net, s, Handle(m)))
  {
    var t := After(net, s, Handle(m));
    HandleExtends(net, s, m);
    forall w: nat | Waiting(net, t, w)
      ensures RememberedBy(net, t, w)
    {
      assert Waiting(net, s, w);
      forall x: nat | x in t.nodes[w].heardEmpty
        ensures x != net.source && Passed(net, t, w, [x])
      {
        if x in s.nodes[w].heardEmpty {
          PassedExtends(net, s, t, w, [x]);
        } else {
          HandledMessage(net, s, m);
          assert m.path + [m.from] == [x];
        }
      }
    }
  }

  lemma LaterCopiesOther(net: Net, s: State, e: Event)
    requires FullNet(net) && Progress(net, s) && Enabled(net, s, e) && !e.Handle?
    ensures LaterCopies(net, After(net, s, e))
  {
    var t := After(net, s, e);
    assert Extends(s, t);
    forall p | p in t.sent && p.from != net.source && Waiting(net, t, p.to)
      ensures Accounted(net, t, p)
    {
      assert Waiting(net, s, p.to) && Accounted(net, s, p);
      if Passed(net, s, p.to, p.path + [p.from]) {
        PassedExtends(net, s, t, p.to, p.path + [p.from]);
      }
    }
  }

  lemma RememberedOther(net: Net, s: State, e: Event)
    requires FullNet(net) && Progress(net, s) && Enabled(net, s, e) && !e.Handle?
    ensures Remembered(net, After(net, s, e))
  {
    var t := After(net, s, e);
    assert Extends(s, t);
    forall w: nat | Waiting(net, t, w)
      ensures RememberedBy(net, t, w)
    {
      assert Waiting(net, s, w);
      forall x: nat | x in t.nodes[w].heardEmpty
        ensures x != net.source && Passed(net, t, w, [x])
      {
        PassedExtends(net, s, t, w, [x]);
      }
    }
  }

  lemma AnnouncedOther(net: Net, s: State, e: Event)
    requires FullNet(net) && Progress(net, s) && Enabled(net, s, e) && !e.Handle?
    ensures Announced(net, After(net, s, e))
  {
  }

  lemma FirstCopiesOther(net: Net, s: State, e: Event)
    requires FullNet(net) && Progress(net, s) && Enabled(net, s, e) && !e.Handle?
    ensures FirstCopies(net, After(net, s, e))
  {
    var t := After(net, s, e);
    if e.Broadcast? {
      forall w: nat | Linked(net, net.source, w)
        ensures Packet(net.source, w, []) in t.sent
      {
        var targets := net.neighbors[net.source];
        var i :| 0 <= i < |targets| && targets[i] == w;
        assert FirstPackets(net)[i] == Packet(net.source, w, []);
      }
    }
    forall p | p in t.sent && p.from == net.source && p.path == [] && Waiting(net, t, p.to)
      ensures p in t.transit
    {
      if p in s.sent { assert Waiting(net, s, p.to); }
    }
  }

  lemma {:induction false} ProgressAlways(net: Net, events: seq<Event>)
    requires FullNet(net) && Run(net, events).Some?
    ensures Progress(net, Run(net, events).value)
  {
    if events == [] {
      UndecidedInitially(net);
    } else {
      var k := |events| - 1;
      ProgressAlways(net, events[..k]);
      var s := Run(net, events[..k]).value;
      var e := events[k];
      if e.Handle? {
        ShapeStep(net, s, e);
        FirstCopiesHandle(net, s, e.m);
        LaterCopiesHandle(net, s, e.m);
        AnnouncedHandle(net, s, e.m);
        RememberedHandle(net, s, e.m);
        UndecidedStep(net, s, e);
      } else {
        ShapeStep(net, s, e);
        FirstCopiesOther(net, s, e);
        LaterCopiesOther(net, s, e);
        RememberedOther(net, s, e);
        AnnouncedOther(net, s, e);
        UndecidedStep(net, s, e);
      }
    }
  }

  // ---- The theorem ----

  /** No message between correct nodes is still on its way. */
  ghost predicate Quiescent(net: Net, s: State) {
    forall p | p in s.transit :: !(Correct(net, p.from) && Correct(net, p.to))
  }

  ghost predicate Route(net: Net, p: seq<nat>, v: nat) {
    R.Route(net.neighbors, net.faulty, p, net.source, v)
  }

  ghost predicate DisjointRoutes(net: Net, routes: seq<seq<nat>>, v: nat) {
    R.DisjointRoutes(net.neighbors, net.faulty, routes, net.source, v)
  }

  /** The nodes a route goes through after the source and before position `m`. */
  ghost predicate Along(p: seq<nat>, m: nat, path: seq<nat>)
    requires 1 <= m <= |p|
  {
    path != [] && forall x | x in path :: x in p[1..m]
  }

  lemma AlongMember(p: seq<nat>, m: nat, path: seq<nat>, x: nat)
    requires 1 <= m <= |p| && Along(p, m, path) && x in path
    ensures exists i :: 1 <= i < m && p[i] == x
  {
    var i :| 0 <= i < m - 1 && p[1..m][i] == x;
    assert p[i + 1] == x;
  }

  lemma AlongOne(p: seq<nat>, m: nat, i: nat)
    requires 1 <= i < m <= |p|
    ensures Along(p, m, [p[i]])
  {
    assert p[1..m][i - 1] == p[i];
  }

  lemma AlongMore(p: seq<nat>, m: nat, path: seq<nat>)
    requires 1 <= m < |p| && Along(p, m, path)
    ensures Along(p, m + 1, path + [p[m]])
  {
    AlongOne(p, m + 1, m);
    assert p[1..m + 1] == p[1..m] + [p[m]];
  }

  /** How far a route has brought the message. */
  ghost predicate Arrived(net: Net, s: State, p: seq<nat>, m: nat)
    requires |s.nodes| == net.cfg.n && 1 <= m < |p|
  {
    Waiting(net, s, p[m]) ==> exists path :: Passed(net, s, p[m], path) && Along(p, m, path)
  }

  ghost predicate Settled(net: Net, s: State) {
    FullNet(net) && Progress(net, s) && s.broadcast && Quiescent(net, s)
  }

  lemma HopIgnored(net: Net, s: State, p: seq<nat>, v: nat, m: nat, path: seq<nat>)
    requires Settled(net, s) && Route(net, p, v) && 1 <= m < |p| - 1 && Waiting(net, s, p[m + 1])
    requires Along(p, m, path) && IgnoredBy(s.nodes[p[m + 1]], path)
    ensures Arrived(net, s, p, m + 1)
  {
    var x: nat :| x in path && x in s.nodes[p[m + 1]].heardEmpty;
    AlongMember(p, m, path, x);
    var i :| 1 <= i < m && p[i] == x;
    AlongOne(p, m + 1, i);
    assert RememberedBy(net, s, p[m + 1]);
  }

  lemma HopPassed(net: Net, s: State, p: seq<nat>, m: nat, path: seq<nat>)
    requires |s.nodes| == net.cfg.n && 1 <= m < |p| - 1 && (path == [] || Along(p, m, path))
    requires Passed(net, s, p[m + 1], path + [p[m]])
    ensures Arrived(net, s, p, m + 1)
  {
    if path == [] {
      AlongOne(p, m + 1, m);
      assert path + [p[m]] == [p[m]];
    } else {
      AlongMore(p, m, path);
    }
  }

  /** A copy that one correct node sent on along a route has left its mark on the next. */
  lemma Hop(net: Net, s: State, p: seq<nat>, v: nat, m: nat, path: seq<nat>)
    requires Settled(net, s) && Route(net, p, v) && 1 <= m < |p| - 1
    requires Packet(p[m], p[m + 1], path) in s.sent && (path == [] || Along(p, m, path))
    ensures Arrived(net, s, p, m + 1)
  {
    if Waiting(net, s, p[m + 1]) {
      var q := Packet(p[m], p[m + 1], path);
      assert q.from != net.source && q !in s.transit;
      assert Accounted(net, s, q);
      if Passed(net, s, p[m + 1], path + [p[m]]) {
        HopPassed(net, s, p, m, path);
      } else {
        HopIgnored(net, s, p, v, m, path);
      }
    }
  }

  lemma {:induction false} Travel(net: Net, s: State, p: seq<nat>, v: nat, m: nat)
    requires Settled(net, s) && Route(net, p, v) && 1 <= m < |p|
    ensures Arrived(net, s, p, m)
  {
    if m == 1 {
      var q := Packet(net.source, p[1], []);
      assert R.Hop(net.neighbors, p, 0);
      assert q in s.sent && q !in s.transit;
    } else {
      var k := m - 1;
      Travel(net, s, p, v, k);
      assert R.Hop(net.neighbors, p, k) && p[k + 1] != net.source;
      if s.nodes[p[k]].delivered {
        assert p[k] != net.source;
        Hop(net, s, p, v, k, []);
      } else {
        assert Waiting(net, s, p[k]);
        var path :| Passed(net, s, p[k], path) && Along(p, k, path);
        if p[m] in path {
          AlongMember(p, k, path, p[m]);
          assert false;
        }
        Hop(net, s, p, v, k, path);
      }
    }
  }

  ghost function Trace(net: Net, s: State, p: seq<nat>, v: nat): (path: seq<nat>)
    requires Settled(net, s) && Route(net, p, v) && Waiting(net, s, v)
    ensures Passed(net, s, v, path) && Along(p, |p| - 1, path)
  {
    Travel(net, s, p, v, |p| - 1);
    assert v == p[|p| - 1];
    var path :| Passed(net, s, v, path) && Along(p, |p| - 1, path);
    path
  }

  lemma TracesApart(net: Net, s: State, p: seq<nat>, q: seq<nat>, v: nat)
    requires Settled(net, s) && Waiting(net, s, v)
    requires Route(net, p, v) && Route(net, q, v)
    requires R.Share(p, q, net.source, v)
    ensures forall x | x in Trace(net, s, p, v) :: x !in Trace(net, s, q, v)
  {
    forall x | x in Trace(net, s, p, v)
      ensures x !in Trace(net, s, q, v)
    {
      InnerNode(net, p, v, x);
      if x in q[1..|q| - 1] {
        InnerNode(net, q, v, x);
        assert false;
      }
    }
  }

  lemma InnerNode(net: Net, p: seq<nat>, v: nat, x: nat)
    requires Route(net, p, v) && x in p[1..|p| - 1]
    ensures x in p && x != net.source && x != v
  {
    var i :| 0 <= i < |p| - 2 && p[1..|p| - 1][i] == x;
    assert p[i + 1] == x;
    assert p[0] != p[i + 1] && p[i + 1] != p[|p| - 1];
  }

  /** Disjoint routes leave as many disjoint stored paths. */
  lemma RoutesGiveFamily(net: Net, s: State, routes: seq<seq<nat>>, v: nat)
    requires Settled(net, s) && Waiting(net, s, v) && DisjointRoutes(net, routes, v)
    ensures HasDisjoint(s.nodes[v].lists, net.source, |routes|)
  {
    var traces := seq(|routes|, i requires 0 <= i < |routes| && Route(net, routes[i], v) =>
                                  Trace(net, s, routes[i], v));
    var senders := seq(|routes|, i requires 0 <= i < |routes| && traces[i] != [] => Last(traces[i]));
    var masks := seq(|routes|, i requires 0 <= i < |routes| => MaskOf(traces[i], net.cfg.n));
    forall i | 0 <= i < |routes|
      ensures Holds(s.nodes[v].lists, senders[i], masks[i])
    {
      assert Passed(net, s, v, traces[i]);
    }
    forall i, j | 0 <= i < j < |routes|
      ensures senders[i] != senders[j] && Apart(masks[i], masks[j], net.source)
    {
      TracesApart(net, s, routes[i], routes[j], v);
      assert senders[i] in traces[i] && senders[j] in traces[j];
    }
    HeldIsDisjoint(s.nodes[v].lists, senders, masks, net.source);
  }

  /** The delivery theorem: whatever the faulty nodes sent, in a quiescent state
      after the broadcast every correct neighbour of the source and every correct
      node with `f + 1` disjoint correct routes has delivered. */
  lemma DeliveredWhenQuiescent(net: Net, s: State, routes: seq<seq<nat>>, v: nat)
    requires FullNet(net) && Reachable(net, s) && s.broadcast && Quiescent(net, s)
    requires Correct(net, v) && v != net.source
    requires Linked(net, net.source, v) || (|routes| == net.cfg.f + 1 && DisjointRoutes(net, routes, v))
    ensures s.nodes[v].delivered
  {
    var events :| Run(net, events) == Some(s);
    ProgressAlways(net, events);
    if Linked(net, net.source, v) {
      assert Packet(net.source, v, []) in s.sent;
    } else if Waiting(net, s, v) {
      RoutesGiveFamily(net, s, routes, v);
      assert false;
    }
  }
}
