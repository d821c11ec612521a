/**
  A run of the Dolev protocol, under any modifications, at whose end the delivery
  test as it is written reads beyond a list: one faulty node and three messages of
  its own are enough.
 */
module SearchFailure {
  import opened Options
  import opened Permutation
  import opened DisjointSearch
  import opened FullSearch
  import opened Dissemination
  import opened DolevNetwork

  /** The faulty node `q` reaches `a`, `b` and `c`; they reach `u`, and `b` reaches `c`. */
  ghost predicate Cast(net: Net, q: nat, a: nat, b: nat, c: nat, u: nat) {
    && ValidNet(net) && net.cfg.f == 1 && q in net.faulty
    && Correct(net, a) && Correct(net, b) && Correct(net, c) && Correct(net, u)
    && net.source !in {a, b, c, u} && a != b && a != c && b != c && u !in {a, b, c}
    && Linked(net, q, a) && Linked(net, q, b) && Linked(net, q, c) && Linked(net, b, c)
    && Linked(net, a, u) && Linked(net, b, u) && Linked(net, c, u)
  }

  /** A reachable state in which nothing was broadcast or delivered, and every trace is the faulty nodes' doing. */
  ghost predicate Calm(net: Net, s: State)
    requires ValidNet(net)
  {
    Reachable(net, s) && Shape(net, s) && Untouched(net, s)
  }

  lemma CalmInitially(net: Net)
    requires ValidNet(net)
    ensures Calm(net, Initial(net))
  {
    assert Run(net, []) == Some(Initial(net));
  }

  lemma StillReachable(net: Net, s: State, e: Event)
    requires ValidNet(net) && Reachable(net, s) && |s.nodes| == net.cfg.n && Enabled(net, s, e)
    ensures Reachable(net, After(net, s, e))
  {
    var events :| Run(net, events) == Some(s);
    RunStep(net, events, e);
  }

  lemma Injected(net: Net, s: State, m: Packet) returns (next: State)
    requires ValidNet(net) && Calm(net, s) && m.from in net.faulty && Sendable(net, m)
    ensures Calm(net, next) && next == s.(transit := s.transit + multiset{m})
  {
    StillReachable(net, s, Inject(m));
    next := After(net, s, Inject(m));
    ShapeStep(net, s, Inject(m));
  }

  /** What handling `m` does when nothing is delivered: `path` is stored and relayed. */
  ghost predicate Stores(net: Net, s: State, m: Packet, path: seq<nat>, next: State) {
    && |next.nodes| == |s.nodes| && m.to < |s.nodes|
    && (forall w | 0 <= w < |s.nodes| && w != m.to :: next.nodes[w] == s.nodes[w])
    && OneMore(s.nodes[m.to], next.nodes[m.to], m)
    && (forall p | p in s.transit && p != m :: p in next.transit)
    && (forall w | Linked(net, m.to, w) && w != net.source && w !in path :: Packet(m.to, w, path) in next.transit)
  }

  ghost predicate OneMore(st: NodeState, now: NodeState, m: Packet) {
    && !now.delivered && |now.lists| == |st.lists| && (m.path != [] ==> now.heardEmpty == st.heardEmpty)
    && forall x | 0 <= x < |st.lists| :: |now.lists[x]| == |st.lists[x]| + if x == m.from then 1 else 0
  }

  lemma Handled(net: Net, s: State, m: Packet, path: seq<nat>) returns (next: State)
    requires ValidNet(net) && Calm(net, s) && m in s.transit && Correct(net, m.to) && m.from != net.source
    requires path == m.path + [m.from] && forall x | x in m.path :: x !in s.nodes[m.to].heardEmpty
    ensures Calm(net, next) && Stores(net, s, m, path, next)
  {
    StillReachable(net, s, Handle(m));
    next := After(net, s, Handle(m));
    ShapeStep(net, s, Handle(m));
    NotYetDelivering(net, s, m);
    UntouchedHandle(net, s, m);
    HandledStores(net, s, m, path);
  }

  lemma HandledStores(net: Net, s: State, m: Packet, path: seq<nat>)
    requires ValidNet(net) && Shape(net, s) && Enabled(net, s, Handle(m)) && m.from != net.source
    requires path == m.path + [m.from] && forall x | x in m.path :: x !in s.nodes[m.to].heardEmpty
    requires !s.nodes[m.to].delivered && !Delivers(net.cfg, net.source, net.source, s.nodes[m.to], m)
    ensures Stores(net, s, m, path, After(net, s, Handle(m)))
  {
    HandledRelays(net, s, m, path);
    StoresOneMore(net, s, m);
  }

  lemma HandledRelays(net: Net, s: State, m: Packet, path: seq<nat>)
    requires ValidNet(net) && Shape(net, s) && Enabled(net, s, Handle(m)) && m.from != net.source
    requires path == m.path + [m.from] && forall x | x in m.path :: x !in s.nodes[m.to].heardEmpty
    requires !s.nodes[m.to].delivered && !Delivers(net.cfg, net.source, net.source, s.nodes[m.to], m)
    ensures forall w | Linked(net, m.to, w) && w != net.source && w !in path ::
              Packet(m.to, w, path) in After(net, s, Handle(m)).transit
  {
    forall w | Linked(net, m.to, w) && w != net.source && w !in path
      ensures Packet(m.to, w, path) in Out(net, s, m)
    {
      OutMember(net, s, m, Packet(m.to, w, path));
    }
  }

  lemma StoresOneMore(net: Net, s: State, m: Packet)
    requires ValidNet(net) && Shape(net, s) && Enabled(net, s, Handle(m)) && m.from != net.source
    requires forall x | x in m.path :: x !in s.nodes[m.to].heardEmpty
    requires !s.nodes[m.to].delivered && !Delivers(net.cfg, net.source, net.source, s.nodes[m.to], m)
    ensures OneMore(s.nodes[m.to], NextState(net.cfg, net.source, net.source, s.nodes[m.to], m), m)
  {
  }

  /** The faulty node sends empty paths to three nodes. */
  lemma Provoked(net: Net, q: nat, a: nat, b: nat, c: nat, u: nat) returns (s: State)
    requires Cast(net, q, a, b, c, u)
    ensures Calm(net, s) && s.nodes == Initial(net).nodes
    ensures Packet(q, a, []) in s.transit && Packet(q, b, []) in s.transit && Packet(q, c, []) in s.transit
  {
    CalmInitially(net);
    s := Injected(net, Initial(net), Packet(q, a, []));
    s := Injected(net, s, Packet(q, b, []));
    s := Injected(net, s, Packet(q, c, []));
  }

  /** `a` and `b` relay the path through the faulty node. */
  lemma SpreadToTwo(net: Net, q: nat, a: nat, b: nat, c: nat, u: nat, s0: State) returns (s: State)
    requires Cast(net, q, a, b, c, u) && Calm(net, s0) && s0.nodes == Initial(net).nodes
    requires Packet(q, a, []) in s0.transit && Packet(q, b, []) in s0.transit && Packet(q, c, []) in s0.transit
    ensures Calm(net, s) && s.nodes[u] == s0.nodes[u] && s.nodes[c] == s0.nodes[c]
    ensures Packet(a, u, [q]) in s.transit && Packet(b, u, [q]) in s.transit
    ensures Packet(b, c, [q]) in s.transit && Packet(q, c, []) in s.transit
  {
    s := Handled(net, s0, Packet(q, a, []), [q]);
    s := Handled(net, s, Packet(q, b, []), [q]);
  }

  /** `c` relays the copy of `b`, then its own. */
  lemma SpreadToThird(net: Net, q: nat, a: nat, b: nat, c: nat, u: nat, s0: State) returns (s: State)
    requires Cast(net, q, a, b, c, u) && Calm(net, s0) && s0.nodes[c].heardEmpty == {}
    requires Packet(a, u, [q]) in s0.transit && Packet(b, u, [q]) in s0.transit
    requires Packet(b, c, [q]) in s0.transit && Packet(q, c, []) in s0.transit
    ensures Calm(net, s) && s.nodes[u] == s0.nodes[u] && AllOnTheWay(s, q, a, b, c, u)
  {
    s := Handled(net, s0, Packet(b, c, [q]), [q, b]);
    s := Handled(net, s, Packet(q, c, []), [q]);
  }

  /** The copies for `u`, two of them from `c`. */
  ghost predicate AllOnTheWay(s: State, q: nat, a: nat, b: nat, c: nat, u: nat) {
    && Packet(a, u, [q]) in s.transit && Packet(b, u, [q]) in s.transit
    && Packet(c, u, [q, b]) in s.transit && Packet(c, u, [q]) in s.transit
  }

  /** All but the last copy have been stored. */
  lemma Arrived(net: Net, q: nat, a: nat, b: nat, c: nat, u: nat, s0: State) returns (s: State)
    requires Cast(net, q, a, b, c, u) && Calm(net, s0) && s0.nodes[u] == Initial(net).nodes[u]
    requires AllOnTheWay(s0, q, a, b, c, u)
    ensures Calm(net, s) && Packet(c, u, [q]) in s.transit
    ensures var st := s.nodes[u];
            !st.delivered && st.heardEmpty == {} && |st.lists[a]| == |st.lists[b]| == |st.lists[c]| == 1
  {
    s := Handled(net, s0, Packet(a, u, [q]), [q, a]);
    s := Handled(net, s, Packet(b, u, [q]), [q, b]);
    s := Handled(net, s, Packet(c, u, [q, b]), [q, b, c]);
  }

  /** The combination of two senders with one path each starts beyond their lists when the
      third sender has just sent its second path. */
  lemma StartsBeyond(lists: Lists, a: nat, b: nat, c: nat)
    requires a < |lists| && b < |lists| && c < |lists| && a != b && a != c && b != c
    requires |lists[a]| == 1 && |lists[b]| == 1 && |lists[c]| == 2
    ensures SomeBeyond(lists, 2, c)
  {
    var bits := Indicator({a, b}, |lists|);
    assert {a, b} == {a} + {b};
    var first := if a < b then a else b;
    assert forall i | 0 <= i < |bits| :: bits[i] <==> i in Chosen(bits);
    assert FirstOf(bits, first) && Beyond(lists, bits, c);
  }

  /** A correct node can handle this message, nothing can be delivered on it, and the search
      as it is written reads beyond a list. */
  ghost predicate Stuck(net: Net, s: State, m: Packet)
    requires ValidNet(net)
  {
    && Reachable(net, s) && |s.nodes| == net.cfg.n && Enabled(net, s, Handle(m))
    && !Delivers(net.cfg, net.source, net.source, s.nodes[m.to], m)
    && Fails(net.cfg, net.source, net.source, s.nodes[m.to], m)
  }

  /** Whatever modifications are on, a run leads to such a message. */
  lemma SearchCanFail(net: Net, q: nat, a: nat, b: nat, c: nat, u: nat) returns (s: State)
    requires Cast(net, q, a, b, c, u)
    ensures Stuck(net, s, Packet(c, u, [q]))
  {
    s := Provoked(net, q, a, b, c, u);
    s := SpreadToTwo(net, q, a, b, c, u, s);
    s := SpreadToThird(net, q, a, b, c, u, s);
    s := Arrived(net, q, a, b, c, u, s);
    SecondCopyFails(net, s, Packet(c, u, [q]), a, b);
  }

  lemma SecondCopyFails(net: Net, s: State, m: Packet, a: nat, b: nat)
    requires ValidNet(net) && net.cfg.f == 1 && Calm(net, s) && m in s.transit && Correct(net, m.to)
    requires m.from != net.source && !s.nodes[m.to].delivered && s.nodes[m.to].heardEmpty == {}
    requires a < net.cfg.n && b < net.cfg.n && a != b && m.from !in {a, b}
    requires |s.nodes[m.to].lists[a]| == |s.nodes[m.to].lists[b]| == |s.nodes[m.to].lists[m.from]| == 1
    ensures Stuck(net, s, m)
  {
    var lists := Stored(net.cfg, net.source, s.nodes[m.to], m);
    NotYetDelivering(net, s, m);
    StartsBeyond(lists, a, b, m.from);
    NothingFound(net, s, lists, m);
  }

  lemma NothingFound(net: Net, s: State, lists: Lists, m: Packet)
    requires ValidNet(net) && net.cfg.f == 1 && m.from < |lists| && !NewestDisjoint(lists, net.source, 2, m.from)
    requires Reachable(net, s) && |s.nodes| == net.cfg.n && Enabled(net, s, Handle(m)) && !s.nodes[m.to].delivered
    requires lists == Stored(net.cfg, net.source, s.nodes[m.to], m) && SomeBeyond(lists, 2, m.from)
    ensures ReadsBeyond(lists, net.source, 2, m.from)
  {
    forall pick | Family(lists, pick, net.source) && |pick| == 2
      ensures false
    {
      OnlyTheNewestPathMatters(net, s, m, pick);
    }
    var b :| Combination(b, |lists|, 2) && Beyond(lists, b, m.from);
    forall c | Combination(c, |lists|, 2)
      ensures !Finds(lists, net.source, c, m.from)
    {
      FindsIsFamily(lists, net.source, 2, m.from, c);
    }
    assert NoneFindsAfter(lists, net.source, 2, m.from, b);
  }

  /** The complete graph of six nodes, with all modifications on. */
  const COMPLETE := Net(Config(6, 1, ALL_MODS),
                        [[1, 2, 3, 4, 5], [0, 2, 3, 4, 5], [0, 1, 3, 4, 5],
                         [0, 1, 2, 4, 5], [0, 1, 2, 3, 5], [0, 1, 2, 3, 4]],
                        {5}, 0)

  lemma AllCast()
    ensures Cast(COMPLETE, 5, 1, 2, 3, 4)
  {
    AllLinked();
  }

  lemma AllLinked()
    ensures forall u: nat, v: nat :: Linked(COMPLETE, u, v) <==> u < 6 && v < 6 && u != v
  {
  }

  lemma PinnedSlotCanLeaveItsList() returns (s: State)
    ensures ValidNet(COMPLETE) && Stuck(COMPLETE, s, Packet(3, 4, [5]))
  {
    AllCast();
    s := SearchCanFail(COMPLETE, 5, 1, 2, 3, 4);
  }
}
