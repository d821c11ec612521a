/**
  Where a faulty broadcaster breaks Bracha over Dolev as it is deployed. Because the search
  leaves the broadcaster out of the comparison, it can make one correct node count Readys
  that nobody sent, and deliver alone. On complete graphs with exactly `f` faulty nodes
  totality therefore holds exactly when the broadcaster is correct.
 */
module BrachaDolevTotality {
  import opened Counting
  import opened Options
  import opened Phases
  import opened DisjointSearch
  import opened BrachaDolevHandler
  import opened BrachaDolev
  import opened BrachaDolevDelivery
  import opened BrachaDolevRest
  import D = Dissemination
  import R = Routes

  // ---- Runs that start with given messages ----

  ghost predicate Injectable(net: Net, m: Message) {
    m.packet.from in net.faulty && Sendable(net, m.packet)
  }

  lemma {:induction false} InjectAll(net: Net, all: set<Message>) returns (s: State)
    requires ValidNet(net) && forall m | m in all :: Injectable(net, m)
    ensures Reachable(net, s) && s == Initial(net).(transit := multiset(all))
    decreases |all|
  {
    if all == {} {
      assert Run(net, []) == Some(Initial(net));
      s := Initial(net);
    } else {
      var m :| m in all;
      s := InjectAll(net, all - {m});
      ReachableNext(net, s, Inject(m));
      s := After(net, s, Inject(m));
      assert multiset(all - {m}) + multiset{m} == multiset(all);
    }
  }

  /** What every step of a correct node keeps. */
  ghost predicate Kept(net: Net, inv: State -> bool)
    requires Plain(net)
  {
    forall t: State, m | inv(t) && Shape(net, t) && Enabled(net, t, Handle(m)) :: inv(After(net, t, Handle(m)))
  }

  /** Correct nodes alone reach a state with nothing left to handle, and keep what they keep. */
  lemma {:induction false} DrainKeeping(net: Net, s: State, inv: State -> bool, keys: set<Key>) returns (next: State)
    requires Plain(net) && Reachable(net, s) && Shape(net, s) && Covers(net, s, keys) && inv(s) && Kept(net, inv)
    ensures Reachable(net, next) && Drained(net, next) && inv(next)
    decreases Work(net, s, keys)
  {
    if Drained(net, s) {
      next := s;
    } else {
      var m :| m in s.transit && Correct(net, m.packet.to);
      EveryMessageCanBeHandled(net, s, m);
      ReachableNext(net, s, Handle(m));
      ShapeHandle(net, s, m);
      HandleWorks(net, s, m, keys);
      CoversNext(net, s, m, keys);
      next := DrainKeeping(net, After(net, s, Handle(m)), inv, keys);
    }
  }

  ghost predicate AllAccounted(net: Net, all: set<Message>, t: State) {
    |t.nodes| == net.cfg.n && forall m | m in all :: Accounted(net, t, m)
  }

  lemma AllAccountedHandle(net: Net, all: set<Message>, t: State, m: Message)
    requires Plain(net) && Shape(net, t) && Enabled(net, t, Handle(m)) && AllAccounted(net, all, t)
    ensures AllAccounted(net, all, After(net, t, Handle(m)))
  {
    var next := After(net, t, Handle(m));
    HandledIsProcessed(net, t, m);
    HandleExtends(net, t, m);
    forall p | p in all
      ensures Accounted(net, next, p)
    {
      assert Accounted(net, t, p);
      if Correct(net, p.packet.to) && p != m && p !in t.transit { ProcessedStays(net, t, next, p); }
    }
  }

  // ---- Forged Readys for one node ----

  /** `v` can be singled out: it is linked to all `f` faulty nodes, the broadcaster among them,
      and with it to `2f` correct nodes. */
  ghost predicate Singled(net: Net, v: nat, origins: set<nat>) {
    && Resilient(net) && net.broadcaster in net.faulty && |net.faulty| == net.cfg.f
    && Correct(net, v) && |origins| == 2 * net.cfg.f && v !in origins
    && (forall q | q in net.faulty :: Linked(net, q, v))
    && (forall e | e in origins :: Correct(net, e) && Linked(net, net.broadcaster, e) && Linked(net, e, v))
  }

  /** The correct nodes below `k`, `v` and `e` apart. */
  ghost function Others(net: Net, v: nat, e: nat, k: nat): (path: seq<nat>)
    ensures forall x: nat :: x in path <==> x < k && Other(net, v, e, x)
  {
    if k == 0 then []
    else
      var rest := Others(net, v, e, k - 1);
      if Other(net, v, e, k - 1) then rest + [k - 1] else rest
  }

  ghost predicate Other(net: Net, v: nat, e: nat, x: nat) {
    Correct(net, x) && x != v && x != e
  }

  /** The broadcaster names the originator on its copy for `v`, and everybody else on its copy for the originator. */
  ghost function ForVictim(net: Net, v: nat, e: nat): Message {
    Message(Key(Ready, e), D.Packet(net.broadcaster, v, [e]))
  }

  ghost function ForOrigin(net: Net, v: nat, e: nat): Message {
    Message(Key(Ready, e), D.Packet(net.broadcaster, e, Others(net, v, e, net.cfg.n)))
  }

  ghost function FromFaulty(v: nat, e: nat, c: nat): Message {
    Message(Key(Ready, e), D.Packet(c, v, []))
  }

  ghost function Forgeries(net: Net, v: nat, origins: set<nat>): set<Message> {
    (set e | e in origins :: ForVictim(net, v, e))
    + (set e | e in origins :: ForOrigin(net, v, e))
    + (set e, c | e in origins && c in Bad(net) :: FromFaulty(v, e, c))
  }

  /** A copy that does not help anybody but `v` to count. */
  ghost predicate Harmless(net: Net, v: nat, origins: set<nat>, m: Message) {
    && m.key.kind == Ready
    && (m.key.origin == v
        || (m.key.origin in origins
            && (m.packet.to == v
                || (if m.packet.to == m.key.origin then m == ForOrigin(net, v, m.key.origin)
                    else m.packet.from == v || v in m.packet.path))))
  }

  /** Nothing that a node other than `v` stores of a forged Ready lets it count. */
  ghost predicate Useless(net: Net, v: nat, x: nat, e: nat, st: D.NodeState) {
    && !st.delivered && |st.lists| == net.cfg.n
    && if x == e then forall i | 0 <= i < |st.lists| && i != net.broadcaster :: st.lists[i] == []
       else forall i, k | 0 <= i < |st.lists| && 0 <= k < |st.lists[i]| :: v < |st.lists[i][k]| && st.lists[i][k][v]
  }

  ghost predicate Unmoved(net: Net, v: nat, origins: set<nat>, x: nat, st: NodeState) {
    && st.phase.echoes == {} && st.phase.readys <= {v} && !st.phase.delivered
    && forall e | e in origins :: Useless(net, v, x, e, At(net.cfg, st, Key(Ready, e)))
  }

  ghost predicate Contained(net: Net, v: nat, origins: set<nat>, t: State) {
    && |t.nodes| == net.cfg.n && v < net.cfg.n
    && TransitHarmless(net, v, origins, t)
    && (forall x | 0 <= x < net.cfg.n && Correct(net, x) && x != v :: Unmoved(net, v, origins, x, t.nodes[x]))
    && t.nodes[v].phase.echoes == {} && t.own <= {Key(Ready, v)}
  }

  ghost predicate Inv(net: Net, v: nat, origins: set<nat>, t: State) {
    Contained(net, v, origins, t) && AllAccounted(net, Forgeries(net, v, origins), t)
  }

  lemma ForgeriesInjectable(net: Net, v: nat, origins: set<nat>)
    requires Singled(net, v, origins)
    ensures forall m | m in Forgeries(net, v, origins) :: Injectable(net, m) && Harmless(net, v, origins, m)
  {
    forall m | m in Forgeries(net, v, origins)
      ensures Injectable(net, m) && Harmless(net, v, origins, m)
    {
      ForgeryInjectable(net, v, origins, m);
    }
  }

  lemma ForgeryInjectable(net: Net, v: nat, origins: set<nat>, m: Message)
    requires Singled(net, v, origins) && m in Forgeries(net, v, origins)
    ensures Injectable(net, m) && Harmless(net, v, origins, m)
  {
    var e := m.key.origin;
    if m == ForOrigin(net, v, e) {
      var path := Others(net, v, e, net.cfg.n);
      assert forall i | 0 <= i < |path| :: path[i] in path;
    }
  }

  /** Masks that all contain `v`, or come over one link, are never `f + 1` disjoint ones. */
  lemma UselessIsNotCounted(net: Net, v: nat, x: nat, e: nat, lists: Lists)
    requires net.cfg.f >= 1 && v != net.broadcaster && |lists| == net.cfg.n
    requires Useless(net, v, x, e, D.NodeState(false, lists, {}))
    ensures !HasDisjoint(lists, net.broadcaster, net.cfg.f + 1)
  {
    forall pick | Family(lists, pick, net.broadcaster)
      ensures |pick| <= 1
    {
      forall i, j | i in pick && j in pick
        ensures i == j
      {
        assert x != e ==> lists[i][pick[i]][v] && lists[j][pick[j]][v];
      }
      AtMostOne(pick);
    }
  }

  lemma AtMostOne(pick: map<nat, nat>)
    requires forall i, j | i in pick && j in pick :: i == j
    ensures |pick| <= 1
  {
    if i :| i in pick {
      assert pick.Keys == {i};
    }
    assert |pick| == |pick.Keys|;
  }

  /** A harmless forged copy stays useless where it is stored. */
  lemma StaysUseless(net: Net, v: nat, origins: set<nat>, x: nat, st: D.NodeState, m: Message)
    requires Singled(net, v, origins) && Harmless(net, v, origins, m) && m.key.origin in origins
    requires m.packet.to == x && x != v && D.FitsIn(net.cfg, st, m.packet) && Useless(net, v, x, m.key.origin, st)
    ensures Useless(net, v, x, m.key.origin, D.NodeState(false, D.Stored(net.cfg, m.key.origin, st, m.packet), {}))
    ensures !D.Delivers(net.cfg, net.broadcaster, m.key.origin, st, m.packet)
  {
    var lists := D.Stored(net.cfg, m.key.origin, st, m.packet);
    if x != m.key.origin { assert v in D.Assembled(m.key.origin, m.packet); }
    UselessIsNotCounted(net, v, x, m.key.origin, lists);
    NewestIsSome(lists, net.broadcaster, net.cfg.f + 1, m.packet.from);
  }

  lemma NewestIsSome(lists: Lists, omit: nat, m: nat, sender: nat)
    ensures NewestDisjoint(lists, omit, m, sender) ==> HasDisjoint(lists, omit, m)
  {
  }

  /** At any other node a harmless message counts at most for `v` itself, and sets nothing off. */
  lemma OthersUnmoved(net: Net, v: nat, origins: set<nat>, t: State, m: Message)
    requires Singled(net, v, origins) && Contained(net, v, origins, t) && Enabled(net, t, Handle(m)) && m.packet.to != v
    ensures Reaction(net, t, m).own == []
    ensures Unmoved(net, v, origins, m.packet.to, After(net, t, Handle(m)).nodes[m.packet.to])
  {
    var x := m.packet.to;
    assert Harmless(net, v, origins, m) && Unmoved(net, v, origins, x, t.nodes[x]);
    if m.key.origin in origins {
      ForgeryUnmoved(net, v, origins, t, m);
    } else {
      GenuineUnmoved(net, v, origins, t, m);
    }
  }

  lemma ForgeryUnmoved(net: Net, v: nat, origins: set<nat>, t: State, m: Message)
    requires Singled(net, v, origins) && Contained(net, v, origins, t) && Enabled(net, t, Handle(m)) && m.packet.to != v
    requires m.key.origin in origins && Harmless(net, v, origins, m)
    requires Unmoved(net, v, origins, m.packet.to, t.nodes[m.packet.to])
    ensures Reaction(net, t, m).own == []
    ensures Unmoved(net, v, origins, m.packet.to, After(net, t, Handle(m)).nodes[m.packet.to])
  {
    StaysUseless(net, v, origins, m.packet.to, At(net.cfg, t.nodes[m.packet.to], m.key), m);
  }

  lemma GenuineUnmoved(net: Net, v: nat, origins: set<nat>, t: State, m: Message)
    requires Singled(net, v, origins) && Contained(net, v, origins, t) && Enabled(net, t, Handle(m)) && m.packet.to != v
    requires m.key == Key(Ready, v) && Unmoved(net, v, origins, m.packet.to, t.nodes[m.packet.to])
    ensures Reaction(net, t, m).own == []
    ensures Unmoved(net, v, origins, m.packet.to, After(net, t, Handle(m)).nodes[m.packet.to])
  {
    OnlyOneReady(net, v, m.packet.to, t.nodes[m.packet.to].phase);
  }

  lemma OnlyOneReady(net: Net, v: nat, x: nat, ph: Phase)
    requires net.cfg.f >= 1 && net.broadcaster != v && x != v
    requires ph.echoes == {} && ph.readys <= {v} && !ph.delivered
    ensures var counted := Counted(net.cfg, x, net.broadcaster, ph, Key(Ready, v));
            counted.own == [] && counted.phase.echoes == {} && counted.phase.readys <= {v} && !counted.phase.delivered
  {
    SubsetCard(ph.readys + {v}, {v});
  }

  /** `v` counts Readys only. */
  lemma VictimOnlyReady(net: Net, v: nat, origins: set<nat>, t: State, m: Message)
    requires Singled(net, v, origins) && Contained(net, v, origins, t) && Enabled(net, t, Handle(m)) && m.packet.to == v
    ensures forall kind | kind in Reaction(net, t, m).own :: kind == Ready
    ensures After(net, t, Handle(m)).nodes[v].phase.echoes == {}
  {
    assert Harmless(net, v, origins, m);
  }

  lemma OutHarmless(net: Net, v: nat, origins: set<nat>, t: State, m: Message, q: Message)
    requires Singled(net, v, origins) && Contained(net, v, origins, t) && Enabled(net, t, Handle(m))
    requires q in Out(net, t, m) && Correct(net, q.packet.to)
    ensures Harmless(net, v, origins, q)
  {
    OutMember(net, t, m, q);
    assert Harmless(net, v, origins, m);
    if OwnOut(net, t, m, q) {
      if m.packet.to == v { VictimOnlyReady(net, v, origins, t, m); } else { OthersUnmoved(net, v, origins, t, m); }
    } else {
      RelayHarmless(net, v, origins, m, q);
    }
  }

  lemma RelayHarmless(net: Net, v: nat, origins: set<nat>, m: Message, q: Message)
    requires Singled(net, v, origins) && Harmless(net, v, origins, m) && Correct(net, q.packet.to)
    requires q.key == m.key && q.packet.from == m.packet.to && q.packet.to != m.key.origin
    requires q.packet.to != q.packet.from
    requires q.packet.path == D.Assembled(m.key.origin, m.packet) && q.packet.to !in q.packet.path
    ensures Harmless(net, v, origins, q)
  {
    if m.key.origin in origins && m.packet.to != v {
      if m.packet.to == m.key.origin {
        assert q.packet.path == Others(net, v, m.key.origin, net.cfg.n) + [net.broadcaster];
        assert !Other(net, v, m.key.origin, q.packet.to);
      } else {
        assert v in q.packet.path;
      }
    }
  }

  ghost predicate TransitHarmless(net: Net, v: nat, origins: set<nat>, t: State) {
    forall m | m in t.transit && Correct(net, m.packet.to) :: Harmless(net, v, origins, m)
  }

  lemma TransitHandle(net: Net, v: nat, origins: set<nat>, t: State, m: Message)
    requires Singled(net, v, origins) && Contained(net, v, origins, t) && Enabled(net, t, Handle(m))
    ensures TransitHarmless(net, v, origins, After(net, t, Handle(m)))
  {
    var next := After(net, t, Handle(m));
    forall q | q in next.transit && Correct(net, q.packet.to)
      ensures Harmless(net, v, origins, q)
    {
      if q in Out(net, t, m) { OutHarmless(net, v, origins, t, m, q); }
    }
  }

  lemma ContainedHandle(net: Net, v: nat, origins: set<nat>, t: State, m: Message)
    requires Singled(net, v, origins) && Contained(net, v, origins, t) && Enabled(net, t, Handle(m))
    ensures Contained(net, v, origins, After(net, t, Handle(m)))
  {
    TransitHandle(net, v, origins, t, m);
    if m.packet.to == v { VictimOnlyReady(net, v, origins, t, m); } else { OthersUnmoved(net, v, origins, t, m); }
  }

  lemma InvHandle(net: Net, v: nat, origins: set<nat>, t: State, m: Message)
    requires Singled(net, v, origins) && Inv(net, v, origins, t) && Shape(net, t) && Enabled(net, t, Handle(m))
    ensures Inv(net, v, origins, After(net, t, Handle(m)))
  {
    ContainedHandle(net, v, origins, t, m);
    AllAccountedHandle(net, Forgeries(net, v, origins), t, m);
  }

  lemma ContainedInitially(net: Net, v: nat, origins: set<nat>, t: State)
    requires Singled(net, v, origins) && t == Initial(net).(transit := multiset(Forgeries(net, v, origins)))
    ensures Inv(net, v, origins, t)
  {
    ForgeriesInjectable(net, v, origins);
    forall x | 0 <= x < net.cfg.n && Correct(net, x) && x != v
      ensures Unmoved(net, v, origins, x, t.nodes[x])
    {
    }
  }

  /** A reachable state in which all forged copies have been handled and nothing is left. */
  lemma Aftermath(net: Net, v: nat, origins: set<nat>) returns (t: State)
    requires Singled(net, v, origins)
    ensures Reachable(net, t) && Drained(net, t) && Inv(net, v, origins, t)
  {
    ForgeriesInjectable(net, v, origins);
    var s := InjectAll(net, Forgeries(net, v, origins));
    ContainedInitially(net, v, origins, s);
    var events :| Run(net, events) == Some(s);
    ShapeAlways(net, events);
    var inv := (t: State) => Inv(net, v, origins, t);
    forall t: State, m | inv(t) && Shape(net, t) && Enabled(net, t, Handle(m))
      ensures inv(After(net, t, Handle(m)))
    {
      InvHandle(net, v, origins, t, m);
    }
    var keys := SomeKeys(net, s);
    t := DrainKeeping(net, s, inv, keys);
  }

  // ---- What it comes to ----

  /** The path of the forged Ready of `e` that `v` stores for a link sender. */
  ghost function PathFrom(net: Net, v: nat, e: nat, sender: nat): seq<nat> {
    if sender == e then Others(net, v, e, net.cfg.n) + [net.broadcaster]
    else if sender == net.broadcaster then [e, net.broadcaster]
    else [sender]
  }

  ghost predicate HeldFrom(net: Net, v: nat, e: nat, lists: Lists, sender: nat) {
    Holds(lists, sender, D.MaskOf(PathFrom(net, v, e, sender), net.cfg.n))
  }

  lemma FromFaultyHeld(net: Net, v: nat, origins: set<nat>, t: State, e: nat, c: nat)
    requires Singled(net, v, origins) && Drained(net, t) && Inv(net, v, origins, t) && e in origins && c in net.faulty
    ensures HeldFrom(net, v, e, At(net.cfg, t.nodes[v], Key(Ready, e)).lists, c)
  {
    var m := if c == net.broadcaster then ForVictim(net, v, e) else FromFaulty(v, e, c);
    assert m in Forgeries(net, v, origins) && Accounted(net, t, m) && Processed(net, t, m);
    assert [] + [c] == [c] && [e] + [net.broadcaster] == [e, net.broadcaster];
    assert D.Assembled(e, m.packet) == PathFrom(net, v, e, c);
  }

  /** The originator passes its copy on to `v`, and to no other correct node. */
  lemma FromOriginHeld(net: Net, v: nat, origins: set<nat>, t: State, e: nat)
    requires Singled(net, v, origins) && Live(net, t) && Drained(net, t) && Inv(net, v, origins, t) && e in origins
    ensures HeldFrom(net, v, e, At(net.cfg, t.nodes[v], Key(Ready, e)).lists, e)
  {
    var m, path := ForOrigin(net, v, e), PathFrom(net, v, e, e);
    assert m in Forgeries(net, v, origins) && Accounted(net, t, m) && Processed(net, t, m);
    assert D.Assembled(e, m.packet) == path && v !in path;
    var bounced := Message(Key(Ready, e), D.Packet(e, v, path));
    assert bounced in t.sent && Accounted(net, t, bounced) && Processed(net, t, bounced);
    assert D.Assembled(e, bounced.packet) == path;
  }

  lemma PathsApart(net: Net, v: nat, origins: set<nat>, e: nat, x: nat, y: nat)
    requires Singled(net, v, origins) && e in origins && x != y && x in net.faulty + {e} && y in net.faulty + {e}
    ensures Apart(D.MaskOf(PathFrom(net, v, e, x), net.cfg.n), D.MaskOf(PathFrom(net, v, e, y), net.cfg.n),
            net.broadcaster)
  {
    var p, q := PathFrom(net, v, e, x), PathFrom(net, v, e, y);
    forall z | z in p && z != net.broadcaster
      ensures z !in q
    {
    }
  }

  ghost predicate AllHeldFrom(net: Net, v: nat, e: nat, lists: Lists, senders: set<nat>) {
    forall x | x in senders :: HeldFrom(net, v, e, lists, x)
  }

  lemma AllHeld(net: Net, v: nat, origins: set<nat>, t: State, e: nat)
    requires Singled(net, v, origins) && Live(net, t) && Drained(net, t) && Inv(net, v, origins, t) && e in origins
    ensures AllHeldFrom(net, v, e, At(net.cfg, t.nodes[v], Key(Ready, e)).lists, net.faulty + {e})
  {
    FromOriginHeld(net, v, origins, t, e);
    forall c | c in net.faulty ensures HeldFrom(net, v, e, At(net.cfg, t.nodes[v], Key(Ready, e)).lists, c) {
      FromFaultyHeld(net, v, origins, t, e, c);
    }
  }

  lemma ForgedIsDisjoint(net: Net, v: nat, origins: set<nat>, lists: Lists, e: nat)
    requires Singled(net, v, origins) && e in origins && AllHeldFrom(net, v, e, lists, net.faulty + {e})
    ensures HasDisjoint(lists, net.broadcaster, net.cfg.f + 1)
  {
    var mask := (x: nat) => D.MaskOf(PathFrom(net, v, e, x), net.cfg.n);
    forall x | x in net.faulty + {e}
      ensures Holds(lists, x, mask(x))
    {
      assert HeldFrom(net, v, e, lists, x);
    }
    forall x, y | x in net.faulty + {e} && y in net.faulty + {e} && x != y
      ensures Apart(mask(x), mask(y), net.broadcaster)
    {
      PathsApart(net, v, origins, e, x, y);
    }
    HeldSetIsDisjoint(lists, net.faulty + {e}, mask, net.broadcaster);
  }

  /** So `v` counts the Ready of every originator, none of which sent one. */
  lemma ForgedReadysCount(net: Net, v: nat, origins: set<nat>, t: State, e: nat)
    requires Singled(net, v, origins) && Live(net, t) && Drained(net, t) && Inv(net, v, origins, t) && e in origins
    ensures e in t.nodes[v].phase.readys
  {
    AllHeld(net, v, origins, t, e);
    ForgedIsDisjoint(net, v, origins, At(net.cfg, t.nodes[v], Key(Ready, e)).lists, e);
    assert NodeLive(net, v, t.nodes[v]) && Counts(net, t.nodes[v], Key(Ready, e));
  }

  /** `v` delivers, and no other correct node does. */
  lemma VictimDelivers(net: Net, v: nat, origins: set<nat>, t: State)
    requires Singled(net, v, origins) && Live(net, t) && origins <= t.nodes[v].phase.readys
    ensures t.nodes[v].phase.delivered
  {
    var readys := t.nodes[v].phase.readys;
    SubsetCard(origins, readys);
    assert NodeLive(net, v, t.nodes[v]);
    SubsetCard(origins + {v}, readys);
    var e := Escape(origins, {});
    assert e in readys && e != v;
  }

  lemma VictimDeliversAlone(net: Net, v: nat, origins: set<nat>, t: State)
    requires Singled(net, v, origins) && Live(net, t) && Drained(net, t) && Inv(net, v, origins, t)
    ensures t.nodes[v].phase.delivered
    ensures forall x: nat | Correct(net, x) && x != v :: !t.nodes[x].phase.delivered
    ensures forall e | e in origins :: e in t.nodes[v].phase.readys && Key(Ready, e) !in t.own
  {
    forall e | e in origins ensures e in t.nodes[v].phase.readys { ForgedReadysCount(net, v, origins, t, e); }
    VictimDelivers(net, v, origins, t);
    forall x: nat | Correct(net, x) && x != v
      ensures !t.nodes[x].phase.delivered
    {
      assert Unmoved(net, v, origins, x, t.nodes[x]);
    }
  }

  /** A quiescent state in which one correct node has delivered and the others have not. */
  lemma TotalityFails(net: Net, v: nat, origins: set<nat>) returns (t: State)
    requires Singled(net, v, origins)
    ensures Reachable(net, t) && |t.nodes| == net.cfg.n && Quiescent(net, t) && t.nodes[v].phase.delivered
    ensures forall x: nat | Correct(net, x) && x != v :: !t.nodes[x].phase.delivered
    ensures t.own <= {Key(Ready, v)}
    ensures forall e | e in origins :: e in t.nodes[v].phase.readys && Key(Ready, e) !in t.own
  {
    t := Aftermath(net, v, origins);
    var events :| Run(net, events) == Some(t);
    LiveAlways(net, events);
    VictimDeliversAlone(net, v, origins, t);
  }

  // ---- Complete graphs ----

  ghost predicate TotalityHolds(net: Net)
    requires ValidNet(net)
  {
    forall s, p: nat, u: nat | Reachable(net, s) && Quiescent(net, s) && Correct(net, p) && Correct(net, u) ::
      p < |s.nodes| && u < |s.nodes| && (s.nodes[p].phase.delivered ==> s.nodes[u].phase.delivered)
  }

  /** In a complete graph a faulty broadcaster has whom to single out. */
  lemma SomebodyIsExposed(net: Net) returns (v: nat, origins: set<nat>)
    requires Resilient(net) && Complete(net) && |net.faulty| == net.cfg.f && net.broadcaster in net.faulty
    ensures Singled(net, v, origins)
  {
    v := Escape(CorrectNodes(net), {});
    assert |CorrectNodes(net) - {v}| >= 2 * net.cfg.f;
    origins := Choose(CorrectNodes(net) - {v}, 2 * net.cfg.f);
  }

  lemma StraightRoute(net: Net, p: seq<nat>, e: nat, v: nat)
    requires Complete(net) && |p| >= 2 && p[0] == e && p[|p| - 1] == v && Distinct(p)
    requires forall i | 0 <= i < |p| :: Correct(net, p[i]) && p[i] < |net.neighbors|
    ensures Route(net, p, e, v)
  {
    forall k | 0 <= k < |p| - 1
      ensures R.Hop(net.neighbors, p, k)
    {
      assert Linked(net, p[k], p[k + 1]);
    }
  }

  lemma {:induction false} CompleteIsServed(net: Net, e: nat, v: nat, via: seq<nat>)
    requires ValidNet(net) && Complete(net) && Correct(net, e) && Correct(net, v) && e != v && Distinct(via)
    requires forall w | w in via :: Correct(net, w) && w != e && w != v
    ensures var routes := [[e, v]] + seq(|via|, i requires 0 <= i < |via| => [e, via[i], v]);
            DisjointRoutes(net, routes, e, v)
  {
    var routes := [[e, v]] + seq(|via|, i requires 0 <= i < |via| => [e, via[i], v]);
    forall i | 0 <= i < |routes|
      ensures Route(net, routes[i], e, v)
    {
      if i > 0 { assert via[i - 1] in via; }
      StraightRoute(net, routes[i], e, v);
    }
    forall i, j | 0 <= i < j < |routes|
      ensures routes[i] != routes[j] && R.Share(routes[i], routes[j], e, v)
    {
      assert via[j - 1] in via;
      if i > 0 { assert via[i - 1] != via[j - 1]; }
    }
  }

  lemma CompleteIsWellConnected(net: Net)
    requires Resilient(net) && Complete(net)
    ensures WellConnected(net)
  {
    forall e, v | Correct(net, e) && Correct(net, v) && e != v
      ensures Served(net, e, v)
    {
      var others := CorrectNodes(net) - {e} - {v};
      assert |others| >= net.cfg.f;
      var some := Choose(others, net.cfg.f);
      var via := Enumerate(some);
      forall w | w in via
        ensures Correct(net, w) && w != e && w != v
      {
        assert w in Elements(via);
      }
      CompleteIsServed(net, e, v, via);
    }
  }

  /** On a complete graph with exactly `f` faulty nodes, totality holds in every run exactly when
      the broadcaster is correct. */
  lemma TotalityExactly(net: Net)
    requires Resilient(net) && Complete(net) && |net.faulty| == net.cfg.f
    ensures TotalityHolds(net) <==> Correct(net, net.broadcaster)
  {
    if Correct(net, net.broadcaster) {
      CompleteIsWellConnected(net);
      forall s, p: nat, u: nat | Reachable(net, s) && Quiescent(net, s) && Correct(net, p) && Correct(net, u)
        ensures p < |s.nodes| && u < |s.nodes| && (s.nodes[p].phase.delivered ==> s.nodes[u].phase.delivered)
      {
        RunLength(net, s);
        if s.nodes[p].phase.delivered { Totality(net, s, p, u); }
      }
    } else {
      var v, origins := SomebodyIsExposed(net);
      var t := TotalityFails(net, v, origins);
      var e := Escape(origins, {});
      assert Correct(net, e) && t.nodes[v].phase.delivered && !t.nodes[e].phase.delivered;
    }
  }

  /** Every delivery rests on the Readys of `f + 1` correct nodes. */
  ghost predicate DeliveriesRest(net: Net)
    requires ValidNet(net)
  {
    forall s, u: nat | Reachable(net, s) && Correct(net, u) && u < |s.nodes| && s.nodes[u].phase.delivered ::
      RestsOnReadys(net, s, u)
  }

  ghost predicate RestsOnReadys(net: Net, s: State, u: nat)
    requires u < |s.nodes|
  {
    exists senders: set<nat> ::
      && |senders| == net.cfg.f + 1 && senders <= s.nodes[u].phase.readys
      && forall e | e in senders :: Correct(net, e) && Key(Ready, e) in s.own
  }

  /** That, too, holds on a complete graph exactly when the broadcaster is correct. */
  lemma DeliveriesRestExactly(net: Net)
    requires Resilient(net) && Complete(net) && |net.faulty| == net.cfg.f
    ensures DeliveriesRest(net) <==> Correct(net, net.broadcaster)
  {
    if Correct(net, net.broadcaster) {
      forall s, u: nat | Reachable(net, s) && Correct(net, u) && u < |s.nodes| && s.nodes[u].phase.delivered
        ensures RestsOnReadys(net, s, u)
      {
        DeliveryRestsOnCorrectReadys(net, s, u);
        var senders := Choose(CorrectReadys(net, s, u), net.cfg.f + 1);
      }
    } else {
      var v, origins := SomebodyIsExposed(net);
      var t := TotalityFails(net, v, origins);
      LoneReady(net, t, v);
    }
  }

  lemma LoneReady(net: Net, t: State, v: nat)
    requires net.cfg.f >= 1 && v < |t.nodes| && t.own <= {Key(Ready, v)}
    ensures !RestsOnReadys(net, t, v)
  {
    forall senders: set<nat> | forall e | e in senders :: Key(Ready, e) in t.own
      ensures |senders| <= 1
    {
      assert senders <= {v} by { assert forall e | e in senders :: Key(Ready, e) == Key(Ready, v); }
      SubsetCard(senders, {v});
    }
  }

  // ---- A Ready of the broadcaster alone ----

  /** A faulty broadcaster is linked to `u` and, like `u`, to the `f` correct nodes `via`. */
  ghost predicate Heralded(net: Net, u: nat, via: set<nat>) {
    && Resilient(net) && net.broadcaster in net.faulty && Correct(net, u) && |via| == net.cfg.f && u !in via
    && Linked(net, net.broadcaster, u)
    && (forall x | x in via :: Correct(net, x) && Linked(net, net.broadcaster, x) && Linked(net, x, u))
  }

  ghost function Herald(net: Net, to: nat): Message {
    Message(Key(Ready, net.broadcaster), D.Packet(net.broadcaster, to, []))
  }

  ghost function Heralds(net: Net, u: nat, via: set<nat>): set<Message> {
    {Herald(net, u)} + set x | x in via :: Herald(net, x)
  }

  /** Nobody has heard or sent an Echo. */
  ghost predicate NoEchoes(net: Net, t: State) {
    && |t.nodes| == net.cfg.n && (forall m | m in t.transit :: m.key.kind == Ready && m.packet.to != m.key.origin)
    && (forall x | 0 <= x < net.cfg.n :: t.nodes[x].phase.echoes == {})
    && (forall x: nat | Correct(net, x) && x in t.nodes[x].phase.readys :: Key(Ready, x) in t.own)
  }

  lemma NoEchoesHandle(net: Net, t: State, m: Message)
    requires Resilient(net) && NoEchoes(net, t) && Enabled(net, t, Handle(m))
    ensures NoEchoes(net, After(net, t, Handle(m)))
  {
    var next := After(net, t, Handle(m));
    NoEchoesReaction(net, t, m);
    ReadyIsOwn(net, t, m);
    forall q | q in next.transit
      ensures q.key.kind == Ready && q.packet.to != q.key.origin
    {
      NoEchoesOut(net, t, m, q);
    }
  }

  lemma ReadyIsOwn(net: Net, t: State, m: Message)
    requires Resilient(net) && NoEchoes(net, t) && Enabled(net, t, Handle(m))
    ensures forall x: nat | Correct(net, x) && x in After(net, t, Handle(m)).nodes[x].phase.readys ::
              Key(Ready, x) in After(net, t, Handle(m)).own
  {
    var next, u := After(net, t, Handle(m)), m.packet.to;
    NoEchoesReaction(net, t, m);
    forall x: nat | Correct(net, x) && x in next.nodes[x].phase.readys
      ensures Key(Ready, x) in next.own
    {
      if x == u && x !in t.nodes[x].phase.readys { assert Key(Ready, u) in OwnKeys(u, Reaction(net, t, m).own); }
    }
  }

  lemma NoEchoesOut(net: Net, t: State, m: Message, q: Message)
    requires Resilient(net) && NoEchoes(net, t) && Enabled(net, t, Handle(m)) && q in After(net, t, Handle(m)).transit
    ensures q.key.kind == Ready && q.packet.to != q.key.origin
  {
    NoEchoesReaction(net, t, m);
    OutMember(net, t, m, q);
  }

  lemma NoEchoesReaction(net: Net, t: State, m: Message)
    requires Resilient(net) && NoEchoes(net, t) && Enabled(net, t, Handle(m))
    ensures var reaction, was := Reaction(net, t, m), t.nodes[m.packet.to].phase;
            && reaction.phase.echoes == {} && (forall kind | kind in reaction.own :: kind == Ready)
            && (m.packet.to in reaction.phase.readys ==> m.packet.to in was.readys || Ready in reaction.own)
  {
    CountedOwn(net.cfg, m.packet.to, net.broadcaster, t.nodes[m.packet.to].phase, m.key);
  }

  ghost predicate HeraldInv(net: Net, u: nat, via: set<nat>, t: State) {
    NoEchoes(net, t) && AllAccounted(net, Heralds(net, u, via), t)
  }

  lemma HeraldInvKept(net: Net, u: nat, via: set<nat>, inv: State -> bool)
    requires Heralded(net, u, via) && forall t :: inv(t) <==> HeraldInv(net, u, via, t)
    ensures Kept(net, inv)
  {
    forall t: State, m | inv(t) && Shape(net, t) && Enabled(net, t, Handle(m))
      ensures inv(After(net, t, Handle(m)))
    {
      NoEchoesHandle(net, t, m);
      AllAccountedHandle(net, Heralds(net, u, via), t, m);
    }
  }

  lemma HeraldsSent(net: Net, u: nat, via: set<nat>) returns (s: State)
    requires Heralded(net, u, via)
    ensures Reachable(net, s) && Shape(net, s) && HeraldInv(net, u, via, s)
  {
    HeraldsInjectable(net, u, via);
    s := InjectAll(net, Heralds(net, u, via));
    var events :| Run(net, events) == Some(s);
    ShapeAlways(net, events);
    HeraldsFirst(net, u, via, s);
  }

  lemma HeraldsInjectable(net: Net, u: nat, via: set<nat>)
    requires Heralded(net, u, via)
    ensures forall m | m in Heralds(net, u, via) ::
            Injectable(net, m) && m.key.kind == Ready && m.packet.to != m.key.origin
  {
  }

  lemma HeraldsFirst(net: Net, u: nat, via: set<nat>, s: State)
    requires Heralded(net, u, via) && s == Initial(net).(transit := multiset(Heralds(net, u, via)))
    ensures HeraldInv(net, u, via, s)
  {
    HeraldsInjectable(net, u, via);
  }

  /** A reachable state in which `u` has sent its Ready although nobody has heard a single Echo. */
  lemma ReadyWithoutEchoes(net: Net, u: nat, via: set<nat>) returns (t: State)
    requires Heralded(net, u, via)
    ensures Reachable(net, t) && |t.nodes| == net.cfg.n && Key(Ready, u) in t.own
    ensures forall x | 0 <= x < net.cfg.n :: t.nodes[x].phase.echoes == {}
  {
    var s := HeraldsSent(net, u, via);
    var inv := (t: State) => HeraldInv(net, u, via, t);
    HeraldInvKept(net, u, via, inv);
    var keys := SomeKeys(net, s);
    t := DrainKeeping(net, s, inv, keys);
    HeraldsCount(net, u, via, t);
  }

  lemma HeraldsDecide(net: Net, u: nat, via: set<nat>, t: State)
    requires Heralded(net, u, via) && AllAccounted(net, Heralds(net, u, via), t) && Lossless(net, t) && Drained(net, t)
    ensures HasDisjoint(At(net.cfg, t.nodes[u], Key(Ready, net.broadcaster)).lists, net.broadcaster, net.cfg.f + 1)
  {
    AllHeraldsHeld(net, u, via, t);
    HeraldsDisjoint(net, At(net.cfg, t.nodes[u], Key(Ready, net.broadcaster)).lists, via + {net.broadcaster});
    assert |via + {net.broadcaster}| == |via| + 1;
  }

  lemma HeraldsCount(net: Net, u: nat, via: set<nat>, t: State)
    requires Heralded(net, u, via) && Reachable(net, t) && Drained(net, t) && NoEchoes(net, t)
    requires AllAccounted(net, Heralds(net, u, via), t)
    ensures Key(Ready, u) in t.own
  {
    var events :| Run(net, events) == Some(t);
    LiveAlways(net, events);
    HeraldsDecide(net, u, via, t);
    assert NodeLive(net, u, t.nodes[u]) && Counts(net, t.nodes[u], Key(Ready, net.broadcaster));
  }

  ghost function HeraldPath(net: Net, sender: nat): seq<nat> {
    if sender == net.broadcaster then [] else [sender]
  }

  lemma HeraldHeld(net: Net, u: nat, via: set<nat>, t: State)
    requires Heralded(net, u, via) && Drained(net, t) && AllAccounted(net, Heralds(net, u, via), t)
    ensures Holds(At(net.cfg, t.nodes[u], Key(Ready, net.broadcaster)).lists, net.broadcaster, D.MaskOf([], net.cfg.n))
  {
    var m := Herald(net, u);
    assert m in Heralds(net, u, via) && Accounted(net, t, m) && Processed(net, t, m);
    assert D.Assembled(net.broadcaster, m.packet) == [];
  }

  lemma RelayHeld(net: Net, u: nat, via: set<nat>, t: State, x: nat)
    requires Heralded(net, u, via) && AllAccounted(net, Heralds(net, u, via), t) && Lossless(net, t) && Drained(net, t)
    requires x in via
    ensures Holds(At(net.cfg, t.nodes[u], Key(Ready, net.broadcaster)).lists, x, D.MaskOf([x], net.cfg.n))
  {
    var m, relayed := Herald(net, x), Message(Key(Ready, net.broadcaster), D.Packet(x, u, []));
    assert m in Heralds(net, u, via) && Accounted(net, t, m) && Processed(net, t, m);
    assert D.Assembled(net.broadcaster, m.packet) == [];
    assert relayed in t.sent && Accounted(net, t, relayed) && Processed(net, t, relayed);
    assert D.Assembled(net.broadcaster, relayed.packet) == [x];
  }

  lemma AllHeraldsHeld(net: Net, u: nat, via: set<nat>, t: State)
    requires Heralded(net, u, via) && AllAccounted(net, Heralds(net, u, via), t) && Lossless(net, t) && Drained(net, t)
    ensures HeraldsIn(net, At(net.cfg, t.nodes[u], Key(Ready, net.broadcaster)).lists, via + {net.broadcaster})
  {
    HeraldHeld(net, u, via, t);
    forall x | x in via
      ensures Holds(At(net.cfg, t.nodes[u], Key(Ready, net.broadcaster)).lists, x, HeraldMask(net, x))
    {
      RelayHeld(net, u, via, t, x);
    }
  }

  ghost function HeraldMask(net: Net, sender: nat): Mask {
    D.MaskOf(HeraldPath(net, sender), net.cfg.n)
  }

  ghost predicate HeraldsIn(net: Net, lists: Lists, senders: set<nat>) {
    forall x | x in senders :: Holds(lists, x, HeraldMask(net, x))
  }

  lemma HeraldsDisjoint(net: Net, lists: Lists, senders: set<nat>)
    requires HeraldsIn(net, lists, senders)
    ensures HasDisjoint(lists, net.broadcaster, |senders|)
  {
    var mask := (x: nat) => HeraldMask(net, x);
    forall x, y | x in senders && y in senders && x != y
      ensures Apart(mask(x), mask(y), net.broadcaster)
    {
      HeraldsApart(net, x, y);
    }
    HeldSetIsDisjoint(lists, senders, mask, net.broadcaster);
  }

  lemma HeraldsApart(net: Net, x: nat, y: nat)
    requires x != y
    ensures Apart(HeraldMask(net, x), HeraldMask(net, y), net.broadcaster)
  {
  }

  /** In every run a correct node's Ready goes back to an echo quorum at a correct node. */
  ghost predicate ReadysHaveOrigin(net: Net)
    requires ValidNet(net)
  {
    forall s | Reachable(net, s) :: ReadyHasOrigin(net, s)
  }

  /** On complete graphs that holds exactly when the broadcaster is correct: a Ready of a faulty
      one, counted alone, makes a node send its own. */
  lemma ReadyOriginExactly(net: Net)
    requires Resilient(net) && Complete(net)
    ensures ReadysHaveOrigin(net) <==> Correct(net, net.broadcaster)
  {
    if Correct(net, net.broadcaster) {
      forall s | Reachable(net, s)
        ensures ReadyHasOrigin(net, s)
      {
        var events :| Run(net, events) == Some(s);
        OriginAlways(net, events);
      }
    } else {
      SubsetCard({net.broadcaster}, net.faulty);
      var u := Escape(CorrectNodes(net), {});
      assert |CorrectNodes(net) - {u}| >= net.cfg.f;
      var via := Choose(CorrectNodes(net) - {u}, net.cfg.f);
      var t := ReadyWithoutEchoes(net, u, via);
      assert !ReadyHasOrigin(net, t);
    }
  }
}
