/**
  Validity and totality of Bracha over Dolev as it is deployed, without modifications.
  Once a correct broadcaster has started and the messages between correct nodes have been
  handled, all correct nodes have delivered, if any two of them have `f + 1` disjoint
  correct routes and fewer than a third of the nodes are faulty.
 */
module BrachaDolevDelivery {
  import opened Counting
  import opened Options
  import opened Phases
  import opened Topology
  import opened DisjointSearch
  import opened BrachaDolevHandler
  import opened BrachaDolev
  import D = Dissemination
  import R = Routes

  /** No modification that changes what is delivered or relayed. */
  ghost predicate Plain(net: Net) {
    var mods := net.cfg.mods;
    ValidNet(net) && !mods.mod1 && !mods.mod2 && !mods.mod4 && !mods.mod5
  }

  /** Few enough faults, and somebody to talk to. */
  ghost predicate Resilient(net: Net) {
    Plain(net) && net.cfg.n >= 3 * net.cfg.f + 1 && net.cfg.n >= 2
  }

  function HeardFrom(ph: Phase, kind: Kind): set<nat> {
    match kind
    case Echo => ph.echoes
    case Ready => ph.readys
  }

  // ---- Nothing is lost ----

  /** The message has been handled: its path is stored and passed on. */
  ghost predicate Processed(net: Net, s: State, m: Message)
    requires |s.nodes| == net.cfg.n
  {
    && m.packet.to < net.cfg.n
    && Holds(At(net.cfg, s.nodes[m.packet.to], m.key).lists, m.packet.from,
         D.MaskOf(D.Assembled(m.key.origin, m.packet), net.cfg.n))
    && PassedOn(net, s.sent, m)
  }

  ghost predicate PassedOn(net: Net, sent: set<Message>, m: Message) {
    var path := D.Assembled(m.key.origin, m.packet);
    forall q | Linked(net, m.packet.to, q) && q != m.key.origin && q !in path ::
        Message(m.key, D.Packet(m.packet.to, q, path)) in sent
  }

  ghost predicate Accounted(net: Net, s: State, m: Message)
    requires |s.nodes| == net.cfg.n
  {
    Correct(net, m.packet.to) ==> m in s.transit || Processed(net, s, m)
  }

  ghost predicate Lossless(net: Net, s: State)
    requires |s.nodes| == net.cfg.n
  {
    forall m | m in s.sent :: Accounted(net, s, m)
  }

  /** Every own message went to every neighbour. */
  ghost predicate Announced(net: Net, s: State) {
    forall key, q | key in s.own && Linked(net, key.origin, q) :: Message(key, D.Packet(key.origin, q, [])) in s.sent
  }

  /** What one step leaves of what was stored and sent. */
  ghost predicate Extends(net: Net, s: State, next: State) {
    && |s.nodes| == |next.nodes| == net.cfg.n && s.sent <= next.sent
    && forall u, key | 0 <= u < net.cfg.n ::
         Longer(At(net.cfg, s.nodes[u], key).lists, At(net.cfg, next.nodes[u], key).lists)
  }

  ghost predicate Longer(lists: Lists, more: Lists) {
    |lists| == |more| && forall i | 0 <= i < |lists| :: lists[i] <= more[i]
  }

  lemma HandleExtends(net: Net, s: State, m: Message)
    requires ValidNet(net) && Shape(net, s) && Enabled(net, s, Handle(m))
    ensures Extends(net, s, After(net, s, Handle(m)))
  {
    var next := After(net, s, Handle(m));
    EveryMessageCanBeHandled(net, s, m);
    GrownIsLonger(net.cfg, m.key.origin, At(net.cfg, s.nodes[m.packet.to], m.key), m.packet);
    forall u, key | 0 <= u < net.cfg.n
      ensures Longer(At(net.cfg, s.nodes[u], key).lists, At(net.cfg, next.nodes[u], key).lists)
    {
      if u == m.packet.to && key == m.key {
        assert At(net.cfg, next.nodes[u], key)
            == D.NextState(net.cfg, net.broadcaster, key.origin, At(net.cfg, s.nodes[u], key), m.packet);
      } else {
        assert At(net.cfg, next.nodes[u], key) == At(net.cfg, s.nodes[u], key);
      }
    }
  }

  lemma GrownIsLonger(cfg: D.Config, origin: nat, st: D.NodeState, m: D.Packet)
    requires D.FitsIn(cfg, st, m)
    ensures Longer(st.lists, D.Stored(cfg, origin, st, m)) && Longer(st.lists, st.lists)
  {
  }

  lemma ProcessedStays(net: Net, s: State, next: State, m: Message)
    requires Extends(net, s, next) && Processed(net, s, m)
    ensures Processed(net, next, m)
  {
    var lists, more := At(net.cfg, s.nodes[m.packet.to], m.key).lists,
        At(net.cfg, next.nodes[m.packet.to], m.key).lists;
    var mask := D.MaskOf(D.Assembled(m.key.origin, m.packet), net.cfg.n);
    var k :| 0 <= k < |lists[m.packet.from]| && lists[m.packet.from][k] == mask;
    assert Longer(lists, more) && more[m.packet.from][k] == mask;
  }

  /** Handling a message processes it. */
  lemma HandledIsProcessed(net: Net, s: State, m: Message)
    requires Plain(net) && Shape(net, s) && Enabled(net, s, Handle(m))
    ensures Processed(net, After(net, s, Handle(m)), m)
  {
    var next, u := After(net, s, Handle(m)), m.packet.to;
    var path := D.Assembled(m.key.origin, m.packet);
    forall q | Linked(net, u, q) && q != m.key.origin && q !in path
      ensures Message(m.key, D.Packet(u, q, path)) in next.sent
    {
      OutMember(net, s, m, Message(m.key, D.Packet(u, q, path)));
    }
    var was, lists := At(net.cfg, s.nodes[u], m.key).lists, At(net.cfg, next.nodes[u], m.key).lists;
    assert lists[m.packet.from][|was[m.packet.from]|] == D.MaskOf(path, net.cfg.n);
  }

  lemma LosslessHandle(net: Net, s: State, m: Message)
    requires Plain(net) && Shape(net, s) && Lossless(net, s) && Enabled(net, s, Handle(m))
    ensures Lossless(net, After(net, s, Handle(m)))
  {
    var next := After(net, s, Handle(m));
    HandledIsProcessed(net, s, m);
    HandleExtends(net, s, m);
    forall p | p in next.sent
      ensures Accounted(net, next, p)
    {
      if p !in Out(net, s, m) && p != m {
        assert Accounted(net, s, p);
        if Correct(net, p.packet.to) && p !in s.transit { ProcessedStays(net, s, next, p); }
      }
    }
  }

  lemma LosslessOther(net: Net, s: State, e: Event)
    requires Plain(net) && Shape(net, s) && Lossless(net, s) && Enabled(net, s, e) && !e.Handle?
    ensures Lossless(net, After(net, s, e))
  {
    var next := After(net, s, e);
    forall p | p in next.sent
      ensures Accounted(net, next, p)
    {
      if p in s.sent {
        assert Accounted(net, s, p);
        if Correct(net, p.packet.to) && p !in s.transit {
          assert Extends(net, s, next) by { OtherExtends(net, s, e); }
          ProcessedStays(net, s, next, p);
        }
      }
    }
  }

  lemma OtherExtends(net: Net, s: State, e: Event)
    requires ValidNet(net) && |s.nodes| == net.cfg.n && Enabled(net, s, e) && !e.Handle?
    ensures Extends(net, s, After(net, s, e))
  {
    var next := After(net, s, e);
    forall u, key | 0 <= u < net.cfg.n
      ensures Longer(At(net.cfg, s.nodes[u], key).lists, At(net.cfg, next.nodes[u], key).lists)
    {
    }
  }

  lemma AnnouncedStep(net: Net, s: State, e: Event)
    requires Plain(net) && Shape(net, s) && Announced(net, s) && Enabled(net, s, e)
    ensures Announced(net, After(net, s, e))
  {
    var next := After(net, s, e);
    forall key, q | key in next.own && Linked(net, key.origin, q)
      ensures Message(key, D.Packet(key.origin, q, [])) in next.sent
    {
      var m := Message(key, D.Packet(key.origin, q, []));
      if key !in s.own {
        match e
        case Broadcast => MessagesOf(key, net.broadcaster, net.neighbors[net.broadcaster], m);
        case Handle(h) => OutMember(net, s, h, m);
      }
    }
  }

  // ---- What a node keeps ----

  /** A delivered Echo or Ready has been counted, and an undelivered one is undecided. */
  ghost predicate Counts(net: Net, st: NodeState, key: Key) {
    var message := At(net.cfg, st, key);
    && (message.delivered ==> key.origin in HeardFrom(st.phase, key.kind))
    && D.Undecided(net.cfg, net.broadcaster, message)
  }

  /** The phases have done what their sets call for. */
  ghost predicate PhaseDone(net: Net, u: nat, ph: Phase) {
    && (net.broadcaster in ph.echoes || |ph.echoes| >= net.cfg.f + 1 ==> u in ph.echoes)
    && (net.broadcaster in ph.readys || |ph.readys| >= net.cfg.f + 1 ==> u in ph.readys)
    && (|ph.echoes| >= QuorumSize(net.cfg.n, net.cfg.f) ==> u in ph.readys)
    && (|ph.readys| >= 2 * net.cfg.f + 1 && ph.readys != {u} ==> ph.delivered)
  }

  lemma CountedDone(net: Net, u: nat, ph: Phase, key: Key)
    requires PhaseDone(net, u, ph)
    ensures PhaseDone(net, u, Counted(net.cfg, u, net.broadcaster, ph, key).phase)
  {
    match key.kind
    case Echo => EchoDone(net, u, ph, key);
    case Ready => ReadyDone(net, u, ph, key);
  }

  lemma EchoDone(net: Net, u: nat, ph: Phase, key: Key)
    requires PhaseDone(net, u, ph) && key.kind == Echo
    ensures PhaseDone(net, u, Counted(net.cfg, u, net.broadcaster, ph, key).phase)
  {
    var after := Counted(net.cfg, u, net.broadcaster, ph, key).phase;
    var heard := ph.echoes + {key.origin};
    if u !in heard && |heard| < net.cfg.f + 1 { assert after.echoes == heard || net.broadcaster in heard; }
    if after.readys != ph.readys {
      assert |ph.readys| <= net.cfg.f && after.readys == ph.readys + {u};
      if |after.readys| >= 2 * net.cfg.f + 1 {
        assert ph.readys == {};
        assert after.readys == {u};
      }
    }
  }

  lemma ReadyDone(net: Net, u: nat, ph: Phase, key: Key)
    requires PhaseDone(net, u, ph) && key.kind == Ready
    ensures PhaseDone(net, u, Counted(net.cfg, u, net.broadcaster, ph, key).phase)
  {
  }

  ghost predicate NodeLive(net: Net, u: nat, st: NodeState) {
    (forall key :: Counts(net, st, key)) && PhaseDone(net, u, st.phase)
  }

  ghost predicate NodesLive(net: Net, s: State) {
    |s.nodes| == net.cfg.n
    && forall u {:trigger NodeLive(net, u, s.nodes[u])} | 0 <= u < net.cfg.n && Correct(net, u) ::
         NodeLive(net, u, s.nodes[u])
  }

  /** Own messages are counted at home, and there are none before the start. */
  ghost predicate OwnLive(net: Net, s: State)
    requires |s.nodes| == net.cfg.n
  {
    && (forall key | key in s.own ::
         key.origin < net.cfg.n && key.origin in HeardFrom(s.nodes[key.origin].phase, key.kind))
    && (s.started ==> Key(Echo, net.broadcaster) in s.own)
  }

  /** A correct broadcaster's start is the first thing that correct nodes do on their own. */
  ghost predicate StartLive(net: Net, s: State) {
    Correct(net, net.broadcaster) ==> NetKeeps(net, s) && (!s.started ==> s.own == {})
  }

  ghost predicate Live(net: Net, s: State) {
    Shape(net, s) && StartLive(net, s) && NodesLive(net, s) && OwnLive(net, s) && Lossless(net, s) && Announced(net, s)
  }

  lemma LiveInitially(net: Net)
    requires Resilient(net)
    ensures Live(net, Initial(net))
  {
    var s := Initial(net);
    forall u | 0 <= u < net.cfg.n && Correct(net, u)
      ensures NodeLive(net, u, s.nodes[u])
    {
      D.NothingStored(net.cfg.n, net.broadcaster, net.cfg.f + 1);
    }
  }

  /** Counting a message puts its originator into its set, and own messages into theirs. */
  lemma CountedHeard(cfg: D.Config, u: nat, b: nat, ph: Phase, key: Key)
    ensures var counted := Counted(cfg, u, b, ph, key);
            && key.origin in HeardFrom(counted.phase, key.kind)
            && (forall kind | kind in counted.own :: u in HeardFrom(counted.phase, kind))
            && (forall kind :: HeardFrom(ph, kind) <= HeardFrom(counted.phase, kind))
  {
    CountedOwn(cfg, u, b, ph, key);
  }

  lemma HandleCounts(net: Net, s: State, m: Message, key: Key)
    requires Plain(net) && Shape(net, s) && NodesLive(net, s) && Enabled(net, s, Handle(m))
    ensures Counts(net, After(net, s, Handle(m)).nodes[m.packet.to], key)
  {
    var u := m.packet.to;
    var st := At(net.cfg, s.nodes[u], m.key);
    assert NodeLive(net, u, s.nodes[u]) && Counts(net, s.nodes[u], key) && Counts(net, s.nodes[u], m.key);
    CountedHeard(net.cfg, u, net.broadcaster, s.nodes[u].phase, m.key);
    D.StaysUndecided(net.cfg, net.broadcaster, m.key.origin, st, m.packet);
  }

  lemma HandleNodeLive(net: Net, s: State, m: Message)
    requires Plain(net) && Shape(net, s) && NodesLive(net, s) && Enabled(net, s, Handle(m))
    ensures NodeLive(net, m.packet.to, After(net, s, Handle(m)).nodes[m.packet.to])
  {
    var u := m.packet.to;
    assert NodeLive(net, u, s.nodes[u]);
    forall key ensures Counts(net, After(net, s, Handle(m)).nodes[u], key) { HandleCounts(net, s, m, key); }
    CountedDone(net, u, s.nodes[u].phase, m.key);
  }

  lemma HandleOwnLive(net: Net, s: State, m: Message)
    requires Plain(net) && Shape(net, s) && OwnLive(net, s) && Enabled(net, s, Handle(m))
    ensures OwnLive(net, After(net, s, Handle(m)))
  {
    CountedHeard(net.cfg, m.packet.to, net.broadcaster, s.nodes[m.packet.to].phase, m.key);
  }

  lemma StartLiveStep(net: Net, s: State, e: Event)
    requires Plain(net) && StartLive(net, s) && |s.nodes| == net.cfg.n && Enabled(net, s, e)
    ensures StartLive(net, After(net, s, e))
  {
    if Correct(net, net.broadcaster) {
      NetKeepsStep(net, s, e);
      if e.Handle? && !s.started {
        NothingOwnYet(net, s, e.m);
        assert OwnKeys(e.m.packet.to, []) == {};
      }
    }
  }

  lemma LiveHandle(net: Net, s: State, m: Message)
    requires Resilient(net) && Live(net, s) && Enabled(net, s, Handle(m))
    ensures Live(net, After(net, s, Handle(m)))
  {
    var next := After(net, s, Handle(m));
    ShapeHandle(net, s, m);
    StartLiveStep(net, s, Handle(m));
    HandleNodeLive(net, s, m);
    HandleOwnLive(net, s, m);
    LosslessHandle(net, s, m);
    AnnouncedStep(net, s, Handle(m));
    forall u | 0 <= u < net.cfg.n && Correct(net, u)
      ensures NodeLive(net, u, next.nodes[u])
    {
      assert NodeLive(net, u, s.nodes[u]);
    }
  }

  /** The broadcaster's own Echo, counted at home without a test, is not a quorum. */
  lemma FirstEchoDone(net: Net, s: State)
    requires Resilient(net) && Live(net, s) && Enabled(net, s, Broadcast)
    ensures NodeLive(net, net.broadcaster, After(net, s, Broadcast).nodes[net.broadcaster])
  {
    var b := net.broadcaster;
    var ph := s.nodes[b].phase;
    assert NodeLive(net, b, s.nodes[b]) && NodeKeeps(net, s.own, s.nodes[b]);
    assert ph.echoes <= net.faulty;
    SubsetCard(ph.echoes, net.faulty);
    forall key
      ensures Counts(net, After(net, s, Broadcast).nodes[b], key)
    {
      assert Counts(net, s.nodes[b], key);
    }
  }

  lemma LiveBroadcast(net: Net, s: State)
    requires Resilient(net) && Live(net, s) && Enabled(net, s, Broadcast)
    ensures Live(net, After(net, s, Broadcast))
  {
    var next := After(net, s, Broadcast);
    ShapeOther(net, s, Broadcast);
    StartLiveStep(net, s, Broadcast);
    FirstEchoDone(net, s);
    LosslessOther(net, s, Broadcast);
    AnnouncedStep(net, s, Broadcast);
    forall u | 0 <= u < net.cfg.n && Correct(net, u)
      ensures NodeLive(net, u, next.nodes[u])
    {
      assert NodeLive(net, u, s.nodes[u]);
    }
  }

  lemma LiveFaulty(net: Net, s: State, e: Event)
    requires Resilient(net) && Live(net, s) && Enabled(net, s, e) && (e.Absorb? || e.Inject?)
    ensures Live(net, After(net, s, e))
  {
    ShapeOther(net, s, e);
    StartLiveStep(net, s, e);
    LosslessOther(net, s, e);
    AnnouncedStep(net, s, e);
    assert NodesLive(net, After(net, s, e)) && OwnLive(net, After(net, s, e));
  }

  lemma {:induction false} LiveAlways(net: Net, events: seq<Event>)
    requires Resilient(net)
    ensures Run(net, events).Some? ==> Live(net, Run(net, events).value)
  {
    if events == [] {
      LiveInitially(net);
    } else {
      var k := |events| - 1;
      LiveAlways(net, events[..k]);
      if Run(net, events).Some? {
        var s := Run(net, events[..k]).value;
        match events[k]
        case Broadcast => LiveBroadcast(net, s);
        case Handle(m) => LiveHandle(net, s, m);
        case _ => LiveFaulty(net, s, events[k]);
      }
    }
  }

  // ---- Routes bring messages ----

  /** No message between correct nodes is still on its way. */
  ghost predicate Quiescent(net: Net, s: State) {
    forall m | m in s.transit :: !(Correct(net, m.packet.from) && Correct(net, m.packet.to))
  }

  ghost predicate Route(net: Net, p: seq<nat>, e: nat, v: nat) {
    R.Route(net.neighbors, net.faulty, p, e, v)
  }

  ghost predicate DisjointRoutes(net: Net, routes: seq<seq<nat>>, e: nat, v: nat) {
    R.DisjointRoutes(net.neighbors, net.faulty, routes, e, v)
  }

  /** Any two correct nodes have `f + 1` disjoint correct routes. */
  ghost predicate WellConnected(net: Net) {
    forall e, v | Correct(net, e) && Correct(net, v) && e != v :: Served(net, e, v)
  }

  ghost predicate Served(net: Net, e: nat, v: nat) {
    R.Served(net.neighbors, net.faulty, net.cfg.f + 1, e, v)
  }

  /** The nodes of a route between its start and position `i`. */
  function Inner(p: seq<nat>, i: nat): seq<nat>
    requires i < |p|
  {
    if i == 0 then [] else p[1..i]
  }

  /** The copy that the node at position `i` sends to the next one. */
  function Copy(key: Key, p: seq<nat>, i: nat): Message
    requires i + 1 < |p|
  {
    Message(key, D.Packet(p[i], p[i + 1], Inner(p, i)))
  }

  lemma CopyAssembled(key: Key, p: seq<nat>, i: nat)
    requires i + 1 < |p| && Distinct(p) && key.origin == p[0]
    ensures D.Assembled(key.origin, Copy(key, p, i).packet) == Inner(p, i + 1)
  {
    if i > 0 {
      assert p[i] != p[0];
      assert p[1..i] + [p[i]] == p[1..i + 1];
    } else {
      assert p[1..1] == [];
    }
  }

  lemma CopyProcessed(net: Net, s: State, key: Key, p: seq<nat>, v: nat, i: nat)
    requires Plain(net) && Live(net, s) && Quiescent(net, s) && Route(net, p, key.origin, v)
    requires i + 1 < |p| && Copy(key, p, i) in s.sent
    ensures Processed(net, s, Copy(key, p, i))
  {
    assert Accounted(net, s, Copy(key, p, i)) && Correct(net, p[i]) && Correct(net, p[i + 1]);
  }

  lemma FirstCopy(net: Net, s: State, key: Key, p: seq<nat>, v: nat)
    requires Announced(net, s) && key in s.own && Route(net, p, key.origin, v)
    ensures Copy(key, p, 0) in s.sent
  {
    assert R.Hop(net.neighbors, p, 0);
  }

  /** The node at position `i + 1` passes on what the one before it sent. */
  ghost predicate PassesOn(sent: set<Message>, key: Key, p: seq<nat>, i: nat) {
    i + 2 < |p| && Copy(key, p, i) in sent ==> Copy(key, p, i + 1) in sent
  }

  lemma {:induction false} CarriedOn(sent: set<Message>, key: Key, p: seq<nat>, i: nat)
    requires i + 1 < |p| && Copy(key, p, 0) in sent && forall j: nat :: PassesOn(sent, key, p, j)
    ensures Copy(key, p, i) in sent
  {
    if i > 0 {
      CarriedOn(sent, key, p, i - 1);
      assert PassesOn(sent, key, p, i - 1);
    }
  }

  /** In a quiescent state every own message has travelled along every route. */
  lemma Travel(net: Net, s: State, key: Key, p: seq<nat>, v: nat, i: nat)
    requires Plain(net) && Live(net, s) && Quiescent(net, s) && key in s.own && Route(net, p, key.origin, v)
    requires i + 1 < |p|
    ensures Copy(key, p, i) in s.sent
  {
    FirstCopy(net, s, key, p, v);
    forall j: nat
      ensures PassesOn(s.sent, key, p, j)
    {
      if j + 2 < |p| && Copy(key, p, j) in s.sent { CopyPassedOn(net, s, key, p, v, j); }
    }
    CarriedOn(s.sent, key, p, i);
  }

  /** A node on a route passes on the copy that the one before it sent. */
  lemma CopyPassedOn(net: Net, s: State, key: Key, p: seq<nat>, v: nat, i: nat)
    requires Plain(net) && Live(net, s) && Quiescent(net, s) && Route(net, p, key.origin, v)
    requires i + 2 < |p| && Copy(key, p, i) in s.sent
    ensures Copy(key, p, i + 1) in s.sent
  {
    CopyProcessed(net, s, key, p, v, i);
    CopyAssembled(key, p, i);
    assert R.Hop(net.neighbors, p, i + 1) && p[i + 2] !in Inner(p, i + 1) && p[i + 2] != p[0];
  }

  /** What the route leaves at its end. */
  lemma RouteHeld(net: Net, s: State, key: Key, p: seq<nat>, v: nat)
    requires Plain(net) && Live(net, s) && Quiescent(net, s) && key in s.own && Route(net, p, key.origin, v)
    ensures v < net.cfg.n && Brought(net.cfg.n, At(net.cfg, s.nodes[v], key).lists, p)
  {
    Travel(net, s, key, p, v, |p| - 2);
    CopyProcessed(net, s, key, p, v, |p| - 2);
    CopyAssembled(key, p, |p| - 2);
  }

  /** Different disjoint routes come in over different links. */
  lemma LastHopsDiffer(net: Net, p: seq<nat>, q: seq<nat>, e: nat, v: nat)
    requires Route(net, p, e, v) && Route(net, q, e, v) && p != q && R.Share(p, q, e, v)
    ensures p[|p| - 2] != q[|q| - 2]
  {
    var x, y := p[|p| - 2], q[|q| - 2];
    assert x in p && y in q && x != v;
    if x == y {
      StartIsFirst(net, p, e, v);
      StartIsFirst(net, q, e, v);
    }
  }

  /** If the last hop is the start, the route is that one hop. */
  lemma StartIsFirst(net: Net, p: seq<nat>, e: nat, v: nat)
    requires Route(net, p, e, v) && p[|p| - 2] == e
    ensures p == [e, v]
  {
    assert |p| - 2 == 0;
  }

  lemma InnersApart(net: Net, p: seq<nat>, q: seq<nat>, e: nat, v: nat, omit: nat)
    requires Route(net, p, e, v) && Route(net, q, e, v) && R.Share(p, q, e, v)
    ensures Apart(D.MaskOf(Inner(p, |p| - 1), net.cfg.n), D.MaskOf(Inner(q, |q| - 1), net.cfg.n), omit)
  {
    var innerP, innerQ := Inner(p, |p| - 1), Inner(q, |q| - 1);
    forall x | x in innerP
      ensures x !in innerQ
    {
      InnerOnly(net, p, e, v, x);
      if x in innerQ { InnerOnly(net, q, e, v, x); }
    }
  }

  lemma InnerOnly(net: Net, p: seq<nat>, e: nat, v: nat, x: nat)
    requires Route(net, p, e, v) && x in Inner(p, |p| - 1)
    ensures x in p && x != e && x != v
  {
    var inner := Inner(p, |p| - 1);
    var i: nat :| i < |inner| && inner[i] == x;
    assert p[i + 1] == x;
  }

  /** What a route leaves: its last hop, and its inner nodes. */
  function LastHop(p: seq<nat>): nat
    requires |p| >= 2
  {
    p[|p| - 2]
  }

  function InnerMask(n: nat, p: seq<nat>): Mask
    requires |p| >= 2
  {
    D.MaskOf(Inner(p, |p| - 1), n)
  }

  ghost predicate Brought(n: nat, lists: Lists, p: seq<nat>) {
    |p| >= 2 && Holds(lists, LastHop(p), InnerMask(n, p))
  }

  lemma RoutesApart(net: Net, p: seq<nat>, q: seq<nat>, e: nat, v: nat, omit: nat)
    requires Route(net, p, e, v) && Route(net, q, e, v) && p != q && R.Share(p, q, e, v)
    ensures LastHop(p) != LastHop(q) && Apart(InnerMask(net.cfg.n, p), InnerMask(net.cfg.n, q), omit)
  {
    LastHopsDiffer(net, p, q, e, v);
    InnersApart(net, p, q, e, v, omit);
  }

  /** Disjoint routes leave as many disjoint stored paths. */
  lemma RoutesGiveFamily(net: Net, lists: Lists, routes: seq<seq<nat>>, e: nat, v: nat, omit: nat)
    requires DisjointRoutes(net, routes, e, v) && forall i | 0 <= i < |routes| :: Brought(net.cfg.n, lists, routes[i])
    ensures HasDisjoint(lists, omit, |routes|)
  {
    var senders := seq(|routes|, i requires 0 <= i < |routes| && |routes[i]| >= 2 => LastHop(routes[i]));
    var masks := seq(|routes|, i requires 0 <= i < |routes| && |routes[i]| >= 2 => InnerMask(net.cfg.n, routes[i]));
    forall i, j | 0 <= i < j < |routes|
      ensures senders[i] != senders[j] && Apart(masks[i], masks[j], omit)
    {
      RoutesApart(net, routes[i], routes[j], e, v, omit);
    }
    HeldIsDisjoint(lists, senders, masks, omit);
  }

  /** In a quiescent state a served node has accepted the message. */
  lemma ServedAccepts(net: Net, s: State, key: Key, v: nat)
    requires Plain(net) && Live(net, s) && Quiescent(net, s) && key in s.own && Served(net, key.origin, v)
    requires v < net.cfg.n
    ensures HasDisjoint(At(net.cfg, s.nodes[v], key).lists, net.broadcaster, net.cfg.f + 1)
  {
    var routes :| |routes| == net.cfg.f + 1 && DisjointRoutes(net, routes, key.origin, v);
    RoutesHeld(net, s, key, routes, v);
    RoutesGiveFamily(net, At(net.cfg, s.nodes[v], key).lists, routes, key.origin, v, net.broadcaster);
  }

  lemma RoutesHeld(net: Net, s: State, key: Key, routes: seq<seq<nat>>, v: nat)
    requires Plain(net) && Live(net, s) && Quiescent(net, s) && key in s.own && v < net.cfg.n
    requires DisjointRoutes(net, routes, key.origin, v)
    ensures forall i | 0 <= i < |routes| :: Brought(net.cfg.n, At(net.cfg, s.nodes[v], key).lists, routes[i])
  {
    forall i | 0 <= i < |routes|
      ensures Brought(net.cfg.n, At(net.cfg, s.nodes[v], key).lists, routes[i])
    {
      RouteHeld(net, s, key, routes[i], v);
    }
  }

  /** In a quiescent state every own message has been counted by every correct node. */
  lemma OwnIsCounted(net: Net, s: State, key: Key, v: nat)
    requires Plain(net) && Live(net, s) && Quiescent(net, s) && WellConnected(net) && key in s.own && Correct(net, v)
    ensures key.origin in HeardFrom(s.nodes[v].phase, key.kind)
  {
    if v != key.origin {
      assert Served(net, key.origin, v);
      ServedAccepts(net, s, key, v);
      assert NodeLive(net, v, s.nodes[v]) && Counts(net, s.nodes[v], key);
    }
  }

  // ---- The theorems ----

  ghost function CorrectNodes(net: Net): (c: set<nat>)
    requires ValidNet(net)
    ensures forall u: nat :: u in c <==> Correct(net, u)
    ensures |c| >= net.cfg.n - net.cfg.f
  {
    DifferenceCard(Below(net.cfg.n), net.faulty);
    Below(net.cfg.n) - net.faulty
  }

  /** When all correct nodes have sent this kind of message, all of them have counted all. */
  lemma AllCounted(net: Net, s: State, kind: Kind, v: nat)
    requires Plain(net) && Live(net, s) && Quiescent(net, s) && WellConnected(net) && Correct(net, v)
    requires forall u: nat | Correct(net, u) :: Key(kind, u) in s.own
    ensures CorrectNodes(net) <= HeardFrom(s.nodes[v].phase, kind)
    ensures |HeardFrom(s.nodes[v].phase, kind)| >= net.cfg.n - net.cfg.f
  {
    forall u | u in CorrectNodes(net)
      ensures u in HeardFrom(s.nodes[v].phase, kind)
    {
      OwnIsCounted(net, s, Key(kind, u), v);
    }
    SubsetCard(CorrectNodes(net), HeardFrom(s.nodes[v].phase, kind));
  }

  /** After a correct start every correct node has sent its Echo. */
  lemma AllEcho(net: Net, s: State, u: nat)
    requires Resilient(net) && Live(net, s) && Quiescent(net, s) && WellConnected(net) && s.started && Correct(net, u)
    requires Correct(net, net.broadcaster)
    ensures Key(Echo, u) in s.own
  {
    OwnIsCounted(net, s, Key(Echo, net.broadcaster), u);
    assert NodeLive(net, u, s.nodes[u]) && NodeKeeps(net, s.own, s.nodes[u]);
  }

  /** And then its Ready. */
  lemma AllReady(net: Net, s: State, u: nat)
    requires Resilient(net) && Live(net, s) && Quiescent(net, s) && WellConnected(net) && s.started && Correct(net, u)
    requires Correct(net, net.broadcaster)
    ensures Key(Ready, u) in s.own
  {
    forall w: nat | Correct(net, w) ensures Key(Echo, w) in s.own { AllEcho(net, s, w); }
    AllCounted(net, s, Echo, u);
    assert NodeLive(net, u, s.nodes[u]) && NodeKeeps(net, s.own, s.nodes[u]);
  }

  /** When all correct nodes have sent their Ready, all have delivered. */
  lemma AllDeliver(net: Net, s: State, u: nat)
    requires Resilient(net) && Live(net, s) && Quiescent(net, s) && WellConnected(net) && Correct(net, u)
    requires forall w: nat | Correct(net, w) :: Key(Ready, w) in s.own
    ensures s.nodes[u].phase.delivered
  {
    AllCounted(net, s, Ready, u);
    var other := Escape(CorrectNodes(net), {u});
    assert other in s.nodes[u].phase.readys;
    assert NodeLive(net, u, s.nodes[u]);
  }

  /** Once a correct broadcaster has started, in a quiescent state every correct node has delivered. */
  lemma Validity(net: Net, s: State, u: nat)
    requires Resilient(net) && WellConnected(net) && Reachable(net, s) && Quiescent(net, s)
    requires Correct(net, net.broadcaster) && s.started && Correct(net, u)
    ensures s.nodes[u].phase.delivered
  {
    var events :| Run(net, events) == Some(s);
    LiveAlways(net, events);
    forall w: nat | Correct(net, w) ensures Key(Ready, w) in s.own { AllReady(net, s, w); }
    AllDeliver(net, s, u);
  }

  /** The Readys of `f + 1` correct nodes make every correct node send its own. */
  lemma ReadysSpread(net: Net, s: State, origin: set<nat>, u: nat)
    requires Plain(net) && NetKeeps(net, s) && Live(net, s) && Quiescent(net, s) && WellConnected(net)
    requires Correct(net, u)
    requires |origin| >= net.cfg.f + 1 && forall e | e in origin :: Key(Ready, e) in s.own
    ensures Key(Ready, u) in s.own
  {
    forall e | e in origin
      ensures e in s.nodes[u].phase.readys
    {
      OwnIsCounted(net, s, Key(Ready, e), u);
    }
    SubsetCard(origin, s.nodes[u].phase.readys);
    assert NodeLive(net, u, s.nodes[u]) && NodeKeeps(net, s.own, s.nodes[u]);
  }

  /** In a quiescent state all correct nodes have delivered, or none, when the broadcaster is
      correct or has no correct neighbour. */
  lemma Totality(net: Net, s: State, p: nat, u: nat)
    requires Resilient(net) && NoAbuse(net) && WellConnected(net) && Reachable(net, s) && Quiescent(net, s)
    requires Correct(net, p) && s.nodes[p].phase.delivered && Correct(net, u)
    ensures s.nodes[u].phase.delivered
  {
    var events :| Run(net, events) == Some(s);
    LiveAlways(net, events);
    NetKeepsAlways(net, events);
    DeliveryRestsOnCorrectReadys(net, s, p);
    forall w: nat | Correct(net, w)
      ensures Key(Ready, w) in s.own
    {
      ReadysSpread(net, s, CorrectReadys(net, s, p), w);
    }
    AllDeliver(net, s, u);
  }

  ghost predicate ValidityHolds(net: Net)
    requires ValidNet(net)
  {
    forall s, u: nat | Reachable(net, s) && Quiescent(net, s) && s.started && Correct(net, u) ::
      u < |s.nodes| && s.nodes[u].phase.delivered
  }

  /** A lone node never hears from anyone; with any other node around validity holds. */
  lemma ValidityExactly(net: Net)
    requires Plain(net) && Correct(net, net.broadcaster) && WellConnected(net) && net.cfg.n >= 3 * net.cfg.f + 1
    ensures ValidityHolds(net) <==> net.cfg.n >= 2
  {
    if net.cfg.n >= 2 {
      forall s, u: nat | Reachable(net, s) && Quiescent(net, s) && s.started && Correct(net, u)
        ensures u < |s.nodes| && s.nodes[u].phase.delivered
      {
        RunLength(net, s);
        Validity(net, s, u);
      }
    } else {
      LoneNode(net);
    }
  }

  lemma SomebodyElse(net: Net)
    requires ValidNet(net) && net.neighbors[0] != []
    ensures net.cfg.n >= 2
  {
    assert net.neighbors[0][0] < net.cfg.n && net.neighbors[0][0] != 0;
  }

  lemma NobodyToTell(net: Net)
    requires ValidNet(net) && net.cfg.n == 1
    ensures FirstMessages(net) == []
  {
    if net.neighbors[0] != [] { SomebodyElse(net); }
    assert OwnPackets(0, net.neighbors[0]) == [];
  }

  lemma LoneStart(net: Net) returns (s: State)
    requires Plain(net) && Correct(net, net.broadcaster) && net.cfg.n == 1
    ensures Reachable(net, s) && s.transit == multiset{} && s.started && |s.nodes| == 1 && !s.nodes[0].phase.delivered
  {
    NobodyToTell(net);
    assert Run(net, []) == Some(Initial(net));
    ReachableNext(net, Initial(net), Broadcast);
    s := After(net, Initial(net), Broadcast);
  }

  lemma LoneNode(net: Net)
    requires Plain(net) && Correct(net, net.broadcaster) && net.cfg.n == 1
    ensures !ValidityHolds(net)
  {
    var s := LoneStart(net);
    assert Correct(net, 0) && Quiescent(net, s);
  }
}
