/**
  What a node of Bracha over Dolev has counted, sent and delivered, in every run, on every graph and
  under any modifications: exactly what the stored paths call for.
 */
module BrachaDolevHistory {
  import opened Counting
  import opened Phases
  import opened Topology
  import opened BrachaDolevHandler
  import opened BrachaDolev
  import D = Dissemination

  function HeardFrom(ph: Phase, kind: Kind): set<nat> {
    match kind
    case Echo => ph.echoes
    case Ready => ph.readys
  }

  ghost predicate Accepted(cfg: D.Config, st: NodeState, key: Key) {
    At(cfg, st, key).delivered
  }

  /** An Echo or Ready counts when its paths decide it, or when it is the node's own. */
  ghost predicate CountedExactly(net: Net, own: set<Key>, u: nat, st: NodeState) {
    forall key :: CountedFor(net, own, u, st, key)
  }

  ghost predicate CountedFor(net: Net, own: set<Key>, u: nat, st: NodeState, key: Key) {
    && D.Decided(net.cfg, net.broadcaster, key.origin, At(net.cfg, st, key))
    && (key.origin in HeardFrom(st.phase, key.kind) <==>
          Accepted(net.cfg, st, key) || (key.origin == u && key in own))
  }

  /** The own Echo was due when it was sent, and so was the own Ready. */
  ghost predicate OwnWasDue(net: Net, own: set<Key>, u: nat, ph: Phase) {
    && (Key(Echo, u) in own ==> net.broadcaster in ph.echoes || |ph.echoes| >= net.cfg.f + 1)
    && (Key(Ready, u) in own ==>
          || net.broadcaster in ph.readys || |ph.readys| >= net.cfg.f + 1
          || |ph.echoes| >= QuorumSize(net.cfg.n, net.cfg.f))
  }

  /** More than `f` Readys have called for the own one, and `2f + 1` for the delivery, but for a lone
      own one, which is added without a test. */
  ghost predicate ReadysDone(net: Net, u: nat, ph: Phase) {
    && (|ph.readys| >= net.cfg.f + 1 ==> u in ph.readys)
    && (|ph.readys| >= 2 * net.cfg.f + 1 && ph.readys != {u} ==> ph.delivered)
    && (ph.delivered ==> |ph.readys| >= 2 * net.cfg.f + 1)
  }

  ghost predicate NodeFollows(net: Net, own: set<Key>, u: nat, st: NodeState) {
    && CountedExactly(net, own, u, st) && OwnWasDue(net, own, u, st.phase) && ReadysDone(net, u, st.phase)
    && (st.phase.delivered ==> SomeReady(net.cfg, st))
  }

  /** Some Ready has come over its paths. */
  ghost predicate SomeReady(cfg: D.Config, st: NodeState) {
    exists e :: Accepted(cfg, st, Key(Ready, e))
  }

  lemma ReadysDoneNext(net: Net, u: nat, ph: Phase, key: Key)
    requires ReadysDone(net, u, ph)
    ensures ReadysDone(net, u, Counted(net.cfg, u, net.broadcaster, ph, key).phase)
  {
    match key.kind
    case Echo => ReadysDoneEcho(net, u, ph, key);
    case Ready => ReadysDoneReady(net, u, ph, key);
  }

  lemma ReadysDoneEcho(net: Net, u: nat, ph: Phase, key: Key)
    requires ReadysDone(net, u, ph) && key.kind == Echo
    ensures ReadysDone(net, u, Counted(net.cfg, u, net.broadcaster, ph, key).phase)
  {
    var after := Counted(net.cfg, u, net.broadcaster, ph, key).phase;
    if after.readys != ph.readys {
      assert |ph.readys| <= net.cfg.f && after.readys == ph.readys + {u};
      if |after.readys| >= 2 * net.cfg.f + 1 {
        assert ph.readys == {};
        assert after.readys == {u};
      }
      SubsetCard(ph.readys, after.readys);
    }
  }

  lemma ReadysDoneReady(net: Net, u: nat, ph: Phase, key: Key)
    requires ReadysDone(net, u, ph) && key.kind == Ready
    ensures ReadysDone(net, u, Counted(net.cfg, u, net.broadcaster, ph, key).phase)
  {
    var after := Counted(net.cfg, u, net.broadcaster, ph, key).phase;
    SubsetCard(ph.readys, after.readys);
  }

  lemma OwnIsDue(net: Net, own: set<Key>, u: nat, ph: Phase, key: Key)
    requires OwnWasDue(net, own, u, ph)
    ensures var counted := Counted(net.cfg, u, net.broadcaster, ph, key);
            OwnWasDue(net, own + OwnKeys(u, counted.own), u, counted.phase)
  {
    var counted := Counted(net.cfg, u, net.broadcaster, ph, key);
    CountedOwn(net.cfg, u, net.broadcaster, ph, key);
    SubsetCard(ph.echoes, counted.phase.echoes);
    SubsetCard(ph.readys, counted.phase.readys);
    match key.kind
    case Echo => SubsetCard(ph.echoes + {key.origin}, counted.phase.echoes);
    case Ready => SubsetCard(ph.readys + {key.origin}, counted.phase.readys);
  }

  /** Counting an Echo adds its originator and the own messages, and nobody else. */
  lemma EchoAdds(cfg: D.Config, u: nat, b: nat, ph: Phase, e: nat)
    ensures var counted := Counted(cfg, u, b, ph, Key(Echo, e));
            && counted.phase.echoes == ph.echoes + {e} + (if Echo in counted.own then {u} else {})
            && counted.phase.readys == ph.readys + (if Ready in counted.own then {u} else {})
  {
  }

  lemma ReadyAdds(cfg: D.Config, u: nat, b: nat, ph: Phase, e: nat)
    ensures var counted := Counted(cfg, u, b, ph, Key(Ready, e));
            && counted.phase.echoes == ph.echoes && Echo !in counted.own
            && counted.phase.readys == ph.readys + {e} + (if Ready in counted.own then {u} else {})
  {
  }

  /** Whatever was counted before, each message puts every test of its phase into effect. */
  lemma TestsAreMade(cfg: D.Config, u: nat, b: nat, ph: Phase, key: Key)
    ensures var after := Counted(cfg, u, b, ph, key).phase;
            match key.kind
            case Echo =>
              && (b in after.echoes || |after.echoes| >= cfg.f + 1 ==> u in after.echoes)
              && (|after.echoes| >= QuorumSize(cfg.n, cfg.f) || |ph.readys| >= cfg.f + 1 ==> u in after.readys)
            case Ready =>
              && (b in after.readys || |after.readys| >= cfg.f + 1 ==> u in after.readys)
              && (|after.readys| >= 2 * cfg.f + 1 ==> after.delivered)
  {
    match key.kind
    case Echo => EchoAdds(cfg, u, b, ph, key.origin);
    case Ready => ReadyAdds(cfg, u, b, ph, key.origin);
    assert key == Key(key.kind, key.origin);
  }

  /** In no run is it the `f + 1` Readys tested on an Echo that call for the own one. */
  lemma ReadyTestOnEchoIsIdle(net: Net, events: seq<Event>, u: nat)
    requires ValidNet(net) && Run(net, events).Some? && u < net.cfg.n
    ensures var readys := Run(net, events).value.nodes[u].phase.readys; u in readys || |readys| < net.cfg.f + 1
  {
    CountsFollowFromPaths(net, events);
    var s := Run(net, events).value;
    assert NodeFollows(net, s.own, u, s.nodes[u]);
  }

  /** Who is counted after one more message. */
  lemma HeardNext(cfg: D.Config, u: nat, b: nat, ph: Phase, key: Key, kind: Kind)
    ensures var counted := Counted(cfg, u, b, ph, key);
            HeardFrom(counted.phase, kind)
            == HeardFrom(ph, kind) + (if key.kind == kind then {key.origin} else {})
                + (if kind in counted.own then {u} else {})
  {
    match key.kind
    case Echo => EchoAdds(cfg, u, b, ph, key.origin);
    case Ready => ReadyAdds(cfg, u, b, ph, key.origin);
    assert key == Key(key.kind, key.origin);
  }

  // ---- Runs ----

  ghost predicate AllFollow(net: Net, s: State) {
    |s.nodes| == net.cfg.n
    && forall u {:trigger NodeFollows(net, s.own, u, s.nodes[u])} | 0 <= u < net.cfg.n ::
         NodeFollows(net, s.own, u, s.nodes[u])
  }

  lemma DecidedNext(net: Net, s: State, m: Message, key: Key)
    requires ValidNet(net) && |s.nodes| == net.cfg.n && Enabled(net, s, Handle(m))
    requires CountedFor(net, s.own, m.packet.to, s.nodes[m.packet.to], key)
    ensures D.Decided(net.cfg, net.broadcaster, key.origin,
            At(net.cfg, After(net, s, Handle(m)).nodes[m.packet.to], key))
  {
    AtAfter(net, s, m);
    if key == m.key {
      D.StaysDecided(net.cfg, net.broadcaster, m.key.origin, At(net.cfg, s.nodes[m.packet.to], m.key), m.packet);
    }
  }

  lemma CountedForNext(net: Net, s: State, m: Message, key: Key)
    requires ValidNet(net) && |s.nodes| == net.cfg.n && Enabled(net, s, Handle(m))
    requires CountedFor(net, s.own, m.packet.to, s.nodes[m.packet.to], key)
    ensures var next := After(net, s, Handle(m)); CountedFor(net, next.own, m.packet.to, next.nodes[m.packet.to], key)
  {
    DecidedNext(net, s, m, key);
    OwnNext(net, s, m, key);
    AcceptedNext(net, s, m, key);
    HeardAfter(net, s, m, key);
  }

  /** Counted now are those counted before, the message's originator if it is accepted, and the own. */
  lemma HeardAfter(net: Net, s: State, m: Message, key: Key)
    requires ValidNet(net) && |s.nodes| == net.cfg.n && Enabled(net, s, Handle(m))
    ensures var u, ph := m.packet.to, After(net, s, Handle(m)).nodes[m.packet.to].phase;
            key.origin in HeardFrom(ph, key.kind) <==>
              || key.origin in HeardFrom(s.nodes[u].phase, key.kind)
              || (key == m.key &&
                  D.Accepts(net.cfg, net.broadcaster, key.origin, At(net.cfg, s.nodes[u], key), m.packet))
              || (key.origin == u && key.kind in Reaction(net, s, m).own)
  {
    HeardNext(net.cfg, m.packet.to, net.broadcaster, s.nodes[m.packet.to].phase, m.key, key.kind);
    assert key == Key(key.kind, key.origin);
  }

  lemma OwnNext(net: Net, s: State, m: Message, key: Key)
    requires ValidNet(net) && |s.nodes| == net.cfg.n && Enabled(net, s, Handle(m))
    ensures key in After(net, s, Handle(m)).own
       <==> key in s.own || (key.origin == m.packet.to && key.kind in Reaction(net, s, m).own)
  {
    assert key == Key(key.kind, key.origin);
  }

  lemma AcceptedNext(net: Net, s: State, m: Message, key: Key)
    requires ValidNet(net) && |s.nodes| == net.cfg.n && Enabled(net, s, Handle(m))
    ensures var u, next := m.packet.to, After(net, s, Handle(m));
            Accepted(net.cfg, next.nodes[u], key) <==>
              || Accepted(net.cfg, s.nodes[u], key)
              || (key == m.key &&
                  D.Accepts(net.cfg, net.broadcaster, key.origin, At(net.cfg, s.nodes[u], key), m.packet))
  {
    AtAfter(net, s, m);
  }

  lemma HandleFollows(net: Net, s: State, m: Message)
    requires ValidNet(net) && AllFollow(net, s) && Enabled(net, s, Handle(m))
    ensures var next := After(net, s, Handle(m)); NodeFollows(net, next.own, m.packet.to, next.nodes[m.packet.to])
  {
    var u, next := m.packet.to, After(net, s, Handle(m));
    assert NodeFollows(net, s.own, u, s.nodes[u]);
    forall key
      ensures CountedFor(net, next.own, u, next.nodes[u], key)
    {
      assert CountedFor(net, s.own, u, s.nodes[u], key);
      CountedForNext(net, s, m, key);
    }
    OwnIsDue(net, s.own, u, s.nodes[u].phase, m.key);
    ReadysDoneNext(net, u, s.nodes[u].phase, m.key);
    SomeReadyNext(net, s, m);
    assert s.own + OwnKeys(u, []) == s.own;
  }

  lemma SomeReadyNext(net: Net, s: State, m: Message)
    requires ValidNet(net) && |s.nodes| == net.cfg.n && Enabled(net, s, Handle(m))
    requires var st := s.nodes[m.packet.to]; st.phase.delivered ==> SomeReady(net.cfg, st)
    ensures var next := After(net, s, Handle(m)).nodes[m.packet.to]; next.phase.delivered ==> SomeReady(net.cfg, next)
  {
    var st := s.nodes[m.packet.to];
    if st.phase.delivered {
      var e :| Accepted(net.cfg, st, Key(Ready, e));
      AcceptedNext(net, s, m, Key(Ready, e));
    } else {
      DeliveredByReady(net.cfg, m.packet.to, net.broadcaster, st.phase, m.key);
      AcceptedNext(net, s, m, m.key);
      assert m.key == Key(m.key.kind, m.key.origin);
    }
  }

  lemma DeliveredByReady(cfg: D.Config, u: nat, b: nat, ph: Phase, key: Key)
    ensures Counted(cfg, u, b, ph, key).phase.delivered ==> ph.delivered || key.kind == Ready
  {
  }

  /** Own messages of others do not matter. */
  lemma OtherFollows(net: Net, own: set<Key>, more: set<Key>, u: nat, st: NodeState)
    requires NodeFollows(net, own, u, st) && forall key | key in more :: key.origin != u
    ensures NodeFollows(net, own + more, u, st)
  {
    forall key
      ensures CountedFor(net, own + more, u, st, key)
    {
      assert CountedFor(net, own, u, st, key);
    }
  }

  lemma BroadcasterFollows(net: Net, s: State)
    requires ValidNet(net) && AllFollow(net, s) && Enabled(net, s, Broadcast)
    ensures var next := After(net, s, Broadcast);
            NodeFollows(net, next.own, net.broadcaster, next.nodes[net.broadcaster])
  {
    var b, next := net.broadcaster, After(net, s, Broadcast);
    var ph := s.nodes[b].phase;
    assert NodeFollows(net, s.own, b, s.nodes[b]);
    SubsetCard(ph.echoes, ph.echoes + {b});
    forall key
      ensures CountedFor(net, next.own, b, next.nodes[b], key)
    {
      assert CountedFor(net, s.own, b, s.nodes[b], key) && key == Key(key.kind, key.origin);
    }
  }

  lemma FollowStep(net: Net, s: State, e: Event)
    requires ValidNet(net) && AllFollow(net, s) && Enabled(net, s, e)
    ensures AllFollow(net, After(net, s, e))
  {
    var next := After(net, s, e);
    forall u | 0 <= u < net.cfg.n
      ensures NodeFollows(net, next.own, u, next.nodes[u])
    {
      assert NodeFollows(net, s.own, u, s.nodes[u]);
      match e
      case Broadcast =>
        if u == net.broadcaster {
          BroadcasterFollows(net, s);
        } else {
          OtherFollows(net, s.own, {Key(Echo, net.broadcaster)}, u, s.nodes[u]);
        }
      case Handle(m) =>
        if u == m.packet.to {
          HandleFollows(net, s, m);
        } else {
          OtherFollows(net, s.own, OwnKeys(m.packet.to, Reaction(net, s, m).own), u, s.nodes[u]);
        }
      case _ =>
    }
  }

  /** In every run each node's sender sets, own messages and delivery are exactly those that its stored
      paths call for. */
  lemma {:induction false} CountsFollowFromPaths(net: Net, events: seq<Event>)
    requires ValidNet(net) && Run(net, events).Some?
    ensures AllFollow(net, Run(net, events).value)
  {
    if events == [] {
      D.NothingStored(net.cfg.n, net.broadcaster, net.cfg.f + 1);
    } else {
      var k := |events| - 1;
      CountsFollowFromPaths(net, events[..k]);
      FollowStep(net, Run(net, events[..k]).value, events[k]);
    }
  }

  /** A node has delivered exactly when it counts `2f + 1` Readys: its own, added on an Echo, is never
      enough. */
  lemma DeliveredExactly(net: Net, events: seq<Event>, u: nat)
    requires ValidNet(net) && Run(net, events).Some? && u < net.cfg.n
    ensures var ph := Run(net, events).value.nodes[u].phase;
            && (|ph.readys| >= 2 * net.cfg.f + 1 && ph.readys != {u} ==> ph.delivered)
            && (ph.delivered ==>
                 |ph.readys| >= 2 * net.cfg.f + 1 && SomeReady(net.cfg, Run(net, events).value.nodes[u]))
  {
    CountsFollowFromPaths(net, events);
    var s := Run(net, events).value;
    assert NodeFollows(net, s.own, u, s.nodes[u]);
  }
}
