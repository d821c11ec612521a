/**
  When exactly a node of the Dolev protocol has delivered, and what the modifications save then.
  Under MOD_5 a node that has delivered a message neither stores nor sends anything more of it;
  under MOD_4 a path through a node that sent an empty one is ignored.
 */
module DolevSilence {
  import opened Phases
  import opened Dissemination
  import opened DolevNetwork
  import B = BrachaDolev

  // ---- Deliveries ----

  ghost predicate AllDecided(net: Net, s: State)
    requires |s.nodes| == net.cfg.n
  {
    forall u | 0 <= u < net.cfg.n && u != net.source :: Decided(net.cfg, net.source, net.source, s.nodes[u])
  }

  /** In every run, under any modifications, a node other than the source has delivered exactly when it
      has stored `f + 1` disjoint paths or, under MOD_1, one that came from the source. */
  lemma {:induction false} DeliveredExactly(net: Net, events: seq<Event>)
    requires ValidNet(net) && Run(net, events).Some?
    ensures AllDecided(net, Run(net, events).value)
  {
    if events == [] {
      DecidedInitially(net);
    } else {
      var k := |events| - 1;
      DeliveredExactly(net, events[..k]);
      DecidedStep(net, Run(net, events[..k]).value, events[k]);
    }
  }

  lemma DecidedInitially(net: Net)
    requires ValidNet(net)
    ensures AllDecided(net, Initial(net))
  {
    NothingStored(net.cfg.n, net.source, net.cfg.f + 1);
  }

  lemma DecidedStep(net: Net, s: State, e: Event)
    requires ValidNet(net) && |s.nodes| == net.cfg.n && AllDecided(net, s) && Enabled(net, s, e)
    ensures AllDecided(net, After(net, s, e))
  {
    if e.Handle? && e.m.to != net.source {
      assert Decided(net.cfg, net.source, net.source, s.nodes[e.m.to]);
      StaysDecided(net.cfg, net.source, net.source, s.nodes[e.m.to], e.m);
    }
  }

  // ---- Silence ----

  /** Handling the message takes it out of transit, and nothing else. */
  ghost predicate Ignored(net: Net, s: State, m: Packet)
    requires ValidNet(net) && |s.nodes| == net.cfg.n
  {
    Enabled(net, s, Handle(m)) && After(net, s, Handle(m)) == s.(transit := s.transit - multiset{m})
  }

  /** After its delivery a node falls silent. */
  lemma DeliveredIsSilent(net: Net, s: State, m: Packet)
    requires ValidNet(net) && |s.nodes| == net.cfg.n && Enabled(net, s, Handle(m))
    requires net.cfg.mods.mod5 && s.nodes[m.to].delivered
    ensures Ignored(net, s, m)
  {
    assert s.nodes[m.to := s.nodes[m.to]] == s.nodes;
  }

  /** A path through a node that is known to have delivered is ignored. */
  lemma KnownPathIsIgnored(net: Net, s: State, m: Packet, x: nat)
    requires ValidNet(net) && |s.nodes| == net.cfg.n && Enabled(net, s, Handle(m))
    requires net.cfg.mods.mod4 && x in m.path && x in s.nodes[m.to].heardEmpty
    ensures Ignored(net, s, m)
  {
    var i :| 0 <= i < |m.path| && m.path[i] == x;
    assert s.nodes[m.to := s.nodes[m.to]] == s.nodes;
  }

  // ---- Over runs ----

  lemma RunPrefix(net: Net, events: seq<Event>, more: seq<Event>)
    requires ValidNet(net) && Run(net, events + more).Some?
    ensures Run(net, events).Some?
    decreases |more|
  {
    if more == [] {
      assert events + more == events;
    } else {
      var k := |more| - 1;
      assert (events + more)[..|events + more| - 1] == events + more[..k];
      RunPrefix(net, events, more[..k]);
    }
  }

  ghost predicate Done(net: Net, s: State, u: nat) {
    net.cfg.mods.mod5 && u < |s.nodes| && s.nodes[u].delivered && (u == net.source ==> s.broadcast)
  }

  lemma DoneStep(net: Net, s: State, e: Event, u: nat)
    requires ValidNet(net) && |s.nodes| == net.cfg.n && Enabled(net, s, e) && Done(net, s, u)
    ensures var next := After(net, s, e);
            && Done(net, next, u) && next.nodes[u] == s.nodes[u]
            && forall p | p in next.sent && p.from == u :: p in s.sent
  {
    if e.Handle? {
      if e.m.to == u { DeliveredIsSilent(net, s, e.m); }
      forall p | p in Out(net, s, e.m) ensures p.from == e.m.to { OutMember(net, s, e.m, p); }
    }
  }

  /** Under MOD_5 a node that has delivered keeps its state and sends nothing more, whatever comes. */
  lemma {:induction false} NothingMoreIsSent(net: Net, events: seq<Event>, more: seq<Event>, u: nat)
    requires ValidNet(net) && Run(net, events + more).Some?
    requires Run(net, events).Some? && Done(net, Run(net, events).value, u)
    ensures var s, t := Run(net, events).value, Run(net, events + more).value;
            && Done(net, t, u) && t.nodes[u] == s.nodes[u]
            && forall p | p in t.sent && p.from == u :: p in s.sent
    decreases |more|
  {
    if more == [] {
      assert events + more == events;
    } else {
      var k := |more| - 1;
      assert (events + more)[..|events + more| - 1] == events + more[..k];
      NothingMoreIsSent(net, events, more[..k], u);
      DoneStep(net, Run(net, events + more[..k]).value, more[k], u);
    }
  }

  /** `x` has announced its delivery to `u`, or `u` has delivered itself. */
  ghost predicate Warned(net: Net, s: State, u: nat, x: nat) {
    u < |s.nodes| && (x in s.nodes[u].heardEmpty || (net.cfg.mods.mod5 && s.nodes[u].delivered))
  }

  lemma EmptyPathWarns(net: Net, s: State, x: nat, u: nat)
    requires ValidNet(net) && |s.nodes| == net.cfg.n && Enabled(net, s, Handle(Packet(x, u, []))) && net.cfg.mods.mod4
    ensures Warned(net, After(net, s, Handle(Packet(x, u, []))), u, x)
  {
  }

  lemma WarnedStep(net: Net, s: State, e: Event, u: nat, x: nat)
    requires ValidNet(net) && |s.nodes| == net.cfg.n && Enabled(net, s, e) && Warned(net, s, u, x)
    ensures Warned(net, After(net, s, e), u, x)
  {
  }

  lemma {:induction false} StaysWarned(net: Net, events: seq<Event>, more: seq<Event>, u: nat, x: nat)
    requires ValidNet(net) && Run(net, events + more).Some?
    requires Run(net, events).Some? && Warned(net, Run(net, events).value, u, x)
    ensures Warned(net, Run(net, events + more).value, u, x)
    decreases |more|
  {
    if more == [] {
      assert events + more == events;
    } else {
      var k := |more| - 1;
      assert (events + more)[..|events + more| - 1] == events + more[..k];
      StaysWarned(net, events, more[..k], u, x);
      WarnedStep(net, Run(net, events + more[..k]).value, more[k], u, x);
    }
  }

  /** Under MOD_4, once `u` has handled an empty path from `x`, it ignores all paths through `x`. */
  lemma EmptyPathSilences(net: Net, events: seq<Event>, more: seq<Event>, x: nat, u: nat, m: Packet)
    requires ValidNet(net) && net.cfg.mods.mod4
    requires Run(net, events + [Handle(Packet(x, u, []))] + more).Some? && m.to == u && x in m.path
    requires Enabled(net, Run(net, events + [Handle(Packet(x, u, []))] + more).value, Handle(m))
    ensures Ignored(net, Run(net, events + [Handle(Packet(x, u, []))] + more).value, m)
  {
    var first := events + [Handle(Packet(x, u, []))];
    RunPrefix(net, first, more);
    assert first[..|first| - 1] == events;
    EmptyPathWarns(net, Run(net, events).value, x, u);
    StaysWarned(net, first, more, u, x);
    var s := Run(net, first + more).value;
    if x in s.nodes[u].heardEmpty { KnownPathIsIgnored(net, s, m, x); } else { DeliveredIsSilent(net, s, m); }
  }

  // ---- The same for each Echo and Ready ----

  ghost predicate EchoIgnored(net: B.Net, s: B.State, m: B.Message)
    requires |s.nodes| == net.cfg.n == |net.neighbors| && net.broadcaster < net.cfg.n
  {
    B.Enabled(net, s, B.Handle(m)) && B.After(net, s, B.Handle(m)) == s.(transit := s.transit - multiset{m})
  }

  lemma SameNode(st: B.NodeState, key: Key)
    requires key in st.messages
    ensures B.NodeState(st.messages[key := st.messages[key]], st.phase) == st
  {
    assert st.messages[key := st.messages[key]] == st.messages;
  }

  lemma DroppedIsIgnored(net: B.Net, s: B.State, m: B.Message)
    requires B.ValidNet(net) && |s.nodes| == net.cfg.n && B.Enabled(net, s, B.Handle(m))
    requires m.key in s.nodes[m.packet.to].messages
    requires Dropped(net.cfg, B.At(net.cfg, s.nodes[m.packet.to], m.key), m.packet)
    ensures EchoIgnored(net, s, m)
  {
    var u := m.packet.to;
    SameNode(s.nodes[u], m.key);
    assert B.OwnKeys(u, []) == {};
    assert B.Out(net, s, m) == [];
    var next := B.After(net, s, B.Handle(m));
    assert next.nodes[u] == s.nodes[u] && next.nodes == s.nodes;
  }

  /** A node is silent about an Echo or Ready that it has counted, and ignores those that come
      through a node known to have counted it. */
  lemma CountedIsSilent(net: B.Net, s: B.State, m: B.Message, x: nat)
    requires B.ValidNet(net) && |s.nodes| == net.cfg.n && B.Enabled(net, s, B.Handle(m))
    requires var st := B.At(net.cfg, s.nodes[m.packet.to], m.key);
             || (net.cfg.mods.mod5 && st.delivered)
             || (net.cfg.mods.mod4 && x in m.packet.path && x in st.heardEmpty)
    ensures EchoIgnored(net, s, m)
  {
    var st := B.At(net.cfg, s.nodes[m.packet.to], m.key);
    assert x in m.packet.path ==> exists i :: 0 <= i < |m.packet.path| && m.packet.path[i] == x;
    DroppedIsIgnored(net, s, m);
  }
}
