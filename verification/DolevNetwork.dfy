/**
  Runs of the Dolev protocol for one message identifier of a correct source:
  an arbitrary graph, a bag of messages in transit, and at most `f` faulty nodes
  that may put anything on their own links at any time.
 */
module DolevNetwork {
  import opened Counting
  import opened Options
  import opened DisjointSearch
  import opened Dissemination
  import opened Taint
  import F = FullSearch

  datatype Net = Net(cfg: Config, neighbors: seq<seq<nat>>, faulty: set<nat>, source: nat)

  datatype State = State(nodes: seq<NodeState>, transit: multiset<Packet>, sent: set<Packet>, broadcast: bool)

  datatype Event =
    | Broadcast(stray: bool)    // the source starts; does its unset key field match by accident?
    | Handle(m: Packet)         // a correct node handles a message
    | Absorb(m: Packet)         // a faulty node takes a message in
    | Inject(m: Packet)         // a faulty node sends whatever it likes

  ghost predicate ValidNet(net: Net) {
    && net.cfg.f + 1 <= net.cfg.n == |net.neighbors|
    && net.source < net.cfg.n && net.source !in net.faulty
    && |net.faulty| <= net.cfg.f && (forall q | q in net.faulty :: q < net.cfg.n)
    && (forall u, i | 0 <= u < net.cfg.n && 0 <= i < |net.neighbors[u]| ::
          net.neighbors[u][i] < net.cfg.n && net.neighbors[u][i] != u)
    && (forall u, v | Linked(net, u, v) :: Linked(net, v, u))
  }

  predicate Linked(net: Net, u: nat, v: nat) {
    u < |net.neighbors| && v in net.neighbors[u]
  }

  ghost predicate Correct(net: Net, u: nat) {
    u < net.cfg.n && u !in net.faulty
  }

  /** A message that the links admit: true sender, existing link, known nodes on the path. */
  ghost predicate Sendable(net: Net, m: Packet) {
    && m.from < net.cfg.n && m.to < net.cfg.n && Linked(net, m.from, m.to)
    && forall i | 0 <= i < |m.path| :: m.path[i] < net.cfg.n
  }

  ghost function Initial(net: Net): State {
    State(seq(net.cfg.n, _ => NodeState(false, NoLists(net.cfg.n), {})), multiset{}, {}, false)
  }

  function FirstPackets(net: Net): seq<Packet>
    requires net.source < |net.neighbors|
  {
    var targets := net.neighbors[net.source];
    seq(|targets|, i requires 0 <= i < |targets| => Packet(net.source, targets[i], []))
  }

  ghost predicate Enabled(net: Net, s: State, e: Event)
    requires ValidNet(net) && |s.nodes| == net.cfg.n
  {
    match e
    case Broadcast(_) => !s.broadcast
    case Handle(m) => m in s.transit && Correct(net, m.to) && FitsIn(net.cfg, s.nodes[m.to], m)
    case Absorb(m) => m in s.transit && m.to in net.faulty
    case Inject(m) => m.from in net.faulty && Sendable(net, m)
  }

  ghost function After(net: Net, s: State, e: Event): (next: State)
    requires ValidNet(net) && |s.nodes| == net.cfg.n && Enabled(net, s, e)
    ensures |next.nodes| == net.cfg.n
  {
    match e
    case Broadcast(stray) =>
      var st := s.nodes[net.source];
      State(s.nodes[net.source := st.(delivered := st.delivered || stray)],
            s.transit + multiset(FirstPackets(net)),
            s.sent + (set p | p in FirstPackets(net)),
            true)
    case Handle(m) =>
      State(s.nodes[m.to := NextState(net.cfg, net.source, net.source, s.nodes[m.to], m)],
            s.transit - multiset{m} + multiset(Out(net, s, m)),
            s.sent + (set p | p in Out(net, s, m)),
            s.broadcast)
    case Absorb(m) => s.(transit := s.transit - multiset{m})
    case Inject(m) => s.(transit := s.transit + multiset{m})
  }

  ghost function Out(net: Net, s: State, m: Packet): seq<Packet>
    requires ValidNet(net) && |s.nodes| == net.cfg.n && m.to < net.cfg.n
    requires FitsIn(net.cfg, s.nodes[m.to], m)
  {
    Output(net.cfg, net.neighbors[m.to], net.source, net.source, s.nodes[m.to], m)
  }

  /** The state that a sequence of events leads to; None when one was not enabled. */
  ghost function Run(net: Net, events: seq<Event>): (r: Option<State>)
    requires ValidNet(net)
    ensures r.Some? ==> |r.value.nodes| == net.cfg.n
  {
    if events == [] then Some(Initial(net))
    else
      var k := |events| - 1;
      var before := Run(net, events[..k]);
      if before.Some? && Enabled(net, before.value, events[k]) then
        Some(After(net, before.value, events[k]))
      else None
  }

  ghost predicate Reachable(net: Net, s: State)
    requires ValidNet(net)
  {
    exists events :: Run(net, events) == Some(s)
  }

  lemma RunStep(net: Net, events: seq<Event>, e: Event)
    requires ValidNet(net) && Run(net, events).Some? && Enabled(net, Run(net, events).value, e)
    ensures Run(net, events + [e]) == Some(After(net, Run(net, events).value, e))
  {
    assert (events + [e])[..|events|] == events;
  }

  // ---- What handlers send ----

  ghost predicate Emptied(net: Net, s: State, m: Packet)
    requires m.to < |s.nodes| && FitsIn(net.cfg, s.nodes[m.to], m)
  {
    net.cfg.mods.mod2 && Delivers(net.cfg, net.source, net.source, s.nodes[m.to], m)
  }

  lemma OutMember(net: Net, s: State, m: Packet, p: Packet)
    requires ValidNet(net) && |s.nodes| == net.cfg.n && m.to < net.cfg.n
    requires FitsIn(net.cfg, s.nodes[m.to], m)
    ensures p in Out(net, s, m)
       <==> && !Dropped(net.cfg, s.nodes[m.to], m)
            && p.from == m.to && Linked(net, m.to, p.to) && p.to != net.source
            && if Emptied(net, s, m) then p.path == []
               else p.path == Assembled(net.source, m) && p.to !in Assembled(net.source, m)
  {
    RelaysMember(m.to, net.neighbors[m.to], net.source, Emptied(net, s, m), Assembled(net.source, m), p);
  }

  // ---- Shape: what every reachable state looks like ----

  ghost predicate Shape(net: Net, s: State) {
    && |s.nodes| == net.cfg.n
    && (forall u | 0 <= u < net.cfg.n :: |s.nodes[u].lists| == net.cfg.n && WellFormed(s.nodes[u].lists))
    && (forall p | p in s.sent :: Correct(net, p.from) && Sendable(net, p))
    && (forall p | p in s.transit :: Sendable(net, p) && (p in s.sent || p.from in net.faulty))
  }

  lemma ShapeOut(net: Net, s: State, m: Packet, p: Packet)
    requires ValidNet(net) && Shape(net, s) && Correct(net, m.to) && Sendable(net, m)
    requires FitsIn(net.cfg, s.nodes[m.to], m) && p in Out(net, s, m)
    ensures Correct(net, p.from) && Sendable(net, p)
  {
    OutMember(net, s, m, p);
  }

  lemma ShapeOther(net: Net, s: State, e: Event)
    requires ValidNet(net) && Shape(net, s) && Enabled(net, s, e) && !e.Handle?
    ensures Shape(net, After(net, s, e))
  {
    if e.Broadcast? {
      forall p | p in FirstPackets(net)
        ensures Correct(net, p.from) && Sendable(net, p)
      {
        assert p.to in net.neighbors[net.source];
      }
    }
  }

  lemma ShapeHandle(net: Net, s: State, m: Packet)
    requires ValidNet(net) && Shape(net, s) && Enabled(net, s, Handle(m))
    ensures Shape(net, After(net, s, Handle(m)))
  {
    forall p | p in Out(net, s, m)
      ensures Correct(net, p.from) && Sendable(net, p)
    {
      ShapeOut(net, s, m, p);
    }
  }

  lemma ShapeStep(net: Net, s: State, e: Event)
    requires ValidNet(net) && Shape(net, s) && Enabled(net, s, e)
    ensures Shape(net, After(net, s, e))
  {
    if e.Handle? {
      ShapeHandle(net, s, e.m);
    } else {
      ShapeOther(net, s, e);
    }
  }

  lemma {:induction false} ShapeAlways(net: Net, events: seq<Event>)
    requires ValidNet(net) && Run(net, events).Some?
    ensures Shape(net, Run(net, events).value)
  {
    if events != [] {
      var k := |events| - 1;
      ShapeAlways(net, events[..k]);
      ShapeStep(net, Run(net, events[..k]).value, events[k]);
    }
  }

  /** No message gets stuck: a correct node can handle whatever reaches it. */
  lemma EveryMessageCanBeHandled(net: Net, events: seq<Event>, m: Packet)
    requires ValidNet(net) && Run(net, events).Some?
    requires m in Run(net, events).value.transit && Correct(net, m.to)
    ensures Enabled(net, Run(net, events).value, Handle(m))
  {
    ShapeAlways(net, events);
  }

  // ---- Undelivered means undeliverable ----

  /** Under any modifications: no disjoint family sits unnoticed at a node. */
  ghost predicate AllUndecided(net: Net, s: State)
    requires |s.nodes| == net.cfg.n
  {
    forall w | 0 <= w < net.cfg.n && Correct(net, w) :: Undecided(net.cfg, net.source, s.nodes[w])
  }

  lemma UndecidedStep(net: Net, s: State, e: Event)
    requires ValidNet(net) && Shape(net, s) && AllUndecided(net, s) && Enabled(net, s, e)
    ensures AllUndecided(net, After(net, s, e))
  {
    if e.Handle? { StaysUndecided(net.cfg, net.source, net.source, s.nodes[e.m.to], e.m); }
  }

  lemma UndecidedInitially(net: Net)
    requires ValidNet(net)
    ensures AllUndecided(net, Initial(net))
  {
    NothingStored(net.cfg.n, net.source, net.cfg.f + 1);
  }

  lemma {:induction false} UndecidedAlways(net: Net, events: seq<Event>)
    requires ValidNet(net) && Run(net, events).Some?
    ensures AllUndecided(net, Run(net, events).value)
  {
    if events == [] {
      UndecidedInitially(net);
    } else {
      var k := |events| - 1;
      UndecidedAlways(net, events[..k]);
      ShapeAlways(net, events[..k]);
      UndecidedStep(net, Run(net, events[..k]).value, events[k]);
    }
  }

  /** Combinations without the newest path need no search: at an undelivered
      node every disjoint family of `f + 1` paths uses the path just stored. */
  lemma OnlyTheNewestPathMatters(net: Net, s: State, m: Packet, pick: map<nat, nat>)
    requires ValidNet(net) && Reachable(net, s) && |s.nodes| == net.cfg.n && Enabled(net, s, Handle(m))
    requires !s.nodes[m.to].delivered && |pick| == net.cfg.f + 1
    requires Family(Stored(net.cfg, net.source, s.nodes[m.to], m), pick, net.source)
    ensures Uses(Stored(net.cfg, net.source, s.nodes[m.to], m), pick, m.from)
  {
    var events :| Run(net, events) == Some(s);
    UndecidedAlways(net, events);
    if !Uses(Stored(net.cfg, net.source, s.nodes[m.to], m), pick, m.from) {
      FamilyShrinks(s.nodes[m.to].lists, net.source, m.from, MaskOf(Assembled(net.source, m), net.cfg.n), pick);
      assert false;
    }
  }

  /** In every run the search as written, which visits all combinations, answers an undelivered
      node as the intended one does, unless it reads beyond a list; and it does that exactly when
      some combination starts beyond a list before one with a disjoint family is examined. If no
      combination starts beyond a list it answers; if one does and there is nothing to find, not. */
  lemma FullSearchAgrees(net: Net, s: State, m: Packet, verdict: F.Verdict)
    requires ValidNet(net) && Reachable(net, s) && |s.nodes| == net.cfg.n && Enabled(net, s, Handle(m))
    requires !s.nodes[m.to].delivered
    requires F.Answers(Stored(net.cfg, net.source, s.nodes[m.to], m), net.source, net.cfg.f + 1, m.from, verdict)
    ensures var lists, k := Stored(net.cfg, net.source, s.nodes[m.to], m), net.cfg.f + 1;
            && (verdict.BeyondList? <==> F.ReadsBeyond(lists, net.source, k, m.from))
            && (!verdict.BeyondList? ==> (verdict.Disjoint? <==> NewestDisjoint(lists, net.source, k, m.from)))
            && (verdict.BeyondList? ==> F.SomeBeyond(lists, k, m.from))
            && (F.SomeBeyond(lists, k, m.from) && !NewestDisjoint(lists, net.source, k, m.from) ==> verdict.BeyondList?)
  {
    var lists := Stored(net.cfg, net.source, s.nodes[m.to], m);
    forall pick | Family(lists, pick, net.source) && |pick| == net.cfg.f + 1
      ensures Uses(lists, pick, m.from)
    {
      OnlyTheNewestPathMatters(net, s, m, pick);
    }
    F.AnswerIsRight(lists, net.source, net.cfg.f + 1, m.from, verdict);
  }

  // ---- No forgery ----

  /** Before the broadcast every trace of it carries a faulty node, and nobody has delivered. */
  ghost predicate Untouched(net: Net, s: State) {
    && (forall u | 0 <= u < |s.nodes| && Correct(net, u) ::
          !s.nodes[u].delivered && TaintedLists(net.faulty, s.nodes[u].lists))
    && (forall p | p in s.sent :: TaintedPath(net.faulty, p.path))
  }

  lemma AssembledTainted(net: Net, s: State, m: Packet)
    requires ValidNet(net) && Shape(net, s) && Untouched(net, s) && m in s.transit
    ensures TaintedPath(net.faulty, Assembled(net.source, m))
  {
    TaintedAssembled(net.faulty, net.source, m);
  }

  lemma StoredTainted(net: Net, s: State, m: Packet)
    requires ValidNet(net) && Shape(net, s) && Untouched(net, s) && m in s.transit && Correct(net, m.to)
    requires FitsIn(net.cfg, s.nodes[m.to], m)
    ensures TaintedLists(net.faulty, Stored(net.cfg, net.source, s.nodes[m.to], m))
  {
    AssembledTainted(net, s, m);
    TaintedStored(net.cfg, net.faulty, net.source, s.nodes[m.to], m);
  }

  lemma NotYetDelivering(net: Net, s: State, m: Packet)
    requires ValidNet(net) && Shape(net, s) && Untouched(net, s) && m in s.transit && Correct(net, m.to)
    requires FitsIn(net.cfg, s.nodes[m.to], m) && !Direct(net.cfg, net.source, m)
    ensures !Delivers(net.cfg, net.source, net.source, s.nodes[m.to], m)
  {
    StoredTainted(net, s, m);
    var lists := Stored(net.cfg, net.source, s.nodes[m.to], m);
    if NewestDisjoint(lists, net.source, net.cfg.f + 1, m.from) {
      var pick :| Family(lists, pick, net.source) && |pick| == net.cfg.f + 1 && Uses(lists, pick, m.from);
      TaintedFamilyIsSmall(net.faulty, lists, pick, net.source);
      assert false;
    }
  }

  lemma UntouchedHandle(net: Net, s: State, m: Packet)
    requires ValidNet(net) && Shape(net, s) && Untouched(net, s) && Enabled(net, s, Handle(m))
    requires !Direct(net.cfg, net.source, m)
    ensures Untouched(net, After(net, s, Handle(m)))
  {
    NotYetDelivering(net, s, m);
    StoredTainted(net, s, m);
    AssembledTainted(net, s, m);
    forall p | p in Out(net, s, m)
      ensures TaintedPath(net.faulty, p.path)
    {
      OutMember(net, s, m, p);
    }
  }

  /** MOD_1 is harmless when faulty nodes cannot bounce a forged copy off the
      source: the source has no faulty neighbour, or no correct one. */
  ghost predicate NoBounce(net: Net) {
    || (forall q | q in net.faulty :: !Linked(net, q, net.source))
    || (forall c | Correct(net, c) :: !Linked(net, net.source, c))
  }

  ghost predicate SourceSilent(net: Net, s: State) {
    (forall q | q in net.faulty :: !Linked(net, q, net.source)) ==>
      && (forall p | p in s.transit :: p.to != net.source)
      && (!s.broadcast ==> forall p | p in s.sent :: p.from != net.source)
  }

  lemma SourceSilentStep(net: Net, s: State, e: Event)
    requires ValidNet(net) && Shape(net, s) && Enabled(net, s, e) && SourceSilent(net, s)
    ensures SourceSilent(net, After(net, s, e))
  {
    if e.Handle? {
      forall p | p in Out(net, s, e.m)
        ensures p.to != net.source && p.from == e.m.to
      {
        OutMember(net, s, e.m, p);
      }
    }
  }

  lemma NoDirectDelivery(net: Net, s: State, m: Packet)
    requires ValidNet(net) && Shape(net, s) && SourceSilent(net, s) && !s.broadcast
    requires !net.cfg.mods.mod1 || NoBounce(net)
    requires m in s.transit && Correct(net, m.to)
    ensures !Direct(net.cfg, net.source, m)
  {
  }

  ghost predicate Unforged(net: Net, s: State) {
    Shape(net, s) && SourceSilent(net, s) && (!s.broadcast ==> Untouched(net, s))
  }

  lemma UnforgedStep(net: Net, s: State, e: Event)
    requires ValidNet(net) && (!net.cfg.mods.mod1 || NoBounce(net))
    requires Unforged(net, s) && Enabled(net, s, e)
    ensures Unforged(net, After(net, s, e))
  {
    ShapeStep(net, s, e);
    SourceSilentStep(net, s, e);
    if e.Handle? && !s.broadcast {
      NoDirectDelivery(net, s, e.m);
      UntouchedHandle(net, s, e.m);
    }
  }

  lemma {:induction false} UnforgedAlways(net: Net, events: seq<Event>)
    requires ValidNet(net) && (!net.cfg.mods.mod1 || NoBounce(net))
    requires Run(net, events).Some?
    ensures Unforged(net, Run(net, events).value)
  {
    if events != [] {
      var k := |events| - 1;
      UnforgedAlways(net, events[..k]);
      UnforgedStep(net, Run(net, events[..k]).value, events[k]);
    }
  }

  /** A correct node delivers only what the source has broadcast. */
  ghost predicate NoForgery(net: Net)
    requires ValidNet(net)
  {
    forall s, u: nat | Reachable(net, s) && u < |s.nodes| && Correct(net, u) ::
      s.nodes[u].delivered ==> s.broadcast
  }

  /** Before the broadcast no correct node has delivered, and every stored or
      relayed path contains a faulty node. */
  lemma TracesBeforeBroadcastAreTainted(net: Net, s: State)
    requires ValidNet(net) && (!net.cfg.mods.mod1 || NoBounce(net))
    requires Reachable(net, s) && !s.broadcast
    ensures Untouched(net, s)
  {
    var events :| Run(net, events) == Some(s);
    UnforgedAlways(net, events);
  }

  /** The forged copy that a correct source passes on under its own name. */
  function Bounce(net: Net, q: nat, c: nat): seq<Event> {
    [Inject(Packet(q, net.source, [])),
     Handle(Packet(q, net.source, [])),
     Handle(Packet(net.source, c, [q]))]
  }

  lemma BounceStarts(net: Net, q: nat, c: nat)
    requires ValidNet(net) && q in net.faulty && Linked(net, q, net.source)
    ensures Run(net, Bounce(net, q, c)[..1])
         == Some(Initial(net).(transit := multiset{Packet(q, net.source, [])}))
  {
    var e := Bounce(net, q, c)[0];
    assert Run(net, []) == Some(Initial(net));
    RunStep(net, [], e);
    assert Initial(net).transit + multiset{e.m} == multiset{e.m};
    assert [] + [e] == Bounce(net, q, c)[..1];
  }

  lemma BounceReachesSource(net: Net, q: nat, c: nat)
    requires ValidNet(net)
    requires q in net.faulty && Linked(net, q, net.source)
    requires Correct(net, c) && Linked(net, net.source, c)
    ensures var r := Run(net, Bounce(net, q, c)[..2]);
            && r.Some? && r.value.nodes[c] == NodeState(false, NoLists(net.cfg.n), {})
            && Packet(net.source, c, [q]) in r.value.transit && !r.value.broadcast
  {
    var es := Bounce(net, q, c);
    var m := Packet(q, net.source, []);
    BounceStarts(net, q, c);
    var s1 := Initial(net).(transit := multiset{m});
    RunStep(net, es[..1], Handle(m));
    assert es[..1] + [Handle(m)] == es[..2];
    assert c != net.source;
    SubsetCard({q}, net.faulty);
    NoLoneDelivery(net.cfg, net.source, net.source, m);
    assert Assembled(net.source, m) == [q];
    OutMember(net, s1, m, Packet(net.source, c, [q]));
  }

  lemma BounceForges(net: Net, q: nat, c: nat)
    requires ValidNet(net) && net.cfg.mods.mod1
    requires q in net.faulty && Linked(net, q, net.source)
    requires Correct(net, c) && Linked(net, net.source, c)
    ensures var r := Run(net, Bounce(net, q, c));
            r.Some? && r.value.nodes[c].delivered && !r.value.broadcast
  {
    var es := Bounce(net, q, c);
    BounceReachesSource(net, q, c);
    var s2 := Run(net, es[..2]).value;
    var m := Packet(net.source, c, [q]);
    assert c != net.source;
    assert s2.nodes[c] == NodeState(false, NoLists(net.cfg.n), {});
    RunStep(net, es[..2], es[2]);
    assert es[..2] + [es[2]] == es;
  }

  /** Forgery is excluded exactly when MOD_1 is off, or the source lacks faulty
      neighbours, or lacks correct ones. MOD_2, MOD_4 and MOD_5 are arbitrary. */
  lemma NoForgeryExactly(net: Net)
    requires ValidNet(net)
    ensures NoForgery(net) <==> !net.cfg.mods.mod1 || NoBounce(net)
  {
    if !net.cfg.mods.mod1 || NoBounce(net) {
      forall s, u: nat | Reachable(net, s) && u < |s.nodes| && Correct(net, u)
        ensures s.nodes[u].delivered ==> s.broadcast
      {
        if !s.broadcast { TracesBeforeBroadcastAreTainted(net, s); }
      }
    } else {
      var q: nat :| q in net.faulty && Linked(net, q, net.source);
      var c: nat :| Correct(net, c) && Linked(net, net.source, c);
      BounceForges(net, q, c);
      var s := Run(net, Bounce(net, q, c)).value;
      assert Reachable(net, s);
    }
  }
}
