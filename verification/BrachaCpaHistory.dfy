/**
  What a node of Bracha over certified propagation has counted and sent, in every run and on every
  graph: exactly what the copies it has heard make certain.
 */
module BrachaCpaHistory {
  import opened Counting
  import opened Options
  import opened Phases
  import opened Topology
  import opened BrachaCpa
  import opened BrachaCpaDelivery

  /** An Echo or Ready is counted when it is certain, or when it is the node's own. */
  ghost predicate CountedFor(cfg: Config, own: set<Key>, u: nat, st: NodeState, key: Key) {
    key.origin in HeardFrom(st, key.kind) <==> Certain(cfg, st, key) || (key.origin == u && key in own)
  }

  /** Either kind of message puts its originator among those that call for the own Echo. */
  ghost predicate BothFor(cfg: Config, st: NodeState, e: nat) {
    e in st.both <==> Certain(cfg, st, Key(Echo, e)) || Certain(cfg, st, Key(Ready, e))
  }

  /** What the node sent as its own was due. */
  ghost predicate OwnWasDue(cfg: Config, own: set<Key>, u: nat, st: NodeState) {
    && (Key(Echo, u) in own ==> u == cfg.broadcaster || EchoDue(cfg, st))
    && (Key(Ready, u) in own ==> IsReady(cfg, st))
  }

  ghost predicate NodeFollows(cfg: Config, own: set<Key>, u: nat, st: NodeState) {
    && (forall key :: CountedFor(cfg, own, u, st, key)) && (forall e :: BothFor(cfg, st, e))
    && OwnWasDue(cfg, own, u, st)
    && (st.delivered <==> |st.readys| >= QuorumSize(cfg.n, cfg.f))
  }

  lemma CertainNext(cfg: Config, st: NodeState, m: Message, key: Key)
    requires NotValidated(cfg, st.heard, m.key)
    ensures Certain(cfg, Received(cfg, st, m), key)
       <==> Certain(cfg, st, key) || (key == m.key && Validates(cfg, Noted(st, m), m))
  {
    HeardStays(cfg, st, m);
    if !Certain(cfg, st, key) && Certain(cfg, Received(cfg, st, m), key) { NewlyCertain(cfg, st, m, key); }
    ReceivedHeard(cfg, st, m);
  }

  /** The set, with `x` in case. */
  function With(some: set<nat>, yes: bool, x: nat): set<nat> {
    if yes then some + {x} else some
  }

  lemma BeforeSets(cfg: Config, st: NodeState, m: Message)
    ensures var before, valid, e := Before(cfg, st, m), Validates(cfg, Noted(st, m), m), m.key.origin;
            && before.echoes == With(st.echoes, valid && m.key.kind == Echo, e)
            && before.readys == With(st.readys, valid && m.key.kind == Ready, e)
            && before.both == With(st.both, valid, e)
  {
  }

  lemma OwnedSets(self: nat, st: NodeState, own: Option<Kind>)
    ensures var after := Owned(self, st, own);
            && after.echoes == With(st.echoes, own == Some(Echo), self)
            && after.readys == With(st.readys, own == Some(Ready), self) && after.both == st.both
  {
  }

  /** Who is counted after one more message. */
  lemma SetsNext(cfg: Config, st: NodeState, m: Message)
    requires NotValidated(cfg, st.heard, m.key)
    ensures var after, valid, e := Received(cfg, st, m), Validates(cfg, Noted(st, m), m), m.key.origin;
            var own := OwnSent(cfg, st, m);
            && after.echoes == With(With(st.echoes, valid && m.key.kind == Echo, e), own == Some(Echo), m.to)
            && after.readys == With(With(st.readys, valid && m.key.kind == Ready, e), own == Some(Ready), m.to)
            && after.both == With(st.both, valid, e)
  {
    var before := Before(cfg, st, m);
    BeforeSets(cfg, st, m);
    OwnedSets(m.to, before, OwnMessage(cfg, before));
    ReceivedIsOwned(cfg, st, m);
  }

  lemma CountedForNext(net: Net, s: State, m: Message, key: Key)
    requires |s.nodes| == net.cfg.n && Enabled(net, s, Handle(m))
    requires CountedFor(net.cfg, s.own, m.to, s.nodes[m.to], key)
    ensures CountedFor(net.cfg, s.own + OwnKey(net, s, m), m.to, Received(net.cfg, s.nodes[m.to], m), key)
  {
    var st := s.nodes[m.to];
    assert key == Key(key.kind, key.origin);
    if NotValidated(net.cfg, st.heard, m.key) {
      CertainNext(net.cfg, st, m, key);
      HeardNext(net.cfg, st, m, key);
    }
  }

  lemma HeardNext(cfg: Config, st: NodeState, m: Message, key: Key)
    requires NotValidated(cfg, st.heard, m.key)
    ensures key.origin in HeardFrom(Received(cfg, st, m), key.kind) <==>
              || key.origin in HeardFrom(st, key.kind) || (key == m.key && Validates(cfg, Noted(st, m), m))
              || (key.origin == m.to && OwnSent(cfg, st, m) == Some(key.kind))
  {
    SetsNext(cfg, st, m);
    HeardIn(st, Received(cfg, st, m), m, Validates(cfg, Noted(st, m), m), OwnSent(cfg, st, m), key);
  }

  lemma HeardIn(st: NodeState, after: NodeState, m: Message, valid: bool, own: Option<Kind>, key: Key)
    requires after.echoes == With(With(st.echoes, valid && m.key.kind == Echo, m.key.origin), own == Some(Echo), m.to)
    requires after.readys == With(With(st.readys, valid && m.key.kind == Ready, m.key.origin), own == Some(Ready), m.to)
    ensures key.origin in HeardFrom(after, key.kind) <==>
              || key.origin in HeardFrom(st, key.kind) || (key == m.key && valid)
              || (key.origin == m.to && own == Some(key.kind))
  {
    assert key == Key(key.kind, key.origin) && m.key == Key(m.key.kind, m.key.origin);
  }

  lemma BothForNext(cfg: Config, st: NodeState, m: Message, e: nat)
    requires BothFor(cfg, st, e)
    ensures BothFor(cfg, Received(cfg, st, m), e)
  {
    assert m.key == Key(m.key.kind, m.key.origin);
    if NotValidated(cfg, st.heard, m.key) {
      CertainNext(cfg, st, m, Key(Echo, e));
      CertainNext(cfg, st, m, Key(Ready, e));
      SetsNext(cfg, st, m);
    }
  }

  lemma DueStays(cfg: Config, st: NodeState, m: Message)
    ensures EchoDue(cfg, st) ==> EchoDue(cfg, Received(cfg, st, m))
    ensures IsReady(cfg, st) ==> IsReady(cfg, Received(cfg, st, m))
  {
    if NotValidated(cfg, st.heard, m.key) {
      var after := Received(cfg, st, m);
      HeardStays(cfg, st, m);
      SetsNext(cfg, st, m);
      SubsetCard(st.both, after.both);
      SubsetCard(st.echoes, after.echoes);
      SubsetCard(st.readys, after.readys);
      SubsetCard(Heard(st.heard, Key(Echo, cfg.broadcaster)), Heard(after.heard, Key(Echo, cfg.broadcaster)));
    }
  }

  /** What is sent now is due now. */
  lemma OwnIsDue(cfg: Config, st: NodeState, m: Message)
    ensures OwnSent(cfg, st, m) == Some(Echo) ==> EchoDue(cfg, Received(cfg, st, m))
    ensures OwnSent(cfg, st, m) == Some(Ready) ==> IsReady(cfg, Received(cfg, st, m))
  {
    if NotValidated(cfg, st.heard, m.key) {
      var before, after := Before(cfg, st, m), Received(cfg, st, m);
      ReceivedIsOwned(cfg, st, m);
      OwnedMonotone(m.to, before, OwnMessage(cfg, before));
      SubsetCard(before.readys, after.readys);
    }
  }

  lemma HandleFollows(net: Net, s: State, m: Message)
    requires |s.nodes| == net.cfg.n && Enabled(net, s, Handle(m)) && NodeFollows(net.cfg, s.own, m.to, s.nodes[m.to])
    ensures NodeFollows(net.cfg, s.own + OwnKey(net, s, m), m.to, Received(net.cfg, s.nodes[m.to], m))
  {
    var st, after, own := s.nodes[m.to], Received(net.cfg, s.nodes[m.to], m), s.own + OwnKey(net, s, m);
    forall key ensures CountedFor(net.cfg, own, m.to, after, key) { CountedForNext(net, s, m, key); }
    forall e ensures BothFor(net.cfg, after, e) { BothForNext(net.cfg, st, m, e); }
    DueStays(net.cfg, st, m);
    OwnIsDue(net.cfg, st, m);
    DeliveredFollows(net.cfg, st, m);
  }

  lemma DeliveredFollows(cfg: Config, st: NodeState, m: Message)
    requires st.delivered <==> |st.readys| >= QuorumSize(cfg.n, cfg.f)
    ensures var after := Received(cfg, st, m); after.delivered <==> |after.readys| >= QuorumSize(cfg.n, cfg.f)
  {
    DeliveredKeeps(cfg, st, m);
  }

  // ---- Runs ----

  ghost predicate AllFollow(net: Net, s: State) {
    |s.nodes| == net.cfg.n
    && forall u {:trigger NodeFollows(net.cfg, s.own, u, s.nodes[u])} | 0 <= u < net.cfg.n ::
         NodeFollows(net.cfg, s.own, u, s.nodes[u])
  }

  /** Own messages of others do not matter. */
  lemma OtherFollows(cfg: Config, own: set<Key>, more: set<Key>, u: nat, st: NodeState)
    requires NodeFollows(cfg, own, u, st) && forall key | key in more :: key.origin != u
    ensures NodeFollows(cfg, own + more, u, st)
  {
    forall key
      ensures CountedFor(cfg, own + more, u, st, key)
    {
      assert CountedFor(cfg, own, u, st, key);
    }
  }

  lemma BroadcasterFollows(cfg: Config, own: set<Key>, st: NodeState)
    requires NodeFollows(cfg, own, cfg.broadcaster, st)
    ensures NodeFollows(cfg, own + {Key(Echo, cfg.broadcaster)}, cfg.broadcaster,
                        st.(sentEcho := true, echoes := st.echoes + {cfg.broadcaster}))
  {
    var b, more := cfg.broadcaster, own + {Key(Echo, cfg.broadcaster)};
    var after := st.(sentEcho := true, echoes := st.echoes + {b});
    SubsetCard(st.echoes, after.echoes);
    forall key
      ensures CountedFor(cfg, more, b, after, key)
    {
      assert CountedFor(cfg, own, b, st, key) && key == Key(key.kind, key.origin);
    }
    forall e ensures BothFor(cfg, after, e) { assert BothFor(cfg, st, e); }
  }

  lemma FollowStep(net: Net, s: State, e: Event)
    requires ValidNet(net) && AllFollow(net, s) && Enabled(net, s, e)
    ensures AllFollow(net, After(net, s, e))
  {
    var next := After(net, s, e);
    forall u | 0 <= u < net.cfg.n
      ensures NodeFollows(net.cfg, next.own, u, next.nodes[u])
    {
      assert NodeFollows(net.cfg, s.own, u, s.nodes[u]);
      match e
      case Broadcast =>
        if u == net.cfg.broadcaster {
          BroadcasterFollows(net.cfg, s.own, s.nodes[u]);
        } else {
          OtherFollows(net.cfg, s.own, {Key(Echo, net.cfg.broadcaster)}, u, s.nodes[u]);
        }
      case Handle(m) =>
        if u == m.to {
          HandleFollows(net, s, m);
        } else {
          OtherFollows(net.cfg, s.own, OwnKey(net, s, m), u, s.nodes[u]);
        }
      case _ =>
    }
  }

  lemma FreshFollows(cfg: Config, u: nat)
    requires QuorumSize(cfg.n, cfg.f) > 0
    ensures NodeFollows(cfg, {}, u, FRESH)
  {
  }

  /** In every run each node's validated sets, own messages and delivery are exactly those that the
      copies it has heard call for. */
  lemma {:induction false} CountsFollowFromCopies(net: Net, events: seq<Event>)
    requires ValidNet(net) && Run(net, events).Some?
    ensures AllFollow(net, Run(net, events).value)
  {
    if events == [] {
      forall u: nat ensures NodeFollows(net.cfg, {}, u, FRESH) { FreshFollows(net.cfg, u); }
    } else {
      var k := |events| - 1;
      CountsFollowFromCopies(net, events[..k]);
      FollowStep(net, Run(net, events[..k]).value, events[k]);
    }
  }
}
