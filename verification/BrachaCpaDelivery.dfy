/**
  Validity and totality of Bracha over certified propagation, on graphs in which a message of
  any correct node can be certified step by step to all others. A node that sends its Ready
  first never sends its Echo, and so validity needs more correct nodes than an echo quorum.
 */
module BrachaCpaDelivery {
  import opened Counting
  import opened Options
  import opened Phases
  import opened Topology
  import opened BrachaCpa
  import R = Routes

  /** Few enough faults, and somebody to talk to. */
  ghost predicate Resilient(net: Net) {
    ValidNet(net) && R.Links(net.neighbors) && net.cfg.n >= 3 * net.cfg.f + 1 && net.cfg.n >= 2
  }

  ghost predicate Linked(net: Net, u: nat, v: nat) {
    R.Linked(net.neighbors, u, v)
  }

  function HeardFrom(st: NodeState, kind: Kind): set<nat> {
    match kind
    case Echo => st.echoes
    case Ready => st.readys
  }

  // ---- What a node keeps ----

  predicate Certain(cfg: Config, st: NodeState, key: Key) {
    !NotValidated(cfg, st.heard, key)
  }

  /** What is certain has been counted. */
  ghost predicate Counted(cfg: Config, st: NodeState) {
    forall key | Certain(cfg, st, key) :: key.origin in HeardFrom(st, key.kind)
  }

  /** Before its Echo a node has counted what it validated and nothing else, and no Echo is due. */
  ghost predicate Waits(cfg: Config, st: NodeState) {
    && !st.sentReady && !EchoDue(cfg, st) && cfg.broadcaster !in st.echoes
    && st.echoes <= st.both && st.readys <= st.both
  }

  /** The flags have followed the sets, except that the own Echo may complete a quorum unnoticed,
      as long as the broadcaster's Ready has not come. */
  ghost predicate NodeLive(cfg: Config, st: NodeState) {
    && Counted(cfg, st)
    && (!st.sentEcho ==> Waits(cfg, st))
    && (!st.sentReady ==> |st.readys| <= cfg.f)
    && (!st.sentReady && |st.echoes| >= QuorumSize(cfg.n, cfg.f) ==> cfg.broadcaster !in st.readys)
    && (|st.readys| >= QuorumSize(cfg.n, cfg.f) ==> st.delivered)
  }

  lemma BeforeHeard(cfg: Config, st: NodeState, m: Message)
    ensures var before := Before(cfg, st, m);
            before.heard == Noted(st, m).heard && before.sentEcho == st.sentEcho && before.sentReady == st.sentReady
  {
  }

  lemma OwnedHeard(self: nat, st: NodeState, own: Option<Kind>)
    ensures Owned(self, st, own).heard == st.heard
    ensures forall kind :: HeardFrom(st, kind) <= HeardFrom(Owned(self, st, own), kind)
  {
  }

  lemma ReceivedHeard(cfg: Config, st: NodeState, m: Message)
    requires NotValidated(cfg, st.heard, m.key)
    ensures Received(cfg, st, m).heard == Noted(st, m).heard
    ensures forall kind :: HeardFrom(Before(cfg, st, m), kind) <= HeardFrom(Received(cfg, st, m), kind)
  {
    var before := Before(cfg, st, m);
    BeforeHeard(cfg, st, m);
    OwnedHeard(m.to, before, OwnMessage(cfg, before));
    ReceivedIsOwned(cfg, st, m);
  }

  /** Only the delivery flag is set after the own message. */
  lemma ReceivedIsOwned(cfg: Config, st: NodeState, m: Message)
    requires NotValidated(cfg, st.heard, m.key)
    ensures var before := Before(cfg, st, m);
            Received(cfg, st, m)
                == Owned(m.to, before, OwnMessage(cfg, before)).(delivered := Received(cfg, st, m).delivered)
  {
  }

  lemma CountedNext(cfg: Config, st: NodeState, m: Message)
    requires Counted(cfg, st)
    ensures Counted(cfg, Received(cfg, st, m))
  {
    if NotValidated(cfg, st.heard, m.key) {
      ReceivedHeard(cfg, st, m);
      forall key | Certain(cfg, Received(cfg, st, m), key)
        ensures key.origin in HeardFrom(Received(cfg, st, m), key.kind)
      {
        CertainBefore(cfg, st, m, key);
      }
    }
  }

  lemma CertainBefore(cfg: Config, st: NodeState, m: Message, key: Key)
    requires NotValidated(cfg, st.heard, m.key) && Counted(cfg, st) && Certain(cfg, Noted(st, m), key)
    ensures key.origin in HeardFrom(Before(cfg, st, m), key.kind)
  {
    if key == m.key {
      assert Validates(cfg, Noted(st, m), m);
    } else {
      assert Heard(Noted(st, m).heard, key) == Heard(st.heard, key) && Certain(cfg, st, key);
    }
  }

  /** Until its Echo is due, a node has counted at most `f` nodes, and then one more. */
  lemma FewBefore(cfg: Config, st: NodeState, m: Message)
    requires !st.sentEcho && Waits(cfg, st)
    ensures var before := Before(cfg, st, m);
            before.echoes <= before.both && before.readys <= before.both && |before.both| <= cfg.f + 1
  {
    assert |st.both + {m.key.origin}| <= |st.both| + 1;
  }

  /** The broadcaster's Echo, coming after its Ready, adds nobody. */
  lemma LateEcho(cfg: Config, st: NodeState, m: Message)
    requires !st.sentEcho && Waits(cfg, st) && m.key == Key(Echo, cfg.broadcaster)
    requires cfg.broadcaster in Before(cfg, st, m).readys
    ensures |Before(cfg, st, m).echoes| <= cfg.f
  {
    var before := Before(cfg, st, m);
    assert before.readys == st.readys && cfg.broadcaster in st.both;
    assert before.both == st.both && before.echoes <= st.both;
    SubsetCard(before.echoes, st.both);
  }

  lemma NoEchoYet(cfg: Config, st: NodeState, m: Message)
    requires !st.sentEcho && Waits(cfg, st) && m.key != Key(Echo, cfg.broadcaster)
    requires cfg.broadcaster in Before(cfg, st, m).readys
    ensures |Before(cfg, st, m).echoes| <= cfg.f
  {
    var b, before := cfg.broadcaster, Before(cfg, st, m);
    FewBefore(cfg, st, m);
    assert b !in before.echoes && b in before.both;
    SubsetCard(before.echoes + {b}, before.both);
  }

  /** An own Echo that completes a quorum precedes the broadcaster's Ready. */
  lemma EchoBeforeReady(cfg: Config, st: NodeState, m: Message)
    requires !st.sentEcho && Waits(cfg, st) && cfg.broadcaster in Before(cfg, st, m).readys
    ensures |Before(cfg, st, m).echoes| <= cfg.f
  {
    if m.key == Key(Echo, cfg.broadcaster) { LateEcho(cfg, st, m); } else { NoEchoYet(cfg, st, m); }
  }

  /** A node that has not sent its Echo goes on waiting, unless it sends something. */
  lemma WaitsNext(cfg: Config, st: NodeState, m: Message)
    requires !st.sentEcho && Waits(cfg, st) && NotValidated(cfg, st.heard, m.key)
    requires OwnMessage(cfg, Before(cfg, st, m)).None?
    ensures Waits(cfg, Received(cfg, st, m))
  {
    var before := Before(cfg, st, m);
    FewBefore(cfg, st, m);
    ReceivedIsOwned(cfg, st, m);
    assert cfg.broadcaster !in before.echoes;
  }

  /** An own Echo may leave a quorum unnoticed only without the broadcaster's Ready. */
  lemma QuorumNext(cfg: Config, st: NodeState, m: Message)
    requires QuorumSize(cfg.n, cfg.f) >= cfg.f + 2 && NodeLive(cfg, st) && NotValidated(cfg, st.heard, m.key)
    requires var after := Received(cfg, st, m); !after.sentReady && |after.echoes| >= QuorumSize(cfg.n, cfg.f)
    ensures cfg.broadcaster !in Received(cfg, st, m).readys
  {
    var before := Before(cfg, st, m);
    if cfg.broadcaster in before.readys && OwnMessage(cfg, before) == Some(Echo) { EchoBeforeReady(cfg, st, m); }
  }

  lemma NodeLiveNext(cfg: Config, st: NodeState, m: Message)
    requires QuorumSize(cfg.n, cfg.f) >= cfg.f + 2 && NodeLive(cfg, st)
    ensures NodeLive(cfg, Received(cfg, st, m))
  {
    if NotValidated(cfg, st.heard, m.key) {
      var after := Received(cfg, st, m);
      CountedNext(cfg, st, m);
      if !after.sentEcho { WaitsNext(cfg, st, m); }
      if !after.sentReady && |after.echoes| >= QuorumSize(cfg.n, cfg.f) { QuorumNext(cfg, st, m); }
    }
  }

  // ---- What the network keeps ----

  /** `w` needs no more copies: it is the originator, or certain. */
  ghost predicate Knows(net: Net, s: State, w: nat, key: Key)
    requires w < |s.nodes|
  {
    w == key.origin || Certain(net.cfg, s.nodes[w], key)
  }

  /** `p` has sent the message, as its own or on. */
  ghost predicate Holder(net: Net, s: State, p: nat, key: Key)
    requires p < |s.nodes|
  {
    if p == key.origin then key in s.own else Certain(net.cfg, s.nodes[p], key)
  }

  ghost predicate Reached(net: Net, s: State, p: nat, w: nat, key: Key)
    requires w < |s.nodes|
  {
    Message(key, p, w) in s.transit || Knows(net, s, w, key) || p in Heard(s.nodes[w].heard, key)
  }

  /** What a correct node holds has reached its correct neighbours, or is on its way. */
  ghost predicate Spread(net: Net, s: State)
    requires |s.nodes| == net.cfg.n
  {
    forall p: nat, w: nat, key | Correct(net, p) && Correct(net, w) && Linked(net, p, w) && Holder(net, s, p, key) ::
      Reached(net, s, p, w, key)
  }

  /** Whoever passed a message on knows it. */
  ghost predicate Vouched(net: Net, s: State)
    requires |s.nodes| == net.cfg.n
  {
    && (forall m | m in s.transit && Correct(net, m.from) :: Knows(net, s, m.from, m.key))
    && (forall u: nat, w: nat, key | u < net.cfg.n && Correct(net, w) && w in Heard(s.nodes[u].heard, key) ::
         Knows(net, s, w, key))
  }

  /** Flags, sets and sent messages agree. */
  ghost predicate OwnLive(own: set<Key>, u: nat, st: NodeState) {
    && (Key(Echo, u) in own ==> u in st.echoes && st.sentEcho)
    && (Key(Ready, u) in own <==> st.sentReady) && (st.sentReady ==> u in st.readys && st.sentEcho)
    && (st.sentEcho ==> Key(Echo, u) in own || st.sentReady)
  }

  ghost predicate NodesLive(net: Net, s: State) {
    |s.nodes| == net.cfg.n
    && forall u {:trigger NodeLive(net.cfg, s.nodes[u])} | 0 <= u < net.cfg.n && Correct(net, u) ::
         NodeLive(net.cfg, s.nodes[u]) && OwnLive(s.own, u, s.nodes[u])
  }

  /** A correct broadcaster starts, and never overlooks a quorum. */
  ghost predicate StartLive(net: Net, s: State)
    requires |s.nodes| == net.cfg.n
  {
    var b := net.cfg.broadcaster;
    Correct(net, b) && s.own != {} ==>
      && Key(Echo, b) in s.own
      && (s.nodes[b].sentReady || |s.nodes[b].echoes| < QuorumSize(net.cfg.n, net.cfg.f))
  }

  /** The first correct node that sent its Ready had sent its Echo before. */
  ghost predicate FirstReady(own: set<Key>) {
    (exists e :: Key(Ready, e) in own) ==> exists e :: Key(Ready, e) in own && Key(Echo, e) in own
  }

  ghost predicate Live(net: Net, s: State) {
    NetKeeps(net, s) && NodesLive(net, s) && Spread(net, s) && Vouched(net, s) && StartLive(net, s) && FirstReady(s.own)
  }

  // ---- Nothing is lost ----

  lemma HeardStays(cfg: Config, st: NodeState, m: Message)
    ensures forall key :: Heard(st.heard, key) <= Heard(Received(cfg, st, m).heard, key)
    ensures forall key | Certain(cfg, st, key) :: Certain(cfg, Received(cfg, st, m), key)
    ensures Certain(cfg, Received(cfg, st, m), m.key) || m.from in Heard(Received(cfg, st, m).heard, m.key)
  {
    if NotValidated(cfg, st.heard, m.key) {
      ReceivedHeard(cfg, st, m);
      forall key | Certain(cfg, st, key)
        ensures Certain(cfg, Noted(st, m), key)
      {
        SubsetCard(Heard(st.heard, key), Heard(Noted(st, m).heard, key));
      }
    }
  }

  /** Only the message at hand can have become certain, and only by being validated. */
  lemma NewlyCertain(cfg: Config, st: NodeState, m: Message, key: Key)
    requires !Certain(cfg, st, key) && Certain(cfg, Received(cfg, st, m), key)
    ensures key == m.key && NotValidated(cfg, st.heard, m.key) && Validates(cfg, Noted(st, m), m)
  {
    if NotValidated(cfg, st.heard, m.key) {
      ReceivedHeard(cfg, st, m);
      assert key != m.key ==> Heard(Noted(st, m).heard, key) == Heard(st.heard, key);
    }
  }

  lemma KnowsStays(net: Net, s: State, m: Message, w: nat, key: Key)
    requires |s.nodes| == net.cfg.n == |net.neighbors| && Enabled(net, s, Handle(m)) && w < net.cfg.n
    requires Knows(net, s, w, key)
    ensures Knows(net, After(net, s, Handle(m)), w, key)
  {
    HeardStays(net.cfg, s.nodes[m.to], m);
  }

  lemma ReachedStays(net: Net, s: State, m: Message, p: nat, w: nat, key: Key)
    requires |s.nodes| == net.cfg.n == |net.neighbors| && Enabled(net, s, Handle(m)) && w < net.cfg.n
    requires Reached(net, s, p, w, key)
    ensures Reached(net, After(net, s, Handle(m)), p, w, key)
  {
    HeardStays(net.cfg, s.nodes[m.to], m);
  }

  /** What a node validates goes to every neighbour it has not heard it from. */
  lemma SentOn(net: Net, s: State, m: Message, w: nat)
    requires |s.nodes| == net.cfg.n == |net.neighbors| && Enabled(net, s, Handle(m)) && Linked(net, m.to, w)
    requires NotValidated(net.cfg, s.nodes[m.to].heard, m.key) && Validates(net.cfg, Noted(s.nodes[m.to], m), m)
    ensures Message(m.key, m.to, w) in After(net, s, Handle(m)).transit ||
            w in Heard(Noted(s.nodes[m.to], m).heard, m.key)
  {
    var noted, sent := Noted(s.nodes[m.to], m), Message(m.key, m.to, w);
    ToNeighborsMember(m.to, net.neighbors[m.to], m.key, Heard(noted.heard, m.key), sent);
    if w !in Heard(noted.heard, m.key) { assert sent in Sent(net.cfg, net.neighbors[m.to], s.nodes[m.to], m); }
  }

  /** An own message goes to every neighbour. */
  lemma OwnSentOn(net: Net, s: State, m: Message, key: Key, w: nat)
    requires |s.nodes| == net.cfg.n == |net.neighbors| && Enabled(net, s, Handle(m)) && Linked(net, m.to, w)
    requires key in OwnKey(net, s, m)
    ensures Message(key, m.to, w) in After(net, s, Handle(m)).transit
  {
    ToNeighborsMember(m.to, net.neighbors[m.to], key, {}, Message(key, m.to, w));
    assert Message(key, m.to, w) in Sent(net.cfg, net.neighbors[m.to], s.nodes[m.to], m);
  }

  lemma SpreadHandle(net: Net, s: State, m: Message)
    requires Resilient(net) && |s.nodes| == net.cfg.n && Spread(net, s) && Vouched(net, s) && Enabled(net, s, Handle(m))
    ensures Spread(net, After(net, s, Handle(m)))
  {
    var next := After(net, s, Handle(m));
    forall p: nat, w: nat, key | Correct(net, p) && Correct(net, w) && Linked(net, p, w) && Holder(net, next, p, key)
      ensures Reached(net, next, p, w, key)
    {
      if Holder(net, s, p, key) {
        ReachedStays(net, s, m, p, w, key);
      } else {
        NewHolder(net, s, m, p, w, key);
      }
    }
  }

  lemma NewHolder(net: Net, s: State, m: Message, p: nat, w: nat, key: Key)
    requires Resilient(net) && |s.nodes| == net.cfg.n && Vouched(net, s) && Enabled(net, s, Handle(m))
    requires Correct(net, p) && Correct(net, w) && Linked(net, p, w)
    requires !Holder(net, s, p, key) && Holder(net, After(net, s, Handle(m)), p, key)
    ensures Reached(net, After(net, s, Handle(m)), p, w, key)
  {
    if p == key.origin {
      OwnSentOn(net, s, m, key, w);
    } else {
      NewlyCertain(net.cfg, s.nodes[p], m, key);
      SentOn(net, s, m, w);
      if w in Heard(Noted(s.nodes[p], m).heard, key) {
        assert w == m.from || w in Heard(s.nodes[p].heard, key);
        KnowsStays(net, s, m, w, key);
      }
    }
  }

  lemma VouchedHandle(net: Net, s: State, m: Message)
    requires Resilient(net) && |s.nodes| == net.cfg.n && Vouched(net, s) && Enabled(net, s, Handle(m))
    ensures Vouched(net, After(net, s, Handle(m)))
  {
    var next := After(net, s, Handle(m));
    forall p | p in next.transit && Correct(net, p.from)
      ensures Knows(net, next, p.from, p.key)
    {
      if p in s.transit { KnowsStays(net, s, m, p.from, p.key); } else { SentIsKnown(net, s, m, p); }
    }
    forall u: nat, w: nat, key | u < net.cfg.n && Correct(net, w) && w in Heard(next.nodes[u].heard, key)
      ensures Knows(net, next, w, key)
    {
      HeardIsNoted(net.cfg, s.nodes[m.to], m, key, w);
      KnowsStays(net, s, m, w, key);
    }
  }

  lemma HeardIsNoted(cfg: Config, st: NodeState, m: Message, key: Key, w: nat)
    ensures w in Heard(Received(cfg, st, m).heard, key) ==> w in Heard(st.heard, key) || (key == m.key && w == m.from)
  {
    if NotValidated(cfg, st.heard, m.key) { ReceivedHeard(cfg, st, m); }
  }

  lemma SentIsKnown(net: Net, s: State, m: Message, p: Message)
    requires Resilient(net) && |s.nodes| == net.cfg.n && Enabled(net, s, Handle(m))
    requires p in Sent(net.cfg, net.neighbors[m.to], s.nodes[m.to], m)
    ensures p.from == m.to && Knows(net, After(net, s, Handle(m)), m.to, p.key)
  {
    SentKeys(net, s, m, p);
    if p.key !in OwnKey(net, s, m) { ReceivedHeard(net.cfg, s.nodes[m.to], m); }
  }

  // ---- Flags and own messages ----

  lemma OwnLiveHandle(net: Net, s: State, m: Message)
    requires |s.nodes| == net.cfg.n && Enabled(net, s, Handle(m)) && NodeLive(net.cfg, s.nodes[m.to])
    requires OwnLive(s.own, m.to, s.nodes[m.to])
    ensures OwnLive(s.own + OwnKey(net, s, m), m.to, Received(net.cfg, s.nodes[m.to], m))
  {
    var st := s.nodes[m.to];
    if NotValidated(net.cfg, st.heard, m.key) {
      var before := Before(net.cfg, st, m);
      BeforeHeard(net.cfg, st, m);
      BeforeMonotone(net.cfg, st, m);
      OwnLiveOwned(s.own, m.to, before, OwnMessage(net.cfg, before), OwnKey(net, s, m));
      ReceivedIsOwned(net.cfg, st, m);
    }
  }

  lemma OwnLiveOwned(sent: set<Key>, u: nat, st: NodeState, own: Option<Kind>, keys: set<Key>)
    requires OwnLive(sent, u, st) && keys == match own case None => {} case Some(kind) => {Key(kind, u)}
    ensures OwnLive(sent + keys, u, Owned(u, st, own))
  {
  }

  lemma OwnLiveOther(own: set<Key>, more: set<Key>, u: nat, st: NodeState)
    requires OwnLive(own, u, st) && forall key | key in more :: key.origin != u
    ensures OwnLive(own + more, u, st)
  {
  }

  lemma NodesLiveHandle(net: Net, s: State, m: Message)
    requires Resilient(net) && NodesLive(net, s) && Enabled(net, s, Handle(m))
    ensures NodesLive(net, After(net, s, Handle(m)))
  {
    var next := After(net, s, Handle(m));
    forall u | 0 <= u < net.cfg.n && Correct(net, u)
      ensures NodeLive(net.cfg, next.nodes[u]) && OwnLive(next.own, u, next.nodes[u])
    {
      assert NodeLive(net.cfg, s.nodes[u]);
      if u == m.to {
        NodeLiveNext(net.cfg, s.nodes[u], m);
        OwnLiveHandle(net, s, m);
      } else {
        OwnLiveOther(s.own, OwnKey(net, s, m), u, s.nodes[u]);
      }
    }
  }

  /** A broadcaster that has sent its Echo notices every quorum. */
  lemma QuorumNoticed(cfg: Config, st: NodeState, m: Message)
    requires st.sentEcho && (st.sentReady || |st.echoes| < QuorumSize(cfg.n, cfg.f))
    ensures var after := Received(cfg, st, m); after.sentReady || |after.echoes| < QuorumSize(cfg.n, cfg.f)
  {
    if NotValidated(cfg, st.heard, m.key) {
      BeforeHeard(cfg, st, m);
      ReceivedIsOwned(cfg, st, m);
    }
  }

  lemma StartLiveHandle(net: Net, s: State, m: Message)
    requires Resilient(net) && NetKeeps(net, s) && NodesLive(net, s) && StartLive(net, s) && Enabled(net, s, Handle(m))
    ensures StartLive(net, After(net, s, Handle(m)))
  {
    var b := net.cfg.broadcaster;
    if Correct(net, b) {
      if s.own == {} {
        NothingOwnYet(net, s, m);
      } else if m.to == b {
        assert NodeLive(net.cfg, s.nodes[b]) && OwnLive(s.own, b, s.nodes[b]);
        QuorumNoticed(net.cfg, s.nodes[b], m);
      }
    }
  }

  /** Whoever is made ready by Echos has sent its own. */
  lemma QuorumAfterEcho(cfg: Config, st: NodeState, m: Message)
    requires QuorumSize(cfg.n, cfg.f) >= cfg.f + 2 && NodeLive(cfg, st) && NotValidated(cfg, st.heard, m.key)
    requires |Before(cfg, st, m).echoes| >= QuorumSize(cfg.n, cfg.f)
    ensures st.sentEcho
  {
    if !st.sentEcho {
      FewBefore(cfg, st, m);
      SubsetCard(Before(cfg, st, m).echoes, Before(cfg, st, m).both);
    }
  }

  lemma FirstReadyHandle(net: Net, s: State, m: Message)
    requires Resilient(net) && NetKeeps(net, s) && NodesLive(net, s) && FirstReady(s.own) && Enabled(net, s, Handle(m))
    ensures FirstReady(After(net, s, Handle(m)).own)
  {
    var next := After(net, s, Handle(m));
    if exists e :: Key(Ready, e) in s.own {
      var e :| Key(Ready, e) in s.own && Key(Echo, e) in s.own;
      assert Key(Ready, e) in next.own && Key(Echo, e) in next.own;
    } else if OwnSent(net.cfg, s.nodes[m.to], m) == Some(Ready) {
      FirstOfAll(net, s, m);
      assert Key(Ready, m.to) in next.own && Key(Echo, m.to) in next.own;
    }
  }

  lemma FirstOfAll(net: Net, s: State, m: Message)
    requires Resilient(net) && NetKeeps(net, s) && NodesLive(net, s) && Enabled(net, s, Handle(m))
    requires (forall e :: Key(Ready, e) !in s.own) && OwnSent(net.cfg, s.nodes[m.to], m) == Some(Ready)
    ensures Key(Echo, m.to) in s.own
  {
    var st := s.nodes[m.to];
    var before := Before(net.cfg, st, m);
    assert NodeLive(net.cfg, st) && OwnLive(s.own, m.to, st);
    BeforeKeeps(net, s, m);
    assert before.readys <= net.faulty;
    SubsetCard(before.readys, net.faulty);
    QuorumAfterEcho(net.cfg, st, m);
  }

  lemma LiveHandle(net: Net, s: State, m: Message)
    requires Resilient(net) && Live(net, s) && Enabled(net, s, Handle(m))
    ensures Live(net, After(net, s, Handle(m)))
  {
    NetKeepsStep(net, s, Handle(m));
    NodesLiveHandle(net, s, m);
    SpreadHandle(net, s, m);
    VouchedHandle(net, s, m);
    StartLiveHandle(net, s, m);
    FirstReadyHandle(net, s, m);
  }

  /** The broadcaster's own Echo, counted at home without a test, is not a quorum. */
  lemma FirstEchoIsNoQuorum(net: Net, s: State)
    requires Resilient(net) && Live(net, s) && Enabled(net, s, Broadcast)
    ensures var b := net.cfg.broadcaster;
            Key(Echo, b) in s.own || |s.nodes[b].echoes + {b}| < QuorumSize(net.cfg.n, net.cfg.f)
  {
    var b := net.cfg.broadcaster;
    if s.own == {} {
      assert NodeKeeps(net, s.own, s.nodes[b]);
      assert s.nodes[b].echoes <= net.faulty;
      SubsetCard(s.nodes[b].echoes, net.faulty);
    }
  }

  lemma StartLiveBroadcast(net: Net, s: State)
    requires Resilient(net) && Live(net, s) && Enabled(net, s, Broadcast)
    ensures StartLive(net, After(net, s, Broadcast))
    ensures NodesLive(net, After(net, s, Broadcast))
  {
    var b, next := net.cfg.broadcaster, After(net, s, Broadcast);
    FirstEchoIsNoQuorum(net, s);
    assert NodeLive(net.cfg, s.nodes[b]) && OwnLive(s.own, b, s.nodes[b]);
    assert Key(Echo, b) in s.own ==> s.nodes[b].echoes + {b} == s.nodes[b].echoes;
    BroadcasterLive(net.cfg, s.nodes[b]);
    forall u | 0 <= u < net.cfg.n && Correct(net, u)
      ensures NodeLive(net.cfg, next.nodes[u]) && OwnLive(next.own, u, next.nodes[u])
    {
      assert NodeLive(net.cfg, s.nodes[u]);
      if u != b { OwnLiveOther(s.own, {Key(Echo, b)}, u, s.nodes[u]); }
    }
  }

  lemma BroadcasterLive(cfg: Config, st: NodeState)
    requires NodeLive(cfg, st)
    requires st.sentReady || |st.echoes + {cfg.broadcaster}| < QuorumSize(cfg.n, cfg.f)
    ensures NodeLive(cfg, st.(sentEcho := true, echoes := st.echoes + {cfg.broadcaster}))
  {
    var after := st.(sentEcho := true, echoes := st.echoes + {cfg.broadcaster});
    forall key | Certain(cfg, after, key)
      ensures key.origin in HeardFrom(after, key.kind)
    {
      assert Certain(cfg, st, key);
    }
  }

  lemma FirstMessages(net: Net, m: Message)
    requires Resilient(net)
    ensures var b := net.cfg.broadcaster;
            b < net.cfg.n ==> (m in ToNeighbors(b, net.neighbors[b], Key(Echo, b), {})
                               <==> m == Message(Key(Echo, b), b, m.to) && Linked(net, b, m.to))
  {
    var b := net.cfg.broadcaster;
    if b < net.cfg.n { ToNeighborsMember(b, net.neighbors[b], Key(Echo, b), {}, m); }
  }

  lemma SpreadBroadcast(net: Net, s: State)
    requires Resilient(net) && Live(net, s) && Enabled(net, s, Broadcast)
    ensures Spread(net, After(net, s, Broadcast))
  {
    var b, next := net.cfg.broadcaster, After(net, s, Broadcast);
    forall p: nat, w: nat, key | Correct(net, p) && Correct(net, w) && Linked(net, p, w) && Holder(net, next, p, key)
      ensures Reached(net, next, p, w, key)
    {
      FirstMessages(net, Message(Key(Echo, b), b, w));
      if Holder(net, s, p, key) { assert Reached(net, s, p, w, key); }
    }
  }

  lemma VouchedBroadcast(net: Net, s: State)
    requires Resilient(net) && Live(net, s) && Enabled(net, s, Broadcast)
    ensures Vouched(net, After(net, s, Broadcast))
  {
    var next := After(net, s, Broadcast);
    forall m | m in next.transit && Correct(net, m.from)
      ensures Knows(net, next, m.from, m.key)
    {
      FirstMessages(net, m);
      if m in s.transit { assert Knows(net, s, m.from, m.key); }
    }
    forall u: nat, w: nat, key | u < net.cfg.n && Correct(net, w) && w in Heard(next.nodes[u].heard, key)
      ensures Knows(net, next, w, key)
    {
      assert w in Heard(s.nodes[u].heard, key) && Knows(net, s, w, key);
    }
  }

  lemma LiveBroadcast(net: Net, s: State)
    requires Resilient(net) && Live(net, s) && Enabled(net, s, Broadcast)
    ensures Live(net, After(net, s, Broadcast))
  {
    NetKeepsStep(net, s, Broadcast);
    StartLiveBroadcast(net, s);
    SpreadBroadcast(net, s);
    VouchedBroadcast(net, s);
    var next := After(net, s, Broadcast);
    if exists e :: Key(Ready, e) in s.own {
      var e :| Key(Ready, e) in s.own && Key(Echo, e) in s.own;
      assert Key(Ready, e) in next.own && Key(Echo, e) in next.own;
    }
  }

  lemma LiveFaulty(net: Net, s: State, e: Event)
    requires Resilient(net) && Live(net, s) && Enabled(net, s, e) && (e.Absorb? || e.Inject?)
    ensures Live(net, After(net, s, e))
  {
    NetKeepsStep(net, s, e);
    var next := After(net, s, e);
    forall p: nat, w: nat, key | Correct(net, p) && Correct(net, w) && Linked(net, p, w) && Holder(net, next, p, key)
      ensures Reached(net, next, p, w, key)
    {
      assert Holder(net, s, p, key) && Reached(net, s, p, w, key);
    }
    forall m | m in next.transit && Correct(net, m.from)
      ensures Knows(net, next, m.from, m.key)
    {
      assert m in s.transit && Knows(net, s, m.from, m.key);
    }
    forall u: nat, w: nat, key | u < net.cfg.n && Correct(net, w) && w in Heard(next.nodes[u].heard, key)
      ensures Knows(net, next, w, key)
    {
      assert w in Heard(s.nodes[u].heard, key) && Knows(net, s, w, key);
    }
  }

  lemma FreshIsLive(cfg: Config)
    requires cfg.n >= 3 * cfg.f + 1
    ensures NodeLive(cfg, FRESH)
  {
  }

  lemma {:induction false} LiveAlways(net: Net, events: seq<Event>)
    requires Resilient(net) && Run(net, events).Some?
    ensures Live(net, Run(net, events).value)
  {
    if events == [] {
      FreshIsLive(net.cfg);
      NetKeepsAlways(net, []);
      var s := Run(net, []).value;
      forall u | 0 <= u < net.cfg.n && Correct(net, u)
        ensures NodeLive(net.cfg, s.nodes[u]) && OwnLive(s.own, u, s.nodes[u])
      {
      }
    } else {
      var k := |events| - 1;
      LiveAlways(net, events[..k]);
      var s := Run(net, events[..k]).value;
      match events[k]
      case Broadcast => LiveBroadcast(net, s);
      case Handle(m) => LiveHandle(net, s, m);
      case _ => LiveFaulty(net, s, events[k]);
    }
  }

  // ---- Certified propagation reaches everybody ----

  /** No message between correct nodes is still on its way. */
  ghost predicate Quiescent(net: Net, s: State) {
    forall m | m in s.transit :: !(Correct(net, m.from) && Correct(net, m.to))
  }

  /** `w` is a neighbour of `e`, or has `f + 1` neighbours among these nodes. */
  ghost predicate Fed(net: Net, e: nat, earlier: seq<nat>, w: nat) {
    || Linked(net, e, w)
    || exists feeders: set<nat> :: |feeders| == net.cfg.f + 1 && Feeds(net, feeders, earlier, w)
  }

  ghost predicate Feeds(net: Net, feeders: set<nat>, earlier: seq<nat>, w: nat) {
    forall p | p in feeders :: p in earlier && Linked(net, p, w)
  }

  /** An order of all correct nodes in which a message of `e` can be certified to one after the other. */
  ghost predicate Propagates(net: Net, e: nat, order: seq<nat>) {
    && |order| > 0 && order[0] == e
    && (forall i | 0 <= i < |order| :: Correct(net, order[i]))
    && (forall i | 0 < i < |order| :: Fed(net, e, order[..i], order[i]))
    && forall v | Correct(net, v) :: v in order
  }

  /** Every correct node's messages can be certified to all correct nodes. */
  ghost predicate Certifiable(net: Net) {
    forall e | Correct(net, e) :: exists order :: Propagates(net, e, order)
  }

  /** A node that all its feeders have sent the message is certain. */
  lemma FedKnows(net: Net, s: State, key: Key, earlier: seq<nat>, w: nat)
    requires Resilient(net) && Live(net, s) && Quiescent(net, s) && key in s.own && Correct(net, w)
    requires Fed(net, key.origin, earlier, w)
    requires forall p | p in earlier :: Correct(net, p) && Knows(net, s, p, key)
    ensures Knows(net, s, w, key)
  {
    var heard := Heard(s.nodes[w].heard, key);
    if Linked(net, key.origin, w) {
      assert Holder(net, s, key.origin, key) && Reached(net, s, key.origin, w, key);
    } else {
      var feeders: set<nat> :| |feeders| == net.cfg.f + 1 && Feeds(net, feeders, earlier, w);
      if !Knows(net, s, w, key) {
        forall p | p in feeders
          ensures p in heard
        {
          assert Holder(net, s, p, key) && Reached(net, s, p, w, key);
        }
        SubsetCard(feeders, heard);
        assert false;
      }
    }
  }

  ghost predicate KnownUpTo(net: Net, s: State, key: Key, order: seq<nat>, k: nat) {
    k <= |order| && forall i | 0 <= i < k :: order[i] < |s.nodes| && Knows(net, s, order[i], key)
  }

  lemma NextKnows(net: Net, s: State, key: Key, order: seq<nat>, k: nat)
    requires Resilient(net) && Live(net, s) && Quiescent(net, s) && key in s.own && Propagates(net, key.origin, order)
    requires 0 < k < |order| && KnownUpTo(net, s, key, order, k)
    ensures KnownUpTo(net, s, key, order, k + 1)
  {
    var earlier := order[..k];
    forall p | p in earlier
      ensures Correct(net, p) && Knows(net, s, p, key)
    {
      var i :| 0 <= i < k && order[i] == p;
    }
    FedKnows(net, s, key, earlier, order[k]);
  }

  lemma {:induction false} OrderKnows(net: Net, s: State, key: Key, order: seq<nat>, k: nat)
    requires Resilient(net) && Live(net, s) && Quiescent(net, s) && key in s.own && Propagates(net, key.origin, order)
    requires 0 < k <= |order|
    ensures KnownUpTo(net, s, key, order, k)
  {
    if k > 1 {
      OrderKnows(net, s, key, order, k - 1);
      NextKnows(net, s, key, order, k - 1);
    }
  }

  lemma EverybodyKnows(net: Net, s: State, key: Key, v: nat)
    requires Resilient(net) && Certifiable(net) && Live(net, s) && Quiescent(net, s) && key in s.own && Correct(net, v)
    ensures Knows(net, s, v, key)
  {
    assert Correct(net, key.origin);
    var order :| Propagates(net, key.origin, order);
    OrderKnows(net, s, key, order, |order|);
    var i :| 0 <= i < |order| && order[i] == v;
  }

  lemma KnownIsCounted(cfg: Config, own: set<Key>, st: NodeState, key: Key, v: nat)
    requires NodeLive(cfg, st) && OwnLive(own, v, st) && key in own && (v == key.origin || Certain(cfg, st, key))
    ensures key.origin in HeardFrom(st, key.kind)
  {
    assert key == Key(key.kind, key.origin);
  }

  /** In a quiescent state every own message of a correct node has been counted by every correct node. */
  lemma OwnIsCounted(net: Net, s: State, key: Key, v: nat)
    requires Resilient(net) && Certifiable(net) && Live(net, s) && Quiescent(net, s) && key in s.own && Correct(net, v)
    ensures key.origin in HeardFrom(s.nodes[v], key.kind)
  {
    EverybodyKnows(net, s, key, v);
    assert NodeLive(net.cfg, s.nodes[v]);
    KnownIsCounted(net.cfg, s.own, s.nodes[v], key, v);
  }

  // ---- The theorems ----

  ghost function CorrectNodes(net: Net): (c: set<nat>)
    requires ValidNet(net)
    ensures forall u: nat :: u in c <==> Correct(net, u)
    ensures |c| >= net.cfg.n - net.cfg.f
  {
    DifferenceCard(Below(net.cfg.n), net.faulty);
    Below(net.cfg.n) - net.faulty
  }

  /** The correct nodes that have sent this kind of message. */
  ghost function Senders(net: Net, s: State, kind: Kind): (senders: set<nat>)
    requires ValidNet(net)
    ensures forall u :: u in senders <==> Correct(net, u) && Key(kind, u) in s.own
  {
    set u | u in CorrectNodes(net) && Key(kind, u) in s.own
  }

  lemma SendersCounted(net: Net, s: State, kind: Kind, v: nat)
    requires Resilient(net) && Certifiable(net) && Live(net, s) && Quiescent(net, s) && Correct(net, v)
    ensures Senders(net, s, kind) <= HeardFrom(s.nodes[v], kind)
    ensures |Senders(net, s, kind)| <= |HeardFrom(s.nodes[v], kind)|
  {
    forall u | u in Senders(net, s, kind)
      ensures u in HeardFrom(s.nodes[v], kind)
    {
      OwnIsCounted(net, s, Key(kind, u), v);
    }
    SubsetCard(Senders(net, s, kind), HeardFrom(s.nodes[v], kind));
  }

  /** The Readys of `f + 1` correct nodes make every node send its own. */
  lemma ReadyFollows(net: Net, s: State, v: nat)
    requires Resilient(net) && Certifiable(net) && Live(net, s) && Quiescent(net, s) && Correct(net, v)
    requires |Senders(net, s, Ready)| >= net.cfg.f + 1
    ensures Key(Ready, v) in s.own
  {
    SendersCounted(net, s, Ready, v);
    assert NodeLive(net.cfg, s.nodes[v]);
    assert s.nodes[v].sentReady;
  }

  /** And when all have sent theirs, all deliver. */
  lemma ReadysSpread(net: Net, s: State, u: nat)
    requires Resilient(net) && Certifiable(net) && Live(net, s) && Quiescent(net, s) && Correct(net, u)
    requires |Senders(net, s, Ready)| >= net.cfg.f + 1
    ensures Key(Ready, u) in s.own && s.nodes[u].delivered
  {
    forall v | v in CorrectNodes(net) ensures v in Senders(net, s, Ready) { ReadyFollows(net, s, v); }
    SubsetCard(CorrectNodes(net), Senders(net, s, Ready));
    SendersCounted(net, s, Ready, u);
    assert NodeLive(net.cfg, s.nodes[u]);
  }

  /** In a quiescent state all correct nodes have delivered, or none. */
  lemma Totality(net: Net, s: State, p: nat, u: nat)
    requires Resilient(net) && Certifiable(net) && Reachable(net, s) && Quiescent(net, s)
    requires Correct(net, p) && s.nodes[p].delivered && Correct(net, u)
    ensures s.nodes[u].delivered
  {
    var events :| Run(net, events) == Some(s);
    LiveAlways(net, events);
    DeliveryRestsOnCorrectReadys(net, s, p);
    SubsetCard(CorrectReadys(net, s, p), Senders(net, s, Ready));
    ReadysSpread(net, s, u);
  }

  /** The correct nodes make an echo quorum even if `f - 1` of them have sent their Ready first. */
  predicate Slack(cfg: Config) {
    cfg.f == 0 || cfg.n >= QuorumSize(cfg.n, cfg.f) + 2 * cfg.f - 1
  }

  /** After the start everybody has sent an Echo or a Ready. */
  lemma AllSpoke(net: Net, s: State, u: nat)
    requires Resilient(net) && Certifiable(net) && Live(net, s) && Quiescent(net, s) && Correct(net, u)
    requires Correct(net, net.cfg.broadcaster) && Key(Echo, net.cfg.broadcaster) in s.own
    ensures Key(Echo, u) in s.own || Key(Ready, u) in s.own
  {
    OwnIsCounted(net, s, Key(Echo, net.cfg.broadcaster), u);
    assert NodeLive(net.cfg, s.nodes[u]) && OwnLive(s.own, u, s.nodes[u]);
  }

  /** All but `f - 1` of the correct nodes have sent their Echo, if not more than `f` have sent a Ready. */
  lemma ManyEchoes(net: Net, s: State)
    requires Resilient(net) && Certifiable(net) && Live(net, s) && Quiescent(net, s)
    requires Correct(net, net.cfg.broadcaster) && Key(Echo, net.cfg.broadcaster) in s.own
    requires |Senders(net, s, Ready)| <= net.cfg.f && Slack(net.cfg)
    ensures |Senders(net, s, Echo)| >= QuorumSize(net.cfg.n, net.cfg.f)
  {
    var echoed, readied := Senders(net, s, Echo), Senders(net, s, Ready);
    forall u | u in CorrectNodes(net) - readied ensures u in echoed { AllSpoke(net, s, u); }
    if readied == {} {
      SubsetCard(CorrectNodes(net), echoed);
    } else {
      var e :| e in readied;
      var first :| Key(Ready, first) in s.own && Key(Echo, first) in s.own;
      assert first in readied && first in echoed;
      DifferenceCard(CorrectNodes(net), readied - {first});
      SubsetCard(CorrectNodes(net) - (readied - {first}), echoed);
    }
  }

  /** An echo quorum of correct nodes makes the broadcaster ready, and its Ready all others. */
  lemma QuorumSpreads(net: Net, s: State, u: nat)
    requires Resilient(net) && Certifiable(net) && Live(net, s) && Quiescent(net, s) && Correct(net, u)
    requires Correct(net, net.cfg.broadcaster) && Key(Echo, net.cfg.broadcaster) in s.own
    requires |Senders(net, s, Echo)| >= QuorumSize(net.cfg.n, net.cfg.f)
    ensures Key(Ready, u) in s.own
  {
    var b := net.cfg.broadcaster;
    SendersCounted(net, s, Echo, b);
    assert NodeLive(net.cfg, s.nodes[b]) && OwnLive(s.own, b, s.nodes[b]);
    assert Key(Ready, b) in s.own;
    OwnIsCounted(net, s, Key(Ready, b), u);
    SendersCounted(net, s, Echo, u);
    assert NodeLive(net.cfg, s.nodes[u]) && OwnLive(s.own, u, s.nodes[u]);
  }

  /** With enough correct nodes a start by a correct broadcaster has made all of them deliver in
      every quiescent state. */
  lemma Validity(net: Net, s: State, u: nat)
    requires Resilient(net) && Certifiable(net) && Slack(net.cfg) && Reachable(net, s) && Quiescent(net, s)
    requires Correct(net, net.cfg.broadcaster) && Key(Echo, net.cfg.broadcaster) in s.own && Correct(net, u)
    ensures s.nodes[u].delivered
  {
    var events :| Run(net, events) == Some(s);
    LiveAlways(net, events);
    if |Senders(net, s, Ready)| <= net.cfg.f {
      ManyEchoes(net, s);
      forall v | v in CorrectNodes(net) ensures v in Senders(net, s, Ready) { QuorumSpreads(net, s, v); }
      SubsetCard(CorrectNodes(net), Senders(net, s, Ready));
    }
    ReadysSpread(net, s, u);
  }
}
