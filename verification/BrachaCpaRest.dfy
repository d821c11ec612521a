/**
  Runs of Bracha over certified propagation come to rest: a node sends a message on when it
  becomes certain of it, which happens once, and its own Echo and Ready at most once.
 */
module BrachaCpaRest {
  import opened Counting
  import opened Options
  import opened Phases
  import opened Weights
  import opened PathHeights
  import opened BrachaCpa
  import opened BrachaCpaDelivery

  // ---- How much is left to do ----

  /** The messages with these keys of which nodes are not certain yet. */
  ghost function Uncertain(net: Net, s: State, keys: set<Key>): (open: set<(nat, Key)>)
    requires |s.nodes| == net.cfg.n
    ensures forall u: nat, key ::
            (u, key) in open <==> u < net.cfg.n && key in keys && !Certain(net.cfg, s.nodes[u], key)
  {
    set u, key | u in Below(net.cfg.n) && key in keys && !Certain(net.cfg, s.nodes[u], key) :: (u, key)
  }

  predicate Said(st: NodeState, kind: Kind) {
    match kind
    case Echo => st.sentEcho
    case Ready => st.sentReady
  }

  /** The own messages that nodes have not accounted for yet. */
  ghost function Unsaid(net: Net, s: State): (open: set<(nat, Kind)>)
    requires |s.nodes| == net.cfg.n
    ensures forall u: nat, kind :: (u, kind) in open <==> u < net.cfg.n && !Said(s.nodes[u], kind)
  {
    (set u | u in Below(net.cfg.n) && !Said(s.nodes[u], Echo) :: (u, Echo))
    + set u | u in Below(net.cfg.n) && !Said(s.nodes[u], Ready) :: (u, Ready)
  }

  /** The keys of everything that can still be sent by correct nodes. */
  ghost predicate Covers(net: Net, s: State, keys: set<Key>) {
    && (forall m | m in s.transit :: m.key in keys)
    && forall kind, u: nat | u < net.cfg.n :: Key(kind, u) in keys
  }

  lemma SomeKeys(net: Net, s: State) returns (keys: set<Key>)
    ensures Covers(net, s, keys)
  {
    keys := (set m | m in s.transit :: m.key)
            + (set u | u in Below(net.cfg.n) :: Key(Echo, u)) + (set u | u in Below(net.cfg.n) :: Key(Ready, u));
    forall kind, u: nat | u < net.cfg.n
      ensures Key(kind, u) in keys
    {
      assert kind == Echo || kind == Ready;
    }
  }

  ghost function Left(net: Net, s: State, keys: set<Key>): nat
    requires |s.nodes| == net.cfg.n
  {
    |Uncertain(net, s, keys)| + |Unsaid(net, s)|
  }

  /** More than one step can send. */
  ghost function Price(net: Net): nat {
    2 * Links(net.neighbors) + 1
  }

  ghost function Work(net: Net, s: State, keys: set<Key>): nat
    requires |s.nodes| == net.cfg.n
  {
    |s.transit| + Worth(Left(net, s, keys), Price(net))
  }

  // ---- Every step does some of it ----

  lemma {:induction false} ToNeighborsLength(self: nat, neighbors: seq<nat>, key: Key, skip: set<nat>)
    ensures |ToNeighbors(self, neighbors, key, skip)| <= |neighbors|
  {
    if neighbors != [] { ToNeighborsLength(self, neighbors[..|neighbors| - 1], key, skip); }
  }

  lemma SentBound(net: Net, s: State, m: Message)
    requires |s.nodes| == net.cfg.n == |net.neighbors| && Enabled(net, s, Handle(m))
    ensures |Sent(net.cfg, net.neighbors[m.to], s.nodes[m.to], m)| < Price(net)
  {
    var st, neighbors := s.nodes[m.to], net.neighbors[m.to];
    ToNeighborsLength(m.to, neighbors, m.key, Heard(Noted(st, m).heard, m.key));
    ToNeighborsLength(m.to, neighbors, Key(Echo, m.to), {});
    ToNeighborsLength(m.to, neighbors, Key(Ready, m.to), {});
    DegreeBound(net.neighbors, m.to);
  }

  /** Does the receiver become certain, or send something of its own? */
  ghost predicate Pays(net: Net, s: State, m: Message)
    requires |s.nodes| == net.cfg.n && Enabled(net, s, Handle(m))
  {
    var st := s.nodes[m.to];
    NotValidated(net.cfg, st.heard, m.key) && (Validates(net.cfg, Noted(st, m), m) || OwnSent(net.cfg, st, m).Some?)
  }

  lemma CertainStays(net: Net, s: State, m: Message, keys: set<Key>)
    requires |s.nodes| == net.cfg.n == |net.neighbors| && Enabled(net, s, Handle(m))
    ensures Uncertain(net, After(net, s, Handle(m)), keys) <= Uncertain(net, s, keys)
  {
    HeardStays(net.cfg, s.nodes[m.to], m);
    forall x | x in Uncertain(net, After(net, s, Handle(m)), keys)
      ensures x in Uncertain(net, s, keys)
    {
      assert x == (x.0, x.1);
    }
  }

  lemma FlagsStay(cfg: Config, st: NodeState, m: Message)
    ensures forall kind | Said(st, kind) :: Said(Received(cfg, st, m), kind)
    ensures NotValidated(cfg, st.heard, m.key) && OwnSent(cfg, st, m).Some? ==>
              var kind := OwnSent(cfg, st, m).value; !Said(st, kind) && Said(Received(cfg, st, m), kind)
  {
    if NotValidated(cfg, st.heard, m.key) {
      BeforeHeard(cfg, st, m);
      ReceivedIsOwned(cfg, st, m);
    }
  }

  lemma SaidStays(net: Net, s: State, m: Message)
    requires |s.nodes| == net.cfg.n == |net.neighbors| && Enabled(net, s, Handle(m))
    ensures Unsaid(net, After(net, s, Handle(m))) <= Unsaid(net, s)
  {
    FlagsStay(net.cfg, s.nodes[m.to], m);
    forall x | x in Unsaid(net, After(net, s, Handle(m)))
      ensures x in Unsaid(net, s)
    {
      assert x == (x.0, x.1);
    }
  }

  lemma ValidatedIsCertain(net: Net, s: State, m: Message)
    requires |s.nodes| == net.cfg.n == |net.neighbors| && Enabled(net, s, Handle(m))
    requires NotValidated(net.cfg, s.nodes[m.to].heard, m.key) && Validates(net.cfg, Noted(s.nodes[m.to], m), m)
    ensures Certain(net.cfg, After(net, s, Handle(m)).nodes[m.to], m.key)
  {
    ReceivedHeard(net.cfg, s.nodes[m.to], m);
  }

  lemma HandleLeft(net: Net, s: State, m: Message, keys: set<Key>)
    requires |s.nodes| == net.cfg.n == |net.neighbors| && Enabled(net, s, Handle(m)) && m.key in keys
    ensures Left(net, After(net, s, Handle(m)), keys) <= Left(net, s, keys) - if Pays(net, s, m) then 1 else 0
  {
    var next := After(net, s, Handle(m));
    CertainStays(net, s, m, keys);
    SaidStays(net, s, m);
    SubsetCard(Uncertain(net, next, keys), Uncertain(net, s, keys));
    SubsetCard(Unsaid(net, next), Unsaid(net, s));
    if Pays(net, s, m) {
      if Validates(net.cfg, Noted(s.nodes[m.to], m), m) {
        OneMoreCertain(net, s, m, keys);
      } else {
        OneMoreSaid(net, s, m);
      }
    }
  }

  lemma OneMoreCertain(net: Net, s: State, m: Message, keys: set<Key>)
    requires |s.nodes| == net.cfg.n == |net.neighbors| && Enabled(net, s, Handle(m)) && m.key in keys
    requires NotValidated(net.cfg, s.nodes[m.to].heard, m.key) && Validates(net.cfg, Noted(s.nodes[m.to], m), m)
    ensures |Uncertain(net, After(net, s, Handle(m)), keys)| < |Uncertain(net, s, keys)|
  {
    var before, after := Uncertain(net, s, keys), Uncertain(net, After(net, s, Handle(m)), keys);
    CertainStays(net, s, m, keys);
    ValidatedIsCertain(net, s, m);
    SubsetCard(after + {(m.to, m.key)}, before);
  }

  lemma OneMoreSaid(net: Net, s: State, m: Message)
    requires |s.nodes| == net.cfg.n == |net.neighbors| && Enabled(net, s, Handle(m))
    requires OwnSent(net.cfg, s.nodes[m.to], m).Some?
    ensures |Unsaid(net, After(net, s, Handle(m)))| < |Unsaid(net, s)|
  {
    var before, after := Unsaid(net, s), Unsaid(net, After(net, s, Handle(m)));
    SaidStays(net, s, m);
    FlagsStay(net.cfg, s.nodes[m.to], m);
    SubsetCard(after + {(m.to, OwnSent(net.cfg, s.nodes[m.to], m).value)}, before);
  }

  lemma HandleWorks(net: Net, s: State, m: Message, keys: set<Key>)
    requires |s.nodes| == net.cfg.n == |net.neighbors| && Enabled(net, s, Handle(m)) && m.key in keys
    ensures Work(net, After(net, s, Handle(m)), keys) < Work(net, s, keys)
  {
    var next := After(net, s, Handle(m));
    HandleLeft(net, s, m, keys);
    SentBound(net, s, m);
    assert !Pays(net, s, m) ==> Sent(net.cfg, net.neighbors[m.to], s.nodes[m.to], m) == [];
    LessInAll(|next.transit|, Left(net, next, keys), |s.transit|, Left(net, s, keys), Price(net));
  }

  lemma CoversNext(net: Net, s: State, m: Message, keys: set<Key>)
    requires |s.nodes| == net.cfg.n == |net.neighbors| && Enabled(net, s, Handle(m)) && Covers(net, s, keys)
    ensures Covers(net, After(net, s, Handle(m)), keys)
  {
    forall p | p in Sent(net.cfg, net.neighbors[m.to], s.nodes[m.to], m)
      ensures p.key in keys
    {
      SentKeys(net, s, m, p);
    }
  }

  // ---- So runs come to rest ----

  lemma RunNext(net: Net, events: seq<Event>, e: Event)
    requires ValidNet(net) && Run(net, events).Some? && Enabled(net, Run(net, events).value, e)
    ensures Run(net, events + [e]) == Some(After(net, Run(net, events).value, e))
  {
    assert (events + [e])[..|events|] == events;
  }

  /** What handling these messages keeps. */
  ghost predicate Kept(net: Net, some: Message -> bool, inv: State -> bool)
    requires ValidNet(net)
  {
    forall t: State, m | inv(t) && |t.nodes| == net.cfg.n && Enabled(net, t, Handle(m)) && some(m) ::
      inv(After(net, t, Handle(m)))
  }

  /** None of these messages is left for correct nodes. */
  ghost predicate Drained(net: Net, some: Message -> bool, s: State) {
    forall m | m in s.transit && some(m) :: !Correct(net, m.to)
  }

  /** `longer` continues the run `events` with steps of correct nodes. */
  ghost predicate OnlyHandles(events: seq<Event>, longer: seq<Event>) {
    events <= longer && forall i | |events| <= i < |longer| :: longer[i].Handle?
  }

  lemma HandledFirst(events: seq<Event>, m: Message, longer: seq<Event>)
    requires OnlyHandles(events + [Handle(m)], longer)
    ensures OnlyHandles(events, longer)
  {
    assert (events + [Handle(m)])[|events|] == longer[|events|];
  }

  /** Correct nodes alone can handle all these messages, and keep what that keeps. */
  lemma {:induction false} DrainSome(net: Net, events: seq<Event>, some: Message -> bool, inv: State -> bool,
                                     keys: set<Key>)
    returns (longer: seq<Event>)
    requires ValidNet(net) && Run(net, events).Some? && Covers(net, Run(net, events).value, keys)
    requires Kept(net, some, inv) && inv(Run(net, events).value)
    ensures OnlyHandles(events, longer) && Run(net, longer).Some?
    ensures Drained(net, some, Run(net, longer).value) && inv(Run(net, longer).value)
    decreases Work(net, Run(net, events).value, keys)
  {
    var s := Run(net, events).value;
    if Drained(net, some, s) {
      longer := events;
    } else {
      var m :| m in s.transit && some(m) && Correct(net, m.to);
      RunNext(net, events, Handle(m));
      HandleWorks(net, s, m, keys);
      CoversNext(net, s, m, keys);
      longer := DrainSome(net, events + [Handle(m)], some, inv, keys);
      HandledFirst(events, m, longer);
    }
  }

  /** Every run can be continued, by correct nodes alone, until nothing is left to handle. */
  lemma RunsComeToRest(net: Net, events: seq<Event>) returns (longer: seq<Event>)
    requires ValidNet(net) && Run(net, events).Some?
    ensures OnlyHandles(events, longer) && Run(net, longer).Some?
    ensures forall m | m in Run(net, longer).value.transit :: !Correct(net, m.to)
    ensures Run(net, events).value.own <= Run(net, longer).value.own
  {
    var s := Run(net, events).value;
    var keys := SomeKeys(net, s);
    longer := DrainSome(net, events, m => true, (t: State) => s.own <= t.own, keys);
  }

  /** With enough correct nodes every run in which a correct broadcaster has started has a
      continuation by correct nodes after which all correct nodes have delivered. */
  lemma BroadcastsAreDelivered(net: Net, events: seq<Event>) returns (longer: seq<Event>)
    requires Resilient(net) && Certifiable(net) && Slack(net.cfg) && Correct(net, net.cfg.broadcaster)
    requires Run(net, events).Some? && Key(Echo, net.cfg.broadcaster) in Run(net, events).value.own
    ensures OnlyHandles(events, longer) && Run(net, longer).Some?
    ensures forall u: nat | Correct(net, u) :: Run(net, longer).value.nodes[u].delivered
  {
    longer := RunsComeToRest(net, events);
    var s := Run(net, longer).value;
    assert Reachable(net, s) && Quiescent(net, s);
    forall u: nat | Correct(net, u)
      ensures s.nodes[u].delivered
    {
      Validity(net, s, u);
    }
  }
}
