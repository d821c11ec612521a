/**
  What a node of Bracha's algorithm has seen determines its whole state: its sender sets, its
  flags and its delivery are functions of the messages that it has handled.
 */
module BrachaHistory {
  import opened Counting
  import opened Phases
  import opened Topology
  import opened Bracha

  /** From whom node `u` has handled a message of this kind. */
  ghost function SeenFrom(events: seq<Event>, u: nat, kind: Kind): (seen: set<nat>)
    ensures forall x: nat :: x in seen <==> Handle(Message(kind, x, u)) in events
  {
    if events == [] then {}
    else
      var k := |events| - 1;
      assert events == events[..k] + [events[k]];
      SeenFrom(events[..k], u, kind) + SeenAt(events[k], u, kind)
  }

  ghost function SeenAt(e: Event, u: nat, kind: Kind): (seen: set<nat>)
    ensures forall x: nat :: x in seen <==> e == Handle(Message(kind, x, u))
  {
    if e.Handle? && e.m.to == u && e.m.kind == kind then {e.m.from} else {}
  }

  /** How many messages node `u` has handled. */
  ghost function HandledBy(events: seq<Event>, u: nat): nat {
    if events == [] then 0
    else
      var k := |events| - 1;
      HandledBy(events[..k], u) + if events[k].Handle? && events[k].m.to == u then 1 else 0
  }

  /** An own Echo is counted with the first one that comes, an own Ready once `f` others or an
      echo quorum call for it, and nothing else is counted but what was handled. */
  ghost predicate FollowsFrom(net: Net, u: nat, st: NodeState, echoes: set<nat>, readys: set<nat>, handled: nat) {
    && st.echoes == (if echoes == {} then {} else echoes + {u})
    && (st.sentReady <==> |readys| > net.f || |st.echoes| >= QuorumSize(net.n, net.f))
    && st.readys == (if st.sentReady then readys + {u} else readys)
    && (st.delivered <==> |st.readys| > 2 * net.f)
    && (st.sentEcho <==> handled >= if st.sentReady then 2 else 1)
    && u !in echoes && u !in readys && (handled == 0 <==> echoes == {} && readys == {})
  }

  /** The sets after an Echo. */
  lemma EchoSets(net: Net, u: nat, st: NodeState, from: nat, echoes: set<nat>, readys: set<nat>)
    requires st.echoes == (if echoes == {} then {} else echoes + {u}) && u !in readys
    requires st.readys == (if st.sentReady then readys + {u} else readys)
    ensures var counted := Counted(net.n, net.f, u, st, Echo, from);
            && counted.echoes == echoes + {from} + {u} && st.echoes <= counted.echoes
            && counted.readys == if st.sentReady || |counted.echoes| >= QuorumSize(net.n, net.f) then readys + {u}
                                 else readys
  {
    OwnAddsOne(readys, u);
  }

  lemma EchoFollows(net: Net, u: nat, st: NodeState, from: nat, echoes: set<nat>, readys: set<nat>, handled: nat)
    requires FollowsFrom(net, u, st, echoes, readys, handled) && from != u && net.n >= 1
    ensures FollowsFrom(net, u, Received(net.n, net.f, u, st, Echo, from), echoes + {from}, readys, handled + 1)
  {
    EchoSets(net, u, st, from, echoes, readys);
    OwnAddsOne(readys, u);
    SubsetCard(st.echoes, Counted(net.n, net.f, u, st, Echo, from).echoes);
  }

  lemma OwnAddsOne(some: set<nat>, u: nat)
    requires u !in some
    ensures |some + {u}| == |some| + 1 && some + {u} + {u} == some + {u}
  {
  }

  lemma ReadyFollows(net: Net, u: nat, st: NodeState, from: nat, echoes: set<nat>, readys: set<nat>, handled: nat)
    requires FollowsFrom(net, u, st, echoes, readys, handled) && from != u && net.n >= 1
    ensures FollowsFrom(net, u, Received(net.n, net.f, u, st, Ready, from), echoes, readys + {from}, handled + 1)
  {
    var counted, more := Counted(net.n, net.f, u, st, Ready, from), readys + {from};
    SubsetCard(readys, more);
    ReadysFollow(net, u, st, from, readys);
    assert counted.echoes == st.echoes;
  }

  lemma ReadysFollow(net: Net, u: nat, st: NodeState, from: nat, readys: set<nat>)
    requires u !in readys && from != u && st.readys == (if st.sentReady then readys + {u} else readys)
    ensures var counted, more := Counted(net.n, net.f, u, st, Ready, from), readys + {from};
            && counted.readys == (if st.sentReady || |more| > net.f then more + {u} else more)
            && (|counted.readys| > net.f <==> |more| > net.f || (st.sentReady && |more| + 1 > net.f))
  {
    var more := readys + {from};
    OwnAddsOne(more, u);
    assert st.readys + {from} == if st.sentReady then more + {u} else more;
  }

  /** In every run a correct node's state is exactly what the messages it has handled call for:
      whose Echo and Ready it counts, what it has sent, and whether it has delivered. */
  lemma {:induction false} StateFollowsFromHistory(net: Net, events: seq<Event>, u: nat)
    requires ValidNet(net) && Run(net, events).Some? && Correct(net, u)
    ensures FollowsFrom(net, u, Run(net, events).value.nodes[u],
                        SeenFrom(events, u, Echo), SeenFrom(events, u, Ready), HandledBy(events, u))
  {
    if events != [] {
      var k := |events| - 1;
      StateFollowsFromHistory(net, events[..k], u);
      NetKeepsAlways(net, events[..k]);
      LinksAreProper(net, Run(net, events[..k]).value, events[k]);
      NodeAfter(net, Run(net, events[..k]).value, events[k], u);
      StepFollows(net, u, Run(net, events[..k]).value.nodes[u], events[k],
                  SeenFrom(events[..k], u, Echo), SeenFrom(events[..k], u, Ready), HandledBy(events[..k], u));
    }
  }

  lemma LinksAreProper(net: Net, s: State, e: Event)
    requires NetKeeps(net, s) && Enabled(net, s, e)
    ensures e.Handle? ==> e.m.from != e.m.to
  {
  }

  lemma HandleFollows(net: Net, u: nat, st: NodeState, m: Message, echoes: set<nat>, readys: set<nat>, handled: nat)
    requires FollowsFrom(net, u, st, echoes, readys, handled) && m.from != u && m.to == u && net.n >= 1
    ensures FollowsFrom(net, u, Received(net.n, net.f, u, st, m.kind, m.from),
                        echoes + SeenAt(Handle(m), u, Echo), readys + SeenAt(Handle(m), u, Ready), handled + 1)
  {
    assert echoes + {} == echoes && readys + {} == readys;
    match m.kind
    case Echo => EchoFollows(net, u, st, m.from, echoes, readys, handled);
    case Ready => ReadyFollows(net, u, st, m.from, echoes, readys, handled);
  }

  lemma NodeAfter(net: Net, s: State, e: Event, u: nat)
    requires |s.nodes| == net.n && Enabled(net, s, e) && u < net.n
    ensures After(net, s, e).nodes[u] == if e.Handle? && e.m.to == u
              then Received(net.n, net.f, u, s.nodes[u], e.m.kind, e.m.from) else s.nodes[u]
  {
  }

  lemma StepFollows(net: Net, u: nat, st: NodeState, e: Event, echoes: set<nat>, readys: set<nat>, handled: nat)
    requires FollowsFrom(net, u, st, echoes, readys, handled) && (e.Handle? ==> e.m.from != e.m.to) && net.n >= 1
    ensures var here := e.Handle? && e.m.to == u;
            FollowsFrom(net, u, if here then Received(net.n, net.f, u, st, e.m.kind, e.m.from) else st,
                        echoes + SeenAt(e, u, Echo), readys + SeenAt(e, u, Ready), handled + if here then 1 else 0)
  {
    if e.Handle? && e.m.to == u {
      assert e == Handle(e.m);
      HandleFollows(net, u, st, e.m, echoes, readys, handled);
    } else {
      NothingSeen(e, u, echoes, readys);
    }
  }

  lemma NothingSeen(e: Event, u: nat, echoes: set<nat>, readys: set<nat>)
    requires !(e.Handle? && e.m.to == u)
    ensures echoes + SeenAt(e, u, Echo) == echoes && readys + SeenAt(e, u, Ready) == readys
  {
  }
}
