/**
  What connectivity is for: on a `(2f + 1)`-connected graph, and so on those of the generators,
  a broadcast by a correct node reaches all correct nodes, whichever `f` nodes are faulty.
 */
module ConnectedNetworks {
  import opened Graph
  import R = Routes
  import W = Wheels
  import P = KPasted
  import Dolev = DolevNetwork
  import DD = DolevDelivery
  import DR = DolevRest
  import BrachaDolev
  import BD = BrachaDolevDelivery
  import BR = BrachaDolevRest

  // ---- Networks from a topology file ----

  /** Nodes that read their neighbours from the same list of pairs have known neighbours, no link to
      themselves, and links that work both ways. */
  lemma TopologyIsLinked(n: nat, pairs: seq<(nat, nat)>, neighbors: seq<seq<nat>>)
    requires |neighbors| == n
    requires forall u: nat | u < n ::
               forall i: nat :: i in neighbors[u] <==> i < n && i != u && ((u, i) in pairs || (i, u) in pairs)
    ensures R.Links(neighbors)
  {
    forall u, i | 0 <= u < n && 0 <= i < |neighbors[u]|
      ensures neighbors[u][i] < n && neighbors[u][i] != u
    {
      assert neighbors[u][i] in neighbors[u];
    }
  }

  // ---- The generated graphs ----

  /** A graph of `n` nodes that one of the generators returns for `k`. */
  ghost predicate Generated(g: Graph, n: nat, k: nat) {
    || (n > k >= 2 && W.IsGeneralizedWheel(g, n, k))
    || (n >= 2 * k >= 4 && k % 2 == 0 && W.IsMultipartiteWheel(g, n, k / 2, n / (k / 2)))
    || (n >= 2 * k >= 4 && P.IsKPasted(g, k) && Numbered(g, n))
  }

  lemma GeneratedIsKConnected(g: Graph, n: nat, k: nat)
    requires Generated(g, n, k)
    ensures KConnected(g, k) && Numbered(g, n)
  {
    if n > k >= 2 && W.IsGeneralizedWheel(g, n, k) {
      W.GeneralizedWheelIsKConnected(g, n, k);
    } else if P.IsKPasted(g, k) && Numbered(g, n) {
      P.KPastedIsKConnected(g, k);
    } else {
      W.MultipartiteResultIsKConnected(g, n, k);
    }
  }

  lemma LessConnected(g: Graph, k: nat, m: nat)
    requires KConnected(g, k) && m <= k
    ensures KConnected(g, m)
  {
  }

  /** The network is linked as a generated graph with connectivity for `f` faults. */
  ghost predicate GeneratedFor(neighbors: seq<seq<nat>>, f: nat) {
    exists g, k: nat :: k >= 2 * f + 1 && Generated(g, |neighbors|, k) && R.Models(neighbors, g)
  }

  /** The network is linked as a graph that is connected enough for `f` faults. */
  ghost predicate ConnectedFor(neighbors: seq<seq<nat>>, f: nat) {
    exists g :: KConnected(g, 2 * f + 1) && R.Models(neighbors, g)
  }

  lemma GeneratedIsConnected(neighbors: seq<seq<nat>>, f: nat)
    requires GeneratedFor(neighbors, f)
    ensures ConnectedFor(neighbors, f)
  {
    var g, k: nat :| k >= 2 * f + 1 && Generated(g, |neighbors|, k) && R.Models(neighbors, g);
    GeneratedIsKConnected(g, |neighbors|, k);
    LessConnected(g, k, 2 * f + 1);
  }

  // ---- Dolev ----

  lemma DolevIsServed(net: Dolev.Net, v: nat)
    requires Dolev.ValidNet(net) && ConnectedFor(net.neighbors, net.cfg.f) && Dolev.Correct(net, v) && v != net.source
    ensures DR.Served(net, v)
  {
    var g :| KConnected(g, 2 * net.cfg.f + 1) && R.Models(net.neighbors, g);
    R.ConnectedIsServed(net.neighbors, g, net.faulty, net.cfg.f, net.source, v);
  }

  /** Every run in which the source has broadcast has a continuation by correct nodes after which
      all correct nodes but the source have delivered. */
  lemma DolevReachesEverybody(net: Dolev.Net, events: seq<Dolev.Event>) returns (longer: seq<Dolev.Event>)
    requires DD.FullNet(net) && ConnectedFor(net.neighbors, net.cfg.f)
    requires Dolev.Run(net, events).Some? && Dolev.Run(net, events).value.broadcast
    ensures DR.OnlyHandles(events, longer) && Dolev.Run(net, longer).Some?
    ensures forall v: nat | Dolev.Correct(net, v) && v != net.source :: Dolev.Run(net, longer).value.nodes[v].delivered
  {
    longer := DR.BroadcastsAreDelivered(net, events);
    forall v: nat | Dolev.Correct(net, v) && v != net.source
      ensures Dolev.Run(net, longer).value.nodes[v].delivered
    {
      DolevIsServed(net, v);
    }
  }

  lemma DolevOnGeneratedGraphs(net: Dolev.Net, events: seq<Dolev.Event>) returns (longer: seq<Dolev.Event>)
    requires DD.FullNet(net) && GeneratedFor(net.neighbors, net.cfg.f)
    requires Dolev.Run(net, events).Some? && Dolev.Run(net, events).value.broadcast
    ensures DR.OnlyHandles(events, longer) && Dolev.Run(net, longer).Some?
    ensures forall v: nat | Dolev.Correct(net, v) && v != net.source :: Dolev.Run(net, longer).value.nodes[v].delivered
  {
    GeneratedIsConnected(net.neighbors, net.cfg.f);
    longer := DolevReachesEverybody(net, events);
  }

  // ---- Bracha over Dolev ----

  lemma BrachaDolevIsWellConnected(net: BrachaDolev.Net)
    requires BrachaDolev.ValidNet(net) && ConnectedFor(net.neighbors, net.cfg.f)
    ensures BD.WellConnected(net)
  {
    var g :| KConnected(g, 2 * net.cfg.f + 1) && R.Models(net.neighbors, g);
    forall e, v | BrachaDolev.Correct(net, e) && BrachaDolev.Correct(net, v) && e != v
      ensures BD.Served(net, e, v)
    {
      R.ConnectedIsServed(net.neighbors, g, net.faulty, net.cfg.f, e, v);
    }
  }

  /** Every run in which a correct broadcaster has started has a continuation by correct nodes
      after which all correct nodes have delivered. */
  lemma BrachaDolevReachesEverybody(net: BrachaDolev.Net, events: seq<BrachaDolev.Event>)
    returns (longer: seq<BrachaDolev.Event>)
    requires BD.Resilient(net) && ConnectedFor(net.neighbors, net.cfg.f) && BrachaDolev.Correct(net, net.broadcaster)
    requires BrachaDolev.Run(net, events).Some? && BrachaDolev.Run(net, events).value.started
    ensures BR.OnlyHandles(events, longer) && BrachaDolev.Run(net, longer).Some?
    ensures forall u: nat | BrachaDolev.Correct(net, u) :: BrachaDolev.Run(net, longer).value.nodes[u].phase.delivered
  {
    BrachaDolevIsWellConnected(net);
    longer := BR.BroadcastsAreDelivered(net, events);
  }

  lemma BrachaDolevOnGeneratedGraphs(net: BrachaDolev.Net, events: seq<BrachaDolev.Event>)
    returns (longer: seq<BrachaDolev.Event>)
    requires BD.Resilient(net) && GeneratedFor(net.neighbors, net.cfg.f) && BrachaDolev.Correct(net, net.broadcaster)
    requires BrachaDolev.Run(net, events).Some? && BrachaDolev.Run(net, events).value.started
    ensures BR.OnlyHandles(events, longer) && BrachaDolev.Run(net, longer).Some?
    ensures forall u: nat | BrachaDolev.Correct(net, u) :: BrachaDolev.Run(net, longer).value.nodes[u].phase.delivered
  {
    GeneratedIsConnected(net.neighbors, net.cfg.f);
    longer := BrachaDolevReachesEverybody(net, events);
  }
}
