/** The generalized and the multipartite wheel, and why they are `k`-connected. */
module Wheels {
  import opened Blocks
  import opened Counting
  import opened Graph

  /** The nodes are `0..n` and whatever the edges mention. */
  ghost predicate Spanned(g: Graph, n: int) {
    forall u :: u in g.nodes <==> 0 <= u < n || HasEdge(g, u)
  }

  ghost predicate HasEdge(g: Graph, u: int) {
    exists v :: Adjacent(g, u, v)
  }

  lemma AddEdgeSpans(g: Graph, n: int, a: int, b: int)
    requires Spanned(g, n)
    ensures Spanned(AddEdge(g, a, b), n)
  {
    var h := AddEdge(g, a, b);
    assert Adjacent(h, a, b) && Adjacent(h, b, a);
    forall u
      ensures u in h.nodes <==> 0 <= u < n || HasEdge(h, u)
    {
      if HasEdge(g, u) {
        var v :| Adjacent(g, u, v);
        assert Adjacent(h, u, v);
      }
      if HasEdge(h, u) {
        var v :| Adjacent(h, u, v);
        assert u == a || u == b || Adjacent(g, u, v);
      }
    }
  }

  method AddNodes(n: int) returns (g: Graph)
    ensures g.edges == {} && Spanned(g, n)
  {
    g := EMPTY;
    var i := 0;
    while i < n
      invariant 0 <= i && (i == 0 || i <= n)
      invariant g.edges == {} && forall u :: u in g.nodes <==> 0 <= u < i
    {
      g := AddNode(g, i);
      i := i + 1;
    }
  }

  // ---- Generalized wheel: a cycle of N - k + 2 nodes and k - 2 hubs ----

  predicate RimEdge(m: int, u: int, v: int) {
    (0 <= u < m - 1 && v == u + 1) || (u == 0 && v == m - 1)
  }

  predicate HubEdge(m: int, n: int, u: int, v: int) {
    m <= u < n && u < v < n
  }

  predicate SpokeEdge(m: int, n: int, u: int, v: int) {
    0 <= u < m && m <= v < n
  }

  ghost predicate IsGeneralizedWheel(g: Graph, n: int, k: int) {
    var m := n - k + 2;
    && Spanned(g, n)
    && forall u, v :: (u, v) in g.edges <==> RimEdge(m, u, v) || HubEdge(m, n, u, v) || SpokeEdge(m, n, u, v)
  }

  method GenerateGeneralizedWheel(n: int, k: int) returns (g: Graph)
    ensures IsGeneralizedWheel(g, n, k)
    ensures n > k >= 2 ==> KConnected(g, k) && Numbered(g, n)
  {
    var m := n - k + 2;
    g := AddNodes(n);
    g := AddRim(g, n, m);
    g := AddHubs(g, n, m);
    g := AddSpokes(g, n, m);
    if n > k >= 2 {
      GeneralizedWheelIsKConnected(g, n, k);
    }
  }

  method AddRim(g0: Graph, n: int, m: int) returns (g: Graph)
    requires Spanned(g0, n)
    ensures Spanned(g, n)
    ensures forall u, v :: (u, v) in g.edges <==> (u, v) in g0.edges || RimEdge(m, u, v)
  {
    g := g0;
    var i := 0;
    while i < m - 1
      invariant 0 <= i && (i == 0 || i <= m - 1) && Spanned(g, n)
      invariant forall u, v :: (u, v) in g.edges <==> (u, v) in g0.edges || (0 <= u < i && v == u + 1)
    {
      AddEdgeSpans(g, n, i, i + 1);
      g := AddEdge(g, i, i + 1);
      i := i + 1;
    }
    AddEdgeSpans(g, n, 0, m - 1);
    g := AddEdge(g, 0, m - 1);
  }

  method AddHubs(g0: Graph, n: int, m: int) returns (g: Graph)
    requires Spanned(g0, n)
    ensures Spanned(g, n)
    ensures forall u, v :: (u, v) in g.edges <==> (u, v) in g0.edges || HubEdge(m, n, u, v)
  {
    g := g0;
    var i := m;
    while i < n
      invariant m <= i && (i == m || i <= n) && Spanned(g, n)
      invariant forall u, v :: (u, v) in g.edges <==> (u, v) in g0.edges || (m <= u < i && u < v < n)
    {
      g := JoinRow(g, n, i, i + 1, n);
      i := i + 1;
    }
  }

  method AddSpokes(g0: Graph, n: int, m: int) returns (g: Graph)
    requires Spanned(g0, n)
    ensures Spanned(g, n)
    ensures forall u, v :: (u, v) in g.edges <==> (u, v) in g0.edges || SpokeEdge(m, n, u, v)
  {
    g := g0;
    var i := 0;
    while i < m
      invariant 0 <= i && (i == 0 || i <= m) && Spanned(g, n)
      invariant forall u, v :: (u, v) in g.edges <==> (u, v) in g0.edges || (0 <= u < i && m <= v < n)
    {
      g := JoinRow(g, n, i, m, n);
      i := i + 1;
    }
  }

  /** The inner loop of every generator: joins `i` to the nodes `from..to`. */
  method JoinRow(g0: Graph, n: int, i: int, from: int, to: int) returns (g: Graph)
    requires Spanned(g0, n)
    ensures Spanned(g, n)
    ensures forall u, v :: (u, v) in g.edges <==> (u, v) in g0.edges || (u == i && from <= v < to)
  {
    g := g0;
    var j := from;
    while j < to
      invariant from <= j && (j == from || j <= to) && Spanned(g, n)
      invariant forall u, v :: (u, v) in g.edges <==> (u, v) in g0.edges || (u == i && from <= v < j)
    {
      AddEdgeSpans(g, n, i, j);
      g := AddEdge(g, i, j);
      j := j + 1;
    }
  }

  lemma WheelNodes(g: Graph, n: nat, k: nat)
    requires IsGeneralizedWheel(g, n, k) && n > k >= 2
    ensures Numbered(g, n)
  {
    forall u | HasEdge(g, u)
      ensures 0 <= u < n
    {
      var v :| Adjacent(g, u, v);
    }
    IntervalCard(g.nodes, 0, n);
  }

  ghost predicate ToNext(g: Graph, u: int) {
    Adjacent(g, u, u + 1)
  }

  /** Rim nodes between two positions, none of them removed, are joined. */
  lemma {:induction false} ArcJoined(g: Graph, removed: set<int>, a: int, b: int)
    requires a <= b
    requires forall u | a <= u <= b :: Alive(g, removed, u)
    requires forall u | a <= u < b :: ToNext(g, u)
    ensures Joined(g, removed, a, b) && Joined(g, removed, b, a)
    decreases b - a
  {
    if a == b {
      JoinedSelf(g, removed, a);
    } else {
      ArcJoined(g, removed, a, b - 1);
      assert ToNext(g, b - 1);
      JoinedEdge(g, removed, b - 1, b);
      JoinedTransitive(g, removed, a, b - 1, b);
      JoinedSymmetric(g, removed, a, b);
    }
  }

  /** The cycle survives the loss of one node. */
  lemma RimJoined(g: Graph, n: nat, k: nat, removed: set<int>, gap: int, u: int)
    requires IsGeneralizedWheel(g, n, k) && n > k >= 2
    requires 0 <= gap < n - k + 2 && 0 <= u < n - k + 2 && u != gap
    requires forall v | 0 <= v < n - k + 2 && v != gap :: Alive(g, removed, v)
    ensures Joined(g, removed, u, if gap == 0 then 1 else 0)
  {
    var m := n - k + 2;
    assert forall v | 0 <= v < m - 1 :: ToNext(g, v);
    if gap == 0 {
      ArcJoined(g, removed, 1, u);
    } else if u < gap {
      ArcJoined(g, removed, 0, u);
    } else {
      ArcJoined(g, removed, u, m - 1);
      assert (0, m - 1) in g.edges;
      JoinedEdge(g, removed, m - 1, 0);
      JoinedTransitive(g, removed, u, m - 1, 0);
    }
  }

  /** Once all hubs are gone, at most one rim node can be. */
  lemma RimLosesAtMostOne(n: nat, k: nat, removed: set<int>, u: int, v: int)
    requires n > k >= 2 && |removed| < k
    requires forall h | n - k + 2 <= h < n :: h in removed
    requires u in removed && v in removed && 0 <= u < n - k + 2 && 0 <= v < n - k + 2
    ensures u == v
  {
    var hubs := set h | h in removed && n - k + 2 <= h < n;
    IntervalCard(hubs, n - k + 2, n);
    SubsetCard(hubs + {u, v}, removed);
  }

  lemma AllHubsRemoved(g: Graph, n: nat, k: nat, removed: set<int>)
    requires IsGeneralizedWheel(g, n, k) && n > k >= 2 && |removed| < k
    requires forall h | n - k + 2 <= h < n :: h in removed
    ensures Connected(g, removed)
  {
    var m := n - k + 2;
    WheelNodes(g, n, k);
    if gap :| 0 <= gap < m && gap in removed {
      forall v | 0 <= v < m && v != gap
        ensures Alive(g, removed, v)
      {
        if v in removed { RimLosesAtMostOne(n, k, removed, v, gap); }
      }
      var hub := if gap == 0 then 1 else 0;
      forall u | Alive(g, removed, u)
        ensures Joined(g, removed, u, hub)
      {
        RimJoined(g, n, k, removed, gap, u);
      }
      ConnectedThrough(g, removed, hub);
    } else {
      assert forall v | 0 <= v < m - 1 :: ToNext(g, v);
      forall u | Alive(g, removed, u)
        ensures Joined(g, removed, u, 0)
      {
        ArcJoined(g, removed, 0, u);
      }
      ConnectedThrough(g, removed, 0);
    }
  }

  lemma HubSurvives(g: Graph, n: nat, k: nat, removed: set<int>, hub: int)
    requires IsGeneralizedWheel(g, n, k) && n > k >= 2
    requires n - k + 2 <= hub < n && hub !in removed
    ensures Connected(g, removed)
  {
    WheelNodes(g, n, k);
    forall u | Alive(g, removed, u)
      ensures Joined(g, removed, u, hub)
    {
      if u == hub {
        JoinedSelf(g, removed, u);
      } else {
        assert (u, hub) in g.edges || (hub, u) in g.edges;
        JoinedEdge(g, removed, u, hub);
      }
    }
    ConnectedThrough(g, removed, hub);
  }

  /** The generalized wheel is `k`-connected. */
  lemma GeneralizedWheelIsKConnected(g: Graph, n: nat, k: nat)
    requires IsGeneralizedWheel(g, n, k) && n > k >= 2
    ensures KConnected(g, k) && Numbered(g, n)
  {
    WheelNodes(g, n, k);
    forall removed: set<int> | |removed| < k
      ensures Connected(g, removed)
    {
      if hub :| n - k + 2 <= hub < n && hub !in removed {
        HubSurvives(g, n, k, removed, hub);
      } else {
        AllHubsRemoved(g, n, k, removed);
      }
    }
  }

  // ---- Multipartite wheel: a ring of groups of k / 2 nodes ----

  predicate InGroup(h: nat, d: nat, u: int) {
    d * h <= u < d * h + h
  }

  /** An edge between two successive groups of the ring. */
  ghost predicate GroupEdge(h: nat, groups: nat, u: int, v: int) {
    || (groups > 0 && Chained(h, groups - 1, u, v))
    || (groups > 0 && InGroup(h, 0, u) && InGroup(h, groups - 1, v))
  }

  ghost predicate Chained(h: nat, upTo: nat, u: int, v: int) {
    exists d: nat :: d < upTo && Successive(h, d, u, v)
  }

  lemma ChainedNext(h: nat, d: nat)
    ensures forall u, v :: Chained(h, d + 1, u, v) <==> Chained(h, d, u, v) || Successive(h, d, u, v)
  {
  }

  ghost predicate Successive(h: nat, d: nat, u: int, v: int) {
    InGroup(h, d, u) && InGroup(h, d + 1, v)
  }

  /** The nodes that fill no group hang on the first two groups. */
  ghost predicate LeftoverEdge(h: nat, groups: nat, n: nat, u: int, v: int) {
    groups * h <= u < n && 0 <= v < 2 * h
  }

  ghost predicate IsMultipartiteWheel(g: Graph, n: nat, h: nat, groups: nat) {
    && Spanned(g, n)
    && groups * h <= n < groups * h + h
    && forall u, v :: (u, v) in g.edges <==> GroupEdge(h, groups, u, v) || LeftoverEdge(h, groups, n, u, v)
  }

  method JoinGroups(g0: Graph, n: int, h: nat, a: nat, b: nat) returns (g: Graph)
    requires Spanned(g0, n)
    ensures Spanned(g, n)
    ensures forall u, v :: (u, v) in g.edges <==> (u, v) in g0.edges || (InGroup(h, a, u) && InGroup(h, b, v))
  {
    g := g0;
    for i := a * h to a * h + h
      invariant Spanned(g, n)
      invariant forall u, v :: (u, v) in g.edges <==> (u, v) in g0.edges || (a * h <= u < i && InGroup(h, b, v))
    {
      g := JoinRow(g, n, i, b * h, b * h + h);
    }
  }

  /** What the generator does: a graph, none, or a division by zero. */
  datatype Outcome = Built(graph: Graph) | NoGraph | DividedByZero

  /** With a negative `k` all ranges of the loops that add edges are empty. */
  method GenerateMultipartiteWheel(n: int, k: int) returns (r: Outcome)
    ensures r == NoGraph <==> 2 * k > n || k % 2 == 1
    ensures r == DividedByZero <==> n >= 0 && k == 0
    ensures r.Built? && k > 0 ==> IsMultipartiteWheel(r.graph, n, k / 2, n / (k / 2))
    ensures r.Built? && k > 0 ==> KConnected(r.graph, k) && Numbered(r.graph, n)
    ensures r.Built? && k < 0 ==> r.graph.edges == {} && forall u :: u in r.graph.nodes <==> 0 <= u < n
  {
    if 2 * k > n || k % 2 == 1 {
      return NoGraph;
    }
    if k == 0 {
      return DividedByZero;
    }
    if k < 0 {
      var alone := AddNodes(n);
      return Built(alone);
    }
    var h, groups := k / 2, n / (k / 2);
    var g := AddNodes(n);
    for d := 0 to groups - 1
      invariant Spanned(g, n)
      invariant forall u, v :: (u, v) in g.edges <==> Chained(h, d, u, v)
    {
      ChainedNext(h, d);
      g := JoinGroups(g, n, h, d, d + 1);
    }
    g := JoinGroups(g, n, h, 0, groups - 1);
    if n % h != 0 {
      g := JoinLeftovers(g, n, k, groups * h);
    }
    MultipartiteResultIsKConnected(g, n, k);
    r := Built(g);
  }

  method JoinLeftovers(g0: Graph, n: int, k: int, from: int) returns (g: Graph)
    requires Spanned(g0, n) && from <= n
    ensures Spanned(g, n)
    ensures forall u, v :: (u, v) in g.edges <==> (u, v) in g0.edges || (from <= u < n && 0 <= v < k)
  {
    g := g0;
    for i := from to n
      invariant Spanned(g, n)
      invariant forall u, v :: (u, v) in g.edges <==> (u, v) in g0.edges || (from <= u < i && 0 <= v < k)
    {
      g := JoinRow(g, n, i, 0, k);
    }
  }

  lemma RingNodes(g: Graph, n: nat, h: nat, groups: nat)
    requires IsMultipartiteWheel(g, n, h, groups) && groups >= 4 && h > 0
    ensures Numbered(g, n)
  {
    forall u, v | (u, v) in g.edges
      ensures 0 <= u < n && 0 <= v < n
    {
      EdgeInRange(n, h, groups, u, v);
    }
    IntervalCard(g.nodes, 0, n);
  }

  lemma EdgeInRange(n: nat, h: nat, groups: nat, u: int, v: int)
    requires groups >= 4 && groups * h <= n
    requires GroupEdge(h, groups, u, v) || LeftoverEdge(h, groups, n, u, v)
    ensures 0 <= u < n && 0 <= v < n
  {
    LayersGrow(h, 2, groups);
    if Chained(h, groups - 1, u, v) {
      var d: nat :| d < groups - 1 && Successive(h, d, u, v);
      LayersGrow(h, d + 2, groups);
    }
  }

  /** Some node of group `d` is left. */
  ghost predicate Lives(h: nat, d: nat, removed: set<int>) {
    exists u :: InGroup(h, d, u) && u !in removed
  }

  ghost function Rep(h: nat, d: nat, removed: set<int>): (u: int)
    requires Lives(h, d, removed)
    ensures InGroup(h, d, u) && u !in removed
  {
    var u :| InGroup(h, d, u) && u !in removed;
    u
  }

  lemma InGroupNode(g: Graph, n: nat, h: nat, groups: nat, removed: set<int>, d: nat, u: int)
    requires IsMultipartiteWheel(g, n, h, groups) && groups >= 4 && h > 0
    requires d < groups && InGroup(h, d, u) && u !in removed
    ensures Alive(g, removed, u)
  {
    RingNodes(g, n, h, groups);
    LayersGrow(h, d + 1, groups);
  }

  /** Surviving nodes of successive groups are joined. */
  lemma GroupStep(g: Graph, n: nat, h: nat, groups: nat, removed: set<int>, d: nat, u: int, v: int)
    requires IsMultipartiteWheel(g, n, h, groups) && groups >= 4 && h > 0
    requires d < groups && InGroup(h, d, u) && u !in removed
    requires InGroup(h, if d + 1 == groups then 0 else d + 1, v) && v !in removed
    ensures Joined(g, removed, u, v) && Joined(g, removed, v, u)
  {
    InGroupNode(g, n, h, groups, removed, d, u);
    InGroupNode(g, n, h, groups, removed, if d + 1 == groups then 0 else d + 1, v);
    if d + 1 < groups {
      assert Successive(h, d, u, v);
      assert Chained(h, groups - 1, u, v);
    }
    assert Adjacent(g, u, v);
    JoinedEdge(g, removed, u, v);
    JoinedEdge(g, removed, v, u);
  }

  lemma {:induction false} RepsJoined(g: Graph, n: nat, h: nat, groups: nat, removed: set<int>, a: nat, b: nat)
    requires IsMultipartiteWheel(g, n, h, groups) && groups >= 4 && h > 0
    requires a <= b < groups && forall d | a <= d <= b :: Lives(h, d, removed)
    ensures Joined(g, removed, Rep(h, a, removed), Rep(h, b, removed))
    ensures Joined(g, removed, Rep(h, b, removed), Rep(h, a, removed))
  {
    if a == b {
      InGroupNode(g, n, h, groups, removed, a, Rep(h, a, removed));
      JoinedSelf(g, removed, Rep(h, a, removed));
    } else {
      RepsJoined(g, n, h, groups, removed, a, b - 1);
      GroupStep(g, n, h, groups, removed, b - 1, Rep(h, b - 1, removed), Rep(h, b, removed));
      JoinedTransitive(g, removed, Rep(h, a, removed), Rep(h, b - 1, removed), Rep(h, b, removed));
      JoinedSymmetric(g, removed, Rep(h, a, removed), Rep(h, b, removed));
    }
  }

  /** At most `lost` has no survivor. */
  ghost predicate OnlyLost(h: nat, groups: nat, removed: set<int>, lost: nat) {
    lost < groups && forall d | 0 <= d < groups && d != lost :: Lives(h, d, removed)
  }

  ghost function HubGroup(lost: nat): nat {
    if lost == 0 then 1 else 0
  }

  /** The ring without one group is still in one piece. */
  lemma RepsJoinHub(g: Graph, n: nat, h: nat, groups: nat, removed: set<int>, lost: nat, d: nat)
    requires IsMultipartiteWheel(g, n, h, groups) && groups >= 4 && h > 0
    requires OnlyLost(h, groups, removed, lost) && d < groups && d != lost
    ensures Joined(g, removed, Rep(h, d, removed), Rep(h, HubGroup(lost), removed))
  {
    if lost == 0 {
      RepsJoined(g, n, h, groups, removed, 1, d);
    } else if d < lost {
      RepsJoined(g, n, h, groups, removed, 0, d);
    } else {
      RepsJoined(g, n, h, groups, removed, d, groups - 1);
      GroupStep(g, n, h, groups, removed, groups - 1, Rep(h, groups - 1, removed), Rep(h, 0, removed));
      JoinedTransitive(g, removed, Rep(h, d, removed), Rep(h, groups - 1, removed), Rep(h, 0, removed));
    }
  }

  /** Every survivor of a group has a living neighbour group to step to. */
  lemma MemberJoinsHub(g: Graph, n: nat, h: nat, groups: nat, removed: set<int>, lost: nat, d: nat, u: int)
    requires IsMultipartiteWheel(g, n, h, groups) && groups >= 4 && h > 0
    requires OnlyLost(h, groups, removed, lost) && d < groups && InGroup(h, d, u) && u !in removed
    ensures Joined(g, removed, u, Rep(h, HubGroup(lost), removed))
  {
    var next := if d + 1 == groups then 0 else d + 1;
    var prev := if d == 0 then groups - 1 else d - 1;
    var e := if next == lost then prev else next;
    if next == lost {
      GroupStep(g, n, h, groups, removed, prev, Rep(h, prev, removed), u);
    } else {
      GroupStep(g, n, h, groups, removed, d, u, Rep(h, next, removed));
    }
    RepsJoinHub(g, n, h, groups, removed, lost, e);
    JoinedTransitive(g, removed, u, Rep(h, e, removed), Rep(h, HubGroup(lost), removed));
  }

  /** Fewer than `2 h` removals leave at most one group without survivors. */
  lemma TwoGroupsAreTooMany(h: nat, removed: set<int>, a: nat, b: nat)
    requires a < b && !Lives(h, a, removed) && !Lives(h, b, removed)
    ensures |removed| >= 2 * h
  {
    LayersGrow(h, a + 1, b);
    var inA := set u | u in removed && InGroup(h, a, u);
    var inB := set u | u in removed && InGroup(h, b, u);
    IntervalCard(inA, a * h, a * h + h);
    IntervalCard(inB, b * h, b * h + h);
    assert inA !! inB;
    SubsetCard(inA + inB, removed);
  }

  ghost function LostGroup(h: nat, groups: nat, removed: set<int>): (lost: nat)
    requires |removed| < 2 * h && groups > 0
    ensures OnlyLost(h, groups, removed, lost)
  {
    if d: nat :| d < groups && !Lives(h, d, removed) then
      assert forall e | 0 <= e < groups && e != d :: Lives(h, e, removed) by {
        forall e | 0 <= e < groups && e != d
          ensures Lives(h, e, removed)
        {
          if !Lives(h, e, removed) {
            TwoGroupsAreTooMany(h, removed, if e < d then e else d, if e < d then d else e);
          }
        }
      }
      d
    else 0
  }

  lemma GroupOf(h: nat, groups: nat, u: nat) returns (d: nat)
    requires h > 0 && groups > 0 && u < groups * h
    ensures d < groups && InGroup(h, d, u)
  {
    d := Layer(h, u);
    VertexInverse(h, u);
    LayerBound(h, groups - 1, u);
  }

  /** A leftover node keeps one of its `2 h` neighbours. */
  lemma LeftoverStep(g: Graph, n: nat, h: nat, groups: nat, removed: set<int>, u: int) returns (v: int)
    requires IsMultipartiteWheel(g, n, h, groups) && groups >= 4 && h > 0
    requires |removed| < 2 * h && groups * h <= u < n && u !in removed
    ensures 0 <= v < 2 * h && v !in removed && Joined(g, removed, u, v)
  {
    RingNodes(g, n, h, groups);
    LayersGrow(h, 2, groups);
    var first := UpTo(2 * h);
    IntervalCard(first, 0, 2 * h);
    v := Escape(first, removed);
    assert LeftoverEdge(h, groups, n, u, v);
    JoinedEdge(g, removed, u, v);
  }

  lemma AnyNodeJoinsHub(g: Graph, n: nat, h: nat, groups: nat, removed: set<int>, lost: nat, u: int)
    requires IsMultipartiteWheel(g, n, h, groups) && groups >= 4 && h > 0
    requires |removed| < 2 * h && OnlyLost(h, groups, removed, lost) && Alive(g, removed, u)
    ensures Joined(g, removed, u, Rep(h, HubGroup(lost), removed))
  {
    RingNodes(g, n, h, groups);
    LayersGrow(h, 2, groups);
    if u < groups * h {
      var d := GroupOf(h, groups, u);
      MemberJoinsHub(g, n, h, groups, removed, lost, d, u);
    } else {
      var v := LeftoverStep(g, n, h, groups, removed, u);
      var d := GroupOf(h, groups, v);
      MemberJoinsHub(g, n, h, groups, removed, lost, d, v);
      JoinedTransitive(g, removed, u, v, Rep(h, HubGroup(lost), removed));
    }
  }

  /** The multipartite wheel with groups of `h` nodes is `2 h`-connected, leftover nodes included. */
  lemma MultipartiteWheelIsKConnected(g: Graph, n: nat, h: nat, groups: nat)
    requires IsMultipartiteWheel(g, n, h, groups) && groups >= 4 && h > 0
    ensures KConnected(g, 2 * h) && Numbered(g, n)
  {
    RingNodes(g, n, h, groups);
    LayersGrow(h, 4, groups);
    forall removed: set<int> | |removed| < 2 * h
      ensures Connected(g, removed)
    {
      var lost := LostGroup(h, groups, removed);
      forall u | Alive(g, removed, u)
        ensures Joined(g, removed, u, Rep(h, HubGroup(lost), removed))
      {
        AnyNodeJoinsHub(g, n, h, groups, removed, lost, u);
      }
      ConnectedThrough(g, removed, Rep(h, HubGroup(lost), removed));
    }
  }

  /** What the generator returns is `k`-connected whenever it returns a graph. */
  lemma MultipartiteResultIsKConnected(g: Graph, n: nat, k: nat)
    requires k > 0 && k % 2 == 0 && 2 * k <= n && IsMultipartiteWheel(g, n, k / 2, n / (k / 2))
    ensures KConnected(g, k) && Numbered(g, n)
  {
    var h := k / 2;
    EnoughGroups(n, h);
    MultipartiteWheelIsKConnected(g, n, h, n / h);
  }

  lemma EnoughGroups(n: nat, h: nat)
    requires h > 0 && n >= 4 * h
    ensures n / h >= 4
  {
  }
}
