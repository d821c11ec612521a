/**
  The layered graph in which a simulated peer records received paths, and the
  flow test that decides whether enough of them are disjoint. A path's `d`-th hop
  is an edge from layer `d` to layer `d + 1`.
 */
module PathGraph {
  import opened Blocks
  import opened MaxFlow
  import opened LayeredGraph

  ghost function EdgesOf(g: array3<bool>): (e: Edges)
    reads g
    ensures forall d: nat, i: nat, j: nat :: (d, i, j) in e <==>
              d < g.Length0 && i < g.Length1 && j < g.Length2 && g[d, i, j]
  {
    set d: nat, i: nat, j: nat | d < g.Length0 && i < g.Length1 && j < g.Length2 && g[d, i, j] :: (d, i, j)
  }

  /** The hops of a path that ends at `self`, and the loops that keep `self`
      reachable in all later layers. */
  ghost predicate Inserted(path: seq<nat>, self: nat, n: nat, d: nat, i: nat, j: nat) {
    if d + 1 < |path| then i == path[d] && j == path[d + 1]
    else d < n && i == self && j == self
  }

  // ---- Which graphs have large cuts ----

  /** A walk of recorded edges. */
  ghost predicate LayeredWalk(edges: Edges, n: nat, p: seq<nat>, s: nat, self: nat) {
    && |p| >= 2 && p[0] == s && p[|p| - 1] == self
    && (forall i | 0 <= i < |p| :: p[i] < n)
    && (forall d | 0 <= d < |p| - 1 :: (d, p[d], p[d + 1]) in edges)
  }

  /** A simple route of recorded edges. */
  ghost predicate LayeredRoute(edges: Edges, n: nat, p: seq<nat>, s: nat, self: nat) {
    LayeredWalk(edges, n, p, s, self) && forall i, j | 0 <= i < j < |p| :: p[i] != p[j]
  }

  /** Walks of equal length without common intermediate nodes. */
  ghost predicate EqualWalks(edges: Edges, n: nat, routes: seq<seq<nat>>, hops: nat, s: nat, self: nat) {
    && (forall r | 0 <= r < |routes| :: |routes[r]| == hops + 1 && LayeredWalk(edges, n, routes[r], s, self))
    && (forall q, r, i | 0 <= q < r < |routes| && 0 < i < hops :: routes[q][i] !in routes[r][1..hops])
  }

  /** Routes of equal length without common intermediate nodes. */
  ghost predicate EqualRoutes(edges: Edges, n: nat, routes: seq<seq<nat>>, hops: nat, s: nat, self: nat) {
    && EqualWalks(edges, n, routes, hops, s, self)
    && forall r | 0 <= r < |routes| :: LayeredRoute(edges, n, routes[r], s, self)
  }

  ghost function At(n: nat, p: seq<nat>, d: nat): nat
    requires d < |p|
  {
    d * n + p[d]
  }

  ghost predicate Crosses(n: nat, p: seq<nat>, side: set<int>, k: nat) {
    k + 1 < |p| && At(n, p, k) in side && At(n, p, k + 1) !in side
  }

  /** A route from one side of a cut to the other crosses it. */
  lemma {:induction false} RouteCrosses(n: nat, p: seq<nat>, side: set<int>, d: nat)
    requires d < |p| && At(n, p, 0) in side && At(n, p, d) !in side
    ensures exists k: nat :: k < d && Crosses(n, p, side, k)
  {
    if At(n, p, d - 1) in side {
      assert Crosses(n, p, side, d - 1);
    } else {
      RouteCrosses(n, p, side, d - 1);
    }
  }

  lemma {:induction false} SimpleRouteIsShort(p: seq<nat>, n: nat)
    requires (forall i | 0 <= i < |p| :: p[i] < n) && (forall i, j | 0 <= i < j < |p| :: p[i] != p[j])
    ensures |p| <= n
    decreases n
  {
    if p != [] {
      assert p[0] < n;
      if k :| 0 <= k < |p| && p[k] == n - 1 {
        var rest := p[..k] + p[k + 1..];
        SimpleRouteIsShort(rest, n - 1);
      } else {
        SimpleRouteIsShort(p[1..], n - 1);
      }
    }
  }

  ghost function CrossingOf(edges: Edges, n: nat, p: seq<nat>, hops: nat, s: nat, self: nat, side: set<int>): (k: nat)
    requires LayeredWalk(edges, n, p, s, self) && |p| == hops + 1
    requires Separates(side, s, hops * n + self)
    ensures k < hops && Crosses(n, p, side, k)
  {
    assert At(n, p, 0) == s && At(n, p, hops) == hops * n + self;
    RouteCrosses(n, p, side, hops);
    var k: nat :| k < hops && Crosses(n, p, side, k);
    k
  }

  lemma CrossingHasCapacity(edges: Edges, n: nat, p: seq<nat>, hops: nat, s: nat, self: nat, side: set<int>, k: nat)
    requires LayeredWalk(edges, n, p, s, self) && |p| == hops + 1 && hops < n
    requires Crosses(n, p, side, k)
    ensures n * n <= (n + 1) * n && Crossing(PathMatrix(edges, n), side, n * n, (At(n, p, k), At(n, p, k + 1)))
  {
    Vertex(n, k, p[k]);
    Vertex(n, k + 1, p[k + 1]);
    VertexInRange(n, k, p[k]);
    VertexInRange(n, k + 1, p[k + 1]);
  }

  /** Equal-length routes without a common intermediate node use different edges. */
  lemma CrossingsDiffer(edges: Edges, n: nat, routes: seq<seq<nat>>, hops: nat, s: nat, self: nat,
                        q: nat, r: nat, k: nat, l: nat)
    requires EqualWalks(edges, n, routes, hops, s, self) && hops >= 2 && q < r < |routes|
    requires k < hops && l < hops
    ensures At(n, routes[q], k) != At(n, routes[r], l) || At(n, routes[q], k + 1) != At(n, routes[r], l + 1)
  {
    Vertex(n, k, routes[q][k]);
    Vertex(n, l, routes[r][l]);
    Vertex(n, k + 1, routes[q][k + 1]);
    Vertex(n, l + 1, routes[r][l + 1]);
    var i := if k > 0 then k else 1;
    assert routes[r][1..hops][i - 1] == routes[r][i];
    assert routes[q][i] != routes[r][i];
  }

  ghost function CrossingEdge(edges: Edges, n: nat, p: seq<nat>, hops: nat, s: nat, self: nat,
                              side: set<int>): (nat, nat)
    requires LayeredWalk(edges, n, p, s, self) && |p| == hops + 1
    requires Separates(side, s, hops * n + self)
  {
    var k := CrossingOf(edges, n, p, hops, s, self, side);
    (At(n, p, k), At(n, p, k + 1))
  }

  /** Many equal-length routes without a common intermediate node leave no small cut. */
  lemma RoutesMakeCutsLarge(edges: Edges, n: nat, routes: seq<seq<nat>>, hops: nat, s: nat, self: nat)
    requires EqualWalks(edges, n, routes, hops, s, self) && 2 <= hops < n
    ensures AllCutsAtLeast(PathMatrix(edges, n), n, s, hops * n + self, |routes|)
  {
    LayersGrow(n, n, n + 1);
    var c := PathMatrix(edges, n);
    forall side: set<int> | Separates(side, s, hops * n + self)
      ensures Cut(c, side, n * n) >= |routes|
    {
      var crossings := seq(|routes|, r requires 0 <= r < |routes| =>
        CrossingEdge(edges, n, routes[r], hops, s, self, side));
      forall r | 0 <= r < |crossings|
        ensures Crossing(c, side, n * n, crossings[r])
      {
        CrossingHasCapacity(edges, n, routes[r], hops, s, self, side,
                            CrossingOf(edges, n, routes[r], hops, s, self, side));
      }
      forall q, r | 0 <= q < r < |crossings|
        ensures crossings[q] != crossings[r]
      {
        CrossingsDiffer(edges, n, routes, hops, s, self, q, r,
                        CrossingOf(edges, n, routes[q], hops, s, self, side),
                        CrossingOf(edges, n, routes[r], hops, s, self, side));
      }
      CrossingsBound(c, side, n * n, crossings);
    }
  }

  /** What earlier layers leave behind never hides a flow. */
  lemma EntryCutsAreLarge(c: Matrix, edges: Edges, n: nat, s: nat, t: nat, k: int)
    requires EntryMatrix(c, edges, n)
    requires AllCutsAtLeast(PathMatrix(edges, n), n, s, t, k)
    ensures AllCutsAtLeast(c, n, s, t, k)
  {
    forall side: set<int> | Separates(side, s, t)
      ensures Cut(c, side, n * n) >= k
    {
      assert Cut(PathMatrix(edges, n), side, n * n) >= k;
      CutMonotone(PathMatrix(edges, n), c, side, n * n, n * n);
    }
  }

  ghost predicate Copied(c: Matrix, d: Matrix, edges: Edges, n: nat, upTo: nat) {
    && Square(c, |c|) && Square(d, |c|)
    && forall x, y | 0 <= x < |c| && 0 <= y < |c| ::
         d[x][y] == if Layer(n, x) < upTo && Layer(n, y) == Layer(n, x) + 1 then Capacity(edges, n, x, y) else c[x][y]
  }

  ghost predicate CopiedInLayer(c: Matrix, d: Matrix, edges: Edges, n: nat, layer: nat, upTo: nat) {
    && Square(c, |c|) && Square(d, |c|)
    && forall x, y | 0 <= x < |c| && 0 <= y < |c| ::
         d[x][y] == if Layer(n, x) == layer && Place(n, x) < upTo && Layer(n, y) == layer + 1
                    then Capacity(edges, n, x, y) else c[x][y]
  }

  ghost predicate CopiedInRow(c: Matrix, d: Matrix, edges: Edges, n: nat, row: nat, layer: nat, upTo: nat) {
    && Square(c, |c|) && Square(d, |c|)
    && forall x, y | 0 <= x < |c| && 0 <= y < |c| ::
         d[x][y] == if x == row && Layer(n, y) == layer + 1 && Place(n, y) < upTo
                    then Capacity(edges, n, x, y) else c[x][y]
  }

  lemma RowToLayer(c: Matrix, d: Matrix, e: Matrix, edges: Edges, n: nat, layer: nat, i: nat)
    requires CopiedInLayer(c, d, edges, n, layer, i) && CopiedInRow(d, e, edges, n, layer * n + i, layer, n)
    requires i < n && layer < n
    ensures CopiedInLayer(c, e, edges, n, layer, i + 1)
  {
    Vertex(n, layer, i);
    forall x: nat, y: nat | x < |c| && y < |c|
      ensures e[x][y] == if Layer(n, x) == layer && Place(n, x) < i + 1 && Layer(n, y) == layer + 1
                         then Capacity(edges, n, x, y) else c[x][y]
    {
      RowsOfLayer(n, layer, i, x);
      VertexInverse(n, y);
    }
  }

  lemma RowsOfLayer(n: nat, layer: nat, i: nat, x: nat)
    requires i < n
    ensures Layer(n, x) == layer && Place(n, x) == i <==> x == layer * n + i
  {
    Vertex(n, layer, i);
    VertexInverse(n, x);
  }

  lemma LayerToGraph(c: Matrix, d: Matrix, e: Matrix, edges: Edges, n: nat, layer: nat)
    requires Copied(c, d, edges, n, layer) && CopiedInLayer(d, e, edges, n, layer, n) && n > 0
    ensures Copied(c, e, edges, n, layer + 1)
  {
    forall x, y | 0 <= x < |c| && 0 <= y < |c|
      ensures e[x][y] == if Layer(n, x) < layer + 1 && Layer(n, y) == Layer(n, x) + 1
                         then Capacity(edges, n, x, y) else c[x][y]
    {
      VertexInverse(n, x);
    }
  }

  lemma CellToRow(c: Matrix, d: Matrix, e: Matrix, edges: Edges, n: nat, layer: nat, i: nat, j: nat, k: int)
    requires CopiedInRow(c, d, edges, n, layer * n + i, layer, j) && i < n && j < n && layer < n
    requires k == if (layer, i, j) in edges then 1 else 0
    requires Square(e, |c|) && forall x, y | 0 <= x < |c| && 0 <= y < |c| ::
               e[x][y] == if x == layer * n + i && y == (layer + 1) * n + j then k else d[x][y]
    ensures CopiedInRow(c, e, edges, n, layer * n + i, layer, j + 1)
  {
    Vertex(n, layer, i);
    Vertex(n, layer + 1, j);
    var row := layer * n + i;
    forall x, y | 0 <= x < |c| && 0 <= y < |c|
      ensures e[x][y] == if x == row && Layer(n, y) == layer + 1 && Place(n, y) < j + 1
                         then Capacity(edges, n, x, y) else c[x][y]
    {
      VertexInverse(n, y);
      if y == (layer + 1) * n + j {
        assert Layer(n, y) == layer + 1 && Place(n, y) == j;
        assert x == row ==> Capacity(edges, n, x, y) == k;
      } else {
        assert e[x][y] == d[x][y];
        assert Layer(n, y) == layer + 1 ==> Place(n, y) != j;
      }
    }
  }

  lemma CopiedIsEntry(c: Matrix, d: Matrix, edges: Edges, n: nat)
    requires n > 0 && Square(c, (n + 1) * n) && NonNegative(c) && Copied(c, d, edges, n, n)
    ensures EntryMatrix(d, edges, n)
  {
    forall x, y | 0 <= x < |d| && 0 <= y < |d[x]|
      ensures d[x][y] >= 0
    {
      assert c[x][y] >= 0 && Capacity(edges, n, x, y) >= 0;
    }
    forall x, y | 0 <= x < |d| && 0 <= y < |d| && Layer(n, y) == Layer(n, x) + 1
      ensures d[x][y] == Capacity(edges, n, x, y)
    {
      LayerBound(n, n, y);
    }
  }

  lemma CopiedIsEntered(c: Matrix, d: Matrix, edges: Edges, n: nat, s: nat, ot: nat, layer: nat)
    requires Behind(c, edges, n, s, ot, layer) && Copied(c, d, edges, n, n) && s < n && ot < n && layer < n
    ensures Entered(d, edges, n, s, ot, layer)
  {
    CopiedIsEntry(c, d, edges, n);
    forall x: nat, y: nat | x < n * n && y < n * n && InMatrix(d, x, y) && !Forward(n, x, y) && d[x][y] > 0
      ensures InMatrix(c, x, y) && c[x][y] == d[x][y]
    {
    }
  }

  lemma CopiedOntoZeros(c: Matrix, d: Matrix, edges: Edges, n: nat)
    requires n > 0 && Square(c, (n + 1) * n) && Copied(c, d, edges, n, n)
    requires AllZero(c)
    ensures d == PathMatrix(edges, n)
  {
    var p := PathMatrix(edges, n);
    forall x | 0 <= x < |d|
      ensures d[x] == p[x]
    {
      forall y | 0 <= y < |d|
        ensures d[x][y] == p[x][y]
      {
        LayerBound(n, n, y);
      }
    }
  }

  class Peer {
    const n: nat
    const f: nat
    const selfId: nat
    var graphs: map<(int, nat), array3<bool>>
    var rgraph: array2<int>

    ghost predicate Valid()
      reads this
    {
      && selfId < n
      && rgraph.Length0 == rgraph.Length1 == (n + 1) * n
      && (forall x | x in graphs :: IsCube(graphs[x]))
      && (forall x, y | x in graphs && y in graphs && x != y :: graphs[x] != graphs[y])
    }

    ghost predicate IsCube(g: array3<bool>) {
      g.Length0 == n && g.Length1 == n && g.Length2 == n
    }

    constructor (n: nat, f: nat, selfId: nat)
      requires selfId < n
      ensures Valid() && fresh(rgraph) && graphs == map[]
      ensures this.n == n && this.f == f && this.selfId == selfId
    {
      this.n, this.f, this.selfId := n, f, selfId;
      graphs := map[];
      rgraph := new int[(n + 1) * n, (n + 1) * n];
    }

    method CreateGraphIfDoesNotExist(xId: (int, nat))
      requires Valid()
      modifies this`graphs
      ensures Valid() && xId in graphs
      ensures xId in old(graphs) ==> graphs == old(graphs)
      ensures xId !in old(graphs) ==>
                && graphs == old(graphs)[xId := graphs[xId]]
                && fresh(graphs[xId]) && EdgesOf(graphs[xId]) == {}
    {
      if xId !in graphs {
        var pathGraph := new bool[n, n, n]((d, i, j) => false);
        graphs := graphs[xId := pathGraph];
      }
    }

    /** `beyond` reports a path that is too long for the graph: the code writes beyond it. */
    method InsertPathIntoGraph(xId: (int, nat), path: seq<nat>) returns (beyond: bool)
      requires Valid() && xId in graphs
      requires 1 <= |path| && forall i | 0 <= i < |path| :: path[i] < n
      modifies graphs[xId]
      ensures beyond <==> |path| > n + 1
      ensures forall d, i, j | 0 <= d < n && 0 <= i < n && 0 <= j < n ::
                graphs[xId][d, i, j] == (old(graphs[xId][d, i, j]) || Inserted(path, selfId, n, d, i, j))
    {
      var g := graphs[xId];
      var depth := 0;
      for k := 0 to |path| - 1
        invariant depth == k <= n
        invariant forall d, i, j | 0 <= d < n && 0 <= i < n && 0 <= j < n ::
                    g[d, i, j] == (old(g[d, i, j]) || (d < depth && Inserted(path, selfId, n, d, i, j)))
      {
        if depth == n {
          return true;
        }
        g[depth, path[k], path[k + 1]] := true;
        depth := depth + 1;
      }
      beyond := false;
      while depth < n
        invariant |path| - 1 <= depth <= n
        invariant forall d, i, j | 0 <= d < n && 0 <= i < n && 0 <= j < n ::
                    g[d, i, j] == (old(g[d, i, j]) || (d < depth && Inserted(path, selfId, n, d, i, j)))
      {
        g[depth, selfId, selfId] := true;
        depth := depth + 1;
      }
    }

    method CopyRow(g: array3<bool>, d: nat, i: nat)
      requires Valid() && IsCube(g) && d < n && i < n
      modifies rgraph
      ensures CopiedInRow(old(Rows(rgraph)), Rows(rgraph), EdgesOf(g), n, d * n + i, d, n)
    {
      ghost var c, edges := Rows(rgraph), EdgesOf(g);
      for j := 0 to n
        invariant CopiedInRow(c, Rows(rgraph), edges, n, d * n + i, d, j)
      {
        CopyCell(g, d, i, j, c);
      }
    }

    method CopyCell(g: array3<bool>, d: nat, i: nat, j: nat, ghost c: Matrix)
      requires Valid() && IsCube(g) && d < n && i < n && j < n
      requires CopiedInRow(c, Rows(rgraph), EdgesOf(g), n, d * n + i, d, j)
      modifies rgraph
      ensures CopiedInRow(c, Rows(rgraph), EdgesOf(g), n, d * n + i, d, j + 1)
    {
      ghost var before := Rows(rgraph);
      SetCell(d, i, j, if g[d, i, j] then 1 else 0);
      CellToRow(c, before, Rows(rgraph), EdgesOf(g), n, d, i, j, if g[d, i, j] then 1 else 0);
    }

    method SetCell(d: nat, i: nat, j: nat, capacity: int)
      requires Valid() && d < n && i < n && j < n
      modifies rgraph
      ensures Square(Rows(rgraph), rgraph.Length0)
      ensures forall x, y | 0 <= x < rgraph.Length0 && 0 <= y < rgraph.Length0 ::
                Rows(rgraph)[x][y] == if x == d * n + i && y == (d + 1) * n + j then capacity
                    else old(Rows(rgraph))[x][y]
    {
      CellInRange(n, d, i, j);
      rgraph[d * n + i, (d + 1) * n + j] := capacity;
    }

    method CopyLayer(g: array3<bool>, d: nat)
      requires Valid() && IsCube(g) && d < n
      modifies rgraph
      ensures CopiedInLayer(old(Rows(rgraph)), Rows(rgraph), EdgesOf(g), n, d, n)
    {
      ghost var c, edges := Rows(rgraph), EdgesOf(g);
      for i := 0 to n
        invariant CopiedInLayer(c, Rows(rgraph), edges, n, d, i)
      {
        ghost var before := Rows(rgraph);
        CopyRow(g, d, i);
        RowToLayer(c, before, Rows(rgraph), edges, n, d, i);
      }
    }

    method CopyGraph(g: array3<bool>)
      requires Valid() && IsCube(g)
      modifies rgraph
      ensures Copied(old(Rows(rgraph)), Rows(rgraph), EdgesOf(g), n, n)
    {
      ghost var c, edges := Rows(rgraph), EdgesOf(g);
      for d := 0 to n
        invariant Copied(c, Rows(rgraph), edges, n, d)
      {
        ghost var before := Rows(rgraph);
        CopyLayer(g, d);
        LayerToGraph(c, before, Rows(rgraph), edges, n, d);
      }
    }

    method Clear()
      requires Valid()
      modifies rgraph
      ensures Square(Rows(rgraph), rgraph.Length0)
      ensures AllZero(Rows(rgraph))
    {
      for i := 0 to rgraph.Length0
        invariant forall x, y | 0 <= x < i && 0 <= y < rgraph.Length1 :: rgraph[x, y] == 0
      {
        for j := 0 to rgraph.Length1
          invariant forall x, y | 0 <= x < i && 0 <= y < rgraph.Length1 :: rgraph[x, y] == 0
          invariant forall y | 0 <= y < j :: rgraph[i, y] == 0
        {
          rgraph[i, j] := 0;
        }
      }
    }

    /** Copies the recorded graph over what earlier layers have left. */
    method EnterLayer(g: array3<bool>, ghost s: nat, ghost d: nat, ghost ot: nat)
      requires Valid() && IsCube(g) && s < n && ot < n && d < n && Behind(Rows(rgraph), EdgesOf(g), n, s, ot, d)
      modifies rgraph
      ensures Entered(Rows(rgraph), EdgesOf(g), n, s, ot, d)
      ensures Copied(old(Rows(rgraph)), Rows(rgraph), EdgesOf(g), n, n)
    {
      ghost var before := Rows(rgraph);
      CopyGraph(g);
      CopiedIsEntered(before, Rows(rgraph), EdgesOf(g), n, s, ot, d);
    }

    /** Copies the recorded graph and counts the flow to the target in layer `d`. */
    method FlowToLayer(g: array3<bool>, s: nat, d: nat, ot: nat) returns (maxFlow: int, ghost entry: Matrix)
      requires Valid() && IsCube(g) && s < n && ot < n && d < n && s != ot
      requires Behind(Rows(rgraph), EdgesOf(g), n, s, ot, d)
      modifies rgraph
      ensures Entered(entry, EdgesOf(g), n, s, ot, d) && Copied(old(Rows(rgraph)), entry, EdgesOf(g), n, n)
      ensures Behind(Rows(rgraph), EdgesOf(g), n, s, ot, d + 1)
      ensures maxFlow >= f + 1 <==> AllCutsAtLeast(entry, n, s, n * d + ot, f + 1)
    {
      EnterLayer(g, s, d, ot);
      entry := Rows(rgraph);
      maxFlow := FlowToTarget(s, d, ot, EdgesOf(g));
    }

    /** The flow from an entered layer, and what it leaves behind. */
    method FlowToTarget(s: nat, d: nat, ot: nat, ghost edges: Edges) returns (maxFlow: int)
      requires Valid() && s != ot && Entered(Rows(rgraph), edges, n, s, ot, d)
      modifies rgraph
      ensures Behind(Rows(rgraph), edges, n, s, ot, d + 1)
      ensures maxFlow >= f + 1 <==> AllCutsAtLeast(old(Rows(rgraph)), n, s, n * d + ot, f + 1)
    {
      Target(n, d, s, ot);
      ghost var entry := Rows(rgraph);
      maxFlow := FlowBetween(s, n * d + ot);
      BehindNext(entry, Rows(rgraph), edges, n, s, ot, d, maxFlow);
    }

    /** Exhausts the residual matrix; the flow tells whether all cuts exceed `f`. */
    method FlowBetween(s: nat, t: nat) returns (maxFlow: int)
      requires rgraph.Length0 == rgraph.Length1 == (n + 1) * n && n * n <= rgraph.Length0
      requires s < n * n && t < n * n && s != t && NonNegative(Rows(rgraph))
      modifies rgraph
      ensures Residual(old(Rows(rgraph)), Rows(rgraph), n, s, t, maxFlow)
      ensures maxFlow >= f + 1 <==> AllCutsAtLeast(old(Rows(rgraph)), n, s, t, f + 1)
    {
      ghost var entry := Rows(rgraph);
      maxFlow := Augment(n, rgraph, s, t);
      MinCutDecides(entry, n, s, t, maxFlow, f + 1);
    }

    /** Is there enough flow to the target in some layer? `entries` are the matrices
        with which the layers examined were entered. */
    method FordFulkerson(msgType: int, s: nat, ot: nat) returns (enough: bool, ghost entries: seq<Matrix>)
      requires Valid() && (msgType, s) in graphs && s < n && ot < n
      modifies rgraph
      ensures Verdict(EdgesOf(graphs[(msgType, s)]), n, f, s, ot, enough, entries)
    {
      var g := graphs[(msgType, s)];
      if s == ot || g[0, s, ot] {
        return true, [];
      }
      Clear();
      enough, entries := FlowToSomeLayer(g, s, ot);
    }

    /** The loop over the layers of the target. */
    method FlowToSomeLayer(g: array3<bool>, s: nat, ot: nat) returns (enough: bool, ghost entries: seq<Matrix>)
      requires Valid() && IsCube(g) && s < n && ot < n && s != ot && AllZero(Rows(rgraph))
      modifies rgraph
      ensures EntriesFit(entries, EdgesOf(g), n, s, ot) && |entries| <= n && (!enough ==> |entries| == n)
      ensures enough <==> exists d | 0 <= d < |entries| :: Enough(entries, n, f, s, ot, d)
    {
      ghost var edges := EdgesOf(g);
      entries := [];
      NothingBehind(Rows(rgraph), edges, n, s, ot);
      for d := 0 to n
        invariant Behind(Rows(rgraph), edges, n, s, ot, d) && (d == 0 ==> AllZero(Rows(rgraph)))
        invariant |entries| == d && EntriesFit(entries, edges, n, s, ot) && NoneEnough(entries, n, f, s, ot)
      {
        ghost var before := Rows(rgraph);
        var maxFlow, entry := FlowToLayer(g, s, d, ot);
        EntriesMore(entries, entry, before, edges, n, f, s, ot);
        entries := entries + [entry];
        if maxFlow >= f + 1 {
          return true, entries;
        }
      }
      enough := false;
    }
  }

  /** Every cut of the entry matrix of layer `d` is larger than `f`. */
  ghost predicate Enough(entries: seq<Matrix>, n: nat, f: nat, s: nat, ot: nat, d: nat)
    requires d < |entries|
  {
    AllCutsAtLeast(entries[d], n, s, n * d + ot, f + 1)
  }

  /** The first layer is entered with the recorded graph alone, each later one with what the flows
      to the layers before it may have left behind. */
  ghost predicate EntriesFit(entries: seq<Matrix>, edges: Edges, n: nat, s: nat, ot: nat) {
    && (forall d | 0 <= d < |entries| :: Entered(entries[d], edges, n, s, ot, d))
    && (entries != [] ==> entries[0] == PathMatrix(edges, n))
  }

  ghost predicate NoneEnough(entries: seq<Matrix>, n: nat, f: nat, s: nat, ot: nat) {
    forall d | 0 <= d < |entries| :: !Enough(entries, n, f, s, ot, d)
  }

  ghost predicate AllZero(c: Matrix) {
    forall x, y | 0 <= x < |c| && 0 <= y < |c[x]| :: c[x][y] == 0
  }

  /** One more layer has been entered, after the matrix `before` had been left behind. */
  lemma EntriesMore(entries: seq<Matrix>, entry: Matrix, before: Matrix, edges: Edges, n: nat, f: nat, s: nat, ot: nat)
    requires EntriesFit(entries, edges, n, s, ot) && Entered(entry, edges, n, s, ot, |entries|)
    requires Square(before, (n + 1) * n) && Copied(before, entry, edges, n, n) && (entries == [] ==> AllZero(before))
    ensures EntriesFit(entries + [entry], edges, n, s, ot)
    ensures Enough(entries + [entry], n, f, s, ot, |entries|) <==>
            AllCutsAtLeast(entry, n, s, n * |entries| + ot, f + 1)
    ensures NoneEnough(entries, n, f, s, ot) ==>
              forall d | 0 <= d < |entries| :: !Enough(entries + [entry], n, f, s, ot, d)
  {
    if entries == [] { CopiedOntoZeros(before, entry, edges, n); }
    var more := entries + [entry];
    forall d | 0 <= d < |more|
      ensures Entered(more[d], edges, n, s, ot, d)
    {
    }
    forall d | 0 <= d < |entries| && NoneEnough(entries, n, f, s, ot)
      ensures !Enough(more, n, f, s, ot, d)
    {
      assert !Enough(entries, n, f, s, ot, d);
    }
  }

  /** What the answer of the flow test means. */
  ghost predicate Verdict(edges: Edges, n: nat, f: nat, s: nat, ot: nat, enough: bool, entries: seq<Matrix>) {
    && |entries| <= n && (!enough ==> |entries| == n)
    && EntriesFit(entries, edges, n, s, ot)
    && (enough <==> s == ot || (0, s, ot) in edges || exists d | 0 <= d < |entries| :: Enough(entries, n, f, s, ot, d))
  }

  /** Residual capacity of earlier layers hides nothing: when all cuts of some
      layer of the recorded graph itself are large enough, the answer is yes. */
  lemma NeverMisses(edges: Edges, n: nat, f: nat, s: nat, ot: nat, enough: bool, entries: seq<Matrix>, d: nat)
    requires Verdict(edges, n, f, s, ot, enough, entries)
    requires d < n && AllCutsAtLeast(PathMatrix(edges, n), n, s, n * d + ot, f + 1)
    ensures enough
  {
    if d < |entries| {
      EntryCutsAreLarge(entries[d], edges, n, s, n * d + ot, f + 1);
      assert Enough(entries, n, f, s, ot, d);
    }
  }

  /** A yes is never unfounded: the target is the source or its neighbour, or a recorded walk leads
      to it whose first and whose last hop is one of more than `f` recorded ones. */
  lemma YesIsSupported(edges: Edges, n: nat, f: nat, s: nat, ot: nat, enough: bool, entries: seq<Matrix>)
    requires Verdict(edges, n, f, s, ot, enough, entries) && enough
    ensures s == ot || (0, s, ot) in edges || exists d: nat :: Supported(edges, n, f, s, ot, d)
  {
    if s != ot && (0, s, ot) !in edges {
      var d: nat :| d < |entries| && Enough(entries, n, f, s, ot, d);
      LargeCutsAreSupported(entries[d], edges, n, f, s, ot, d);
    }
  }

  /** At the first layer to which a recorded walk leads, the test is exact. */
  lemma FirstLayerIsExact(edges: Edges, n: nat, f: nat, s: nat, ot: nat, enough: bool, entries: seq<Matrix>, d: nat)
    requires Verdict(edges, n, f, s, ot, enough, entries) && d < |entries|
    requires forall l: nat | l < d :: !Walked(edges, n, s, l, ot)
    ensures Enough(entries, n, f, s, ot, d) <==> AllCutsAtLeast(PathMatrix(edges, n), n, s, n * d + ot, f + 1)
  {
    FirstFlowIsExact(entries[d], edges, n, s, ot, d, f + 1);
  }

  /** Equal-length routes without common intermediate nodes are always found,
      whatever else was recorded. */
  lemma EqualRoutesAreFound(edges: Edges, n: nat, f: nat, s: nat, ot: nat, enough: bool, entries: seq<Matrix>,
                            routes: seq<seq<nat>>, hops: nat)
    requires Verdict(edges, n, f, s, ot, enough, entries)
    requires EqualRoutes(edges, n, routes, hops, s, ot) && |routes| == f + 1
    ensures enough
  {
    var p := routes[0];
    SimpleRouteIsShort(p, n);
    if hops == 1 {
      assert (0, p[0], p[1]) in edges;
    } else {
      RoutesMakeCutsLarge(edges, n, routes, hops, s, ot);
      NeverMisses(edges, n, f, s, ot, enough, entries, hops);
    }
  }

  /** A simple path, once inserted, is a route of the recorded graph. */
  lemma InsertedPathIsRoute(edges: Edges, n: nat, p: seq<nat>, s: nat, self: nat)
    requires |p| >= 2 && p[0] == s && p[|p| - 1] == self && forall i | 0 <= i < |p| :: p[i] < n
    requires forall i, j | 0 <= i < j < |p| :: p[i] != p[j]
    requires forall d: nat, i: nat, j: nat | d < n && i < n && j < n && Inserted(p, self, n, d, i, j) ::
             (d, i, j) in edges
    ensures LayeredRoute(edges, n, p, s, self)
  {
    SimpleRouteIsShort(p, n);
    assert forall d | 0 <= d < |p| - 1 :: Inserted(p, self, n, d, p[d], p[d + 1]);
  }

  /** A simple path from `s` to `self` with `hops` hops. */
  ghost predicate SimplePath(n: nat, p: seq<nat>, hops: nat, s: nat, self: nat) {
    && |p| == hops + 1 && hops >= 1 && p[0] == s && p[hops] == self && (forall i | 0 <= i < |p| :: p[i] < n)
    && (forall i, j | 0 <= i < j < |p| :: p[i] != p[j])
  }

  ghost predicate AllInserted(edges: Edges, n: nat, p: seq<nat>, self: nat) {
    forall d: nat, i: nat, j: nat | d < n && i < n && j < n && Inserted(p, self, n, d, i, j) :: (d, i, j) in edges
  }

  ghost predicate MeetAtEnds(p: seq<nat>, q: seq<nat>, s: nat, self: nat) {
    forall x | x in p && x in q :: x == s || x == self
  }

  /** The path with loops at its end, up to `hops` hops. */
  ghost function Padded(p: seq<nat>, hops: nat, self: nat): (padded: seq<nat>)
    requires |p| <= hops + 1
    ensures |padded| == hops + 1 && forall i | 0 <= i <= hops :: padded[i] == if i < |p| then p[i] else self
  {
    p + seq(hops + 1 - |p|, i => self)
  }

  lemma PaddedIsWalk(edges: Edges, n: nat, p: seq<nat>, first: nat, hops: nat, s: nat, self: nat)
    requires SimplePath(n, p, first, s, self) && AllInserted(edges, n, p, self) && first <= hops < n
    ensures LayeredWalk(edges, n, Padded(p, hops, self), s, self)
  {
    var padded := Padded(p, hops, self);
    forall d | 0 <= d < hops
      ensures (d, padded[d], padded[d + 1]) in edges
    {
      assert Inserted(p, self, n, d, padded[d], padded[d + 1]);
    }
  }

  /** The loops keep `self` within reach in all layers after the end of an inserted path. */
  lemma {:induction false} StaysWithinReach(edges: Edges, n: nat, p: seq<nat>, hops: nat, s: nat, self: nat, d: nat)
    requires SimplePath(n, p, hops, s, self) && AllInserted(edges, n, p, self) && d < n
    ensures Walked(edges, n, s, d, Padded(p, if d < hops then hops else d, self)[d])
    ensures d >= hops ==> Walked(edges, n, s, d, self)
  {
    if d > 0 {
      StaysWithinReach(edges, n, p, hops, s, self, d - 1);
      var padded := Padded(p, if d < hops then hops else d, self);
      assert Inserted(p, self, n, d - 1, padded[d - 1], padded[d]);
      WalkedMore(edges, n, s, d - 1, padded[d - 1], padded[d]);
    }
  }

  lemma PaddedApart(n: nat, p: seq<nat>, first: nat, q: seq<nat>, hops: nat, s: nat, self: nat, i: nat)
    requires SimplePath(n, p, first, s, self) && SimplePath(n, q, hops, s, self) && MeetAtEnds(p, q, s, self)
    requires first <= hops && 0 < i < hops
    ensures Padded(p, hops, self)[i] !in q[1..hops]
  {
    assert i < first ==> p[i] in p && p[i] != p[0] && p[i] != p[first];
    forall k | 0 < k < hops
      ensures q[k] in q && q[k] != s && q[k] != self
    {
      assert q[0] != q[k] && q[k] != q[hops];
    }
    assert forall x | x in q[1..hops] :: exists k :: 0 < k < hops && q[k] == x;
  }

  /** Insert `f + 1` simple paths without common intermediate nodes, all of the same length except that
      one may be shorter, and the flow test answers true, whatever else was inserted. */
  lemma InsertedPathsAreFound(edges: Edges, n: nat, f: nat, s: nat, self: nat, enough: bool, entries: seq<Matrix>,
                              paths: seq<seq<nat>>, first: nat, hops: nat)
    requires Verdict(edges, n, f, s, self, enough, entries) && |paths| == f + 1 && first <= hops
    requires forall k | 0 <= k < |paths| :: AllInserted(edges, n, paths[k], self)
    requires forall k | 0 <= k < |paths| :: SimplePath(n, paths[k], if k == 0 then first else hops, s, self)
    requires forall k, l | 0 <= k < l < |paths| :: MeetAtEnds(paths[k], paths[l], s, self)
    ensures enough
  {
    SimpleRouteIsShort(paths[|paths| - 1], n);
    PathsAreFound(edges, n, f, s, self, enough, entries, paths, first, if |paths| == 1 then first else hops);
  }

  lemma PathsAreFound(edges: Edges, n: nat, f: nat, s: nat, self: nat, enough: bool, entries: seq<Matrix>,
                      paths: seq<seq<nat>>, first: nat, hops: nat)
    requires Verdict(edges, n, f, s, self, enough, entries) && |paths| == f + 1 && first <= hops < n
    requires forall k | 0 <= k < |paths| :: AllInserted(edges, n, paths[k], self)
    requires forall k | 0 <= k < |paths| :: SimplePath(n, paths[k], if k == 0 then first else hops, s, self)
    requires forall k, l | 0 <= k < l < |paths| :: MeetAtEnds(paths[k], paths[l], s, self)
    ensures enough
  {
    if hops == 1 {
      assert Inserted(paths[0], self, n, 0, paths[0][0], paths[0][1]);
    } else {
      PaddedPathsAreWalks(edges, n, s, self, paths, first, hops);
      RoutesMakeCutsLarge(edges, n, PadFirst(paths, first, hops, self), hops, s, self);
      NeverMisses(edges, n, f, s, self, enough, entries, hops);
    }
  }

  /** The first path padded, the others as they are. */
  ghost function PadFirst(paths: seq<seq<nat>>, first: nat, hops: nat, self: nat): seq<seq<nat>>
    requires paths != [] && |paths[0]| <= hops + 1
  {
    paths[0 := Padded(paths[0], hops, self)]
  }

  lemma PaddedPathsAreWalks(edges: Edges, n: nat, s: nat, self: nat, paths: seq<seq<nat>>, first: nat, hops: nat)
    requires paths != [] && first <= hops < n && forall k | 0 <= k < |paths| :: AllInserted(edges, n, paths[k], self)
    requires forall k | 0 <= k < |paths| :: SimplePath(n, paths[k], if k == 0 then first else hops, s, self)
    requires forall k, l | 0 <= k < l < |paths| :: MeetAtEnds(paths[k], paths[l], s, self)
    ensures |paths[0]| == first + 1 && EqualWalks(edges, n, PadFirst(paths, first, hops, self), hops, s, self)
  {
    assert SimplePath(n, paths[0], first, s, self);
    var routes := PadFirst(paths, first, hops, self);
    PaddedIsWalk(edges, n, paths[0], first, hops, s, self);
    forall k | 0 < k < |paths|
      ensures LayeredWalk(edges, n, paths[k], s, self)
    {
      InsertedPathIsRoute(edges, n, paths[k], s, self);
    }
    forall k, l, i | 0 <= k < l < |paths| && 0 < i < hops
      ensures routes[k][i] !in routes[l][1..hops]
    {
      if k == 0 {
        PaddedApart(n, paths[0], first, paths[l], hops, s, self, i);
      } else {
        InnerApart(n, paths[k], paths[l], hops, s, self, i);
      }
    }
  }

  lemma InnerApart(n: nat, p: seq<nat>, q: seq<nat>, hops: nat, s: nat, self: nat, i: nat)
    requires SimplePath(n, p, hops, s, self) && SimplePath(n, q, hops, s, self) && MeetAtEnds(p, q, s, self)
    requires 0 < i < hops
    ensures p[i] !in q[1..hops]
  {
    assert p[i] in p && p[i] != p[0] && p[i] != p[hops];
    assert forall x | x in q[1..hops] :: x in q;
  }

  lemma CellInRange(n: nat, d: nat, i: nat, j: nat)
    requires d < n && i < n && j < n
    ensures d * n + i < (n + 1) * n && (d + 1) * n + j < (n + 1) * n
  {
    VertexInRange(n, d, i);
    VertexInRange(n, d, j);
  }

  lemma Target(n: nat, d: nat, s: nat, ot: nat)
    requires s < n && ot < n && d < n && s != ot
    ensures s < n * n && n * d + ot < n * n <= (n + 1) * n && n * d + ot != s
  {
    LayerIndex(n, d, ot);
    LayerIndex(n, 0, s);
    LayersGrow(n, n, n + 1);
    if d > 0 { LayersGrow(n, 1, d); }
  }
}
