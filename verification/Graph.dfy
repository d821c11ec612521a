/** Undirected graphs as a node set and an edge set, and their connectivity. */
module Graph {
  import opened Counting

  datatype Graph = Graph(nodes: set<int>, edges: set<(int, int)>)

  const EMPTY := Graph({}, {})

  function AddNode(g: Graph, u: int): Graph {
    g.(nodes := g.nodes + {u})
  }

  function AddEdge(g: Graph, u: int, v: int): Graph {
    Graph(g.nodes + {u, v}, g.edges + {(u, v)})
  }

  predicate Adjacent(g: Graph, u: int, v: int) {
    (u, v) in g.edges || (v, u) in g.edges
  }

  ghost predicate Path(g: Graph, removed: set<int>, p: seq<int>) {
    && p != []
    && (forall i | 0 <= i < |p| :: p[i] in g.nodes && p[i] !in removed)
    && (forall i | 0 <= i < |p| - 1 :: AdjacentAt(g, p, i))
  }

  ghost predicate AdjacentAt(g: Graph, p: seq<int>, i: nat)
    requires i + 1 < |p|
  {
    Adjacent(g, p[i], p[i + 1])
  }

  /** A path outside `removed` joins `u` and `v`. */
  ghost predicate Joined(g: Graph, removed: set<int>, u: int, v: int) {
    exists p :: Path(g, removed, p) && p[0] == u && p[|p| - 1] == v
  }

  ghost predicate Connected(g: Graph, removed: set<int>) {
    forall u, v | u in g.nodes - removed && v in g.nodes - removed :: Joined(g, removed, u, v)
  }

  /** More than `k` nodes, and still connected after losing any `k - 1` of them. */
  ghost predicate KConnected(g: Graph, k: nat) {
    |g.nodes| > k && forall removed: set<int> | |removed| < k :: Connected(g, removed)
  }

  /** The nodes are `0..n-1`. */
  ghost predicate Numbered(g: Graph, n: nat) {
    |g.nodes| == n && forall u :: u in g.nodes <==> 0 <= u < n
  }

  ghost predicate Alive(g: Graph, removed: set<int>, u: int) {
    u in g.nodes && u !in removed
  }

  lemma JoinedSelf(g: Graph, removed: set<int>, u: int)
    requires Alive(g, removed, u)
    ensures Joined(g, removed, u, u)
  {
    assert Path(g, removed, [u]);
  }

  lemma JoinedEdge(g: Graph, removed: set<int>, u: int, v: int)
    requires Alive(g, removed, u) && Alive(g, removed, v) && Adjacent(g, u, v)
    ensures Joined(g, removed, u, v)
  {
    assert AdjacentAt(g, [u, v], 0);
    assert Path(g, removed, [u, v]);
  }

  lemma JoinedTransitive(g: Graph, removed: set<int>, u: int, v: int, w: int)
    requires Joined(g, removed, u, v) && Joined(g, removed, v, w)
    ensures Joined(g, removed, u, w)
  {
    var p :| Path(g, removed, p) && p[0] == u && p[|p| - 1] == v;
    var q :| Path(g, removed, q) && q[0] == v && q[|q| - 1] == w;
    var r := p + q[1..];
    forall i | 0 <= i < |r| - 1
      ensures AdjacentAt(g, r, i)
    {
      if i < |p| - 1 {
        assert AdjacentAt(g, p, i);
      } else {
        assert AdjacentAt(g, q, i - (|p| - 1));
      }
    }
    assert Path(g, removed, r);
  }

  lemma JoinedSymmetric(g: Graph, removed: set<int>, u: int, v: int)
    requires Joined(g, removed, u, v)
    ensures Joined(g, removed, v, u)
  {
    var p :| Path(g, removed, p) && p[0] == u && p[|p| - 1] == v;
    var n := |p|;
    var q := seq(n, i requires 0 <= i < n => p[n - 1 - i]);
    forall i | 0 <= i < n - 1
      ensures AdjacentAt(g, q, i)
    {
      assert AdjacentAt(g, p, n - 2 - i);
    }
    assert Path(g, removed, q);
  }

  /** If all surviving nodes are joined to one hub, the graph is connected. */
  lemma ConnectedThrough(g: Graph, removed: set<int>, hub: int)
    requires forall u | Alive(g, removed, u) :: Joined(g, removed, u, hub)
    ensures Connected(g, removed)
  {
    forall u, v | u in g.nodes - removed && v in g.nodes - removed
      ensures Joined(g, removed, u, v)
    {
      assert Alive(g, removed, u) && Alive(g, removed, v);
      JoinedSymmetric(g, removed, v, hub);
      JoinedTransitive(g, removed, u, hub, v);
    }
  }

  ghost function Neighbors(g: Graph, u: int): set<int> {
    set v | v in g.nodes && v != u && Adjacent(g, u, v)
  }

  /** Every node of a `k`-connected graph has `k` neighbours. */
  lemma MinimumDegree(g: Graph, k: nat, u: int)
    requires KConnected(g, k) && u in g.nodes
    ensures |Neighbors(g, u)| >= k
  {
    var around := Neighbors(g, u);
    if |around| < k {
      var v := Escape(g.nodes, around + {u});
      assert Connected(g, around) && Joined(g, around, u, v);
      var p :| Path(g, around, p) && p[0] == u && p[|p| - 1] == v;
      LeavesAround(g, u, p, |p| - 1);
      assert false;
    }
  }

  lemma {:induction false} LeavesAround(g: Graph, u: int, p: seq<int>, i: nat)
    requires Path(g, Neighbors(g, u), p) && p[0] == u && i < |p|
    ensures p[i] == u
  {
    if i > 0 {
      LeavesAround(g, u, p, i - 1);
      assert AdjacentAt(g, p, i - 1);
      assert p[i] in g.nodes && p[i] !in Neighbors(g, u);
    }
  }
}
