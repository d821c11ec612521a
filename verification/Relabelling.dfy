/** Renaming the nodes of a graph to `0..n-1`, which keeps it as connected as it was. */
module Relabelling {
  import opened Counting
  import opened Graph

  /** The nodes in some order, each of them once. */
  ghost predicate Lists(order: seq<int>, nodes: set<int>) {
    && |order| == |nodes| && (forall u :: u in order <==> u in nodes)
    && forall i, j | 0 <= i < j < |order| :: order[i] != order[j]
  }

  /** `h` is `g` with positions in the list for nodes. */
  ghost predicate Renamed(g: Graph, order: seq<int>, h: Graph) {
    && Lists(order, g.nodes) && Numbered(h, |order|)
    && forall i, j :: (i, j) in h.edges <==> 0 <= i < |order| && 0 <= j < |order| && (order[i], order[j]) in g.edges
  }

  /** Numbers the nodes in the order in which they come. */
  method NumberNodes(g: Graph) returns (order: seq<int>)
    ensures Lists(order, g.nodes)
  {
    order := [];
    var todo := g.nodes;
    while todo != {}
      invariant todo <= g.nodes && Lists(order, g.nodes - todo)
    {
      NotEmpty(todo);
      var u :| u in todo;
      assert g.nodes - (todo - {u}) == (g.nodes - todo) + {u};
      order, todo := order + [u], todo - {u};
    }
    assert g.nodes - {} == g.nodes;
  }

  lemma NotEmpty(s: set<int>)
    requires s != {}
    ensures exists u :: u in s
  {
    var u := Escape(s, {});
  }

  method RelabelNodes(g: Graph, order: seq<int>) returns (h: Graph)
    requires Lists(order, g.nodes)
    ensures Renamed(g, order, h)
  {
    h := Graph({}, set i, j | 0 <= i < |order| && 0 <= j < |order| && (order[i], order[j]) in g.edges :: (i, j));
    for i := 0 to |order|
      invariant h.nodes == UpTo(i)
      invariant forall i, j :: (i, j) in h.edges <==>
                  0 <= i < |order| && 0 <= j < |order| && (order[i], order[j]) in g.edges
    {
      h := AddNode(h, i);
    }
    IntervalCard(h.nodes, 0, |order|);
  }

  // ---- Connectivity ----

  ghost function Position(order: seq<int>, u: int): (i: nat)
    requires u in order
    ensures i < |order| && order[i] == u
  {
    var i :| 0 <= i < |order| && order[i] == u;
    i
  }

  /** The nodes at removed positions. */
  ghost function Lost(order: seq<int>, removed: set<int>): (lost: set<int>)
    ensures forall u :: u in lost <==> u in order && Position(order, u) in removed
  {
    set u | u in order && Position(order, u) in removed
  }

  lemma LostCard(order: seq<int>, removed: set<int>)
    ensures |Lost(order, removed)| <= |removed|
  {
    var pick := map u | u in Lost(order, removed) :: Position(order, u);
    Pigeonhole(pick, removed);
    assert pick.Keys == Lost(order, removed) && |pick| == |pick.Keys|;
  }

  lemma RenamedJoined(g: Graph, order: seq<int>, h: Graph, removed: set<int>, i: nat, j: nat)
    requires Renamed(g, order, h) && i < |order| && j < |order|
    requires Joined(g, Lost(order, removed), order[i], order[j])
    ensures Joined(h, removed, i, j)
  {
    var p :| Path(g, Lost(order, removed), p) && p[0] == order[i] && p[|p| - 1] == order[j];
    forall k | 0 <= k < |p|
      ensures p[k] in order && Position(order, p[k]) !in removed
    {
      var u := p[k];
      assert u in g.nodes && u !in Lost(order, removed);
    }
    var q: seq<int> := seq(|p|, k requires 0 <= k < |p| && p[k] in order => Position(order, p[k]));
    forall k | 0 <= k < |q| - 1
      ensures AdjacentAt(h, q, k)
    {
      assert AdjacentAt(g, p, k);
    }
    assert Path(h, removed, q);
  }

  lemma StaysListed(g: Graph, order: seq<int>, removed: set<int>, i: nat)
    requires Lists(order, g.nodes) && i < |order| && i !in removed
    ensures order[i] in g.nodes && order[i] !in Lost(order, removed)
  {
    var u := order[i];
    assert u in order && Position(order, u) == i;
  }

  lemma RenamedConnected(g: Graph, order: seq<int>, h: Graph, removed: set<int>)
    requires Renamed(g, order, h) && Connected(g, Lost(order, removed))
    ensures Connected(h, removed)
  {
    forall i, j | i in h.nodes - removed && j in h.nodes - removed
      ensures Joined(h, removed, i, j)
    {
      StaysListed(g, order, removed, i);
      StaysListed(g, order, removed, j);
      RenamedJoined(g, order, h, removed, i, j);
    }
  }

  /** Other names change nothing about connectivity. */
  lemma RenamedIsKConnected(g: Graph, order: seq<int>, h: Graph, k: nat)
    requires Renamed(g, order, h) && KConnected(g, k)
    ensures KConnected(h, k)
  {
    forall removed: set<int> | |removed| < k
      ensures Connected(h, removed)
    {
      LostCard(order, removed);
      RenamedConnected(g, order, h, removed);
    }
  }
}
