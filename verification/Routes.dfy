/**
  Routes of correct nodes through a network, and why a sufficiently connected network has
  enough disjoint ones whichever nodes are faulty.
 */
module Routes {
  import opened Counting
  import opened Menger
  import G = Graph

  predicate Linked(neighbors: seq<seq<nat>>, u: nat, v: nat) {
    u < |neighbors| && v in neighbors[u]
  }

  /** Known nodes, no self-loops, and links that work both ways. */
  ghost predicate Links(neighbors: seq<seq<nat>>) {
    && (forall u, i | 0 <= u < |neighbors| && 0 <= i < |neighbors[u]| ::
         neighbors[u][i] < |neighbors| && neighbors[u][i] != u)
    && (forall u, v | Linked(neighbors, u, v) :: Linked(neighbors, v, u))
  }

  ghost predicate Correct(neighbors: seq<seq<nat>>, faulty: set<nat>, u: nat) {
    u < |neighbors| && u !in faulty
  }

  // ---- Disjoint routes ----

  /** A path of distinct correct nodes from `e` to `v`. */
  ghost predicate Route(neighbors: seq<seq<nat>>, faulty: set<nat>, p: seq<nat>, e: nat, v: nat) {
    && |p| >= 2 && p[0] == e && p[|p| - 1] == v && Distinct(p)
    && (forall i | 0 <= i < |p| :: Correct(neighbors, faulty, p[i]))
    && (forall i | 0 <= i < |p| - 1 :: Hop(neighbors, p, i))
  }

  ghost predicate Hop(neighbors: seq<seq<nat>>, p: seq<nat>, i: nat)
    requires i + 1 < |p|
  {
    Linked(neighbors, p[i], p[i + 1])
  }

  /** Different routes that share only their ends. */
  ghost predicate DisjointRoutes(neighbors: seq<seq<nat>>, faulty: set<nat>, routes: seq<seq<nat>>, e: nat, v: nat) {
    && (forall i | 0 <= i < |routes| :: Route(neighbors, faulty, routes[i], e, v))
    && (forall i, j | 0 <= i < j < |routes| :: routes[i] != routes[j] && Share(routes[i], routes[j], e, v))
  }

  ghost predicate Share(p: seq<nat>, q: seq<nat>, e: nat, v: nat) {
    forall x | x in p && x in q :: x == e || x == v
  }

  /** There are `m` disjoint routes of correct nodes from `e` to `v`. */
  ghost predicate Served(neighbors: seq<seq<nat>>, faulty: set<nat>, m: nat, e: nat, v: nat) {
    exists routes :: |routes| == m && DisjointRoutes(neighbors, faulty, routes, e, v)
  }

  // ---- Networks that stay connected ----

  /** The links between correct nodes. */
  ghost function Between(neighbors: seq<seq<nat>>, faulty: set<nat>): (edges: Edges<nat>)
    ensures forall u: nat, v: nat :: (u, v) in edges
              <==> Correct(neighbors, faulty, u) && Correct(neighbors, faulty, v) && Linked(neighbors, u, v)
  {
    set u, v | u in Below(|neighbors|) && v in Below(|neighbors|) && u !in faulty && v !in faulty &&
        Linked(neighbors, u, v) :: (u, v)
  }

  ghost predicate Avoids(p: seq<nat>, removed: set<nat>) {
    forall z | z in p :: z !in removed
  }

  ghost predicate Reaches(edges: Edges<nat>, removed: set<nat>, u: nat, v: nat) {
    exists p :: Walk(edges, p) && p[0] == u && p[|p| - 1] == v && Avoids(p, removed)
  }

  ghost predicate Kept(neighbors: seq<seq<nat>>, faulty: set<nat>, removed: set<nat>, u: nat) {
    Correct(neighbors, faulty, u) && u !in removed
  }

  /** The correct nodes stay connected when any `f` more of them are lost. */
  ghost predicate Robust(neighbors: seq<seq<nat>>, faulty: set<nat>, f: nat) {
    forall removed: set<nat>, u: nat, v: nat
      | |removed| <= f && Kept(neighbors, faulty, removed, u) && Kept(neighbors, faulty, removed, v) ::
      Reaches(Between(neighbors, faulty), removed, u, v)
  }

  /** The links without those of `e` and `v`. */
  ghost function Inside(edges: Edges<nat>, e: nat, v: nat): (inner: Edges<nat>)
    ensures forall x, y :: (x, y) in inner <==> (x, y) in edges && x != e && x != v && y != e && y != v
    ensures inner <= edges
  {
    set q | q in edges && q.0 != e && q.0 != v && q.1 != e && q.1 != v
  }

  /** Where a route can leave `e` for somewhere else than `v`. */
  ghost function Exits(edges: Edges<nat>, e: nat, v: nat): (exits: set<nat>)
    ensures forall x :: x in exits <==> (e, x) in edges && x != v && x != e
  {
    set p | p in edges && p.0 == e && p.1 != v && p.1 != e :: p.1
  }

  ghost function Entries(edges: Edges<nat>, e: nat, v: nat): (entries: set<nat>)
    ensures forall x :: x in entries <==> (x, v) in edges && x != e && x != v
  {
    set p | p in edges && p.1 == v && p.0 != e && p.0 != v :: p.0
  }

  /** The part of a walk from its last visit of `e` on. */
  lemma AfterLast(edges: Edges<nat>, p: seq<nat>, e: nat) returns (q: seq<nat>)
    requires Walk(edges, p) && p[0] == e && p[|p| - 1] != e
    ensures Walk(edges, q) && (e, q[0]) in edges && q[|q| - 1] == p[|p| - 1] && e !in q && forall z | z in q :: z in p
  {
    assert Meets(p, {e});
    var i := LastIn(p, {e});
    assert Step(edges, p, i);
    WalkPart(edges, p, i + 1, |p|);
    q := p[i + 1..|p|];
  }

  lemma BeforeFirst(edges: Edges<nat>, p: seq<nat>, v: nat) returns (q: seq<nat>)
    requires Walk(edges, p) && p[|p| - 1] == v && p[0] != v
    ensures Walk(edges, q) && (q[|q| - 1], v) in edges && q[0] == p[0] && v !in q && forall z | z in q :: z in p
  {
    assert p[|p| - 1] in {v};
    var i := FirstIn(p, {v});
    assert Step(edges, p, i - 1);
    WalkPart(edges, p, 0, i);
    q := p[0..i];
  }

  lemma WalkInside(edges: Edges<nat>, p: seq<nat>, e: nat, v: nat)
    requires Walk(edges, p) && e !in p && v !in p
    ensures Walk(Inside(edges, e, v), p)
  {
    forall i | 0 <= i < |p| - 1
      ensures Step(Inside(edges, e, v), p, i)
    {
      assert Step(edges, p, i) && p[i] in p && p[i + 1] in p;
    }
  }

  /** A walk from `e` to `v` round a set, with something in between, is a walk inside. */
  lemma InnerWalk(edges: Edges<nat>, e: nat, v: nat, s: set<nat>, q: seq<nat>)
    requires Separates(Inside(edges, e, v), Exits(edges, e, v), Entries(edges, e, v), s)
    requires Walk(edges, q) && (e, q[0]) in edges && (q[|q| - 1], v) in edges && e !in q && v !in q
    ensures exists z :: z in q && z in s
  {
    WalkInside(edges, q, e, v);
    assert q[0] in q && q[|q| - 1] in q;
    assert Leads(Inside(edges, e, v), q, Exits(edges, e, v), Entries(edges, e, v));
    var i :| 0 <= i < |q| && q[i] in s;
    assert q[i] in q;
  }

  /** The nodes of a separator that matter. */
  lemma OthersOf(s: set<nat>, e: nat, v: nat)
    ensures |s - {e} - {v}| <= |s|
  {
    SubsetCard(s - {e} - {v}, s);
  }

  /** Without a direct link, `f` nodes do not separate two correct nodes. */
  lemma ToughApart(neighbors: seq<seq<nat>>, faulty: set<nat>, f: nat, e: nat, v: nat)
    requires Links(neighbors) && Robust(neighbors, faulty, f) && Correct(neighbors, faulty, e)
    requires Correct(neighbors, faulty, v)
    requires e != v && !Linked(neighbors, e, v)
    ensures var edges := Between(neighbors, faulty);
            Tough(Inside(edges, e, v), Exits(edges, e, v), Entries(edges, e, v), f + 1)
  {
    var edges := Between(neighbors, faulty);
    forall s: set<nat> | Separates(Inside(edges, e, v), Exits(edges, e, v), Entries(edges, e, v), s)
      ensures |s| >= f + 1
    {
      OthersOf(s, e, v);
      var removed := s - {e} - {v};
      if |removed| <= f {
        assert Reaches(edges, removed, e, v);
        var p :| Walk(edges, p) && p[0] == e && p[|p| - 1] == v && Avoids(p, removed);
        var q := AfterLast(edges, p, e);
        assert q[0] != v;
        q := BeforeFirst(edges, q, v);
        InnerWalk(edges, e, v, s, q);
        assert false;
      }
    }
  }

  /** With one, `f - 1` further nodes do not separate them otherwise. */
  lemma ToughBesides(neighbors: seq<seq<nat>>, faulty: set<nat>, f: nat, e: nat, v: nat)
    requires Links(neighbors) && Robust(neighbors, faulty, f) && Correct(neighbors, faulty, e)
    requires Correct(neighbors, faulty, v)
    requires e != v && |faulty| <= f && |neighbors| >= 2 * f + 2
    ensures var edges := Between(neighbors, faulty);
            Tough(Inside(edges, e, v), Exits(edges, e, v), Entries(edges, e, v), f)
  {
    var edges := Between(neighbors, faulty);
    forall s: set<nat> | Separates(Inside(edges, e, v), Exits(edges, e, v), Entries(edges, e, v), s)
      ensures |s| >= f
    {
      OthersOf(s, e, v);
      var removed := s - {e} - {v};
      if |removed| < f {
        var q := WayRound(neighbors, faulty, f, e, v, removed);
        InnerWalk(edges, e, v, s, q);
        assert false;
      }
    }
  }

  /** A way from `e` to `v` over a third node. */
  lemma WayRound(neighbors: seq<seq<nat>>, faulty: set<nat>, f: nat, e: nat, v: nat, removed: set<nat>)
    returns (q: seq<nat>)
    requires Robust(neighbors, faulty, f) && Correct(neighbors, faulty, e) && Correct(neighbors, faulty, v) && e != v
    requires |faulty| <= f && |neighbors| >= 2 * f + 2 && |removed| < f && e !in removed && v !in removed
    ensures var edges := Between(neighbors, faulty);
            Walk(edges, q) && (e, q[0]) in edges && (q[|q| - 1], v) in edges && e !in q && v !in q && Avoids(q, removed)
  {
    var edges := Between(neighbors, faulty);
    var w := ThirdNode(|neighbors|, faulty, f, e, v, removed);
    assert |removed + {v}| <= f && |removed + {e}| <= f;
    assert Reaches(edges, removed + {v}, e, w) && Reaches(edges, removed + {e}, w, v);
    var p :| Walk(edges, p) && p[0] == e && p[|p| - 1] == w && Avoids(p, removed + {v});
    var p' :| Walk(edges, p') && p'[0] == w && p'[|p'| - 1] == v && Avoids(p', removed + {e});
    var first := AfterLast(edges, p, e);
    var second := BeforeFirst(edges, p', v);
    WalkOn(edges, first, second);
    q := first + second[1..];
    assert q[|q| - 1] == second[|second| - 1];
  }

  lemma ThirdNode(n: nat, faulty: set<nat>, f: nat, e: nat, v: nat, removed: set<nat>) returns (w: nat)
    requires |faulty| <= f && n >= 2 * f + 2 && |removed| < f
    ensures w < n && w !in faulty && w !in removed && w != e && w != v
  {
    var taken := faulty + removed + {e, v};
    assert |{e, v}| <= 2 by { if e != v { assert {e, v} == {e} + {v}; } }
    assert |taken| <= |faulty| + |removed| + 2;
    w := Escape(Below(n), taken);
  }

  // ---- From walks inside to routes ----

  /** The walks of a linkage, made simple and given their ends. */
  lemma RouteOf(neighbors: seq<seq<nat>>, faulty: set<nat>, e: nat, v: nat, q: seq<nat>) returns (route: seq<nat>)
    requires Correct(neighbors, faulty, e) && Correct(neighbors, faulty, v) && e != v
    requires var edges := Between(neighbors, faulty);
             Leads(Inside(edges, e, v), q, Exits(edges, e, v), Entries(edges, e, v))
    ensures Route(neighbors, faulty, route, e, v) && |route| >= 3 && forall z | z in route :: z == e || z == v || z in q
  {
    var edges := Between(neighbors, faulty);
    var p := Simplify(Inside(edges, e, v), q);
    route := [e] + p + [v];
    InsideNodes(edges, e, v, p);
    RouteHops(neighbors, faulty, e, v, p);
    forall i | 0 <= i < |route|
      ensures Correct(neighbors, faulty, route[i])
    {
      if 0 < i <= |p| { InsideCorrect(neighbors, faulty, e, v, p, i - 1); }
    }
  }

  lemma RouteHops(neighbors: seq<seq<nat>>, faulty: set<nat>, e: nat, v: nat, p: seq<nat>)
    requires var edges := Between(neighbors, faulty);
             Leads(Inside(edges, e, v), p, Exits(edges, e, v), Entries(edges, e, v))
    ensures var route := [e] + p + [v]; forall i | 0 <= i < |route| - 1 :: Hop(neighbors, route, i)
  {
    var edges, route := Between(neighbors, faulty), [e] + p + [v];
    WalkMore(Inside(edges, e, v), edges, p);
    forall i | 0 <= i < |route| - 1
      ensures Hop(neighbors, route, i)
    {
      if 0 < i < |p| { assert Step(edges, p, i - 1); }
    }
  }

  lemma InsideNodes(edges: Edges<nat>, e: nat, v: nat, p: seq<nat>)
    requires Leads(Inside(edges, e, v), p, Exits(edges, e, v), Entries(edges, e, v))
    ensures e !in p && v !in p
  {
    forall i | 0 <= i < |p|
      ensures p[i] != e && p[i] != v
    {
      if i > 0 { assert Step(Inside(edges, e, v), p, i - 1); }
    }
  }

  lemma InsideCorrect(neighbors: seq<seq<nat>>, faulty: set<nat>, e: nat, v: nat, p: seq<nat>, i: nat)
    requires var edges := Between(neighbors, faulty);
             Leads(Inside(edges, e, v), p, Exits(edges, e, v), Entries(edges, e, v))
    requires i < |p|
    ensures Correct(neighbors, faulty, p[i])
  {
    if i > 0 { assert Step(Inside(Between(neighbors, faulty), e, v), p, i - 1); }
  }

  lemma {:induction false} RoutesOf(neighbors: seq<seq<nat>>, faulty: set<nat>, e: nat, v: nat, paths: seq<seq<nat>>)
    returns (routes: seq<seq<nat>>)
    requires Correct(neighbors, faulty, e) && Correct(neighbors, faulty, v) && e != v
    requires var edges := Between(neighbors, faulty);
             Linkage(Inside(edges, e, v), Exits(edges, e, v), Entries(edges, e, v), paths)
    ensures DisjointRoutes(neighbors, faulty, routes, e, v) && |routes| == |paths|
    ensures forall i | 0 <= i < |routes| :: |routes[i]| >= 3 && Within(routes[i], e, v, paths[i])
  {
    if paths == [] {
      routes := [];
    } else {
      var k := |paths| - 1;
      var rest := RoutesOf(neighbors, faulty, e, v, paths[..k]);
      var route := RouteOf(neighbors, faulty, e, v, paths[k]);
      forall i | 0 <= i < k
        ensures rest[i] != route && Share(rest[i], route, e, v)
      {
        assert Within(rest[i], e, v, paths[..k][i]) && Distant(paths[i], paths[k]);
        assert route[1] in route && route[1] != e && route[1] != v;
      }
      routes := rest + [route];
      assert forall i | 0 <= i < k :: paths[..k][i] == paths[i];
    }
  }

  ghost predicate Within(route: seq<nat>, e: nat, v: nat, q: seq<nat>) {
    forall z | z in route :: z == e || z == v || z in q
  }

  lemma DirectToo(neighbors: seq<seq<nat>>, faulty: set<nat>, e: nat, v: nat, routes: seq<seq<nat>>)
    requires DisjointRoutes(neighbors, faulty, routes, e, v) && forall i | 0 <= i < |routes| :: |routes[i]| >= 3
    requires Linked(neighbors, e, v) && e != v && Correct(neighbors, faulty, e) && Correct(neighbors, faulty, v)
    ensures DisjointRoutes(neighbors, faulty, routes + [[e, v]], e, v)
  {
    assert Hop(neighbors, [e, v], 0);
    assert Route(neighbors, faulty, [e, v], e, v);
  }

  /** In a robust network any two correct nodes have `f + 1` disjoint routes of correct nodes. */
  lemma RobustIsServed(neighbors: seq<seq<nat>>, faulty: set<nat>, f: nat, e: nat, v: nat)
    requires Links(neighbors) && Robust(neighbors, faulty, f) && Correct(neighbors, faulty, e)
    requires Correct(neighbors, faulty, v)
    requires e != v && |faulty| <= f && |neighbors| >= 2 * f + 2
    ensures Served(neighbors, faulty, f + 1, e, v)
  {
    var edges := Between(neighbors, faulty);
    if Linked(neighbors, e, v) {
      ToughBesides(neighbors, faulty, f, e, v);
      var paths := Menger.Menger(Inside(edges, e, v), Exits(edges, e, v), Entries(edges, e, v), f);
      var routes := RoutesOf(neighbors, faulty, e, v, paths);
      DirectToo(neighbors, faulty, e, v, routes);
    } else {
      ToughApart(neighbors, faulty, f, e, v);
      var paths := Menger.Menger(Inside(edges, e, v), Exits(edges, e, v), Entries(edges, e, v), f + 1);
      var routes := RoutesOf(neighbors, faulty, e, v, paths);
    }
  }

  // ---- Connected graphs ----

  /** The links of the network are the edges of the graph. */
  ghost predicate Models(neighbors: seq<seq<nat>>, g: G.Graph) {
    && (forall u :: u in g.nodes <==> 0 <= u < |neighbors|)
    && forall u: nat, v: nat | u < |neighbors| && v < |neighbors| && u != v ::
         Linked(neighbors, u, v) <==> G.Adjacent(g, u, v)
  }

  lemma ModelSize(neighbors: seq<seq<nat>>, g: G.Graph)
    requires Models(neighbors, g)
    ensures |g.nodes| == |neighbors|
  {
    var all: set<int> := Below(|neighbors|);
    assert g.nodes == all;
  }

  /** The edges of the graph, in both directions. */
  ghost function Both(g: G.Graph): (edges: Edges<int>)
    ensures forall u, v :: (u, v) in edges <==> G.Adjacent(g, u, v)
  {
    g.edges + set q | q in g.edges :: (q.1, q.0)
  }

  lemma PathIsWalk(g: G.Graph, lost: set<int>, p: seq<int>)
    requires G.Path(g, lost, p)
    ensures Walk(Both(g), p)
  {
    forall i | 0 <= i < |p| - 1
      ensures Step(Both(g), p, i)
    {
      assert G.AdjacentAt(g, p, i);
    }
  }

  lemma CorrectWalk(neighbors: seq<seq<nat>>, g: G.Graph, faulty: set<nat>, lost: set<int>, r: seq<int>)
    returns (q: seq<nat>)
    requires Models(neighbors, g) && Walk(Both(g), r) && forall z | z in faulty :: z in lost
    requires forall i | 0 <= i < |r| :: r[i] in g.nodes && r[i] !in lost
    requires forall i, j | 0 <= i < j < |r| :: r[i] != r[j]
    ensures Walk(Between(neighbors, faulty), q) && q == r
  {
    q := seq(|r|, i requires 0 <= i < |r| && r[i] in g.nodes => r[i]);
    forall i | 0 <= i < |q| - 1
      ensures Step(Between(neighbors, faulty), q, i)
    {
      assert Step(Both(g), r, i) && r[i] != r[i + 1];
    }
  }

  /** A path of the graph that avoids the faulty nodes gives a walk of correct nodes. */
  lemma PathReaches(neighbors: seq<seq<nat>>, g: G.Graph, faulty: set<nat>, removed: set<nat>, lost: set<int>,
                    p: seq<int>)
    requires Models(neighbors, g) && G.Path(g, lost, p) && forall z | z in faulty || z in removed :: z in lost
    ensures 0 <= p[0] && 0 <= p[|p| - 1] && Reaches(Between(neighbors, faulty), removed, p[0], p[|p| - 1])
  {
    PathIsWalk(g, lost, p);
    var r := Simplify(Both(g), p);
    forall i | 0 <= i < |r|
      ensures r[i] in g.nodes && r[i] !in lost
    {
      assert r[i] in r;
    }
    var q := CorrectWalk(neighbors, g, faulty, lost, r);
    assert Avoids(q, removed);
  }

  /** The correct nodes of a `(2f + 1)`-connected graph stay connected when `f` of them are lost. */
  lemma ConnectedIsRobust(neighbors: seq<seq<nat>>, g: G.Graph, faulty: set<nat>, f: nat)
    requires Models(neighbors, g) && G.KConnected(g, 2 * f + 1) && |faulty| <= f
    ensures Robust(neighbors, faulty, f) && |neighbors| >= 2 * f + 2
  {
    ModelSize(neighbors, g);
    forall removed: set<nat>, u: nat, v: nat
      | |removed| <= f && Kept(neighbors, faulty, removed, u) && Kept(neighbors, faulty, removed, v)
      ensures Reaches(Between(neighbors, faulty), removed, u, v)
    {
      var lost: set<int> := removed + faulty;
      assert |removed + faulty| <= |removed| + |faulty|;
      assert G.Connected(g, lost) && G.Joined(g, lost, u, v);
      var p :| G.Path(g, lost, p) && p[0] == u && p[|p| - 1] == v;
      PathReaches(neighbors, g, faulty, removed, lost, p);
    }
  }

  /** In a `(2f + 1)`-connected network any two correct nodes have `f + 1` disjoint routes of
      correct nodes, whichever `f` nodes are faulty. */
  lemma ConnectedIsServed(neighbors: seq<seq<nat>>, g: G.Graph, faulty: set<nat>, f: nat, e: nat, v: nat)
    requires Links(neighbors) && Models(neighbors, g) && G.KConnected(g, 2 * f + 1) && |faulty| <= f
    requires Correct(neighbors, faulty, e) && Correct(neighbors, faulty, v) && e != v
    ensures Served(neighbors, faulty, f + 1, e, v)
  {
    ConnectedIsRobust(neighbors, g, faulty, f);
    RobustIsServed(neighbors, faulty, f, e, v);
  }

  // ---- And only in such networks ----

  /** Whichever `f` nodes are faulty, any two correct ones have `f + 1` disjoint routes. */
  ghost predicate AlwaysServed(neighbors: seq<seq<nat>>, f: nat) {
    forall faulty: set<nat>, e: nat, v: nat
      | |faulty| <= f && e != v && Correct(neighbors, faulty, e) && Correct(neighbors, faulty, v) ::
      Served(neighbors, faulty, f + 1, e, v)
  }

  ghost function Hit(p: seq<nat>, s: set<nat>): (x: nat)
    requires !Avoids(p, s)
    ensures x in p && x in s
  {
    var x :| x in p && x in s;
    x
  }

  lemma OwnHit(neighbors: seq<seq<nat>>, faulty: set<nat>, routes: seq<seq<nat>>, e: nat, v: nat, s: set<nat>, i: nat,
               j: nat)
    requires DisjointRoutes(neighbors, faulty, routes, e, v) && e !in s && v !in s
    requires i < |routes| && j < |routes| && i != j && !Avoids(routes[i], s) && !Avoids(routes[j], s)
    ensures Hit(routes[i], s) != Hit(routes[j], s)
  {
    assert Share(routes[if i < j then i else j], routes[if i < j then j else i], e, v);
  }

  /** Disjoint routes that all meet `s` are no more than `|s|`. */
  lemma HitsDiffer(neighbors: seq<seq<nat>>, faulty: set<nat>, routes: seq<seq<nat>>, e: nat, v: nat, s: set<nat>)
    requires DisjointRoutes(neighbors, faulty, routes, e, v) && e !in s && v !in s
    requires forall i | 0 <= i < |routes| :: !Avoids(routes[i], s)
    ensures |routes| <= |s|
  {
    var hits := map i | i in Below(|routes|) :: Hit(routes[i], s);
    assert hits.Keys == Below(|routes|) && |hits| == |hits.Keys|;
    forall i, j | i in hits && j in hits && i != j
      ensures hits[i] != hits[j]
    {
      OwnHit(neighbors, faulty, routes, e, v, s, i, j);
    }
    Pigeonhole(hits, s);
  }

  /** One of more than `|s|` disjoint routes avoids `s`. */
  lemma FreeRoute(neighbors: seq<seq<nat>>, faulty: set<nat>, routes: seq<seq<nat>>, e: nat, v: nat, s: set<nat>)
    returns (i: nat)
    requires DisjointRoutes(neighbors, faulty, routes, e, v) && |routes| > |s| && e !in s && v !in s
    ensures i < |routes| && Avoids(routes[i], s)
  {
    if forall i | 0 <= i < |routes| :: !Avoids(routes[i], s) {
      HitsDiffer(neighbors, faulty, routes, e, v, s);
      assert false;
    }
    i :| 0 <= i < |routes| && Avoids(routes[i], s);
  }

  lemma RouteIsPath(neighbors: seq<seq<nat>>, g: G.Graph, faulty: set<nat>, removed: set<int>, p: seq<nat>, e: nat,
                    v: nat)
    requires Models(neighbors, g) && Route(neighbors, faulty, p, e, v)
    requires forall x: nat | x in p && x !in faulty :: x !in removed
    ensures G.Joined(g, removed, e, v)
  {
    forall i | 0 <= i < |p| - 1
      ensures G.AdjacentAt(g, p, i)
    {
      assert Hop(neighbors, p, i) && p[i] != p[i + 1];
    }
    forall i | 0 <= i < |p|
      ensures p[i] in g.nodes && p[i] !in removed
    {
      assert Correct(neighbors, faulty, p[i]);
    }
    assert G.Path(g, removed, p);
  }

  /** Where everybody is served, no `2f` nodes disconnect the graph. */
  lemma ServedIsJoined(neighbors: seq<seq<nat>>, g: G.Graph, f: nat, removed: set<int>, e: nat, v: nat)
    requires Models(neighbors, g) && AlwaysServed(neighbors, f) && |removed| <= 2 * f
    requires e < |neighbors| && v < |neighbors| && e != v && e !in removed && v !in removed
    ensures G.Joined(g, removed, e, v)
  {
    var lost := set x: nat | x in Below(|neighbors|) && x in removed;
    var asInts: set<int> := lost;
    SubsetCard(asInts, removed);
    var faulty := Choose(lost, if |lost| <= f then |lost| else f);
    var rest := lost - faulty;
    assert |rest| <= f && faulty <= lost;
    assert Correct(neighbors, faulty, e) && Correct(neighbors, faulty, v);
    assert Served(neighbors, faulty, f + 1, e, v);
    var routes :| |routes| == f + 1 && DisjointRoutes(neighbors, faulty, routes, e, v);
    var i := FreeRoute(neighbors, faulty, routes, e, v, rest);
    forall x: nat | x in routes[i] && x !in faulty
      ensures x !in removed
    {
      assert Route(neighbors, faulty, routes[i], e, v) && x !in rest;
    }
    RouteIsPath(neighbors, g, faulty, removed, routes[i], e, v);
  }

  /** `2f + 1` is exactly the connectivity that serves everybody whichever `f` nodes are faulty. */
  lemma ConnectedExactly(neighbors: seq<seq<nat>>, g: G.Graph, f: nat)
    requires Links(neighbors) && Models(neighbors, g) && |neighbors| >= 2 * f + 2
    ensures AlwaysServed(neighbors, f) <==> G.KConnected(g, 2 * f + 1)
  {
    ModelSize(neighbors, g);
    if AlwaysServed(neighbors, f) {
      forall removed: set<int>, u, v | |removed| < 2 * f + 1 && u in g.nodes - removed && v in g.nodes - removed
        ensures G.Joined(g, removed, u, v)
      {
        if u == v { G.JoinedSelf(g, removed, u); } else { ServedIsJoined(neighbors, g, f, removed, u, v); }
      }
    }
    if G.KConnected(g, 2 * f + 1) {
      forall faulty: set<nat>, e: nat, v: nat
        | |faulty| <= f && Correct(neighbors, faulty, e) && Correct(neighbors, faulty, v) && e != v
        ensures Served(neighbors, faulty, f + 1, e, v)
      {
        ConnectedIsServed(neighbors, g, faulty, f, e, v);
      }
    }
  }
}
