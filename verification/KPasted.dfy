/**
  The k-pasted graph: `k` copies of the tree that share its leaves. It has the
  requested number of nodes and is `k`-connected.
 */
module KPasted {
  import opened Counting
  import opened Graph
  import opened Relabelling
  import opened KPastedTree

  type Mapping = map<nat, seq<nat>>

  /** Label of tree node `x` in copy `i`. */
  function Label(mapping: Mapping, x: nat, i: nat): nat
    requires x in mapping && i < |mapping[x]|
  {
    mapping[x][i]
  }

  ghost predicate Mapped(t: Tree, k: nat, mapping: Mapping) {
    && mapping.Keys == t.out.Keys
    && (forall x | x in mapping :: |mapping[x]| == k)
    && (forall x, i | x in mapping && 0 <= i < k && t.out[x] == [] :: Label(mapping, x, i) == x)
    && (forall x, y, i, j | x in mapping && y in mapping && 0 <= i < k && 0 <= j < k
                         && Label(mapping, x, i) == Label(mapping, y, j) ::
          x == y && (i == j || t.out[x] == []))
  }

  /** `g` consists of the copies and of nothing else. */
  ghost predicate Pasted(t: Tree, k: nat, mapping: Mapping, g: Graph) {
    && Mapped(t, k, mapping)
    && (forall u :: u in g.nodes <==> IsLabel(mapping, k, u))
    && (forall u, v :: (u, v) in g.edges <==> IsCopiedEdge(t, k, mapping, u, v))
  }

  ghost predicate IsLabel(mapping: Mapping, k: nat, u: int) {
    exists x, i | x in mapping && 0 <= i < k && i < |mapping[x]| :: Label(mapping, x, i) == u
  }

  ghost predicate IsCopiedEdge(t: Tree, k: nat, mapping: Mapping, u: int, v: int) {
    exists p, c, i :: CopiedEdge(t, k, mapping, p, c, i, u, v)
  }

  ghost predicate CopiedEdge(t: Tree, k: nat, mapping: Mapping, p: nat, c: nat, i: nat, u: int, v: int) {
    && p in t.out && c in t.out[p] && i < k
    && p in mapping && c in mapping && i < |mapping[p]| && i < |mapping[c]|
    && u == Label(mapping, p, i) && v == Label(mapping, c, i)
  }

  // ---- Ancestors ----

  /** `a` lies on the way from the root to `x`, ends included. */
  ghost predicate Anc(t: Tree, a: nat, x: nat) {
    x == a || (x in t.parent && t.parent[x] < x && Anc(t, a, t.parent[x]))
  }

  lemma {:induction false} AncLe(t: Tree, a: nat, x: nat)
    requires Anc(t, a, x)
    ensures a <= x
  {
    if x != a { AncLe(t, a, t.parent[x]); }
  }

  lemma {:induction false} AncComparable(t: Tree, a: nat, b: nat, x: nat)
    requires Anc(t, a, x) && Anc(t, b, x)
    ensures Anc(t, a, b) || Anc(t, b, a)
    decreases x
  {
    if x != a && x != b { AncComparable(t, a, b, t.parent[x]); }
  }

  lemma {:induction false} AncTransitive(t: Tree, a: nat, b: nat, x: nat)
    requires Anc(t, a, b) && Anc(t, b, x)
    ensures Anc(t, a, x)
    decreases x
  {
    if x != b { AncTransitive(t, a, b, t.parent[x]); }
  }

  lemma ChildOf(t: Tree, bound: nat, p: nat, c: nat)
    requires Rooted(t, bound) && p in t.out && c in t.out[p]
    ensures c in t.out && c in t.parent && t.parent[c] == p && p < c < bound && Anc(t, p, c)
  {
    assert NodeOk(t, p);
    assert NodeOk(t, c);
  }

  lemma ParentOf(t: Tree, bound: nat, c: nat)
    requires Rooted(t, bound) && c in t.out && c != 0
    ensures c in t.parent && t.parent[c] in t.out && t.parent[c] < c && c in t.out[t.parent[c]]
    ensures t.out[t.parent[c]] != []
  {
    assert NodeOk(t, c);
  }

  /** The subtrees of different children have no node in common. */
  lemma SiblingsApart(t: Tree, bound: nat, p: nat, c: nat, d: nat, y: nat)
    requires Rooted(t, bound) && p in t.out && c in t.out[p] && d in t.out[p]
    requires Anc(t, c, y) && Anc(t, d, y)
    ensures c == d
  {
    ChildOf(t, bound, p, c);
    ChildOf(t, bound, p, d);
    AncComparable(t, c, d, y);
    if c != d {
      if Anc(t, c, d) { AncLe(t, c, p); } else { AncLe(t, d, p); }
    }
  }

  lemma {:induction false} RootAbove(t: Tree, bound: nat, x: nat)
    requires Rooted(t, bound) && x in t.out
    ensures Anc(t, 0, x)
  {
    if x != 0 {
      ParentOf(t, bound, x);
      RootAbove(t, bound, t.parent[x]);
    }
  }

  // ---- Routes within one copy ----

  /** A k-pasted graph of a grown tree, and a set of removed nodes. */
  ghost predicate Setting(t: Tree, bound: nat, k: nat, mapping: Mapping, g: Graph) {
    Rooted(t, bound) && Branching(t, k) && Pasted(t, k, mapping, g) && k >= 2
  }

  ghost predicate Hit(mapping: Mapping, removed: set<int>, x: nat, i: nat)
    requires x in mapping && i < |mapping[x]|
  {
    Label(mapping, x, i) in removed
  }

  lemma LabelAlive(t: Tree, bound: nat, k: nat, mapping: Mapping, g: Graph, removed: set<int>, x: nat, i: nat)
    requires Setting(t, bound, k, mapping, g) && x in t.out && i < k && !Hit(mapping, removed, x, i)
    ensures Alive(g, removed, Label(mapping, x, i))
  {
    assert IsLabel(mapping, k, Label(mapping, x, i));
  }

  /** Unremoved copies of a node and its child are joined. */
  lemma EdgeJoined(t: Tree, bound: nat, k: nat, mapping: Mapping, g: Graph, removed: set<int>, p: nat, c: nat, i: nat)
    requires Setting(t, bound, k, mapping, g) && p in t.out && c in t.out[p] && c in t.out && i < k
    requires !Hit(mapping, removed, p, i) && !Hit(mapping, removed, c, i)
    ensures Joined(g, removed, Label(mapping, p, i), Label(mapping, c, i))
    ensures Joined(g, removed, Label(mapping, c, i), Label(mapping, p, i))
  {
    LabelAlive(t, bound, k, mapping, g, removed, p, i);
    LabelAlive(t, bound, k, mapping, g, removed, c, i);
    assert CopiedEdge(t, k, mapping, p, c, i, Label(mapping, p, i), Label(mapping, c, i));
    JoinedEdge(g, removed, Label(mapping, p, i), Label(mapping, c, i));
    JoinedEdge(g, removed, Label(mapping, c, i), Label(mapping, p, i));
  }

  ghost predicate ReachesLeaf(t: Tree, g: Graph, removed: set<int>, u: int) {
    exists l: nat :: l in t.out && t.out[l] == [] && l !in removed && Joined(g, removed, u, l)
  }

  lemma StepToLeaf(t: Tree, g: Graph, removed: set<int>, u: int, v: int)
    requires Joined(g, removed, u, v) && ReachesLeaf(t, g, removed, v)
    ensures ReachesLeaf(t, g, removed, u)
  {
    var l: nat :| l in t.out && t.out[l] == [] && l !in removed && Joined(g, removed, v, l);
    JoinedTransitive(g, removed, u, v, l);
  }

  /** Below a node whose subtree lost nothing in copy `i` there is a leaf. */
  ghost predicate Intact(t: Tree, mapping: Mapping, removed: set<int>, k: nat, c: nat, i: nat) {
    forall y | y in t.out && y in mapping && i < |mapping[y]| && Anc(t, c, y) :: !Hit(mapping, removed, y, i)
  }

  lemma {:induction false} DownToLeaf(t: Tree, bound: nat, k: nat, mapping: Mapping, g: Graph, removed: set<int>,
                                      c: nat, i: nat)
    requires Setting(t, bound, k, mapping, g) && c in t.out && i < k && Intact(t, mapping, removed, k, c, i)
    ensures ReachesLeaf(t, g, removed, Label(mapping, c, i))
    decreases bound - c
  {
    assert Anc(t, c, c) && !Hit(mapping, removed, c, i);
    LabelAlive(t, bound, k, mapping, g, removed, c, i);
    if t.out[c] == [] {
      JoinedSelf(g, removed, c);
    } else {
      var d := t.out[c][0];
      ChildOf(t, bound, c, d);
      forall y | y in t.out && y in mapping && i < |mapping[y]| && Anc(t, d, y)
        ensures !Hit(mapping, removed, y, i)
      {
        AncTransitive(t, c, d, y);
      }
      DownToLeaf(t, bound, k, mapping, g, removed, d, i);
      EdgeJoined(t, bound, k, mapping, g, removed, c, d, i);
      StepToLeaf(t, g, removed, Label(mapping, c, i), Label(mapping, d, i));
    }
  }

  /** The way up to the root, when nothing on it was removed. */
  lemma {:induction false} UpToRoot(t: Tree, bound: nat, k: nat, mapping: Mapping, g: Graph, removed: set<int>,
                                    x: nat, i: nat)
    requires Setting(t, bound, k, mapping, g) && x in t.out && i < k
    requires forall y | y in t.out && Anc(t, y, x) :: !Hit(mapping, removed, y, i)
    ensures Joined(g, removed, Label(mapping, x, i), Label(mapping, 0, i))
  {
    assert Anc(t, x, x) && !Hit(mapping, removed, x, i);
    if x == 0 {
      LabelAlive(t, bound, k, mapping, g, removed, 0, i);
      JoinedSelf(g, removed, Label(mapping, 0, i));
    } else {
      ParentOf(t, bound, x);
      var p := t.parent[x];
      assert Anc(t, p, p) && Anc(t, p, x);
      forall y | y in t.out && Anc(t, y, p)
        ensures !Hit(mapping, removed, y, i)
      {
        AncTransitive(t, y, p, x);
      }
      UpToRoot(t, bound, k, mapping, g, removed, p, i);
      EdgeJoined(t, bound, k, mapping, g, removed, p, x, i);
      JoinedTransitive(g, removed, Label(mapping, x, i), Label(mapping, p, i), Label(mapping, 0, i));
    }
  }

  // ---- Inner nodes survive the loss of k - 1 nodes ----

  /** Every subtree hanging on `p` lost a node in copy `i`. */
  ghost predicate AllHit(t: Tree, mapping: Mapping, removed: set<int>, k: nat, p: nat, i: nat) {
    p in t.out && forall c | c in t.out[p] :: !Intact(t, mapping, removed, k, c, i)
  }

  ghost predicate LostBelow(t: Tree, mapping: Mapping, removed: set<int>, c: nat, i: nat, u: int) {
    exists y: nat :: y in t.out && y in mapping && i < |mapping[y]| && Anc(t, c, y) && Label(mapping, y, i) == u &&
        u in removed
  }

  ghost function Lost(t: Tree, mapping: Mapping, removed: set<int>, k: nat, c: nat, i: nat): (u: int)
    requires !Intact(t, mapping, removed, k, c, i)
    ensures LostBelow(t, mapping, removed, c, i, u)
  {
    var y: nat :| y in t.out && y in mapping && i < |mapping[y]| && Anc(t, c, y) && Hit(mapping, removed, y, i);
    Label(mapping, y, i)
  }

  /** One label is not lost below two different children. */
  lemma LossesApart(t: Tree, bound: nat, k: nat, mapping: Mapping, g: Graph, removed: set<int>, p: nat, c: nat,
                    d: nat, i: nat, u: int)
    requires Setting(t, bound, k, mapping, g) && i < k && p in t.out && c in t.out[p] && d in t.out[p]
    requires LostBelow(t, mapping, removed, c, i, u) && LostBelow(t, mapping, removed, d, i, u)
    ensures c == d
  {
    var y: nat :| y in t.out && y in mapping && i < |mapping[y]| && Anc(t, c, y) && Label(mapping, y, i) == u &&
        u in removed;
    var z: nat :| z in t.out && z in mapping && i < |mapping[z]| && Anc(t, d, z) && Label(mapping, z, i) == u &&
        u in removed;
    assert y == z;
    SiblingsApart(t, bound, p, c, d, y);
  }

  /** If each of the subtrees lost a node, that accounts for as many removed nodes as there
      are subtrees, and none of these is a node `outside` the subtrees. */
  lemma LossesAddUp(t: Tree, bound: nat, k: nat, mapping: Mapping, g: Graph, removed: set<int>, p: nat, i: nat,
                    outside: set<int>)
    requires Setting(t, bound, k, mapping, g) && i < k && AllHit(t, mapping, removed, k, p, i)
    requires forall c, u | c in t.out[p] && u in outside :: !LostBelow(t, mapping, removed, c, i, u)
    ensures |t.out[p]| <= |removed - outside|
  {
    var pick := map c | c in t.out[p] :: Lost(t, mapping, removed, k, c, i);
    forall c, d | c in pick && d in pick && c != d
      ensures pick[c] != pick[d]
    {
      if pick[c] == pick[d] { LossesApart(t, bound, k, mapping, g, removed, p, c, d, i, pick[c]); }
    }
    Pigeonhole(pick, removed - outside);
    assert NodeOk(t, p);
    DistinctCard(t.out[p]);
    assert pick.Keys == Elements(t.out[p]);
  }

  /** So few nodes were removed that one more loss elsewhere is too much. */
  lemma NoLossElsewhere(t: Tree, bound: nat, k: nat, mapping: Mapping, g: Graph, removed: set<int>, p: nat, i: nat,
                        z: nat)
    requires Setting(t, bound, k, mapping, g) && i < k && AllHit(t, mapping, removed, k, p, i) && t.out[p] != []
    requires |removed| < k && z in t.out && forall c | c in t.out[p] :: !Anc(t, c, z)
    ensures p != 0 && !Hit(mapping, removed, z, i)
  {
    LossesAddUp(t, bound, k, mapping, g, removed, p, i, {});
    assert removed - {} == removed;
    if Hit(mapping, removed, z, i) {
      var u := Label(mapping, z, i);
      forall c | c in t.out[p]
        ensures !LostBelow(t, mapping, removed, c, i, u)
      {
        assert forall y | y in t.out && y in mapping && i < |mapping[y]| && Label(mapping, y, i) == u :: y == z;
      }
      LossesAddUp(t, bound, k, mapping, g, removed, p, i, {u});
    }
  }

  /** Some child of the root is not on the way to `p`. */
  lemma OtherBranch(t: Tree, bound: nat, k: nat, p: nat) returns (c: nat)
    requires Rooted(t, bound) && Branching(t, k) && k >= 2 && p in t.out
    ensures c in t.out[0] && !Anc(t, c, p)
  {
    assert NodeOk(t, 0);
    c := t.out[0][0];
    if Anc(t, c, p) {
      var d := t.out[0][1];
      if Anc(t, d, p) { SiblingsApart(t, bound, 0, c, d, p); }
      c := d;
    }
  }

  /** The subtree of such a branch has no node in common with the subtrees below `p`. */
  lemma BranchesApart(t: Tree, bound: nat, p: nat, c: nat, d: nat, z: nat)
    requires Rooted(t, bound) && p in t.out && p != 0 && c in t.out[0] && d in t.out[p]
    requires !Anc(t, c, p) && Anc(t, c, z)
    ensures !Anc(t, d, z)
  {
    ChildOf(t, bound, 0, c);
    ChildOf(t, bound, p, d);
    if Anc(t, d, z) {
      AncComparable(t, c, d, z);
      if Anc(t, d, c) && d != c { AncLe(t, d, 0); }
    }
  }

  lemma AboveIsNotBelow(t: Tree, bound: nat, p: nat, d: nat, a: nat)
    requires Rooted(t, bound) && p in t.out && d in t.out[p] && Anc(t, a, p)
    ensures !Anc(t, d, a)
  {
    ChildOf(t, bound, p, d);
    AncLe(t, a, p);
    if Anc(t, d, a) { AncLe(t, d, a); }
  }

  /** When all subtrees below `p` are hit, the way over the root is free. */
  lemma AroundTheRoot(t: Tree, bound: nat, k: nat, mapping: Mapping, g: Graph, removed: set<int>, p: nat, i: nat)
    requires Setting(t, bound, k, mapping, g) && i < k && AllHit(t, mapping, removed, k, p, i) && t.out[p] != []
    requires |removed| < k && !Hit(mapping, removed, p, i)
    ensures ReachesLeaf(t, g, removed, Label(mapping, p, i))
  {
    forall y | y in t.out && Anc(t, y, p)
      ensures p != 0 && !Hit(mapping, removed, y, i)
    {
      forall d | d in t.out[p] ensures !Anc(t, d, y) { AboveIsNotBelow(t, bound, p, d, y); }
      NoLossElsewhere(t, bound, k, mapping, g, removed, p, i, y);
    }
    RootAbove(t, bound, p);
    UpToRoot(t, bound, k, mapping, g, removed, p, i);
    var c := OtherBranch(t, bound, k, p);
    forall z | z in t.out && z in mapping && i < |mapping[z]| && Anc(t, c, z)
      ensures !Hit(mapping, removed, z, i)
    {
      forall d | d in t.out[p] ensures !Anc(t, d, z) { BranchesApart(t, bound, p, c, d, z); }
      NoLossElsewhere(t, bound, k, mapping, g, removed, p, i, z);
    }
    ChildToLeaf(t, bound, k, mapping, g, removed, 0, c, i);
    StepToLeaf(t, g, removed, Label(mapping, p, i), Label(mapping, 0, i));
  }

  lemma ChildToLeaf(t: Tree, bound: nat, k: nat, mapping: Mapping, g: Graph, removed: set<int>, p: nat, c: nat, i: nat)
    requires Setting(t, bound, k, mapping, g) && i < k && p in t.out && c in t.out[p]
    requires !Hit(mapping, removed, p, i) && Intact(t, mapping, removed, k, c, i)
    ensures ReachesLeaf(t, g, removed, Label(mapping, p, i))
  {
    ChildOf(t, bound, p, c);
    assert Anc(t, c, c) && !Hit(mapping, removed, c, i);
    DownToLeaf(t, bound, k, mapping, g, removed, c, i);
    EdgeJoined(t, bound, k, mapping, g, removed, p, c, i);
    StepToLeaf(t, g, removed, Label(mapping, p, i), Label(mapping, c, i));
  }

  /** After the loss of fewer than `k` nodes every surviving node still reaches a shared leaf. */
  lemma SurvivorReachesLeaf(t: Tree, bound: nat, k: nat, mapping: Mapping, g: Graph, removed: set<int>, p: nat, i: nat)
    requires Setting(t, bound, k, mapping, g) && i < k && |removed| < k
    requires p in t.out && !Hit(mapping, removed, p, i)
    ensures ReachesLeaf(t, g, removed, Label(mapping, p, i))
  {
    if t.out[p] == [] {
      LabelAlive(t, bound, k, mapping, g, removed, p, i);
      JoinedSelf(g, removed, p);
    } else if AllHit(t, mapping, removed, k, p, i) {
      AroundTheRoot(t, bound, k, mapping, g, removed, p, i);
    } else {
      var c: nat :| c in t.out[p] && Intact(t, mapping, removed, k, c, i);
      ChildToLeaf(t, bound, k, mapping, g, removed, p, c, i);
    }
  }

  // ---- One copy stays whole ----

  /** Copy `i` lost no inner node. */
  ghost predicate Clean(t: Tree, mapping: Mapping, removed: set<int>, i: nat) {
    forall y | y in t.out && y in mapping && i < |mapping[y]| && t.out[y] != [] :: !Hit(mapping, removed, y, i)
  }

  ghost predicate LostIn(t: Tree, mapping: Mapping, removed: set<int>, i: nat, u: int) {
    exists y: nat :: y in t.out && y in mapping && i < |mapping[y]| && t.out[y] != [] &&
        Label(mapping, y, i) == u && u in removed
  }

  ghost function LostCore(t: Tree, mapping: Mapping, removed: set<int>, i: nat): (u: int)
    requires !Clean(t, mapping, removed, i)
    ensures LostIn(t, mapping, removed, i, u)
  {
    var y: nat :| y in t.out && y in mapping && i < |mapping[y]| && t.out[y] != [] && Hit(mapping, removed, y, i);
    Label(mapping, y, i)
  }

  /** Fewer than `k` losses leave one of the `k` copies clean. */
  lemma CleanCopy(t: Tree, bound: nat, k: nat, mapping: Mapping, g: Graph, removed: set<int>) returns (i: nat)
    requires Setting(t, bound, k, mapping, g) && |removed| < k
    ensures i < k && Clean(t, mapping, removed, i)
  {
    if forall j: nat | j < k :: !Clean(t, mapping, removed, j) {
      var pick := map j | j in Below(k) :: LostCore(t, mapping, removed, j);
      forall a, b | a in pick && b in pick && a != b
        ensures pick[a] != pick[b]
      {
        if pick[a] == pick[b] { CoresApart(t, k, mapping, removed, a, b, pick[a]); }
      }
      assert pick.Keys == Below(k);
      Pigeonhole(pick, removed);
    }
    i :| i < k && Clean(t, mapping, removed, i);
  }

  /** One label is not that of an inner node in two copies. */
  lemma CoresApart(t: Tree, k: nat, mapping: Mapping, removed: set<int>, a: nat, b: nat, u: int)
    requires Mapped(t, k, mapping) && a < k && b < k && LostIn(t, mapping, removed, a, u)
    requires LostIn(t, mapping, removed, b, u)
    ensures a == b
  {
  }

  /** In a clean copy every surviving leaf is joined to the root. */
  lemma LeafToRoot(t: Tree, bound: nat, k: nat, mapping: Mapping, g: Graph, removed: set<int>, l: nat, i: nat)
    requires Setting(t, bound, k, mapping, g) && i < k && Clean(t, mapping, removed, i)
    requires l in t.out && t.out[l] == [] && l !in removed
    ensures Joined(g, removed, l, Label(mapping, 0, i))
  {
    forall y | y in t.out && Anc(t, y, l)
      ensures !Hit(mapping, removed, y, i)
    {
      if y != l { AncIsInner(t, bound, y, l); }
    }
    UpToRoot(t, bound, k, mapping, g, removed, l, i);
  }

  lemma {:induction false} AncIsInner(t: Tree, bound: nat, y: nat, x: nat)
    requires Rooted(t, bound) && x in t.out && y in t.out && Anc(t, y, x) && y != x
    ensures t.out[y] != []
    decreases x
  {
    assert NodeOk(t, x);
    if t.parent[x] != y { AncIsInner(t, bound, y, t.parent[x]); }
  }

  /** A k-pasted graph stays connected whatever fewer than `k` nodes are removed. */
  lemma StaysConnected(t: Tree, bound: nat, k: nat, mapping: Mapping, g: Graph, removed: set<int>)
    requires Setting(t, bound, k, mapping, g) && |removed| < k
    ensures Connected(g, removed)
  {
    var i := CleanCopy(t, bound, k, mapping, g, removed);
    var hub := Label(mapping, 0, i);
    forall u | Alive(g, removed, u)
      ensures Joined(g, removed, u, hub)
    {
      assert IsLabel(mapping, k, u);
      var x: nat, j: nat :| x in mapping && j < k && j < |mapping[x]| && Label(mapping, x, j) == u;
      SurvivorReachesLeaf(t, bound, k, mapping, g, removed, x, j);
      var l: nat :| l in t.out && t.out[l] == [] && l !in removed && Joined(g, removed, u, l);
      LeafToRoot(t, bound, k, mapping, g, removed, l, i);
      JoinedTransitive(g, removed, u, l, hub);
    }
    ConnectedThrough(g, removed, hub);
  }

  /** k-pasted graphs are k-connected. */
  lemma PastedIsKConnected(t: Tree, bound: nat, k: nat, mapping: Mapping, g: Graph)
    requires Rooted(t, bound) && Branching(t, k) && Pasted(t, k, mapping, g) && k >= 2 && |g.nodes| > k
    ensures KConnected(g, k)
  {
    forall removed: set<int> | |removed| < k
      ensures Connected(g, removed)
    {
      StaysConnected(t, bound, k, mapping, g, removed);
    }
  }

  // ---- Degrees ----

  /** Minimum degree at least `k`. */
  lemma PastedDegree(t: Tree, bound: nat, k: nat, mapping: Mapping, g: Graph, u: int)
    requires Rooted(t, bound) && Branching(t, k) && Pasted(t, k, mapping, g) && k >= 2 && |g.nodes| > k && u in g.nodes
    ensures |Neighbors(g, u)| >= k
  {
    PastedIsKConnected(t, bound, k, mapping, g);
    MinimumDegree(g, k, u);
  }

  /** The tree neighbours of a node. */
  ghost function TreeNeighbors(t: Tree, x: nat): (some: set<nat>)
    requires x in t.out
    ensures |some| <= Degree(t, x)
    ensures forall y: nat :: y in some <==> y in t.out[x] || (x in t.parent && y == t.parent[x])
  {
    ElementsCard(t.out[x]);
    Elements(t.out[x]) + if x in t.parent then {t.parent[x]} else {}
  }

  lemma {:induction false} ElementsCard(s: seq<nat>)
    ensures |Elements(s)| <= |s|
  {
    if s != [] {
      var k := |s| - 1;
      ElementsCard(s[..k]);
      assert s == s[..k] + [s[k]] && Elements(s) == Elements(s[..k]) + {s[k]};
    }
  }

  /** Copy `i` of an inner node is linked to copy `i` of its tree neighbours only. */
  lemma InnerNeighbor(t: Tree, bound: nat, k: nat, mapping: Mapping, g: Graph, x: nat, i: nat, v: int)
    requires Setting(t, bound, k, mapping, g) && x in t.out && t.out[x] != [] && i < k && x in mapping
    requires i < |mapping[x]|
    requires Adjacent(g, Label(mapping, x, i), v)
    ensures exists y :: y in TreeNeighbors(t, x) && y in mapping && i < |mapping[y]| && Label(mapping, y, i) == v
  {
    var u := Label(mapping, x, i);
    if (u, v) in g.edges {
      var p: nat, c: nat, j: nat :| CopiedEdge(t, k, mapping, p, c, j, u, v);
      assert Label(mapping, x, i) == Label(mapping, p, j);
      assert p == x && j == i && c in TreeNeighbors(t, x);
    } else {
      var p: nat, c: nat, j: nat :| CopiedEdge(t, k, mapping, p, c, j, v, u);
      ChildOf(t, bound, p, c);
      assert Label(mapping, x, i) == Label(mapping, c, j);
      assert c == x && j == i && p in TreeNeighbors(t, x);
    }
  }

  /** A leaf is linked to the copies of its parent only. */
  lemma LeafNeighbor(t: Tree, bound: nat, k: nat, mapping: Mapping, g: Graph, x: nat, i: nat, v: int)
    requires Setting(t, bound, k, mapping, g) && x in t.out && t.out[x] == [] && i < k && x in mapping
    requires i < |mapping[x]|
    requires Adjacent(g, Label(mapping, x, i), v)
    ensures x in t.parent && t.parent[x] in mapping
    ensures exists j :: 0 <= j < k && j < |mapping[t.parent[x]]| && Label(mapping, t.parent[x], j) == v
  {
    var u := Label(mapping, x, i);
    assert (u, v) !in g.edges;
    var p: nat, c: nat, j: nat :| CopiedEdge(t, k, mapping, p, c, j, v, u);
    ChildOf(t, bound, p, c);
    assert Label(mapping, x, i) == Label(mapping, c, j);
    assert c == x && Label(mapping, p, j) == v;
  }

  lemma InnerDegree(t: Tree, bound: nat, k: nat, mapping: Mapping, g: Graph, x: nat, i: nat)
    requires Setting(t, bound, k, mapping, g) && x in t.out && t.out[x] != [] && i < k && x in mapping
    requires i < |mapping[x]|
    ensures |Neighbors(g, Label(mapping, x, i))| <= Degree(t, x)
  {
    var around := Neighbors(g, Label(mapping, x, i));
    forall v | v in around
      ensures exists y :: y in TreeNeighbors(t, x) && y in mapping && i < |mapping[y]| && Label(mapping, y, i) == v
    {
      InnerNeighbor(t, bound, k, mapping, g, x, i, v);
    }
    var pick := map v | v in around :: OwnerOf(mapping, TreeNeighbors(t, x), i, v);
    Pigeonhole(pick, TreeNeighbors(t, x));
    assert pick.Keys == around && |pick| == |pick.Keys|;
  }

  /** The node whose copy `i` has this label. */
  ghost function OwnerOf(mapping: Mapping, some: set<nat>, i: nat, v: int): (y: nat)
    requires exists y :: y in some && y in mapping && i < |mapping[y]| && Label(mapping, y, i) == v
    ensures y in some && y in mapping && i < |mapping[y]| && Label(mapping, y, i) == v
  {
    var y :| y in some && y in mapping && i < |mapping[y]| && Label(mapping, y, i) == v;
    y
  }

  ghost function CopyOf(mapping: Mapping, p: nat, k: nat, v: int): (j: nat)
    requires p in mapping && exists j :: 0 <= j < k && j < |mapping[p]| && Label(mapping, p, j) == v
    ensures j < k && j < |mapping[p]| && Label(mapping, p, j) == v
  {
    var j :| 0 <= j < k && j < |mapping[p]| && Label(mapping, p, j) == v;
    j
  }

  lemma LeafDegree(t: Tree, bound: nat, k: nat, mapping: Mapping, g: Graph, x: nat, i: nat)
    requires Setting(t, bound, k, mapping, g) && x in t.out && t.out[x] == [] && i < k && x in mapping
    requires i < |mapping[x]|
    ensures |Neighbors(g, Label(mapping, x, i))| <= k
  {
    var around := Neighbors(g, Label(mapping, x, i));
    if around != {} {
      var w :| w in around;
      LeafNeighbor(t, bound, k, mapping, g, x, i, w);
      var p := t.parent[x];
      forall v | v in around
        ensures exists j :: 0 <= j < k && j < |mapping[p]| && Label(mapping, p, j) == v
      {
        LeafNeighbor(t, bound, k, mapping, g, x, i, v);
      }
      var pick := map v | v in around :: CopyOf(mapping, p, k, v);
      Pigeonhole(pick, Below(k));
      assert pick.Keys == around && |pick| == |pick.Keys|;
    }
  }

  /** All nodes but at most `k` have exactly `k` neighbours, and nobody has more than `3k - 3`. */
  ghost predicate NearlyRegular(g: Graph, k: nat) {
    exists heavy: set<int> :: |heavy| <= k && DegreesBut(g, k, heavy)
  }

  ghost predicate DegreesBut(g: Graph, k: nat, heavy: set<int>) {
    forall u | u in g.nodes :: k <= |Neighbors(g, u)| <= if u in heavy then 3 * k - 3 else k
  }

  lemma LabelDegree(t: Tree, bound: nat, k: nat, mapping: Mapping, g: Graph, e: nat, u: int)
    requires Setting(t, bound, k, mapping, g) && |g.nodes| > k && u in g.nodes
    requires e in t.out && t.out[e] != [] && Degree(t, e) <= 3 * k - 3 && RegularBut(t, k, e) && e in mapping
    ensures k <= |Neighbors(g, u)| <= if u in Elements(mapping[e]) then 3 * k - 3 else k
  {
    PastedDegree(t, bound, k, mapping, g, u);
    assert IsLabel(mapping, k, u);
    var x: nat, i: nat :| x in mapping && i < k && i < |mapping[x]| && Label(mapping, x, i) == u;
    if t.out[x] == [] {
      LeafDegree(t, bound, k, mapping, g, x, i);
    } else {
      InnerDegree(t, bound, k, mapping, g, x, i);
      if x == e { assert mapping[e][i] == u; }
    }
  }

  /** Pasting the copies of a grown tree gives a nearly regular graph. */
  lemma PastedIsNearlyRegular(t: Tree, bound: nat, k: nat, mapping: Mapping, g: Graph)
    requires Setting(t, bound, k, mapping, g) && |g.nodes| > k && Grown(t, k)
    ensures NearlyRegular(g, k)
  {
    var e :| e in t.out && t.out[e] != [] && Degree(t, e) <= 3 * k - 3 && RegularBut(t, k, e);
    var heavy: set<int> := Elements(mapping[e]);
    ElementsCard(mapping[e]);
    forall u | u in g.nodes
      ensures k <= |Neighbors(g, u)| <= if u in heavy then 3 * k - 3 else k
    {
      LabelDegree(t, bound, k, mapping, g, e, u);
    }
    assert DegreesBut(g, k, heavy);
  }

  // ---- Pasting the copies ----

  ghost function SizeOf(t: Tree, k: nat, done: set<nat>): nat {
    |Leaves(t) * done| + k * |Cores(t) * done|
  }

  lemma SizeOfMore(t: Tree, k: nat, done: set<nat>, x: nat)
    requires x in t.out && x !in done
    ensures SizeOf(t, k, done + {x}) == SizeOf(t, k, done) + if t.out[x] == [] then 1 else k
  {
    if t.out[x] == [] {
      OneMoreIn(Leaves(t), done, x);
      NoneMoreIn(Cores(t), done, x);
    } else {
      NoneMoreIn(Leaves(t), done, x);
      OneMoreIn(Cores(t), done, x);
      assert k * |Cores(t) * (done + {x})| == k * |Cores(t) * done| + k;
    }
  }

  lemma OneMoreIn(all: set<nat>, done: set<nat>, x: nat)
    requires x in all && x !in done
    ensures |all * (done + {x})| == |all * done| + 1
  {
    assert all * (done + {x}) == all * done + {x};
  }

  lemma NoneMoreIn(all: set<nat>, done: set<nat>, x: nat)
    requires x !in all
    ensures all * (done + {x}) == all * done
  {
  }

  lemma SizeOfAll(t: Tree, k: nat)
    ensures SizeOf(t, k, t.out.Keys) == Size(t, k) && SizeOf(t, k, {}) == 0
  {
    assert Leaves(t) * t.out.Keys == Leaves(t) && Cores(t) * t.out.Keys == Cores(t);
  }

  /** Labels of one node: a leaf keeps its own in all copies, an inner node has its own
      in copy 0 and new ones, from `bound` on and below `next`, in the others. */
  ghost predicate Labelled(t: Tree, k: nat, bound: nat, next: nat, x: nat, copies: seq<nat>)
    requires x in t.out
  {
    && |copies| == k
    && (forall i | 0 <= i < k && t.out[x] == [] :: copies[i] == x)
    && (forall i | 0 <= i < k :: copies[i] == x || bound <= copies[i] < next)
    && (forall i, j | 0 <= i < j < k && t.out[x] != [] :: copies[i] != copies[j])
  }

  /** The labels assigned so far. */
  ghost predicate Assigned(t: Tree, k: nat, bound: nat, next: nat, mapping: Mapping) {
    && (forall x | x in mapping :: x in t.out) && bound <= next
    && (forall x | x in mapping :: Labelled(t, k, bound, next, x, mapping[x]))
    && (forall x, y, i, j | x in mapping && y in mapping && 0 <= i < |mapping[x]| && 0 <= j < |mapping[y]| && x != y ::
          Label(mapping, x, i) != Label(mapping, y, j))
  }

  lemma AssignedMapped(t: Tree, k: nat, bound: nat, next: nat, mapping: Mapping)
    requires Assigned(t, k, bound, next, mapping) && mapping.Keys == t.out.Keys
    ensures Mapped(t, k, mapping)
  {
  }

  /** One more node gets its labels, none of them in use. */
  lemma AssignMore(t: Tree, k: nat, bound: nat, next: nat, more: nat, mapping: Mapping, x: nat, copies: seq<nat>)
    requires Assigned(t, k, bound, next, mapping) && x in t.out && x !in mapping && next <= more
    requires forall y | y in t.out :: y < bound
    requires Labelled(t, k, bound, more, x, copies)
    requires forall i | 0 <= i < |copies| :: copies[i] == x || next <= copies[i]
    ensures Assigned(t, k, bound, more, mapping[x := copies])
    ensures forall i | 0 <= i < |copies| :: !IsLabel(mapping, k, copies[i])
    ensures forall u :: IsLabel(mapping[x := copies], k, u) <==> IsLabel(mapping, k, u) || u in copies
  {
    var longer := mapping[x := copies];
    forall u
      ensures IsLabel(longer, k, u) <==> IsLabel(mapping, k, u) || u in copies
    {
      if u in copies {
        var i :| 0 <= i < k && copies[i] == u;
        assert Label(longer, x, i) == u;
      }
      if IsLabel(mapping, k, u) {
        var y: nat, i: nat :| y in mapping && i < k && i < |mapping[y]| && Label(mapping, y, i) == u;
        assert Label(longer, y, i) == u;
      }
      if IsLabel(longer, k, u) {
        var y: nat, i: nat :| y in longer && i < k && i < |longer[y]| && Label(longer, y, i) == u;
        if y != x { assert Label(mapping, y, i) == u; }
      }
    }
    forall y, z, i, j | y in longer && z in longer && 0 <= i < |longer[y]| && 0 <= j < |longer[z]| && y != z
      ensures Label(longer, y, i) != Label(longer, z, j)
    {
      if y != x { assert Labelled(t, k, bound, next, y, mapping[y]); }
      if z != x { assert Labelled(t, k, bound, next, z, mapping[z]); }
      if y != x && z != x { assert Label(mapping, y, i) != Label(mapping, z, j); }
    }
    forall y | y in longer
      ensures Labelled(t, k, bound, more, y, longer[y])
    {
      if y != x { assert Labelled(t, k, bound, next, y, mapping[y]); }
    }
  }

  /** Adds a leaf, which stands for all its `k` copies. */
  function AddShared(g: Graph, k: nat, x: nat): (r: Graph)
    requires k >= 1 && x !in g.nodes
    ensures r.edges == g.edges && |r.nodes| == |g.nodes| + 1
    ensures forall u :: u in r.nodes <==> u in g.nodes || u in seq(k, i => x)
  {
    assert x == seq(k, i => x)[0];
    AddNode(g, x)
  }

  /** Adds an inner node to the graph, with `k - 1` further copies under new labels. */
  method AddCopies(g0: Graph, k: nat, x: nat, next0: nat) returns (g: Graph, copies: seq<nat>, next: nat)
    requires k >= 1 && x < next0 && x !in g0.nodes && forall u | u in g0.nodes :: u < next0
    ensures next == next0 + k - 1 && |copies| == k && copies[0] == x
    ensures forall i | 1 <= i < k :: copies[i] == next0 + i - 1
    ensures g.edges == g0.edges && forall u :: u in g.nodes <==> u in g0.nodes || u in copies
    ensures |g.nodes| == |g0.nodes| + k
  {
    copies, g, next := [x], AddNode(g0, x), next0;
    for i := 0 to k - 1
      invariant next == next0 + i && |copies| == i + 1 && copies[0] == x
      invariant forall j | 1 <= j <= i :: copies[j] == next0 + j - 1
      invariant g.edges == g0.edges && forall u :: u in g.nodes <==> u in g0.nodes || u in copies
      invariant |g.nodes| == |g0.nodes| + i + 1
    {
      copies := copies + [next];
      assert next !in g.nodes;
      g := AddNode(g, next);
      next := next + 1;
    }
  }

  /** The labels assigned so far and the graph nodes they stand for. */
  ghost predicate PartlyPasted(t: Tree, k: nat, bound: nat, next: nat, mapping: Mapping, g: Graph) {
    Assigned(t, k, bound, next, mapping) && OnlyLabels(t, k, mapping, g)
  }

  ghost predicate OnlyLabels(t: Tree, k: nat, mapping: Mapping, g: Graph) {
    && g.edges == {} && |g.nodes| == SizeOf(t, k, mapping.Keys)
    && forall u :: u in g.nodes <==> IsLabel(mapping, k, u)
  }

  method AddLabels(g0: Graph, t: Tree, k: nat, ghost bound: nat, next0: nat, x: nat)
    returns (g: Graph, copies: seq<nat>, next: nat)
    requires x in t.out && x < bound <= next0 && k >= 2 && x in t.kind && (t.kind[x] == Shared <==> t.out[x] == [])
    requires x !in g0.nodes && forall u | u in g0.nodes :: u < next0
    ensures Labelled(t, k, bound, next, x, copies) && next0 <= next
    ensures forall i | 0 <= i < |copies| :: copies[i] == x || next0 <= copies[i]
    ensures g.edges == g0.edges && |g.nodes| == |g0.nodes| + if t.out[x] == [] then 1 else k
    ensures forall u :: u in g.nodes <==> u in g0.nodes || u in copies
  {
    if t.kind[x] != Shared {
      g, copies, next := AddCopies(g0, k, x, next0);
      NewLabels(t, k, bound, next0, next, x, copies);
    } else {
      g, copies, next := AddShared(g0, k, x), seq(k, i => x), next0;
    }
  }

  method PasteNode(g0: Graph, t: Tree, k: nat, bound: nat, next0: nat, mapping0: Mapping, x: nat)
    returns (g: Graph, mapping: Mapping, next: nat)
    requires (forall y | y in t.out :: y < bound) && x in t.out && x !in mapping0 && k >= 2
    requires x in t.kind && (t.kind[x] == Shared <==> t.out[x] == [])
    requires PartlyPasted(t, k, bound, next0, mapping0, g0)
    ensures PartlyPasted(t, k, bound, next, mapping, g)
    ensures forall y :: y in mapping <==> y in mapping0 || y == x
  {
    LabelsBelow(t, k, bound, next0, mapping0);
    var copies;
    g, copies, next := AddLabels(g0, t, k, bound, next0, x);
    PartlyPastedMore(t, k, bound, next0, next, mapping0, g0, g, x, copies);
    mapping := mapping0[x := copies];
  }

  lemma NewLabels(t: Tree, k: nat, bound: nat, next0: nat, next: nat, x: nat, copies: seq<nat>)
    requires x in t.out && t.out[x] != [] && x < bound <= next0 && 1 <= k == |copies| && next == next0 + k - 1
    requires copies[0] == x && forall i | 1 <= i < k :: copies[i] == next0 + i - 1
    ensures Labelled(t, k, bound, next, x, copies)
  {
  }

  lemma PartlyPastedMore(t: Tree, k: nat, bound: nat, next0: nat, next: nat, mapping: Mapping, g0: Graph, g: Graph,
                         x: nat, copies: seq<nat>)
    requires (forall y | y in t.out :: y < bound) && x in t.out && x !in mapping && next0 <= next
    requires PartlyPasted(t, k, bound, next0, mapping, g0)
    requires Labelled(t, k, bound, next, x, copies)
    requires forall i | 0 <= i < |copies| :: copies[i] == x || next0 <= copies[i]
    requires g.edges == {} && |g.nodes| == |g0.nodes| + if t.out[x] == [] then 1 else k
    requires forall u :: u in g.nodes <==> u in g0.nodes || u in copies
    ensures PartlyPasted(t, k, bound, next, mapping[x := copies], g)
  {
    AssignMore(t, k, bound, next0, next, mapping, x, copies);
    OneMoreNode(t, k, mapping, g0, g, x, copies);
  }

  lemma OneMoreNode(t: Tree, k: nat, mapping: Mapping, g0: Graph, g: Graph, x: nat, copies: seq<nat>)
    requires x in t.out && x !in mapping && OnlyLabels(t, k, mapping, g0)
    requires g.edges == {} && |g.nodes| == |g0.nodes| + if t.out[x] == [] then 1 else k
    requires forall u :: u in g.nodes <==> u in g0.nodes || u in copies
    requires forall u :: IsLabel(mapping[x := copies], k, u) <==> IsLabel(mapping, k, u) || u in copies
    ensures OnlyLabels(t, k, mapping[x := copies], g)
  {
    SizeOfKeys(t, k, mapping, x, copies);
  }

  lemma SizeOfKeys(t: Tree, k: nat, mapping: Mapping, x: nat, copies: seq<nat>)
    requires x in t.out && x !in mapping
    ensures SizeOf(t, k, mapping[x := copies].Keys) == SizeOf(t, k, mapping.Keys) + if t.out[x] == [] then 1 else k
  {
    assert mapping[x := copies].Keys == mapping.Keys + {x};
    SizeOfMore(t, k, mapping.Keys, x);
  }

  lemma AllPasted(t: Tree, k: nat, bound: nat, next: nat, mapping: Mapping, g: Graph)
    requires PartlyPasted(t, k, bound, next, mapping, g) && forall x | x in t.out :: x in mapping
    ensures Mapped(t, k, mapping) && |g.nodes| == Size(t, k)
  {
    assert mapping.Keys == t.out.Keys;
    SizeOfAll(t, k);
    AssignedMapped(t, k, bound, next, mapping);
  }

  lemma NothingPasted(t: Tree, k: nat, bound: nat)
    ensures PartlyPasted(t, k, bound, bound, map[], EMPTY)
  {
    SizeOfAll(t, k);
    var nothing: Mapping := map[];
    assert nothing.Keys == {};
  }

  /** Adds one node per leaf and `k` per inner node. */
  method PasteNodes(t: Tree, k: nat, bound: nat) returns (g: Graph, mapping: Mapping)
    requires (forall y | y in t.out :: y < bound) && Branching(t, k) && k >= 2
    ensures Mapped(t, k, mapping) && g.edges == {} && |g.nodes| == Size(t, k)
    ensures forall u :: u in g.nodes <==> IsLabel(mapping, k, u)
  {
    g, mapping := EMPTY, map[];
    var next, todo := bound, t.out.Keys;
    NothingPasted(t, k, bound);
    while todo != {}
      invariant forall x :: x in todo <==> x in t.out && x !in mapping
      invariant PartlyPasted(t, k, bound, next, mapping, g)
    {
      var x :| x in todo;
      g, mapping, next := PasteNode(g, t, k, bound, next, mapping, x);
      todo := todo - {x};
    }
    AllPasted(t, k, bound, next, mapping, g);
  }

  lemma LabelsBelow(t: Tree, k: nat, bound: nat, next: nat, mapping: Mapping)
    requires Assigned(t, k, bound, next, mapping) && forall y | y in t.out :: y < bound
    ensures forall u | IsLabel(mapping, k, u) :: u < next
    ensures forall x | x in t.out && x !in mapping :: !IsLabel(mapping, k, x)
  {
    forall u | IsLabel(mapping, k, u)
      ensures u < next && (u in mapping || bound <= u)
    {
      var y: nat, i: nat :| y in mapping && i < k && i < |mapping[y]| && Label(mapping, y, i) == u;
      assert Labelled(t, k, bound, next, y, mapping[y]);
    }
  }

  ghost predicate OfChild(t: Tree, k: nat, mapping: Mapping, p: nat, c: nat, upTo: nat, u: int, v: int) {
    exists i: nat :: i < upTo && CopiedEdge(t, k, mapping, p, c, i, u, v)
  }

  ghost predicate OfNode(t: Tree, k: nat, mapping: Mapping, p: nat, upTo: nat, u: int, v: int) {
    exists j: nat :: p in t.out && j < upTo && j < |t.out[p]| && OfChild(t, k, mapping, p, t.out[p][j], k, u, v)
  }

  ghost predicate OfNodes(t: Tree, k: nat, mapping: Mapping, done: set<nat>, u: int, v: int) {
    exists p: nat, c: nat, i: nat :: CopiedEdge(t, k, mapping, p, c, i, u, v) && p in done
  }

  method PasteEdge(g0: Graph, t: Tree, k: nat, mapping: Mapping, p: nat, c: nat) returns (g: Graph)
    requires Mapped(t, k, mapping) && p in t.out && c in t.out[p] && c in t.out
    requires forall u :: u in g0.nodes <==> IsLabel(mapping, k, u)
    ensures g.nodes == g0.nodes
    ensures forall u, v :: (u, v) in g.edges <==> (u, v) in g0.edges || OfChild(t, k, mapping, p, c, k, u, v)
  {
    g := g0;
    for i := 0 to k
      invariant g.nodes == g0.nodes
      invariant forall u, v :: (u, v) in g.edges <==> (u, v) in g0.edges || OfChild(t, k, mapping, p, c, i, u, v)
    {
      assert IsLabel(mapping, k, Label(mapping, p, i)) && IsLabel(mapping, k, Label(mapping, c, i));
      assert CopiedEdge(t, k, mapping, p, c, i, Label(mapping, p, i), Label(mapping, c, i));
      g := AddEdge(g, mapping[p][i], mapping[c][i]);
    }
  }

  method PasteEdgesOf(g0: Graph, t: Tree, k: nat, bound: nat, mapping: Mapping, p: nat) returns (g: Graph)
    requires Rooted(t, bound) && Mapped(t, k, mapping) && p in t.out
    requires forall u :: u in g0.nodes <==> IsLabel(mapping, k, u)
    ensures g.nodes == g0.nodes
    ensures forall u, v :: (u, v) in g.edges <==> (u, v) in g0.edges || OfNode(t, k, mapping, p, |t.out[p]|, u, v)
  {
    g := g0;
    for j := 0 to |t.out[p]|
      invariant g.nodes == g0.nodes
      invariant forall u, v :: (u, v) in g.edges <==> (u, v) in g0.edges || OfNode(t, k, mapping, p, j, u, v)
    {
      ChildOf(t, bound, p, t.out[p][j]);
      g := PasteEdge(g, t, k, mapping, p, t.out[p][j]);
    }
  }

  lemma OfNodeMeans(t: Tree, k: nat, mapping: Mapping, p: nat, u: int, v: int)
    requires p in t.out
    ensures OfNode(t, k, mapping, p, |t.out[p]|, u, v) <==> exists c, i :: CopiedEdge(t, k, mapping, p, c, i, u, v)
  {
    if OfNode(t, k, mapping, p, |t.out[p]|, u, v) {
      var j: nat :| j < |t.out[p]| && OfChild(t, k, mapping, p, t.out[p][j], k, u, v);
    }
    if exists c: nat, i: nat :: CopiedEdge(t, k, mapping, p, c, i, u, v) {
      var c: nat, i: nat :| CopiedEdge(t, k, mapping, p, c, i, u, v);
      var j :| 0 <= j < |t.out[p]| && t.out[p][j] == c;
      assert OfChild(t, k, mapping, p, t.out[p][j], k, u, v);
    }
  }

  lemma OfNodesMore(t: Tree, k: nat, mapping: Mapping, done: set<nat>, p: nat, u: int, v: int)
    requires p in t.out
    ensures OfNodes(t, k, mapping, done + {p}, u, v)
       <==> OfNodes(t, k, mapping, done, u, v) || (t.out[p] != [] && OfNode(t, k, mapping, p, |t.out[p]|, u, v))
  {
    OfNodeMeans(t, k, mapping, p, u, v);
  }

  /** Adds every tree edge once per copy. */
  method PasteEdges(g0: Graph, t: Tree, k: nat, bound: nat, mapping: Mapping) returns (g: Graph)
    requires Rooted(t, bound) && Branching(t, k) && Mapped(t, k, mapping) && g0.edges == {}
    requires forall u :: u in g0.nodes <==> IsLabel(mapping, k, u)
    ensures g.nodes == g0.nodes && Pasted(t, k, mapping, g)
  {
    g := g0;
    var todo := t.out.Keys;
    ghost var done: set<nat> := {};
    while todo != {}
      invariant todo <= t.out.Keys && done == t.out.Keys - todo && g.nodes == g0.nodes
      invariant forall u, v :: (u, v) in g.edges <==> OfNodes(t, k, mapping, done, u, v)
    {
      var p :| p in todo;
      forall u, v
        ensures OfNodes(t, k, mapping, done + {p}, u, v)
           <==> OfNodes(t, k, mapping, done, u, v) || (t.out[p] != [] && OfNode(t, k, mapping, p, |t.out[p]|, u, v))
      {
        OfNodesMore(t, k, mapping, done, p, u, v);
      }
      if t.kind[p] != Shared {
        g := PasteEdgesOf(g, t, k, bound, mapping, p);
      }
      todo, done := todo - {p}, done + {p};
    }
    forall u, v
      ensures (u, v) in g.edges <==> IsCopiedEdge(t, k, mapping, u, v)
    {
      assert done == t.out.Keys;
    }
  }

  /** With `k = 1` there is one copy of the one edge. */
  method PasteSingle(t: Tree) returns (g: Graph)
    requires t.out == map[0 := [1], 1 := []]
    ensures |g.nodes| == 2 && KConnected(g, 1)
  {
    g := AddEdge(AddNode(AddNode(EMPTY, 0), 1), 0, t.out[0][0]);
    assert g.nodes == {0} + {1};
    forall removed: set<int> | |removed| < 1
      ensures Connected(g, removed)
    {
      assert removed == {};
      JoinedSelf(g, removed, 0);
      JoinedEdge(g, removed, 1, 0);
      ConnectedThrough(g, removed, 0);
    }
  }

  /** What the generator does: a graph, or one of its errors. */
  datatype Outcome = Built(graph: Graph) | TooFewNodes | NoRoot | NothingToExpand

  /** `k` copies of one tree, under the names that the final renumbering gives. */
  ghost predicate IsKPasted(g: Graph, k: nat) {
    exists t, bound, mapping, pasted, order ::
      Rooted(t, bound) && Branching(t, k) && Grown(t, k) && Pasted(t, k, mapping, pasted) && Renamed(pasted, order, g)
  }

  lemma RenamedIsNearlyRegular(g: Graph, order: seq<int>, h: Graph, k: nat)
    requires Renamed(g, order, h) && NearlyRegular(g, k) && KConnected(h, k)
    ensures NearlyRegular(h, k)
  {
    var heavy: set<int> :| |heavy| <= k && DegreesBut(g, k, heavy);
    var named := set i | i in h.nodes && 0 <= i < |order| && order[i] in heavy;
    PositionsCard(order, named, heavy);
    forall i | i in h.nodes
      ensures k <= |Neighbors(h, i)| <= if i in named then 3 * k - 3 else k
    {
      MinimumDegree(h, k, i);
      RenamedDegree(g, order, h, i);
    }
    assert DegreesBut(h, k, named);
  }

  lemma PositionsCard(order: seq<int>, named: set<int>, nodes: set<int>)
    requires forall i | i in named :: 0 <= i < |order| && order[i] in nodes
    requires forall i, j | 0 <= i < j < |order| :: order[i] != order[j]
    ensures |named| <= |nodes|
  {
    var pick := map i | i in named :: order[i];
    Pigeonhole(pick, nodes);
    assert pick.Keys == named && |pick| == |pick.Keys|;
  }

  lemma RenamedDegree(g: Graph, order: seq<int>, h: Graph, i: int)
    requires Renamed(g, order, h) && 0 <= i < |order|
    ensures |Neighbors(h, i)| <= |Neighbors(g, order[i])|
  {
    forall j | j in Neighbors(h, i)
      ensures 0 <= j < |order| && order[j] in Neighbors(g, order[i])
    {
    }
    PositionsCard(order, Neighbors(h, i), Neighbors(g, order[i]));
  }

  lemma KPastedIsKConnected(g: Graph, k: nat)
    requires IsKPasted(g, k) && k >= 2 && |g.nodes| > k
    ensures KConnected(g, k)
  {
    var t, bound, mapping, pasted, order :|
      Rooted(t, bound) && Branching(t, k) && Grown(t, k) && Pasted(t, k, mapping, pasted) && Renamed(pasted, order, g);
    PastedIsKConnected(t, bound, k, mapping, pasted);
    RenamedIsKConnected(pasted, order, g, k);
  }

  /** Whenever `n >= 2k >= 4`, the result has the nodes `0..n-1`, is `k`-connected, and consists
      of `k` copies of one tree. For `k = 1` it is one edge, a node short when `n = 3`, and larger
      graphs fail; there is no root to give a type to when `k` is not positive. */
  method GenerateKPasted(n: int, k: int) returns (r: Outcome)
    ensures r == TooFewNodes <==> n < 2 * k
    ensures r == NoRoot <==> n >= 2 * k && k <= 0
    ensures r == NothingToExpand <==> n >= 4 && k == 1
    ensures r.Built? ==> KConnected(r.graph, k) && Numbered(r.graph, if k == 1 then 2 else n)
    ensures r.Built? && k >= 2 ==> IsKPasted(r.graph, k) && NearlyRegular(r.graph, k)
  {
    if n < 2 * k {
      return TooFewNodes;
    }
    if k <= 0 {
      return NoRoot;
    }
    var g: Graph;
    if k == 1 {
      var single := GrowSingle(n);
      if single.None? {
        return NothingToExpand;
      }
      g := PasteSingle(single.value);
    } else {
      g := GrowAndPaste(n, k);
    }
    var order := NumberNodes(g);
    var h := RelabelNodes(g, order);
    RenamedIsKConnected(g, order, h, k);
    if k >= 2 { RenamedIsNearlyRegular(g, order, h, k); }
    return Built(h);
  }

  method GrowAndPaste(n: int, k: int) returns (g: Graph)
    requires n >= 2 * k >= 4
    ensures KConnected(g, k) && |g.nodes| == n
    ensures NearlyRegular(g, k)
    ensures exists t, bound, mapping :: Rooted(t, bound) && Branching(t, k) && Grown(t, k) && Pasted(t, k, mapping, g)
  {
    var t, free := GrowTree(n, k);
    var mapping;
    g, mapping := PasteNodes(t, k, free + 1);
    g := PasteEdges(g, t, k, free + 1, mapping);
    PastedIsKConnected(t, free + 1, k, mapping, g);
    PastedIsNearlyRegular(t, free + 1, k, mapping, g);
  }
}
