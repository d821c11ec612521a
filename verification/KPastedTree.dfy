/**
  The tree behind a k-pasted graph: how it grows by one node of the final graph
  per iteration, pruning and sprouting included.
 */
module KPastedTree {
  import opened Counting
  import opened Options

  datatype Kind = Root | Internal | Shared

  /** A directed tree: ordered successors, the one predecessor, and the type of each node. */
  datatype Tree = Tree(out: map<nat, seq<nat>>, parent: map<nat, nat>, kind: map<nat, Kind>)

  function Degree(t: Tree, x: nat): nat
    requires x in t.out
  {
    |t.out[x]| + if x in t.parent then 1 else 0
  }

  function AddLeaf(t: Tree, p: nat, c: nat): Tree
    requires p in t.out
  {
    Tree(t.out[p := t.out[p] + [c]][c := []], t.parent[c := p], t.kind[c := Shared])
  }

  /** Removes the successors of `p` after the first `keep`. */
  function Prune(t: Tree, p: nat, keep: nat): Tree
    requires p in t.out && keep <= |t.out[p]|
  {
    var gone := set c | c in t.out[p][keep..];
    Tree((t.out - gone)[p := t.out[p][..keep]], t.parent - gone, t.kind - gone)
  }

  // ---- What every tree of the construction looks like ----

  /** Node 0 is the root, predecessors have smaller labels, and the two directions agree. */
  ghost predicate Rooted(t: Tree, bound: nat) {
    && 0 in t.out && t.kind.Keys == t.out.Keys && t.parent.Keys == t.out.Keys - {0}
    && (forall x | x in t.out :: x < bound)
    && forall x {:trigger NodeOk(t, x)} | x in t.out :: NodeOk(t, x)
  }

  ghost predicate NodeOk(t: Tree, x: nat)
    requires x in t.out
  {
    && Distinct(t.out[x])
    && (x in t.parent ==> t.parent[x] < x && t.parent[x] in t.out && x in t.out[t.parent[x]])
    && (forall c | c in t.out[x] :: c in t.parent && t.parent[c] == x)
  }

  /** Exactly the leaves are shared; inner nodes branch enough for `k` directions. */
  ghost predicate Branching(t: Tree, k: nat) {
    && 0 in t.out && t.kind.Keys == t.out.Keys
    && (forall x | x in t.out :: t.kind[x] == Shared <==> t.out[x] == [])
    && (forall x | x in t.out && t.out[x] != [] :: |t.out[x]| >= if x == 0 then k else k - 1)
    && t.out[0] != []
  }

  ghost function Leaves(t: Tree): set<nat> {
    set x | x in t.out && t.out[x] == []
  }

  ghost function Cores(t: Tree): set<nat> {
    set x | x in t.out && t.out[x] != []
  }

  /** Nodes of the final graph: a leaf is shared, an inner node comes in `k` copies. */
  ghost function Size(t: Tree, k: nat): nat {
    |Leaves(t)| + k * |Cores(t)|
  }

  // ---- Sequences without repetition ----

  lemma DistinctAppend(s: seq<nat>, x: nat)
    requires Distinct(s) && x !in s
    ensures Distinct(s + [x])
  {
  }

  lemma SplitDistinct(s: seq<nat>, keep: nat)
    requires Distinct(s) && keep <= |s|
    ensures Distinct(s[..keep]) && Distinct(s[keep..])
    ensures Elements(s[..keep]) !! Elements(s[keep..])
    ensures Elements(s) == Elements(s[..keep]) + Elements(s[keep..])
  {
    assert s == s[..keep] + s[keep..];
  }

  // ---- Adding and pruning leaves ----

  lemma AddLeafKeeps(t: Tree, bound: nat, p: nat, c: nat)
    requires Rooted(t, bound) && p in t.out && bound <= c
    ensures Rooted(AddLeaf(t, p, c), c + 1)
  {
    var u := AddLeaf(t, p, c);
    assert p < c && c !in t.out && c !in t.parent;
    forall x | x in u.out
      ensures NodeOk(u, x)
    {
      if x == c {
        assert u.out[p] == t.out[p] + [c];
      } else {
        AddLeafNode(t, p, c, x);
      }
    }
  }

  lemma AddLeafNode(t: Tree, p: nat, c: nat, x: nat)
    requires p in t.out && x in t.out && c !in t.out && t.parent.Keys <= t.out.Keys && NodeOk(t, x)
    ensures NodeOk(AddLeaf(t, p, c), x)
  {
    var u := AddLeaf(t, p, c);
    assert c !in t.out[x];
    if x == p { DistinctAppend(t.out[p], c); }
    if x in t.parent && t.parent[x] == p { assert x in t.out[p] + [c]; }
  }

  lemma AddLeafSize(t: Tree, bound: nat, k: nat, p: nat, c: nat)
    requires Rooted(t, bound) && p in t.out && bound <= c && t.out[p] != []
    ensures Size(AddLeaf(t, p, c), k) == Size(t, k) + 1
  {
    var u := AddLeaf(t, p, c);
    assert c !in t.out;
    assert Leaves(u) == Leaves(t) + {c};
    assert Cores(u) == Cores(t);
  }

  /** A leaf that gets its first successor turns from one node into `k`. */
  lemma FirstSproutSize(t: Tree, bound: nat, k: nat, p: nat, c: nat)
    requires Rooted(t, bound) && p in t.out && bound <= c && t.out[p] == []
    ensures Size(AddLeaf(t, p, c), k) == Size(t, k) + k
  {
    var u := AddLeaf(t, p, c);
    assert c !in t.out;
    assert Leaves(u) == Leaves(t) - {p} + {c};
    assert Cores(u) == Cores(t) + {p};
    assert k * |Cores(u)| == k * |Cores(t)| + k;
  }

  ghost predicate AllLeaves(t: Tree, s: seq<nat>) {
    forall c | c in s :: c in t.out && t.out[c] == []
  }

  ghost predicate Prunable(t: Tree, bound: nat, p: nat, keep: nat) {
    Rooted(t, bound) && p in t.out && AllLeaves(t, t.out[p]) && 0 < keep <= |t.out[p]|
  }

  lemma PruneMeans(t: Tree, bound: nat, p: nat, keep: nat)
    requires Prunable(t, bound, p, keep)
    ensures var u, gone := Prune(t, p, keep), Elements(t.out[p][keep..]);
            && u.out.Keys == t.out.Keys - gone && p in u.out && u.out[p] == t.out[p][..keep]
            && (forall x | x in u.out && x != p :: u.out[x] == t.out[x])
            && u.parent == t.parent - gone && u.kind == t.kind - gone
            && gone <= Elements(t.out[p]) && p !in t.out[p] && 0 !in t.out[p]
  {
    var gone := set c | c in t.out[p][keep..];
    assert gone == Elements(t.out[p][keep..]);
    assert NodeOk(t, p);
    SplitDistinct(t.out[p], keep);
    assert p !in t.out[p];
  }

  lemma PruneKeeps(t: Tree, bound: nat, p: nat, keep: nat)
    requires Prunable(t, bound, p, keep)
    ensures Rooted(Prune(t, p, keep), bound)
  {
    var u := Prune(t, p, keep);
    PruneMeans(t, bound, p, keep);
    forall x | x in u.out
      ensures NodeOk(u, x)
    {
      PruneNode(t, bound, p, keep, x);
    }
  }

  lemma PruneNode(t: Tree, bound: nat, p: nat, keep: nat, x: nat)
    requires Prunable(t, bound, p, keep) && x in Prune(t, p, keep).out
    ensures NodeOk(Prune(t, p, keep), x)
  {
    var u := Prune(t, p, keep);
    PruneMeans(t, bound, p, keep);
    assert NodeOk(t, p) && NodeOk(t, x);
    SplitDistinct(t.out[p], keep);
    if x in t.parent {
      assert x in t.out[t.parent[x]];
      assert t.parent[x] !in t.out[p];
      if t.parent[x] == p { assert x in Elements(t.out[p]); }
    }
    forall c | c in u.out[x]
      ensures c in u.parent && u.parent[c] == x
    {
      if x == p {
        assert c in Elements(t.out[p][..keep]);
      } else {
        assert c in t.out[x] && t.parent[c] == x;
        assert c !in t.out[p];
      }
    }
  }

  /** Removing leaves changes neither which nodes are inner ones nor which others are leaves. */
  lemma FewerLeaves(t: Tree, u: Tree, gone: set<nat>, p: nat)
    requires u.out.Keys == t.out.Keys - gone && p in u.out && u.out[p] != [] && t.out[p] != []
    requires forall x | x in u.out && x != p :: u.out[x] == t.out[x]
    requires forall x | x in gone :: x in t.out && t.out[x] == []
    ensures Leaves(u) == Leaves(t) - gone && gone <= Leaves(t) && Cores(u) == Cores(t)
  {
  }

  lemma PruneSize(t: Tree, bound: nat, k: nat, p: nat, keep: nat)
    requires Prunable(t, bound, p, keep)
    ensures Size(Prune(t, p, keep), k) == Size(t, k) - (|t.out[p]| - keep)
  {
    var u, gone := Prune(t, p, keep), Elements(t.out[p][keep..]);
    PruneMeans(t, bound, p, keep);
    assert NodeOk(t, p);
    SplitDistinct(t.out[p], keep);
    DistinctCard(t.out[p][keep..]);
    FewerLeaves(t, u, gone, p);
  }

  // ---- Sprouting ----

  /** `u` is `t` with the leaves `from..to` added below `e`. */
  ghost predicate Sprouted(t: Tree, u: Tree, e: nat, from: nat, to: nat) {
    && from <= to && e in t.out && e in u.out
    && (forall x :: x in u.out <==> x in t.out || from <= x < to)
    && (forall x | x in t.out && x != e :: u.out[x] == t.out[x])
    && (forall x | from <= x < to && x in u.out :: u.out[x] == [])
    && (forall c | c in u.out[e] :: c in t.out[e] || from <= c < to)
    && |u.out[e]| == |t.out[e]| + (to - from)
    && (forall x | x in t.kind :: x in u.kind && u.kind[x] == t.kind[x])
    && (forall x | x in u.kind && x !in t.kind :: u.kind[x] == Shared)
    && (forall x | x in t.parent :: x in u.parent && u.parent[x] == t.parent[x])
  }

  lemma SproutedMore(t: Tree, u: Tree, e: nat, from: nat, to: nat)
    requires Sprouted(t, u, e, from, to) && (forall x | x in t.out :: x < from)
    requires u.kind.Keys == u.out.Keys && t.kind.Keys == t.out.Keys && t.parent.Keys <= t.out.Keys
    ensures Sprouted(t, AddLeaf(u, e, to), e, from, to + 1)
  {
    var v := AddLeaf(u, e, to);
    assert to !in t.out && to != e;
    assert v.out[e] == u.out[e] + [to];
  }

  method Sprout(t0: Tree, e: nat, count: nat, free0: nat, ghost k: nat) returns (t: Tree, free: nat)
    requires Rooted(t0, free0) && e in t0.out && t0.out[e] == []
    ensures free == free0 + count && Rooted(t, free) && Sprouted(t0, t, e, free0, free)
    ensures count > 0 ==> Size(t, k) == Size(t0, k) + k + count - 1
  {
    t, free := t0, free0;
    for i := 0 to count
      invariant free == free0 + i && Rooted(t, free) && Sprouted(t0, t, e, free0, free)
      invariant Size(t, k) == Size(t0, k) + if i == 0 then 0 else k + i - 1
    {
      AddLeafKeeps(t, free, e, free);
      SproutedMore(t0, t, e, free0, free);
      if i == 0 {
        FirstSproutSize(t, free, k, e, free);
      } else {
        assert |t.out[e]| == i;
        AddLeafSize(t, free, k, e, free);
      }
      t := AddLeaf(t, e, free);
      free := free + 1;
    }
  }

  // ---- Growth ----

  /** The nodes still to be expanded are leaves, and none hangs on node `e`. */
  ghost predicate Waiting(t: Tree, e: nat, queue: seq<nat>) {
    && Distinct(queue)
    && forall x | x in queue :: x in t.out && t.out[x] == [] && x in t.parent && t.parent[x] != e
  }

  /** The state between two iterations. */
  ghost predicate Growing(t: Tree, k: nat, free: nat, e: nat, queue: seq<nat>) {
    Rooted(t, free + 1) && Expanding(t, k, e, queue)
  }

  ghost predicate Expanding(t: Tree, k: nat, e: nat, queue: seq<nat>) {
    && Branching(t, k)
    && e in t.out && t.out[e] != [] && AllLeaves(t, t.out[e])
    && Degree(t, e) <= 3 * k - 3
    && Waiting(t, e, queue)
  }

  lemma AddLeafBranching(t: Tree, k: nat, e: nat, c: nat)
    requires Branching(t, k) && e in t.out && t.out[e] != [] && c !in t.out
    ensures Branching(AddLeaf(t, e, c), k)
  {
  }

  lemma AddLeafWaiting(t: Tree, e: nat, c: nat, queue: seq<nat>)
    requires Waiting(t, e, queue) && e in t.out && t.out[e] != [] && c !in t.out
    ensures Waiting(AddLeaf(t, e, c), e, queue)
  {
  }

  lemma AddLeafExpanding(t: Tree, k: nat, e: nat, c: nat, queue: seq<nat>)
    requires Expanding(t, k, e, queue) && Degree(t, e) < 3 * k - 3 && c !in t.out && c !in t.parent && c != e
    ensures Expanding(AddLeaf(t, e, c), k, e, queue)
  {
    AddLeafBranching(t, k, e, c);
    AddLeafWaiting(t, e, c, queue);
    AddLeafAllLeaves(t, e, c);
    assert AddLeaf(t, e, c).out[e] == t.out[e] + [c];
  }

  lemma AddLeafGrowing(t: Tree, k: nat, free: nat, e: nat, queue: seq<nat>)
    requires Growing(t, k, free, e, queue) && Degree(t, e) < 3 * k - 3 && k >= 2
    ensures Growing(AddLeaf(t, e, free + 1), k, free + 1, e, queue)
    ensures Size(AddLeaf(t, e, free + 1), k) == Size(t, k) + 1
  {
    assert free + 1 !in t.out;
    AddLeafKeeps(t, free + 1, e, free + 1);
    AddLeafSize(t, free + 1, k, e, free + 1);
    AddLeafExpanding(t, k, e, free + 1, queue);
  }

  lemma AddLeafAllLeaves(t: Tree, e: nat, c: nat)
    requires e in t.out && t.out[e] != [] && AllLeaves(t, t.out[e]) && c !in t.out
    ensures AllLeaves(AddLeaf(t, e, c), AddLeaf(t, e, c).out[e])
  {
    var u := AddLeaf(t, e, c);
    assert u.out[e] == t.out[e] + [c];
  }

  /** Everything that pruning the current node leaves in place. */
  ghost predicate Pruned(t: Tree, k: nat, free: nat, e: nat, queue: seq<nat>) {
    && Rooted(t, free + 1) && Branching(t, k)
    && e in t.out && t.out[e] != []
    && Distinct(queue)
    && forall x | x in queue :: x in t.out && t.out[x] == [] && x in t.parent
  }

  ghost function Kept(k: nat, e: nat): nat {
    if e == 0 || k == 0 then k else k - 1
  }

  lemma PruneGrowing(t: Tree, k: nat, free: nat, e: nat, queue: seq<nat>)
    requires Growing(t, k, free, e, queue) && Degree(t, e) >= 3 * k - 3 && k >= 2
    ensures Kept(k, e) <= |t.out[e]|
    ensures Pruned(Prune(t, e, Kept(k, e)), k, free, e, queue + t.out[e][..Kept(k, e)])
    ensures Size(Prune(t, e, Kept(k, e)), k) == Size(t, k) - (2 * k - 3)
  {
    var keep := Kept(k, e);
    PruneKeeps(t, free + 1, e, keep);
    PruneSize(t, free + 1, k, e, keep);
    PruneMeans(t, free + 1, e, keep);
    PruneBranching(t, k, free, e, queue);
    PruneQueue(t, k, free, e, queue);
  }

  lemma PruneBranching(t: Tree, k: nat, free: nat, e: nat, queue: seq<nat>)
    requires Growing(t, k, free, e, queue) && Degree(t, e) >= 3 * k - 3 && k >= 2
    ensures Branching(Prune(t, e, Kept(k, e)), k)
  {
    PruneMeans(t, free + 1, e, Kept(k, e));
  }

  lemma PruneQueue(t: Tree, k: nat, free: nat, e: nat, queue: seq<nat>)
    requires Growing(t, k, free, e, queue) && Degree(t, e) >= 3 * k - 3 && k >= 2
    ensures var u, longer := Prune(t, e, Kept(k, e)), queue + t.out[e][..Kept(k, e)];
            && Distinct(longer)
            && forall x | x in longer :: x in u.out && u.out[x] == [] && x in u.parent
  {
    var keep := Kept(k, e);
    PruneMeans(t, free + 1, e, keep);
    assert NodeOk(t, e);
    SplitDistinct(t.out[e], keep);
    forall x | x in t.out[e][..keep]
      ensures x in t.out[e] && x !in t.out[e][keep..]
    {
      assert x in Elements(t.out[e][..keep]);
    }
    ConcatDistinct(queue, t.out[e][..keep]);
  }

  lemma ConcatDistinct(a: seq<nat>, b: seq<nat>)
    requires Distinct(a) && Distinct(b) && forall x | x in a :: x !in b
    ensures Distinct(a + b)
  {
    forall i, j | 0 <= i < j < |a + b|
      ensures (a + b)[i] != (a + b)[j]
    {
      if i < |a| <= j { assert a[i] in a && b[j - |a|] in b; }
    }
  }

  /** Leaf `x` becomes an inner node that is about to sprout. */
  function Promoted(t: Tree, x: nat): Tree {
    t.(kind := t.kind[x := Internal])
  }

  lemma PromotedRooted(t: Tree, bound: nat, x: nat)
    requires Rooted(t, bound) && x in t.out
    ensures Rooted(Promoted(t, x), bound)
  {
    forall y | y in t.out
      ensures NodeOk(Promoted(t, x), y)
    {
      assert NodeOk(t, y);
    }
  }

  lemma RootedMonotone(t: Tree, bound: nat, more: nat)
    requires Rooted(t, bound) && bound <= more
    ensures Rooted(t, more)
  {
  }

  /** The queue without the node at position `i`. */
  function Without(queue: seq<nat>, i: nat): seq<nat>
    requires i < |queue|
  {
    queue[..i] + queue[i + 1..]
  }

  lemma WithoutDistinct(queue: seq<nat>, i: nat)
    requires Distinct(queue) && i < |queue|
    ensures Distinct(Without(queue, i)) && queue[i] !in Without(queue, i)
    ensures forall x | x in Without(queue, i) :: x in queue
  {
  }

  lemma SproutedBranching(t: Tree, u: Tree, k: nat, x: nat, from: nat, to: nat)
    requires Branching(t, k) && x in t.out && x != 0 && t.out[x] == [] && k >= 2
    requires Sprouted(Promoted(t, x), u, x, from, to) && to == from + k - 1
    requires forall y | y in t.out :: y < from
    requires u.kind.Keys == u.out.Keys
    ensures Branching(u, k) && |u.out[x]| == k - 1 && AllLeaves(u, u.out[x])
  {
  }

  lemma SproutedWaiting(t: Tree, u: Tree, x: nat, from: nat, to: nat, rest: seq<nat>)
    requires x in t.out && t.out[x] == [] && x !in rest && Distinct(rest)
    requires forall y | y in rest :: y in t.out && t.out[y] == [] && y in t.parent && NodeOk(t, y)
    requires Sprouted(Promoted(t, x), u, x, from, to)
    ensures Waiting(u, x, rest)
  {
  }

  /** Pruning and sprouting together add one node to the final graph. */
  lemma SproutGrowing(t: Tree, u: Tree, k: nat, free: nat, e: nat, queue: seq<nat>, i: nat)
    requires Pruned(t, k, free, e, queue) && i < |queue| && k >= 2
    requires Sprouted(Promoted(t, queue[i]), u, queue[i], free + 1, free + k) && Rooted(u, free + k)
    ensures Growing(u, k, free + k, queue[i], Without(queue, i))
  {
    var x := queue[i];
    WithoutDistinct(queue, i);
    RootedMonotone(u, free + k, free + k + 1);
    SproutedBranching(t, u, k, x, free + 1, free + k);
    forall y | y in Without(queue, i)
      ensures NodeOk(t, y)
    {
      assert y in queue;
    }
    SproutedWaiting(t, u, x, free + 1, free + k, Without(queue, i));
  }

  /** Turns a waiting leaf, at position `i` of the queue, into the node to expand. */
  method SproutNext(t0: Tree, k: nat, free0: nat, ghost e: nat, ghost queue: seq<nat>, x: nat, ghost i: nat)
    returns (t: Tree, free: nat)
    requires Pruned(t0, k, free0, e, queue) && i < |queue| && queue[i] == x && k >= 2
    ensures free == free0 + k && Growing(t, k, free, x, Without(queue, i)) && x != 0
    ensures Size(t, k) == Size(t0, k) + 2 * k - 2
    ensures forall expanding, future | Taken(t0, k, x, expanding, future) :: Levels(t, k, x, expanding, future)
  {
    assert x in queue;
    PromotedRooted(t0, free0 + 1, x);
    t, free := Sprout(Promoted(t0, x), x, k - 1, free0 + 1, k);
    SproutGrowing(t0, t, k, free0, e, queue, i);
    PromotedSize(t0, k, x);
    forall expanding, future | Taken(t0, k, x, expanding, future)
      ensures Levels(t, k, x, expanding, future)
    {
      SproutLevels(t0, t, k, x, free0 + 1, free0 + k, free0 + 1, free0 + k, expanding, future);
    }
  }

  lemma PromotedSize(t: Tree, k: nat, x: nat)
    ensures Size(Promoted(t, x), k) == Size(t, k)
  {
    assert Leaves(Promoted(t, x)) == Leaves(t) && Cores(Promoted(t, x)) == Cores(t);
  }

  // ---- Level by level ----

  /** How far a node is from the root. */
  ghost function Depth(t: Tree, x: nat): nat {
    if x in t.parent && t.parent[x] < x then Depth(t, t.parent[x]) + 1 else 0
  }

  ghost predicate SameParents(t: Tree, u: Tree) {
    forall x | x in t.out && x in u.out ::
      (x in t.parent <==> x in u.parent) && (x in t.parent && x in u.parent ==> t.parent[x] == u.parent[x])
  }

  lemma {:induction false} DepthSame(t: Tree, u: Tree, bound: nat, more: nat, x: nat)
    requires Rooted(t, bound) && Rooted(u, more) && SameParents(t, u) && x in t.out && x in u.out
    ensures Depth(u, x) == Depth(t, x)
  {
    assert NodeOk(t, x) && NodeOk(u, x);
    if x in t.parent { DepthSame(t, u, bound, more, t.parent[x]); }
  }

  lemma ChildDepth(t: Tree, bound: nat, e: nat, c: nat)
    requires Rooted(t, bound) && e in t.out && c in t.out[e]
    ensures c in t.out && Depth(t, c) == Depth(t, e) + 1
  {
    assert NodeOk(t, e) && NodeOk(t, c);
  }

  /** All inner nodes but `e` have exactly `k` tree neighbours. */
  ghost predicate Regular(t: Tree, k: nat, e: nat) {
    forall x | x in t.out && t.out[x] != [] && x != e :: |t.out[x]| == Kept(k, x)
  }

  ghost predicate AtDepth(t: Tree, nodes: seq<nat>, d: nat) {
    forall x | x in nodes :: x in t.out && Depth(t, x) == d
  }

  /** Every leaf waits in this level or the next, or hangs on the node that is being expanded. */
  ghost predicate Levels(t: Tree, k: nat, e: nat, expanding: seq<nat>, future: seq<nat>) {
    && e in t.out && Regular(t, k, e) && AtDepth(t, expanding, Depth(t, e)) && AtDepth(t, future, Depth(t, e) + 1)
    && forall x | x in t.out && t.out[x] == [] :: x in expanding || x in future || x in t.out[e]
  }

  /** No node is being expanded: all leaves wait, those of this level at depth `d`. */
  ghost predicate Resting(t: Tree, k: nat, d: nat, expanding: seq<nat>, future: seq<nat>) {
    && (forall x | x in t.out && t.out[x] != [] :: |t.out[x]| == Kept(k, x))
    && AtDepth(t, expanding, d) && AtDepth(t, future, d + 1)
    && forall x | x in t.out && t.out[x] == [] :: x in expanding || x in future
  }

  /** The leaf `next` has been taken out of the queue. */
  ghost predicate Taken(t: Tree, k: nat, next: nat, expanding: seq<nat>, future: seq<nat>) {
    && next in t.out && (forall x | x in t.out && t.out[x] != [] :: |t.out[x]| == Kept(k, x))
    && AtDepth(t, expanding, Depth(t, next)) && AtDepth(t, future, Depth(t, next) + 1)
    && forall x | x in t.out && t.out[x] == [] :: x in expanding || x in future || x == next
  }

  lemma AtDepthSame(t: Tree, u: Tree, bound: nat, more: nat, nodes: seq<nat>, d: nat)
    requires Rooted(t, bound) && Rooted(u, more) && SameParents(t, u) && AtDepth(t, nodes, d)
    requires forall x | x in nodes :: x in u.out
    ensures AtDepth(u, nodes, d)
  {
    forall x | x in nodes ensures Depth(u, x) == d { DepthSame(t, u, bound, more, x); }
  }

  lemma AddLeafLevels(t: Tree, k: nat, bound: nat, e: nat, c: nat, expanding: seq<nat>, future: seq<nat>)
    requires Rooted(t, bound) && bound <= c && Levels(t, k, e, expanding, future) && t.out[e] != []
    ensures Levels(AddLeaf(t, e, c), k, e, expanding, future)
  {
    var u := AddLeaf(t, e, c);
    AddLeafKeeps(t, bound, e, c);
    DepthSame(t, u, bound, c + 1, e);
    AtDepthSame(t, u, bound, c + 1, expanding, Depth(t, e));
    AtDepthSame(t, u, bound, c + 1, future, Depth(t, e) + 1);
    assert u.out[e] == t.out[e] + [c];
  }

  lemma PruneResting(t: Tree, k: nat, bound: nat, e: nat, expanding: seq<nat>, future: seq<nat>)
    requires Prunable(t, bound, e, Kept(k, e)) && Levels(t, k, e, expanding, future)
    requires Distinct(expanding + future + t.out[e])
    ensures Resting(Prune(t, e, Kept(k, e)), k, Depth(t, e), expanding, future + t.out[e][..Kept(k, e)])
  {
    var keep := Kept(k, e);
    var u, kept := Prune(t, e, keep), t.out[e][..keep];
    PruneMeans(t, bound, e, keep);
    PruneKeeps(t, bound, e, keep);
    PruneStays(t, e, keep, expanding, future);
    forall x | x in kept
      ensures x in u.out && x in t.out && Depth(t, x) == Depth(t, e) + 1
    {
      KeptLeaf(t, bound, e, keep, x);
    }
    AtDepthSame(t, u, bound, bound, expanding, Depth(t, e));
    AtDepthSame(t, u, bound, bound, future, Depth(t, e) + 1);
    AtDepthSame(t, u, bound, bound, kept, Depth(t, e) + 1);
    forall x | x in u.out && u.out[x] == []
      ensures x in expanding || x in future + kept
    {
      assert x != e && t.out[x] == [];
      if x in t.out[e] { SplitMember(t.out[e], keep, x); }
    }
  }

  lemma SplitMember(s: seq<nat>, keep: nat, x: nat)
    requires keep <= |s| && x in s
    ensures x in s[..keep] || x in s[keep..]
  {
    assert s == s[..keep] + s[keep..];
  }

  lemma KeptLeaf(t: Tree, bound: nat, e: nat, keep: nat, x: nat)
    requires Prunable(t, bound, e, keep) && x in t.out[e][..keep]
    ensures x in t.out && Depth(t, x) == Depth(t, e) + 1 && x in Prune(t, e, keep).out
  {
    PruneMeans(t, bound, e, keep);
    assert NodeOk(t, e);
    SplitDistinct(t.out[e], keep);
    assert x in Elements(t.out[e][..keep]);
    ChildDepth(t, bound, e, x);
  }

  /** Waiting leaves are not pruned. */
  lemma PruneStays(t: Tree, e: nat, keep: nat, expanding: seq<nat>, future: seq<nat>)
    requires e in t.out && keep <= |t.out[e]| && Distinct(expanding + future + t.out[e])
    requires forall x | x in expanding + future :: x in t.out
    ensures forall x | x in expanding || x in future :: x in t.out && x !in t.out[e][keep..]
  {
    var all := expanding + future + t.out[e];
    forall x | x in expanding || x in future
      ensures x in t.out && x !in t.out[e][keep..]
    {
      assert x in expanding + future;
      var i :| 0 <= i < |expanding + future| && (expanding + future)[i] == x;
      assert all[i] == x;
      assert forall j | 0 <= j < |t.out[e]| :: all[|expanding + future| + j] == t.out[e][j];
    }
  }

  lemma NextTaken(t: Tree, k: nat, d: nat, expanding0: seq<nat>, future0: seq<nat>,
                  next: nat, expanding: seq<nat>, future: seq<nat>)
    requires Resting(t, k, d, expanding0, future0)
    requires expanding0 != [] ==> expanding0 == expanding + [next] && future == future0
    requires expanding0 == [] ==> future0 == expanding + [next] && future == []
    ensures Taken(t, k, next, expanding, future)
  {
  }

  /** The new leaves hang on the node that sprouted. */
  lemma NewLeaf(t: Tree, u: Tree, x: nat, from: nat, to: nat, bound: nat, more: nat, y: nat)
    requires Rooted(t, bound) && Rooted(u, more) && x in t.out && t.out[x] == []
    requires Sprouted(t, u, x, from, to) && bound <= from <= y < to
    ensures y in u.out[x]
  {
    assert NodeOk(u, y);
    var p := u.parent[y];
    assert p in t.out ==> NodeOk(t, p);
  }

  lemma OldParents(t: Tree, u: Tree, x: nat, from: nat, to: nat, bound: nat, more: nat)
    requires Rooted(t, bound) && Rooted(u, more) && x in t.out && Sprouted(Promoted(t, x), u, x, from, to)
    ensures SameParents(t, u)
  {
    forall y | y in t.out && y in u.out
      ensures (y in t.parent <==> y in u.parent) && (y in t.parent && y in u.parent ==> t.parent[y] == u.parent[y])
    {
      assert NodeOk(t, y) && NodeOk(u, y);
    }
  }

  lemma SproutLevels(t: Tree, u: Tree, k: nat, x: nat, from: nat, to: nat, bound: nat, more: nat,
                     expanding: seq<nat>, future: seq<nat>)
    requires Rooted(t, bound) && Rooted(u, more) && Taken(t, k, x, expanding, future) && x in t.out && t.out[x] == []
    requires Sprouted(Promoted(t, x), u, x, from, to) && bound <= from < to
    ensures Levels(u, k, x, expanding, future)
  {
    OldParents(t, u, x, from, to, bound, more);
    DepthSame(t, u, bound, more, x);
    AtDepthSame(t, u, bound, more, expanding, Depth(t, x));
    AtDepthSame(t, u, bound, more, future, Depth(t, x) + 1);
    PromotedRooted(t, bound, x);
    forall y | y in u.out && u.out[y] == []
      ensures y in expanding || y in future || y in u.out[x]
    {
      if y !in t.out { NewLeaf(Promoted(t, x), u, x, from, to, bound, more, y); }
    }
  }

  method FirstTree(k: nat) returns (t: Tree)
    requires k >= 2
    ensures Growing(t, k, k, 0, []) && Size(t, k) == 2 * k && Degree(t, 0) == k
    ensures t.out.Keys == {0} + Elements(t.out[0])
  {
    var root := Tree(map[0 := []], map[], map[0 := Root]);
    RootAlone(root, k);
    var free;
    t, free := Sprout(root, 0, k, 1, k);
    FirstTreeGrows(root, t, k);
    FirstLeaves(root, t, k);
  }

  lemma RootAlone(root: Tree, k: nat)
    requires root == Tree(map[0 := []], map[], map[0 := Root])
    ensures Rooted(root, 1) && Size(root, k) == 1
  {
    assert NodeOk(root, 0);
    assert Leaves(root) == {0} && Cores(root) == {};
  }

  lemma FirstTreeGrows(root: Tree, t: Tree, k: nat)
    requires root == Tree(map[0 := []], map[], map[0 := Root]) && k >= 2
    requires Rooted(t, k + 1) && Sprouted(root, t, 0, 1, k + 1)
    ensures Growing(t, k, k, 0, []) && Degree(t, 0) == k
  {
    assert t.kind.Keys == t.out.Keys;
  }

  lemma FirstLeaves(root: Tree, t: Tree, k: nat)
    requires Rooted(root, 1) && Rooted(t, k + 1) && root.out == map[0 := []] && Sprouted(root, t, 0, 1, k + 1)
    ensures t.out.Keys == {0} + Elements(t.out[0])
  {
    forall y | y in t.out && y != 0
      ensures y in t.out[0]
    {
      NewLeaf(root, t, 0, 1, k + 1, 1, k + 1, y);
    }
  }

  /** Picks the next node to expand: the last of this level, or of the next level
      when this one is used up. */
  method NextToExpand(expanding0: seq<nat>, future0: seq<nat>)
    returns (next: nat, expanding: seq<nat>, future: seq<nat>, ghost i: nat)
    requires expanding0 + future0 != []
    ensures expanding0 != [] ==> expanding0 == expanding + [next] && future == future0
    ensures expanding0 == [] ==> future0 == expanding + [next] && future == []
    ensures i < |expanding0 + future0| && next == (expanding0 + future0)[i]
    ensures expanding + future == Without(expanding0 + future0, i)
  {
    expanding, future := expanding0, future0;
    if |expanding| == 0 {
      assert expanding + future == future;
      expanding, future := future, [];
      assert expanding == expanding0 + future0;
    }
    var last := |expanding| - 1;
    i := last;
    next := expanding[last];
    ghost var queue := expanding + future;
    assert queue == expanding0 + future0;
    expanding := expanding[..last];
    assert Without(queue, i) == expanding + future;
  }

  /** What pruning leaves: a tree at rest, and a longer queue. */
  ghost predicate PrunedAt(t: Tree, k: nat, free: nat, e: nat, d: nat, expanding: seq<nat>, future: seq<nat>) {
    Pruned(t, k, free, e, expanding + future) && Resting(t, k, d, expanding, future) && expanding + future != []
  }

  lemma PruneGrowth(t: Tree, k: nat, free: nat, e: nat, expanding: seq<nat>, future: seq<nat>)
    requires Growth(t, k, free, e, expanding, future) && Degree(t, e) >= 3 * k - 3 && k >= 2
    ensures Kept(k, e) <= |t.out[e]|
    ensures PrunedAt(Prune(t, e, Kept(k, e)), k, free, e, Depth(t, e), expanding, future + t.out[e][..Kept(k, e)])
    ensures Size(Prune(t, e, Kept(k, e)), k) == Size(t, k) - (2 * k - 3)
  {
    PruneGrowing(t, k, free, e, expanding + future);
    GrowingResting(t, k, free, e, expanding, future);
    LongerQueue(expanding, future, t.out[e][..Kept(k, e)]);
  }

  lemma LongerQueue(expanding: seq<nat>, future: seq<nat>, kept: seq<nat>)
    ensures expanding + (future + kept) == expanding + future + kept
    ensures kept != [] ==> expanding + (future + kept) != []
  {
  }

  lemma GrowingResting(t: Tree, k: nat, free: nat, e: nat, expanding: seq<nat>, future: seq<nat>)
    requires Growing(t, k, free, e, expanding + future) && Degree(t, e) >= 3 * k - 3 && k >= 2
    requires Levels(t, k, e, expanding, future)
    ensures Kept(k, e) <= |t.out[e]|
    ensures Resting(Prune(t, e, Kept(k, e)), k, Depth(t, e), expanding, future + t.out[e][..Kept(k, e)])
  {
    assert NodeOk(t, e);
    forall x | x in expanding + future
      ensures x !in t.out[e]
    {
    }
    ConcatDistinct(expanding + future, t.out[e]);
    PruneResting(t, k, free + 1, e, expanding, future);
  }

  /** One iteration that prunes the node expanded so far and sprouts the next. */
  method Expand(t0: Tree, k: nat, free0: nat, e: nat, expanding0: seq<nat>, future0: seq<nat>, rootExpansion: bool)
    returns (t: Tree, free: nat, next: nat, expanding: seq<nat>, future: seq<nat>)
    requires k >= 2 && Growth(t0, k, free0, e, expanding0, future0) && Degree(t0, e) >= 3 * k - 3
    requires rootExpansion <==> e != 0
    ensures Growth(t, k, free, next, expanding, future) && next != 0
    ensures Size(t, k) == Size(t0, k) + 1
  {
    PruneGrowth(t0, k, free0, e, expanding0, future0);
    var keep := if rootExpansion then k - 1 else k;
    var longer := future0 + t0.out[e][..keep];
    t := Prune(t0, e, keep);
    t, free, next, expanding, future := ExpandNext(t, k, free0, e, Depth(t0, e), expanding0, longer);
  }

  /** Takes the next node from the queue and lets it sprout. */
  method ExpandNext(t0: Tree, k: nat, free0: nat, ghost e: nat, ghost d: nat, expanding0: seq<nat>, future0: seq<nat>)
    returns (t: Tree, free: nat, next: nat, expanding: seq<nat>, future: seq<nat>)
    requires k >= 2 && PrunedAt(t0, k, free0, e, d, expanding0, future0)
    ensures Growth(t, k, free, next, expanding, future) && next != 0
    ensures Size(t, k) == Size(t0, k) + 2 * k - 2
  {
    ghost var i;
    next, expanding, future, i := NextToExpand(expanding0, future0);
    NextTaken(t0, k, d, expanding0, future0, next, expanding, future);
    t, free := SproutNext(t0, k, free0, e, expanding0 + future0, next, i);
  }

  /** All inner nodes but one have exactly `k` tree neighbours, that one has at most `3k - 3`,
      and any two leaves are at depths that differ by at most one. */
  ghost predicate Grown(t: Tree, k: nat) {
    && (exists e :: e in t.out && t.out[e] != [] && Degree(t, e) <= 3 * k - 3 && RegularBut(t, k, e))
    && forall x, y | x in t.out && y in t.out && t.out[x] == [] && t.out[y] == [] :: Depth(t, x) <= Depth(t, y) + 1
  }

  ghost predicate RegularBut(t: Tree, k: nat, e: nat) {
    forall x | x in t.out && t.out[x] != [] && x != e :: Degree(t, x) == k
  }

  /** The state of the growth loop. */
  ghost predicate Growth(t: Tree, k: nat, free: nat, e: nat, expanding: seq<nat>, future: seq<nat>) {
    Growing(t, k, free, e, expanding + future) && Levels(t, k, e, expanding, future)
  }

  lemma FirstGrowth(t: Tree, k: nat, free: nat)
    requires Growing(t, k, k, 0, []) && Degree(t, 0) == k && free >= k && t.out.Keys == {0} + Elements(t.out[0])
    ensures Growth(t, k, free, 0, [], [])
  {
    RootedMonotone(t, k + 1, free + 1);
    var none: seq<nat> := [];
    assert none + none == none;
  }

  lemma LeafGrowth(t: Tree, k: nat, free: nat, e: nat, expanding: seq<nat>, future: seq<nat>)
    requires Growth(t, k, free, e, expanding, future) && Degree(t, e) < 3 * k - 3 && k >= 2
    ensures Growth(AddLeaf(t, e, free + 1), k, free + 1, e, expanding, future)
    ensures Size(AddLeaf(t, e, free + 1), k) == Size(t, k) + 1
  {
    AddLeafLevels(t, k, free + 1, e, free + 1, expanding, future);
    AddLeafGrowing(t, k, free, e, expanding + future);
  }

  lemma GrowthIsGrown(t: Tree, k: nat, free: nat, e: nat, expanding: seq<nat>, future: seq<nat>)
    requires Growth(t, k, free, e, expanding, future) && k >= 2
    ensures Rooted(t, free + 1) && Branching(t, k) && Grown(t, k)
  {
    LevelsAreGrown(t, k, free, e, expanding, future);
  }

  lemma LevelsAreGrown(t: Tree, k: nat, free: nat, e: nat, expanding: seq<nat>, future: seq<nat>)
    requires Growing(t, k, free, e, expanding + future) && Levels(t, k, e, expanding, future) && k >= 2
    ensures Grown(t, k)
  {
    forall x | x in t.out && t.out[x] == []
      ensures Depth(t, e) <= Depth(t, x) <= Depth(t, e) + 1
    {
      if x in t.out[e] { ChildDepth(t, free + 1, e, x); }
    }
    forall x | x in t.out && t.out[x] != [] && x != e
      ensures Degree(t, x) == k
    {
      assert NodeOk(t, x);
    }
    assert RegularBut(t, k, e);
  }

  /** One iteration adds exactly one node to the final graph: a leaf, or else pruning and sprouting. */
  method GrowOnce(t0: Tree, k: nat, free0: nat, e0: nat, expanding0: seq<nat>, future0: seq<nat>, rootExpansion0: bool)
    returns (t: Tree, free: nat, e: nat, expanding: seq<nat>, future: seq<nat>, rootExpansion: bool)
    requires k >= 2 && Growth(t0, k, free0, e0, expanding0, future0) && (rootExpansion0 <==> e0 != 0)
    ensures Growth(t, k, free, e, expanding, future) && (rootExpansion <==> e != 0)
    ensures Size(t, k) == Size(t0, k) + 1
  {
    if Degree(t0, e0) < 3 * k - 3 {
      LeafGrowth(t0, k, free0, e0, expanding0, future0);
      free := free0 + 1;
      t := AddLeaf(t0, e0, free);
      e, expanding, future, rootExpansion := e0, expanding0, future0, rootExpansion0;
    } else {
      t, free, e, expanding, future := Expand(t0, k, free0, e0, expanding0, future0, rootExpansion0);
      rootExpansion := true;
    }
  }

  /** The growth loop: labels never repeat, and there is always a leaf left to expand. */
  method GrowTree(n: nat, k: nat) returns (t: Tree, free: nat)
    requires 2 <= k && 2 * k <= n
    ensures Rooted(t, free + 1) && Branching(t, k) && Size(t, k) == n && Grown(t, k)
  {
    t := FirstTree(k);
    free := 2 * k;
    FirstGrowth(t, k, free);
    var expandingNodes: seq<nat>, futureNodes: seq<nat> := [], [];
    var e, rootExpansion := 0, false;
    for iteration := 2 * k to n
      invariant Size(t, k) == iteration && Growth(t, k, free, e, expandingNodes, futureNodes)
      invariant rootExpansion <==> e != 0
    {
      t, free, e, expandingNodes, futureNodes, rootExpansion :=
        GrowOnce(t, k, free, e, expandingNodes, futureNodes, rootExpansion);
    }
    GrowthIsGrown(t, k, free, e, expandingNodes, futureNodes);
  }

  /** The growth loop for `k = 1`: no node is ever below the degree limit, the root's only leaf
      is expanded without a leaf to sprout, and then nothing is left to expand. */
  method GrowSingle(n: nat) returns (t: Option<Tree>)
    requires n >= 2
    ensures t.None? <==> n >= 4
    ensures t.Some? ==> t.value.out == map[0 := [1], 1 := []]
  {
    var tree := Tree(map[0 := [1], 1 := []], map[1 := 0], map[0 := Root, 1 := Shared]);
    var queue: seq<nat>, e, rootExpansion := [], 0, false;
    for iteration := 2 to n
      invariant iteration <= 3 && tree.out == map[0 := [1], 1 := []] && queue == []
      invariant if iteration == 2 then e == 0 && !rootExpansion else e == 1 && rootExpansion
    {
      var leaves := tree.out[e];
      queue := queue + leaves[..if rootExpansion then 0 else 1];
      rootExpansion := true;
      if queue == [] {
        return None;
      }
      e := queue[|queue| - 1];
      queue := queue[..|queue| - 1];
      tree := Promoted(tree, e);
    }
    t := Some(tree);
  }
}
