/**
  Menger's theorem for sets of nodes: if no fewer than `k` nodes meet all walks from `a` to `b`,
  then there are `k` such walks without a common node. The proof removes one edge at a time.
 */
module Menger {

  type Edges<T(==)> = set<(T, T)>

  ghost predicate Walk<T>(edges: Edges<T>, p: seq<T>) {
    p != [] && forall i | 0 <= i < |p| - 1 :: Step(edges, p, i)
  }

  ghost predicate Step<T>(edges: Edges<T>, p: seq<T>, i: int)
    requires 0 <= i < |p| - 1
  {
    (p[i], p[i + 1]) in edges
  }

  /** `p` walks from a node of `a` to a node of `b`. */
  ghost predicate Leads<T>(edges: Edges<T>, p: seq<T>, a: set<T>, b: set<T>) {
    Walk(edges, p) && p[0] in a && p[|p| - 1] in b
  }

  ghost predicate Meets<T>(p: seq<T>, s: set<T>) {
    exists i :: 0 <= i < |p| && p[i] in s
  }

  ghost predicate Separates<T(!new)>(edges: Edges<T>, a: set<T>, b: set<T>, s: set<T>) {
    forall p: seq<T> | Leads(edges, p, a, b) :: Meets(p, s)
  }

  /** It takes at least `k` nodes to separate `a` from `b`. */
  ghost predicate Tough<T(!new)>(edges: Edges<T>, a: set<T>, b: set<T>, k: nat) {
    forall s: set<T> | Separates(edges, a, b, s) :: |s| >= k
  }

  ghost predicate Distant<T>(p: seq<T>, q: seq<T>) {
    forall z | z in p :: z !in q
  }

  /** Walks from `a` to `b` without common nodes. */
  ghost predicate Linkage<T>(edges: Edges<T>, a: set<T>, b: set<T>, paths: seq<seq<T>>) {
    && (forall i | 0 <= i < |paths| :: Leads(edges, paths[i], a, b))
    && (forall i, j | 0 <= i < j < |paths| :: Distant(paths[i], paths[j]))
  }

  // ---- Walks ----

  lemma WalkMore<T>(edges: Edges<T>, more: Edges<T>, p: seq<T>)
    requires Walk(edges, p) && edges <= more
    ensures Walk(more, p)
  {
    forall i | 0 <= i < |p| - 1
      ensures Step(more, p, i)
    {
      assert Step(edges, p, i);
    }
  }

  lemma WalkPart<T>(edges: Edges<T>, p: seq<T>, i: nat, j: nat)
    requires Walk(edges, p) && i < j <= |p|
    ensures Walk(edges, p[i..j])
  {
    forall k | 0 <= k < |p[i..j]| - 1
      ensures Step(edges, p[i..j], k)
    {
      assert Step(edges, p, i + k);
    }
  }

  /** Two walks, the second of which goes on where the first ends. */
  lemma WalkOn<T>(edges: Edges<T>, p: seq<T>, q: seq<T>)
    requires Walk(edges, p) && Walk(edges, q) && p[|p| - 1] == q[0]
    ensures Walk(edges, p + q[1..])
  {
    var r := p + q[1..];
    forall k | 0 <= k < |r| - 1
      ensures Step(edges, r, k)
    {
      if k < |p| - 1 { assert Step(edges, p, k); } else { assert Step(edges, q, k - (|p| - 1)); }
    }
  }

  /** Two walks joined by an edge. */
  lemma WalkOver<T>(edges: Edges<T>, p: seq<T>, q: seq<T>)
    requires Walk(edges, p) && Walk(edges, q) && (p[|p| - 1], q[0]) in edges
    ensures Walk(edges, p + q)
  {
    var r := p + q;
    forall k | 0 <= k < |r| - 1
      ensures Step(edges, r, k)
    {
      if k < |p| - 1 { assert Step(edges, p, k); } else if k >= |p| { assert Step(edges, q, k - |p|); }
    }
  }

  /** The first position at which a walk meets a set. */
  ghost function FirstIn<T(!new)>(p: seq<T>, s: set<T>): (i: nat)
    requires Meets(p, s)
    ensures i < |p| && p[i] in s && forall j | 0 <= j < i :: p[j] !in s
  {
    if p[0] in s then 0
    else
      assert Meets(p[1..], s) by {
        var k :| 0 <= k < |p| && p[k] in s;
        assert p[1..][k - 1] in s;
      }
      FirstIn(p[1..], s) + 1
  }

  ghost function LastIn<T(!new)>(p: seq<T>, s: set<T>): (i: nat)
    requires Meets(p, s)
    ensures i < |p| && p[i] in s && forall j | i < j < |p| :: p[j] !in s
  {
    var last := |p| - 1;
    if p[last] in s then last
    else
      assert Meets(p[..last], s) by {
        var k :| 0 <= k < |p| && p[k] in s;
        assert p[..last][k] in s;
      }
      LastIn(p[..last], s)
  }

  // ---- Removing an edge ----

  /** Without the edge `(x, y)` the walk is still one if it does not take it. */
  lemma WalkWithout<T>(edges: Edges<T>, p: seq<T>, x: T, y: T)
    requires Walk(edges, p) && forall i | 0 <= i < |p| - 1 :: !(p[i] == x && p[i + 1] == y)
    ensures Walk(edges - {(x, y)}, p)
  {
    forall i | 0 <= i < |p| - 1
      ensures Step(edges - {(x, y)}, p, i)
    {
      assert Step(edges, p, i);
    }
  }

  /** With an end of the edge, a separator of what is left separates the whole. */
  lemma EndSeparates<T(!new)>(edges: Edges<T>, a: set<T>, b: set<T>, s: set<T>, x: T, y: T, z: T)
    requires Separates(edges - {(x, y)}, a, b, s) && (z == x || z == y)
    ensures Separates(edges, a, b, s + {z})
  {
    forall p: seq<T> | Leads(edges, p, a, b)
      ensures Meets(p, s + {z})
    {
      if i :| 0 <= i < |p| - 1 && p[i] == x && p[i + 1] == y {
        assert p[if z == x then i else i + 1] in s + {z};
      } else {
        WalkWithout(edges, p, x, y);
        assert Leads(edges - {(x, y)}, p, a, b);
        var i :| 0 <= i < |p| && p[i] in s;
        assert p[i] in s + {z};
      }
    }
  }

  /** What separates `a` from `s + {x}` after the removal separates `a` from `b` before. */
  lemma NearSideTough<T(!new)>(edges: Edges<T>, a: set<T>, b: set<T>, s: set<T>, x: T, y: T, k: nat)
    requires Tough(edges, a, b, k) && Separates(edges - {(x, y)}, a, b, s)
    ensures Tough(edges - {(x, y)}, a, s + {x}, k)
  {
    EndSeparates(edges, a, b, s, x, y, x);
    forall t: set<T> | Separates(edges - {(x, y)}, a, s + {x}, t)
      ensures |t| >= k
    {
      forall p: seq<T> | Leads(edges, p, a, b)
        ensures Meets(p, t)
      {
        var i := FirstIn(p, s + {x});
        var q := p[..i + 1];
        WalkPart(edges, p, 0, i + 1);
        WalkWithout(edges, q, x, y);
        assert Leads(edges - {(x, y)}, q, a, s + {x});
        var j :| 0 <= j < |q| && q[j] in t;
        assert p[j] in t;
      }
      assert Separates(edges, a, b, t);
    }
  }

  lemma FarSideTough<T(!new)>(edges: Edges<T>, a: set<T>, b: set<T>, s: set<T>, x: T, y: T, k: nat)
    requires Tough(edges, a, b, k) && Separates(edges - {(x, y)}, a, b, s)
    ensures Tough(edges - {(x, y)}, s + {y}, b, k)
  {
    EndSeparates(edges, a, b, s, x, y, y);
    forall t: set<T> | Separates(edges - {(x, y)}, s + {y}, b, t)
      ensures |t| >= k
    {
      forall p: seq<T> | Leads(edges, p, a, b)
        ensures Meets(p, t)
      {
        var i := LastIn(p, s + {y});
        var q := p[i..];
        WalkPart(edges, p, i, |p|);
        assert p[i..|p|] == q;
        WalkWithout(edges, q, x, y);
        assert Leads(edges - {(x, y)}, q, s + {y}, b);
        var j :| 0 <= j < |q| && q[j] in t;
        assert p[i + j] in t;
      }
      assert Separates(edges, a, b, t);
    }
  }

  // ---- Linkages that use up one side ----

  /** The last node of a walk, or the first. */
  ghost function Tip<T>(p: seq<T>, last: bool): T
    requires p != []
  {
    if last then p[|p| - 1] else p[0]
  }

  /** The walk is in `side` at its tip and nowhere else. */
  ghost predicate OnlyTip<T>(p: seq<T>, side: set<T>, last: bool) {
    forall i | 0 <= i < |p| :: p[i] in side ==> i == if last then |p| - 1 else 0
  }

  /** One walk from `a` to `b` per node of `side`, which has its tip there and is in `side` nowhere else. */
  ghost predicate OneEach<T(!new)>(edges: Edges<T>, a: set<T>, b: set<T>, side: set<T>, m: map<T, seq<T>>, last: bool) {
    && m.Keys == side
    && (forall z | z in m :: Leads(edges, m[z], a, b) && Tip(m[z], last) == z && OnlyTip(m[z], side, last))
    && (forall y, z | y in m && z in m && y != z :: Distant(m[y], m[z]))
  }

  /** The part of a walk from `a` to `b` up to where it first is in `b`, or from where it last is in `a`. */
  ghost function Trim<T(!new)>(p: seq<T>, a: set<T>, b: set<T>, last: bool): (q: seq<T>)
    requires p != [] && p[0] in a && p[|p| - 1] in b
  {
    assert Meets(p, a) && Meets(p, b);
    if last then p[..FirstIn(p, b) + 1] else p[LastIn(p, a)..]
  }

  lemma TrimLeads<T(!new)>(edges: Edges<T>, p: seq<T>, a: set<T>, b: set<T>, last: bool)
    requires Leads(edges, p, a, b)
    ensures var q := Trim(p, a, b, last);
            Leads(edges, q, a, b) && OnlyTip(q, if last then b else a, last) && forall z | z in q :: z in p
  {
    assert Meets(p, a) && Meets(p, b);
    if last {
      WalkPart(edges, p, 0, FirstIn(p, b) + 1);
      assert p[0..FirstIn(p, b) + 1] == Trim(p, a, b, last);
    } else {
      WalkPart(edges, p, LastIn(p, a), |p|);
      assert p[LastIn(p, a)..|p|] == Trim(p, a, b, last);
    }
  }

  lemma TrimAll<T(!new)>(edges: Edges<T>, a: set<T>, b: set<T>, paths: seq<seq<T>>, last: bool)
    returns (short: seq<seq<T>>)
    requires Linkage(edges, a, b, paths)
    ensures Linkage(edges, a, b, short) && |short| == |paths|
    ensures forall p | p in short :: OnlyTip(p, if last then b else a, last)
  {
    short := seq(|paths|, i requires 0 <= i < |paths| && Leads(edges, paths[i], a, b) => Trim(paths[i], a, b, last));
    forall i | 0 <= i < |paths|
      ensures Leads(edges, short[i], a, b) && OnlyTip(short[i], if last then b else a, last)
      ensures forall z | z in short[i] :: z in paths[i]
    {
      TrimLeads(edges, paths[i], a, b, last);
    }
    forall i, j | 0 <= i < j < |paths|
      ensures Distant(short[i], short[j])
    {
      assert Distant(paths[i], paths[j]);
    }
  }

  ghost predicate TipAt<T>(paths: seq<seq<T>>, z: T, last: bool) {
    exists i :: 0 <= i < |paths| && paths[i] != [] && Tip(paths[i], last) == z
  }

  ghost function WalkAt<T>(paths: seq<seq<T>>, z: T, last: bool): (p: seq<T>)
    requires TipAt(paths, z, last)
    ensures p in paths && p != [] && Tip(p, last) == z
  {
    var i :| 0 <= i < |paths| && paths[i] != [] && Tip(paths[i], last) == z;
    paths[i]
  }

  lemma {:induction false} DistinctTips<T>(tips: seq<T>) returns (all: set<T>)
    requires forall i, j | 0 <= i < j < |tips| :: tips[i] != tips[j]
    ensures |all| == |tips| && forall z :: z in all <==> z in tips
  {
    if tips == [] {
      all := {};
    } else {
      var k := |tips| - 1;
      var rest := DistinctTips(tips[..k]);
      assert tips == tips[..k] + [tips[k]];
      assert tips[k] !in rest;
      all := rest + {tips[k]};
    }
  }

  lemma FullSubset<T>(some: set<T>, all: set<T>)
    requires some <= all && |some| == |all|
    ensures some == all
  {
    assert |all - some| == |all| - |some|;
    assert all == some + (all - some);
  }

  /** As many walks as there are nodes on one side have a tip at each of them. */
  lemma EachTip<T(!new)>(edges: Edges<T>, a: set<T>, b: set<T>, paths: seq<seq<T>>, last: bool)
    returns (m: map<T, seq<T>>)
    requires Linkage(edges, a, b, paths) && |paths| == |if last then b else a|
    ensures OneEach(edges, a, b, if last then b else a, m, last)
  {
    var side := if last then b else a;
    var short := TrimAll(edges, a, b, paths, last);
    TipsCover(edges, a, b, short, last);
    m := map z | z in side && TipAt(short, z, last) :: WalkAt(short, z, last);
    TipsMakeOneEach(edges, a, b, short, side, m, last);
  }

  lemma TipsCover<T(!new)>(edges: Edges<T>, a: set<T>, b: set<T>, paths: seq<seq<T>>, last: bool)
    requires Linkage(edges, a, b, paths) && |paths| == |if last then b else a|
    ensures forall z | z in (if last then b else a) :: TipAt(paths, z, last)
  {
    var side := if last then b else a;
    var tips := seq(|paths|, i requires 0 <= i < |paths| && paths[i] != [] => Tip(paths[i], last));
    forall i, j | 0 <= i < j < |tips|
      ensures tips[i] != tips[j]
    {
      assert Distant(paths[i], paths[j]) && tips[i] in paths[i] && tips[j] in paths[j];
    }
    var all := DistinctTips(tips);
    forall z | z in all
      ensures z in side && TipAt(paths, z, last)
    {
      var i :| 0 <= i < |tips| && tips[i] == z;
      assert Tip(paths[i], last) == z;
    }
    FullSubset(all, side);
  }

  lemma TipsMakeOneEach<T(!new)>(edges: Edges<T>, a: set<T>, b: set<T>, paths: seq<seq<T>>, side: set<T>,
                                 m: map<T, seq<T>>, last: bool)
    requires Linkage(edges, a, b, paths) && m.Keys == side && forall p | p in paths :: OnlyTip(p, side, last)
    requires forall z | z in side :: m[z] in paths && m[z] != [] && Tip(m[z], last) == z
    ensures OneEach(edges, a, b, side, m, last)
  {
    forall y, z | y in m && z in m && y != z
      ensures Distant(m[y], m[z])
    {
      OtherPath(edges, a, b, paths, m[y], m[z]);
    }
  }

  /** Different walks of a linkage have no common node. */
  lemma OtherPath<T>(edges: Edges<T>, a: set<T>, b: set<T>, paths: seq<seq<T>>, p: seq<T>, q: seq<T>)
    requires Linkage(edges, a, b, paths) && p in paths && q in paths && p != q
    ensures Distant(p, q)
  {
    var i :| 0 <= i < |paths| && paths[i] == p;
    var j :| 0 <= j < |paths| && paths[j] == q;
    if j < i { assert Distant(paths[j], paths[i]); }
  }

  // ---- Joining both sides ----

  /** A separator `s` of what is left after the edge `(x, y)` is removed, and walks on either side of it. */
  ghost predicate Halves<T(!new)>(edges: Edges<T>, a: set<T>, b: set<T>, s: set<T>, x: T, y: T,
                                  near: map<T, seq<T>>, far: map<T, seq<T>>) {
    && (x, y) in edges && x !in s && y !in s && Separates(edges - {(x, y)}, a, b, s)
    && OneEach(edges - {(x, y)}, a, s + {x}, s + {x}, near, true)
    && OneEach(edges - {(x, y)}, s + {y}, b, s + {y}, far, false)
  }

  /** Along a near walk up to a common node, and along a far one from there on. */
  lemma WalkAcross<T(!new)>(edges: Edges<T>, a: set<T>, b: set<T>, s: set<T>, x: T, y: T,
                            near: map<T, seq<T>>, far: map<T, seq<T>>, u: T, v: T, i: nat, j: nat) returns (r: seq<T>)
    requires Halves(edges, a, b, s, x, y, near, far) && u in near && v in far
    requires i < |near[u]| && j < |far[v]| && near[u][i] == far[v][j]
    ensures Leads(edges - {(x, y)}, r, a, b) && |r| == i + |far[v]| - j
    ensures (forall k | 0 <= k <= i :: r[k] == near[u][k]) && (forall k | i < k < |r| :: r[k] == far[v][j + (k - i)])
  {
    var left := edges - {(x, y)};
    var p, q := near[u][..i + 1], far[v][j..];
    WalkPart(left, near[u], 0, i + 1);
    WalkPart(left, far[v], j, |far[v]|);
    assert near[u][0..i + 1] == p && far[v][j..|far[v]|] == q;
    WalkOn(left, p, q);
    r := p + q[1..];
    assert r[0] == p[0] && r[|r| - 1] == q[|q| - 1];
  }

  /** A near and a far walk meet only in the separator: otherwise they would go round it. */
  lemma HalvesMeetInS<T(!new)>(edges: Edges<T>, a: set<T>, b: set<T>, s: set<T>, x: T, y: T,
                               near: map<T, seq<T>>, far: map<T, seq<T>>, u: T, v: T, i: nat, j: nat)
    requires Halves(edges, a, b, s, x, y, near, far) && u in near && v in far
    requires i < |near[u]| && j < |far[v]| && near[u][i] == far[v][j]
    ensures u in s && v == u && i == |near[u]| - 1 && j == 0
  {
    var r := WalkAcross(edges, a, b, s, x, y, near, far, u, v, i, j);
    assert OnlyTip(near[u], s + {x}, true) && OnlyTip(far[v], s + {y}, false);
    var k :| 0 <= k < |r| && r[k] in s;
    assert k == i && near[u][i] in s + {x} && far[v][j] in s + {y};
  }

  /** The walk through `z`: over the edge for `x`, and otherwise through the node of the separator. */
  ghost function Joined<T>(x: T, y: T, near: map<T, seq<T>>, far: map<T, seq<T>>, z: T): seq<T>
    requires z in near && (z == x ==> y in far) && (z != x ==> z in far && far[z] != [])
  {
    if z == x then near[x] + far[y] else near[z] + far[z][1..]
  }

  ghost predicate From<T>(x: T, y: T, near: map<T, seq<T>>, far: map<T, seq<T>>, z: T, w: T)
  {
    z in near && (w in near[z] || (if z == x then y in far && w in far[y] else z in far && w in far[z]))
  }

  lemma JoinedLeads<T(!new)>(edges: Edges<T>, a: set<T>, b: set<T>, s: set<T>, x: T, y: T,
                             near: map<T, seq<T>>, far: map<T, seq<T>>, z: T)
    requires Halves(edges, a, b, s, x, y, near, far) && z in s + {x}
    ensures Leads(edges, Joined(x, y, near, far, z), a, b)
    ensures forall w | w in Joined(x, y, near, far, z) :: From(x, y, near, far, z, w)
  {
    var left := edges - {(x, y)};
    if z == x {
      assert Leads(left, near[x], a, s + {x}) && Leads(left, far[y], s + {y}, b);
      WalkMore(left, edges, near[x]);
      WalkMore(left, edges, far[y]);
      WalkOver(edges, near[x], far[y]);
    } else {
      assert Leads(left, near[z], a, s + {x}) && Leads(left, far[z], s + {y}, b);
      WalkMore(left, edges, near[z]);
      WalkMore(left, edges, far[z]);
      WalkOn(edges, near[z], far[z]);
    }
  }

  lemma JoinedDistant<T(!new)>(edges: Edges<T>, a: set<T>, b: set<T>, s: set<T>, x: T, y: T,
                               near: map<T, seq<T>>, far: map<T, seq<T>>, z: T, z': T, w: T)
    requires Halves(edges, a, b, s, x, y, near, far) && z in s + {x} && z' in s + {x} && z != z'
    ensures !(From(x, y, near, far, z, w) && From(x, y, near, far, z', w))
  {
    if From(x, y, near, far, z, w) && From(x, y, near, far, z', w) {
      var v, v' := if z == x then y else z, if z' == x then y else z';
      assert Distant(near[z], near[z']) && Distant(far[v], far[v']);
      if w in near[z] {
        MeetInS(edges, a, b, s, x, y, near, far, z, v', w);
      } else {
        MeetInS(edges, a, b, s, x, y, near, far, z', v, w);
      }
    }
  }

  lemma JoinedApart<T(!new)>(edges: Edges<T>, a: set<T>, b: set<T>, s: set<T>, x: T, y: T,
                             near: map<T, seq<T>>, far: map<T, seq<T>>, z: T, z': T)
    requires Halves(edges, a, b, s, x, y, near, far) && z in s + {x} && z' in s + {x} && z != z'
    ensures Distant(Joined(x, y, near, far, z), Joined(x, y, near, far, z'))
  {
    JoinedLeads(edges, a, b, s, x, y, near, far, z);
    JoinedLeads(edges, a, b, s, x, y, near, far, z');
    forall w | w in Joined(x, y, near, far, z)
      ensures w !in Joined(x, y, near, far, z')
    {
      JoinedDistant(edges, a, b, s, x, y, near, far, z, z', w);
    }
  }

  lemma MeetInS<T(!new)>(edges: Edges<T>, a: set<T>, b: set<T>, s: set<T>, x: T, y: T,
                         near: map<T, seq<T>>, far: map<T, seq<T>>, u: T, v: T, w: T)
    requires Halves(edges, a, b, s, x, y, near, far) && u in near && v in far && w in near[u] && w in far[v]
    ensures u in s && v == u
  {
    var i: nat :| i < |near[u]| && near[u][i] == w;
    var j: nat :| j < |far[v]| && far[v][j] == w;
    HalvesMeetInS(edges, a, b, s, x, y, near, far, u, v, i, j);
  }

  ghost predicate IsJoined<T(!new)>(x: T, y: T, near: map<T, seq<T>>, far: map<T, seq<T>>, some: set<T>, p: seq<T>) {
    exists z :: z in some && z in near && (z == x ==> y in far) && (z != x ==> z in far && far[z] != [])
                && p == Joined(x, y, near, far, z)
  }

  lemma NextJoined<T(!new)>(edges: Edges<T>, a: set<T>, b: set<T>, s: set<T>, x: T, y: T,
                            near: map<T, seq<T>>, far: map<T, seq<T>>, some: set<T>, rest: seq<seq<T>>, z: T)
    requires Halves(edges, a, b, s, x, y, near, far) && some <= s + {x} && z in some
    requires Linkage(edges, a, b, rest) && forall p | p in rest :: IsJoined(x, y, near, far, some - {z}, p)
    ensures var p := Joined(x, y, near, far, z);
            Linkage(edges, a, b, rest + [p]) && forall q | q in rest + [p] :: IsJoined(x, y, near, far, some, q)
  {
    var p := Joined(x, y, near, far, z);
    JoinedLeads(edges, a, b, s, x, y, near, far, z);
    forall q | q in rest
      ensures Distant(q, p)
    {
      var z' :| z' in some - {z} && z' in near && q == Joined(x, y, near, far, z');
      JoinedApart(edges, a, b, s, x, y, near, far, z', z);
    }
    LinkageMore(edges, a, b, rest, p);
  }

  /** The two halves make a linkage, one walk per node of the separator and the edge. */
  lemma {:induction false} JoinAll<T(!new)>(edges: Edges<T>, a: set<T>, b: set<T>, s: set<T>, x: T, y: T,
                                            near: map<T, seq<T>>, far: map<T, seq<T>>, some: set<T>)
    returns (paths: seq<seq<T>>)
    requires Halves(edges, a, b, s, x, y, near, far) && some <= s + {x}
    ensures Linkage(edges, a, b, paths) && |paths| == |some|
    ensures forall p | p in paths :: IsJoined(x, y, near, far, some, p)
    decreases |some|
  {
    if some == {} {
      paths := [];
    } else {
      var z :| z in some;
      var rest := JoinAll(edges, a, b, s, x, y, near, far, some - {z});
      NextJoined(edges, a, b, s, x, y, near, far, some, rest, z);
      paths := rest + [Joined(x, y, near, far, z)];
    }
  }

  lemma LinkageMore<T>(edges: Edges<T>, a: set<T>, b: set<T>, paths: seq<seq<T>>, p: seq<T>)
    requires Linkage(edges, a, b, paths) && Leads(edges, p, a, b) && forall q | q in paths :: Distant(q, p)
    ensures Linkage(edges, a, b, paths + [p])
  {
  }

  // ---- The theorem ----

  /** Without edges the common nodes are the walks. */
  lemma {:induction false} CommonNodes<T(!new)>(a: set<T>, b: set<T>, some: set<T>) returns (paths: seq<seq<T>>)
    requires some <= a * b
    ensures Linkage({}, a, b, paths) && |paths| == |some| && forall p | p in paths :: |p| == 1 && p[0] in some
    decreases |some|
  {
    if some == {} {
      paths := [];
    } else {
      var z :| z in some;
      var rest := CommonNodes(a, b, some - {z});
      LinkageMore({}, a, b, rest, [z]);
      paths := rest + [[z]];
    }
  }

  lemma CommonSeparates<T(!new)>(a: set<T>, b: set<T>)
    ensures Separates({}, a, b, a * b)
  {
    forall p: seq<T> | Leads({}, p, a, b)
      ensures Meets(p, a * b)
    {
      assert |p| > 1 ==> Step({}, p, 0);
      assert p[0] in a * b;
    }
  }

  lemma LinkageUnder<T(!new)>(edges: Edges<T>, more: Edges<T>, a: set<T>, b: set<T>, paths: seq<seq<T>>)
    requires Linkage(edges, a, b, paths) && edges <= more
    ensures Linkage(more, a, b, paths)
  {
    forall i | 0 <= i < |paths|
      ensures Leads(more, paths[i], a, b)
    {
      WalkMore(edges, more, paths[i]);
    }
  }

  lemma Fewer<T(!new)>(edges: Edges<T>, a: set<T>, b: set<T>, paths: seq<seq<T>>, k: nat)
    requires Linkage(edges, a, b, paths) && k <= |paths|
    ensures Linkage(edges, a, b, paths[..k])
  {
  }

  /** Menger's theorem. */
  lemma {:induction false} Menger<T(!new)>(edges: Edges<T>, a: set<T>, b: set<T>, k: nat) returns (paths: seq<seq<T>>)
    requires Tough(edges, a, b, k)
    ensures Linkage(edges, a, b, paths) && |paths| == k
    decreases |edges|, 1
  {
    if edges == {} {
      CommonSeparates(a, b);
      paths := CommonNodes(a, b, a * b);
      Fewer(edges, a, b, paths, k);
      paths := paths[..k];
    } else {
      var e :| e in edges;
      var (x, y) := e;
      var left := edges - {(x, y)};
      if Tough(left, a, b, k) {
        paths := Menger(left, a, b, k);
        LinkageUnder(left, edges, a, b, paths);
      } else {
        var s: set<T> :| Separates(left, a, b, s) && |s| < k;
        paths := AcrossSeparator(edges, a, b, k, x, y, s);
      }
    }
  }

  lemma {:induction false} AcrossSeparator<T(!new)>(edges: Edges<T>, a: set<T>, b: set<T>, k: nat, x: T, y: T,
                                             s: set<T>)
    returns (paths: seq<seq<T>>)
    requires Tough(edges, a, b, k) && (x, y) in edges && Separates(edges - {(x, y)}, a, b, s) && |s| < k
    ensures Linkage(edges, a, b, paths) && |paths| == k
    decreases |edges|, 0
  {
    var left := edges - {(x, y)};
    EndSeparates(edges, a, b, s, x, y, x);
    EndSeparates(edges, a, b, s, x, y, y);
    assert |s + {x}| >= k && |s + {y}| >= k;
    NearSideTough(edges, a, b, s, x, y, k);
    FarSideTough(edges, a, b, s, x, y, k);
    assert |left| < |edges|;
    var nearPaths := Menger(left, a, s + {x}, k);
    var farPaths := Menger(left, s + {y}, b, k);
    var near := EachTip(left, a, s + {x}, nearPaths, true);
    var far := EachTip(left, s + {y}, b, farPaths, false);
    paths := JoinAll(edges, a, b, s, x, y, near, far, s + {x});
  }

  // ---- Simple walks ----

  ghost predicate Simple<T>(p: seq<T>) {
    forall i, j | 0 <= i < j < |p| :: p[i] != p[j]
  }

  /** A walk can be shortened until it visits no node twice. */
  lemma {:induction false} Simplify<T(!new)>(edges: Edges<T>, p: seq<T>) returns (q: seq<T>)
    requires Walk(edges, p)
    ensures Walk(edges, q) && Simple(q) && q[0] == p[0] && q[|q| - 1] == p[|p| - 1] && forall z | z in q :: z in p
    decreases |p|
  {
    if i, j :| 0 <= i < j < |p| && p[i] == p[j] {
      WalkPart(edges, p, 0, i + 1);
      WalkPart(edges, p, j, |p|);
      WalkOn(edges, p[0..i + 1], p[j..|p|]);
      var r := p[0..i + 1] + p[j..|p|][1..];
      assert r[0] == p[0] && r[|r| - 1] == p[|p| - 1];
      q := Simplify(edges, r);
    } else {
      q := p;
    }
  }
}
