/**
  The capacities of the layered graph that recorded paths make, what the flow to an earlier layer
  leaves behind in the residual matrix, and what a large flow therefore proves.
 */
module LayeredGraph {
  import opened Blocks
  import opened Counting
  import opened MaxFlow

  type Edges = set<(nat, nat, nat)>

  /** Unit capacities along the recorded edges, over `n + 1` layers of `n` vertices. */
  ghost function PathMatrix(edges: Edges, n: nat): (c: Matrix)
    ensures Square(c, (n + 1) * n) && NonNegative(c)
  {
    seq((n + 1) * n, x requires 0 <= x < (n + 1) * n =>
      seq((n + 1) * n, y requires 0 <= y < (n + 1) * n => Capacity(edges, n, x, y)))
  }

  ghost function Capacity(edges: Edges, n: nat, x: nat, y: nat): (k: int)
    ensures k == 0 || k == 1
  {
    if Layer(n, y) == Layer(n, x) + 1 && (Layer(n, x), Place(n, x), Place(n, y)) in edges then 1 else 0
  }

  // ---- Cuts ----

  ghost predicate AllCutsAtLeast(c: Matrix, n: nat, s: nat, t: nat, k: int) {
    && Square(c, |c|) && n * n <= |c|
    && forall side: set<int> :: Separates(side, s, t) ==> Cut(c, side, n * n) >= k
  }

  lemma MinCutDecides(c: Matrix, n: nat, s: nat, t: nat, value: int, k: int)
    requires Square(c, |c|) && n * n <= |c| && MinCut(c, n * n, s, t, value)
    ensures value >= k <==> AllCutsAtLeast(c, n, s, t, k)
  {
    var side: set<int> :| Separates(side, s, t) && Cut(c, side, n * n) == value;
  }

  ghost predicate Crossing(c: Matrix, side: set<int>, m: nat, e: (nat, nat))
    requires Square(c, |c|) && m <= |c|
  {
    e.0 < m && e.1 < m && e.0 in side && e.1 !in side && c[e.0][e.1] >= 1
  }

  /** A cut is at least as large as the number of unit edges that cross it. */
  lemma {:induction false} CrossingsBound(c: Matrix, side: set<int>, m: nat, crossings: seq<(nat, nat)>)
    requires Square(c, |c|) && m <= |c| && NonNegative(c)
    requires forall i | 0 <= i < |crossings| :: Crossing(c, side, m, crossings[i])
    requires forall i, j | 0 <= i < j < |crossings| :: crossings[i] != crossings[j]
    ensures Cut(c, side, m) >= |crossings|
    decreases |crossings|
  {
    if crossings == [] {
      CutNonNegative(c, side, m);
    } else {
      var k := |crossings| - 1;
      var (u, v) := crossings[k];
      assert Crossing(c, side, m, crossings[k]);
      var less := c[u := c[u][v := c[u][v] - 1]];
      assert Bumped(less, c, u, v, 1);
      CutOfBumped(less, c, u, v, 1, side, m, m);
      forall i | 0 <= i < k
        ensures Crossing(less, side, m, crossings[i])
      {
        assert crossings[i] != crossings[k] && Crossing(c, side, m, crossings[i]);
      }
      CrossingsBound(less, side, m, crossings[..k]);
    }
  }

  // ---- Matrices ----

  /** The entry matrix of a layer holds this layer's capacities and, besides, only
      capacity that earlier layers left behind. */
  ghost predicate EntryMatrix(c: Matrix, edges: Edges, n: nat) {
    && Square(c, (n + 1) * n) && NonNegative(c)
    && forall x, y | 0 <= x < |c| && 0 <= y < |c| && Layer(n, y) == Layer(n, x) + 1 ::
         c[x][y] == Capacity(edges, n, x, y)
  }

  // ---- What earlier layers leave behind ----

  /** A walk along recorded edges leads from `s` to `v` in `d` hops. */
  ghost predicate Walked(edges: Edges, n: nat, s: nat, d: nat, v: nat)
    decreases d, 1
  {
    if d == 0 then v == s else exists u: nat :: WalkedOver(edges, n, s, d, u, v)
  }

  ghost predicate WalkedOver(edges: Edges, n: nat, s: nat, d: nat, u: nat, v: nat)
    requires d > 0
    decreases d, 0
  {
    u < n && Walked(edges, n, s, d - 1, u) && (d - 1, u, v) in edges
  }

  lemma WalkedMore(edges: Edges, n: nat, s: nat, d: nat, u: nat, v: nat)
    requires Walked(edges, n, s, d, u) && u < n && (d, u, v) in edges
    ensures Walked(edges, n, s, d + 1, v)
  {
    assert WalkedOver(edges, n, s, d + 1, u, v);
  }

  /** The vertices that such walks reach. */
  ghost function Reach(edges: Edges, n: nat, s: nat): (side: set<int>)
    ensures forall x: nat :: x in side <==> x < n * n && Walked(edges, n, s, Layer(n, x), Place(n, x))
    ensures forall x | x in side :: x >= 0
  {
    set x | x in UpTo(n * n) && Walked(edges, n, s, Layer(n, x), Place(n, x))
  }

  ghost predicate Forward(n: nat, x: nat, y: nat) {
    Layer(n, y) == Layer(n, x) + 1
  }

  /** A hop before layer `d`, taken back. */
  ghost predicate Backward(edges: Edges, n: nat, d: nat, x: nat, y: nat) {
    Forward(n, y, x) && Layer(n, x) < d && (Layer(n, y), Place(n, y), Place(n, x)) in edges
  }

  /** Capacity against the layers is left only by flows to earlier layers: over recorded hops before
      layer `d`, never out of what walks reach, and not at all if no walk leads to the target. */
  ghost predicate Behind(c: Matrix, edges: Edges, n: nat, s: nat, ot: nat, d: nat) {
    && Square(c, (n + 1) * n) && NonNegative(c)
    && forall x: nat, y: nat | x < n * n && y < n * n && InMatrix(c, x, y) && !Forward(n, x, y) && c[x][y] > 0 ::
         && Backward(edges, n, d, x, y) && (x in Reach(edges, n, s) ==> y in Reach(edges, n, s))
         && exists k: nat :: k < d && Walked(edges, n, s, k, ot)
  }

  ghost predicate InMatrix(c: Matrix, x: nat, y: nat) {
    x < |c| && y < |c[x]|
  }

  lemma NothingBehind(c: Matrix, edges: Edges, n: nat, s: nat, ot: nat)
    requires Square(c, (n + 1) * n) && forall x, y | 0 <= x < |c| && 0 <= y < |c| :: c[x][y] == 0
    ensures Behind(c, edges, n, s, ot, 0)
  {
  }

  /** Nothing leaves `side`. */
  ghost predicate NoneOut(c: Matrix, side: set<int>, m: nat) {
    Square(c, |c|) && m <= |c| && Cut(c, side, m) == 0
  }

  /** A single capacity is no more than a cut that it crosses. */
  lemma CellInCut(c: Matrix, side: set<int>, m: nat, x: nat, y: nat)
    requires NoneOut(c, side, m) && NonNegative(c) && x < m && y < m && x in side && y !in side
    ensures c[x][y] == 0
  {
    if c[x][y] > 0 {
      assert Crossing(c, side, m, (x, y));
      CrossingsBound(c, side, m, [(x, y)]);
    }
  }

  ghost predicate Entered(c: Matrix, edges: Edges, n: nat, s: nat, ot: nat, d: nat) {
    EntryMatrix(c, edges, n) && Behind(c, edges, n, s, ot, d) && s < n && ot < n && d < n
  }

  lemma Inside(c: Matrix, n: nat, x: nat, y: nat)
    requires Square(c, (n + 1) * n) && x < n * n && y < n * n
    ensures InMatrix(c, x, y) && n * n <= |c|
  {
    LayersGrow(n, n, n + 1);
  }

  /** No capacity leads out of what walks reach. */
  lemma ReachIsClosed(c: Matrix, edges: Edges, n: nat, s: nat, ot: nat, d: nat)
    requires Entered(c, edges, n, s, ot, d)
    ensures NoneOut(c, Reach(edges, n, s), n * n)
  {
    LayersGrow(n, n, n + 1);
    var side := Reach(edges, n, s);
    forall x, y | 0 <= x < n * n && 0 <= y < n * n && x in side && y !in side
      ensures c[x][y] <= 0
    {
      Inside(c, n, x, y);
      if Forward(n, x, y) { ForwardStaysInReach(edges, n, s, x, y); }
    }
    SaturatedCut(c, side, n * n);
  }

  lemma ForwardStaysInReach(edges: Edges, n: nat, s: nat, x: nat, y: nat)
    requires x in Reach(edges, n, s) && y < n * n && y !in Reach(edges, n, s) && Forward(n, x, y)
    ensures Capacity(edges, n, x, y) == 0
  {
    VertexInverse(n, x);
    if (Layer(n, x), Place(n, x), Place(n, y)) in edges {
      WalkedMore(edges, n, s, Layer(n, x), Place(n, x), Place(n, y));
    }
  }

  /** The vertices from layer `l` on. */
  ghost function From(n: nat, l: nat): (side: set<int>)
    ensures forall x: nat :: x in side <==> x < n * n && Layer(n, x) >= l
  {
    set x | x in UpTo(n * n) && Layer(n, x) >= l
  }

  /** No capacity leads back from layers where no flow has been yet. */
  lemma NothingBeyond(c: Matrix, edges: Edges, n: nat, s: nat, ot: nat, d: nat, l: nat)
    requires Entered(c, edges, n, s, ot, d) && l >= d
    ensures NoneOut(c, From(n, l), n * n)
  {
    LayersGrow(n, n, n + 1);
    var side := From(n, l);
    forall x, y | 0 <= x < n * n && 0 <= y < n * n && x in side && y !in side
      ensures c[x][y] <= 0
    {
      Inside(c, n, x, y);
    }
    SaturatedCut(c, side, n * n);
  }

  /** What is left after the flow to the target in layer `d`. */
  ghost predicate Residual(c: Matrix, r: Matrix, n: nat, s: nat, t: nat, value: int) {
    n * n <= |c| && Carried(c, r, n * n, s, t, value) && MinCut(c, n * n, s, t, value)
  }

  lemma TargetVertex(n: nat, d: nat, s: nat, ot: nat)
    requires s < n && ot < n && d < n
    ensures n * d + ot < n * n && Layer(n, n * d + ot) == d && Place(n, n * d + ot) == ot
    ensures s < n * n && Layer(n, s) == 0 && Place(n, s) == s
  {
    LayerIndex(n, d, ot);
    LayerIndex(n, 0, s);
    Vertex(n, d, ot);
    Vertex(n, 0, s);
    assert d * n + ot == n * d + ot;
  }

  /** The flow leaves what walks reach closed, and is none if they do not reach the target. */
  lemma ReachStaysClosed(c: Matrix, r: Matrix, edges: Edges, n: nat, s: nat, ot: nat, d: nat, value: int)
    requires Entered(c, edges, n, s, ot, d) && Residual(c, r, n, s, n * d + ot, value)
    ensures NoneOut(r, Reach(edges, n, s), n * n)
    ensures !Walked(edges, n, s, d, ot) ==> r == c
  {
    var side := Reach(edges, n, s);
    ReachIsClosed(c, edges, n, s, ot, d);
    TargetVertex(n, d, s, ot);
    assert s in side;
    if n * d + ot in side {
      assert value * (Side(side, s) - Side(side, n * d + ot)) == 0;
    } else {
      assert Separates(side, s, n * d + ot);
      assert value == 0;
    }
  }

  lemma BeyondStaysEmpty(c: Matrix, r: Matrix, edges: Edges, n: nat, s: nat, ot: nat, d: nat, value: int, l: nat)
    requires Entered(c, edges, n, s, ot, d) && Residual(c, r, n, s, n * d + ot, value) && l > d
    ensures NoneOut(r, From(n, l), n * n)
  {
    NothingBeyond(c, edges, n, s, ot, d, l);
    TargetVertex(n, d, s, ot);
    assert value * (Side(From(n, l), s) - Side(From(n, l), n * d + ot)) == 0;
  }

  /** Capacity against the layers comes from a recorded hop. */
  lemma LeftByHop(c: Matrix, r: Matrix, edges: Edges, n: nat, s: nat, ot: nat, d: nat, x: nat, y: nat)
    requires Entered(c, edges, n, s, ot, d) && n * n <= |c| && SamePairs(c, r) && NonNegative(r)
    requires x < n * n && y < n * n && InMatrix(r, x, y) && !Forward(n, x, y) && r[x][y] > 0
    ensures Forward(n, y, x) && (Layer(n, y), Place(n, y), Place(n, x)) in edges
  {
    Inside(c, n, x, y);
    Inside(c, n, y, x);
    assert c[x][y] + c[y][x] == r[x][y] + r[y][x] && r[y][x] >= 0;
  }

  lemma CellBehind(c: Matrix, r: Matrix, edges: Edges, n: nat, s: nat, ot: nat, d: nat, value: int, x: nat, y: nat)
    requires Entered(c, edges, n, s, ot, d) && Residual(c, r, n, s, n * d + ot, value)
    requires x < n * n && y < n * n && InMatrix(r, x, y) && !Forward(n, x, y) && r[x][y] > 0
    ensures Backward(edges, n, d + 1, x, y) && (x in Reach(edges, n, s) ==> y in Reach(edges, n, s))
    ensures exists k: nat :: k < d + 1 && Walked(edges, n, s, k, ot)
  {
    LeftByHop(c, r, edges, n, s, ot, d, x, y);
    ReachStaysClosed(c, r, edges, n, s, ot, d, value);
    if x in Reach(edges, n, s) && y !in Reach(edges, n, s) { CellInCut(r, Reach(edges, n, s), n * n, x, y); }
    if Layer(n, x) > d {
      BeyondStaysEmpty(c, r, edges, n, s, ot, d, value, Layer(n, x));
      CellInCut(r, From(n, Layer(n, x)), n * n, x, y);
    }
    if !Walked(edges, n, s, d, ot) {
      assert c[x][y] > 0;
      var k: nat :| k < d && Walked(edges, n, s, k, ot);
    }
  }

  /** So the residual matrix of one layer is as the next layer expects it. */
  lemma BehindNext(c: Matrix, r: Matrix, edges: Edges, n: nat, s: nat, ot: nat, d: nat, value: int)
    requires Entered(c, edges, n, s, ot, d) && Residual(c, r, n, s, n * d + ot, value)
    ensures Behind(r, edges, n, s, ot, d + 1)
  {
    forall x: nat, y: nat | x < n * n && y < n * n && InMatrix(r, x, y) && !Forward(n, x, y) && r[x][y] > 0
      ensures Backward(edges, n, d + 1, x, y) && (x in Reach(edges, n, s) ==> y in Reach(edges, n, s))
      ensures exists k: nat :: k < d + 1 && Walked(edges, n, s, k, ot)
    {
      CellBehind(c, r, edges, n, s, ot, d, value, x, y);
    }
  }

  // ---- What a large flow proves ----

  /** The recorded hops out of `s`, and those into the target before layer `d`. */
  ghost function Firsts(edges: Edges, n: nat, s: nat): (firsts: set<nat>)
    ensures forall j: nat :: j in firsts <==> j < n && (0, s, j) in edges
  {
    set j | j in Below(n) && (0, s, j) in edges
  }

  ghost function Lasts(edges: Edges, n: nat, ot: nat, d: nat): (lasts: set<nat>)
    requires d > 0
    ensures forall i: nat :: i in lasts <==> i < n && (d - 1, i, ot) in edges
  {
    set i | i in Below(n) && (d - 1, i, ot) in edges
  }

  /** Where row `x` has capacity, and where column `y` has. */
  ghost function PositiveIn(c: Matrix, x: nat, side: set<int>, k: nat): (some: set<nat>)
    ensures forall y: nat :: y in some <==> y < k && y !in side && InMatrix(c, x, y) && c[x][y] > 0
  {
    set y | y in Below(k) && y !in side && InMatrix(c, x, y) && c[x][y] > 0
  }

  ghost function PositiveTo(c: Matrix, y: nat, k: nat): (some: set<nat>)
    ensures forall x: nat :: x in some <==> x < k && x != y && InMatrix(c, x, y) && c[x][y] > 0
  {
    set x | x in Below(k) && x != y && InMatrix(c, x, y) && c[x][y] > 0
  }

  ghost predicate Unit(c: Matrix, x: nat, y: nat) {
    InMatrix(c, x, y) ==> c[x][y] <= 1
  }

  ghost predicate UnitRow(c: Matrix, side: set<int>, x: nat, m: nat) {
    forall y: nat | y < m && y !in side :: Unit(c, x, y)
  }

  ghost predicate UnitColumn(c: Matrix, y: nat, m: nat) {
    forall x: nat | x < m && x != y :: Unit(c, x, y)
  }

  lemma {:induction false} RowCount(c: Matrix, side: set<int>, x: nat, k: nat)
    requires Square(c, |c|) && k <= |c| && x < |c| && UnitRow(c, side, x, k)
    ensures RowOut(c, side, x, k) <= |PositiveIn(c, x, side, k)|
  {
    if k > 0 {
      var last: nat := k - 1;
      RowCount(c, side, x, last);
      assert last !in side ==> Unit(c, x, last);
      RowStep(c, side, x, last);
    }
  }

  lemma RowStep(c: Matrix, side: set<int>, x: nat, k: nat)
    requires Square(c, |c|) && k < |c| && x < |c| && (k !in side ==> Unit(c, x, k))
    ensures RowOut(c, side, x, k + 1) <= RowOut(c, side, x, k) + if k !in side && c[x][k] > 0 then 1 else 0
    ensures |PositiveIn(c, x, side, k + 1)| == |PositiveIn(c, x, side, k)| + if k !in side && c[x][k] > 0 then 1 else 0
  {
    PositiveInNext(c, x, side, k);
  }

  lemma PositiveInNext(c: Matrix, x: nat, side: set<int>, k: nat)
    requires InMatrix(c, x, k)
    ensures |PositiveIn(c, x, side, k + 1)| == |PositiveIn(c, x, side, k)| + if k !in side && c[x][k] > 0 then 1 else 0
  {
    if k !in side && c[x][k] > 0 {
      assert PositiveIn(c, x, side, k + 1) == PositiveIn(c, x, side, k) + {k};
    } else {
      assert PositiveIn(c, x, side, k + 1) == PositiveIn(c, x, side, k);
    }
  }

  lemma {:induction false} OneRow(c: Matrix, s: nat, rows: nat, m: nat)
    requires Square(c, |c|) && rows <= |c| && m <= |c|
    ensures CutOf(c, {s as int}, rows, m) == if s < rows then RowOut(c, {s as int}, s, m) else 0
  {
    if rows > 0 { OneRow(c, s, rows - 1, m); }
  }

  /** All vertices but `t`. */
  ghost function AllBut(m: nat, t: nat): set<int> {
    UpTo(m) - {t as int}
  }

  lemma {:induction false} OneCell(c: Matrix, m: nat, t: nat, x: nat, k: nat)
    requires Square(c, |c|) && k <= m <= |c| && x < |c|
    ensures RowOut(c, AllBut(m, t), x, k) == if t < k then c[x][t] else 0
  {
    if k > 0 { OneCell(c, m, t, x, k - 1); }
  }

  /** The cut around `t`, counted over the first rows. */
  ghost function CutAround(c: Matrix, m: nat, t: nat, rows: nat): int
    requires Square(c, |c|) && rows <= |c| && m <= |c|
  {
    CutOf(c, AllBut(m, t), rows, m)
  }

  lemma {:induction false} ColumnCount(c: Matrix, m: nat, t: nat, rows: nat)
    requires Square(c, |c|) && rows <= m <= |c| && t < m && UnitColumn(c, t, rows)
    ensures CutAround(c, m, t, rows) <= |PositiveTo(c, t, rows)|
  {
    if rows > 0 {
      var k: nat := rows - 1;
      ColumnCount(c, m, t, k);
      assert k != t ==> Unit(c, k, t);
      ColumnStep(c, m, t, k);
    }
  }

  lemma ColumnStep(c: Matrix, m: nat, t: nat, k: nat)
    requires Square(c, |c|) && k < m <= |c| && t < m && (k != t ==> Unit(c, k, t))
    ensures CutAround(c, m, t, k + 1) <= CutAround(c, m, t, k) + if k != t && c[k][t] > 0 then 1 else 0
    ensures |PositiveTo(c, t, k + 1)| == |PositiveTo(c, t, k)| + if k != t && c[k][t] > 0 then 1 else 0
  {
    OneCell(c, m, t, k, m);
    PositiveToNext(c, t, k);
  }

  lemma PositiveToNext(c: Matrix, y: nat, k: nat)
    requires InMatrix(c, k, y)
    ensures |PositiveTo(c, y, k + 1)| == |PositiveTo(c, y, k)| + if k != y && c[k][y] > 0 then 1 else 0
  {
    if k != y && c[k][y] > 0 {
      assert PositiveTo(c, y, k + 1) == PositiveTo(c, y, k) + {k};
    } else {
      assert PositiveTo(c, y, k + 1) == PositiveTo(c, y, k);
    }
  }

  lemma PlacesDiffer(n: nat, some: set<nat>, d: nat, places: set<nat>)
    requires n > 0 && forall x | x in some :: Layer(n, x) == d && Place(n, x) in places
    ensures |some| <= |places|
  {
    var pick := map x | x in some :: Place(n, x);
    forall x, y | x in pick && y in pick && x != y
      ensures pick[x] != pick[y]
    {
      VertexInverse(n, x);
      VertexInverse(n, y);
    }
    Pigeonhole(pick, places);
    assert pick.Keys == some && |pick| == |pick.Keys|;
  }

  /** Nothing but recorded hops leaves the source. */
  lemma SourceCut(c: Matrix, edges: Edges, n: nat, s: nat, ot: nat, d: nat)
    requires Entered(c, edges, n, s, ot, d)
    ensures n * n <= |c| && Cut(c, {s as int}, n * n) <= |Firsts(edges, n, s)|
  {
    LayersGrow(n, n, n + 1);
    TargetVertex(n, d, s, ot);
    forall y: nat | y < n * n && y != s
      ensures Unit(c, s, y)
      ensures InMatrix(c, s, y) && c[s][y] > 0 ==> Layer(n, y) == 1 && Place(n, y) in Firsts(edges, n, s)
    {
      Inside(c, n, s, y);
      OutOfSource(c, edges, n, s, ot, d, y);
    }
    OneRow(c, s, n * n, n * n);
    RowCount(c, {s as int}, s, n * n);
    PlacesDiffer(n, PositiveIn(c, s, {s as int}, n * n), 1, Firsts(edges, n, s));
  }

  lemma OutOfSource(c: Matrix, edges: Edges, n: nat, s: nat, ot: nat, d: nat, y: nat)
    requires Entered(c, edges, n, s, ot, d) && y < n * n && s < |c| && y < |c[s]| && y != s
    ensures c[s][y] <= 1 && (c[s][y] > 0 ==> Layer(n, y) == 1 && Place(n, y) in Firsts(edges, n, s))
  {
    TargetVertex(n, d, s, ot);
    Inside(c, n, s, y);
    VertexInverse(n, y);
  }

  /** Nothing but recorded hops enters the target. */
  lemma TargetCut(c: Matrix, edges: Edges, n: nat, s: nat, ot: nat, d: nat)
    requires Entered(c, edges, n, s, ot, d) && d > 0
    ensures n * n <= |c| && Cut(c, AllBut(n * n, n * d + ot), n * n) <= |Lasts(edges, n, ot, d)|
  {
    LayersGrow(n, n, n + 1);
    TargetVertex(n, d, s, ot);
    var t := n * d + ot;
    forall x: nat | x < n * n && x != t
      ensures Unit(c, x, t)
      ensures InMatrix(c, x, t) && c[x][t] > 0 ==> Layer(n, x) == d - 1 && Place(n, x) in Lasts(edges, n, ot, d)
    {
      Inside(c, n, x, t);
      IntoTarget(c, edges, n, s, ot, d, x);
    }
    ColumnCount(c, n * n, t, n * n);
    PlacesDiffer(n, PositiveTo(c, t, n * n), d - 1, Lasts(edges, n, ot, d));
  }

  lemma IntoTarget(c: Matrix, edges: Edges, n: nat, s: nat, ot: nat, d: nat, x: nat)
    requires Entered(c, edges, n, s, ot, d) && d > 0 && x < n * n && x < |c| && n * d + ot < |c[x]| && x != n * d + ot
    ensures var cell := c[x][n * d + ot];
            cell <= 1 && (cell > 0 ==> Layer(n, x) == d - 1 && Place(n, x) in Lasts(edges, n, ot, d))
  {
    TargetVertex(n, d, s, ot);
    Inside(c, n, x, n * d + ot);
    VertexInverse(n, x);
  }

  /** A walk of `d` hops, and more than `f` recorded hops at either end. */
  ghost predicate Supported(edges: Edges, n: nat, f: nat, s: nat, ot: nat, d: nat) {
    && 0 < d < n && Walked(edges, n, s, d, ot)
    && |Firsts(edges, n, s)| >= f + 1 && |Lasts(edges, n, ot, d)| >= f + 1
  }

  lemma LargeCutKeeps(c: Matrix, n: nat, s: nat, t: nat, k: int, side: set<int>)
    requires AllCutsAtLeast(c, n, s, t, k) && s in side && NoneOut(c, side, n * n) && k > 0
    ensures t in side
  {
    assert t in side || Separates(side, s, t);
  }

  /** Cuts larger than `f` prove that much, whatever earlier layers have left behind. */
  lemma LargeCutsAreSupported(c: Matrix, edges: Edges, n: nat, f: nat, s: nat, ot: nat, d: nat)
    requires Entered(c, edges, n, s, ot, d) && s != ot && AllCutsAtLeast(c, n, s, n * d + ot, f + 1)
    ensures Supported(edges, n, f, s, ot, d)
  {
    TargetVertex(n, d, s, ot);
    var t := n * d + ot;
    ReachIsClosed(c, edges, n, s, ot, d);
    assert s in Reach(edges, n, s);
    LargeCutKeeps(c, n, s, t, f + 1, Reach(edges, n, s));
    SourceCut(c, edges, n, s, ot, d);
    assert Separates({s as int}, s, t);
    TargetCut(c, edges, n, s, ot, d);
    assert Separates(AllBut(n * n, t), s, t);
  }

  /** As long as no walk has led to the target, nothing is left behind: the cuts are those of the
      recorded graph. */
  lemma FirstFlowIsExact(c: Matrix, edges: Edges, n: nat, s: nat, ot: nat, d: nat, k: int)
    requires Entered(c, edges, n, s, ot, d) && forall l: nat | l < d :: !Walked(edges, n, s, l, ot)
    ensures AllCutsAtLeast(c, n, s, n * d + ot, k) <==> AllCutsAtLeast(PathMatrix(edges, n), n, s, n * d + ot, k)
  {
    LayersGrow(n, n, n + 1);
    var p := PathMatrix(edges, n);
    forall x: nat, y: nat | x < n * n && y < n * n
      ensures InMatrix(c, x, y) && InMatrix(p, x, y) && c[x][y] == p[x][y]
    {
      Inside(c, n, x, y);
      Inside(p, n, x, y);
    }
    forall side: set<int>
      ensures Cut(c, side, n * n) == Cut(p, side, n * n)
    {
      CutMonotone(c, p, side, n * n, n * n);
      CutMonotone(p, c, side, n * n, n * n);
    }
  }
}
