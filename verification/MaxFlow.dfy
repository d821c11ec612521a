/**
  The breadth-first search and the augmentation loop with which a simulated
  peer counts edge-disjoint routes in a residual matrix. Only the vertices below
  `m` (those of the first layers) are ever visited.
 */
module MaxFlow {
  import opened Blocks
  import opened Counting

  type Matrix = seq<seq<int>>

  ghost predicate Square(c: Matrix, n: nat) {
    |c| == n && forall u | 0 <= u < n :: |c[u]| == n
  }

  ghost function Rows(a: array2<int>): (c: Matrix)
    requires a.Length0 == a.Length1
    reads a
    ensures Square(c, a.Length0)
    ensures forall u, v | 0 <= u < a.Length0 && 0 <= v < a.Length0 :: c[u][v] == a[u, v]
  {
    seq(a.Length0, u requires 0 <= u < a.Length0 reads a =>
      seq(a.Length1, v requires 0 <= v < a.Length1 reads a => a[u, v]))
  }

  ghost predicate NonNegative(c: Matrix) {
    forall u, v | 0 <= u < |c| && 0 <= v < |c[u]| :: c[u][v] >= 0
  }

  // ---- Cuts ----

  /** Capacity from `u` to the vertices below `k` that are not in `side`. */
  ghost function RowOut(c: Matrix, side: set<int>, u: nat, k: nat): int
    requires u < |c| && k <= |c[u]|
  {
    if k == 0 then 0
    else RowOut(c, side, u, k - 1) + if k - 1 in side then 0 else c[u][k - 1]
  }

  ghost function CutOf(c: Matrix, side: set<int>, rows: nat, m: nat): int
    requires Square(c, |c|) && rows <= |c| && m <= |c|
  {
    if rows == 0 then 0
    else CutOf(c, side, rows - 1, m) + if rows - 1 in side then RowOut(c, side, rows - 1, m) else 0
  }

  /** Capacity of the edges that leave `side`, among the vertices below `m`. */
  ghost function Cut(c: Matrix, side: set<int>, m: nat): int
    requires Square(c, |c|) && m <= |c|
  {
    CutOf(c, side, m, m)
  }

  /** `d` is `c` with `delta` added at one entry. */
  ghost predicate Bumped(c: Matrix, d: Matrix, a: nat, b: nat, delta: int) {
    && Square(c, |c|) && Square(d, |c|) && a < |c| && b < |c|
    && forall u, v | 0 <= u < |c| && 0 <= v < |c| ::
         d[u][v] == c[u][v] + if u == a && v == b then delta else 0
  }

  lemma {:induction false} RowBumped(c: Matrix, d: Matrix, a: nat, b: nat, delta: int, side: set<int>, u: nat, k: nat)
    requires Bumped(c, d, a, b, delta) && u < |c| && k <= |c|
    ensures RowOut(d, side, u, k) == RowOut(c, side, u, k) + if u == a && b < k && b !in side then delta else 0
  {
    if k > 0 { RowBumped(c, d, a, b, delta, side, u, k - 1); }
  }

  lemma {:induction false} CutOfBumped(c: Matrix, d: Matrix, a: nat, b: nat, delta: int, side: set<int>, rows: nat,
                                       m: nat)
    requires Bumped(c, d, a, b, delta) && rows <= |c| && m <= |c|
    ensures CutOf(d, side, rows, m)
         == CutOf(c, side, rows, m) + if a < rows && a in side && b < m && b !in side then delta else 0
  {
    if rows > 0 {
      CutOfBumped(c, d, a, b, delta, side, rows - 1, m);
      RowBumped(c, d, a, b, delta, side, rows - 1, m);
    }
  }

  /** `d` is at least `c` on every edge that leaves `side`. */
  ghost predicate CoversCut(c: Matrix, d: Matrix, side: set<int>, m: nat) {
    && Square(c, |c|) && Square(d, |c|) && m <= |c|
    && forall u, v | 0 <= u < m && 0 <= v < m && u in side && v !in side :: c[u][v] <= d[u][v]
  }

  lemma {:induction false} RowMonotone(c: Matrix, d: Matrix, side: set<int>, m: nat, u: nat, k: nat)
    requires CoversCut(c, d, side, m) && u < m && u in side && k <= m
    ensures RowOut(c, side, u, k) <= RowOut(d, side, u, k)
  {
    if k > 0 { RowMonotone(c, d, side, m, u, k - 1); }
  }

  lemma {:induction false} CutMonotone(c: Matrix, d: Matrix, side: set<int>, m: nat, rows: nat)
    requires CoversCut(c, d, side, m) && rows <= m
    ensures CutOf(c, side, rows, m) <= CutOf(d, side, rows, m)
  {
    if rows > 0 {
      CutMonotone(c, d, side, m, rows - 1);
      if rows - 1 in side { RowMonotone(c, d, side, m, rows - 1, m); }
    }
  }

  ghost function Zeros(n: nat): (z: Matrix)
    ensures Square(z, n) && NonNegative(z)
  {
    seq(n, _ => seq(n, _ => 0))
  }

  lemma {:induction false} RowOfZeros(n: nat, side: set<int>, u: nat, k: nat)
    requires u < n && k <= n
    ensures RowOut(Zeros(n), side, u, k) == 0
  {
    if k > 0 { RowOfZeros(n, side, u, k - 1); }
  }

  lemma {:induction false} CutOfZeros(n: nat, side: set<int>, rows: nat, m: nat)
    requires rows <= n && m <= n
    ensures CutOf(Zeros(n), side, rows, m) == 0
  {
    if rows > 0 {
      CutOfZeros(n, side, rows - 1, m);
      RowOfZeros(n, side, rows - 1, m);
    }
  }

  lemma CutNonNegative(c: Matrix, side: set<int>, m: nat)
    requires Square(c, |c|) && m <= |c| && NonNegative(c)
    ensures Cut(c, side, m) >= 0
  {
    CutOfZeros(|c|, side, m, m);
    CutMonotone(Zeros(|c|), c, side, m, m);
  }

  /** A cut all of whose edges are saturated has no residual capacity. */
  lemma SaturatedCut(c: Matrix, side: set<int>, m: nat)
    requires Square(c, |c|) && m <= |c| && NonNegative(c)
    requires forall u, v | 0 <= u < m && 0 <= v < m && u in side && v !in side :: c[u][v] <= 0
    ensures Cut(c, side, m) == 0
  {
    CutNonNegative(c, side, m);
    CutOfZeros(|c|, side, m, m);
    CutMonotone(c, Zeros(|c|), side, m, m);
  }

  // ---- Breadth-first search ----

  /** A walk along positive entries; every vertex after the first is below `m`. */
  ghost predicate Walk(c: Matrix, m: nat, path: seq<nat>, s: nat, t: nat) {
    && path != [] && path[0] == s && path[|path| - 1] == t
    && s < |c| && m <= |c| && Square(c, |c|)
    && forall i | 0 <= i < |path| - 1 :: PositiveAt(c, m, path, i)
  }

  ghost predicate PositiveAt(c: Matrix, m: nat, path: seq<nat>, i: nat)
    requires Square(c, |c|) && m <= |c| && i + 1 < |path|
  {
    path[i + 1] < m && path[i] < |c| && c[path[i]][path[i + 1]] > 0
  }

  ghost predicate Reaches(c: Matrix, m: nat, s: nat, t: nat) {
    exists path :: Walk(c, m, path, s, t)
  }

  /** Parent pointers that lead from every visited vertex back to `s`. */
  ghost predicate ParentTree(c: Matrix, m: nat, parent: seq<int>, rank: map<int, nat>, s: nat) {
    && Square(c, |c|) && |parent| == |c| && s < |c| && s in rank && m <= |c|
    && forall v | v in rank :: ParentAt(c, m, parent, rank, s, v)
  }

  ghost predicate ParentAt(c: Matrix, m: nat, parent: seq<int>, rank: map<int, nat>, s: nat, v: int)
    requires Square(c, |c|) && |parent| == |c| && v in rank
  {
    0 <= v < |c| &&
    (v != s ==>
       && v < m && 0 <= parent[v] < |c| && parent[v] in rank
       && rank[parent[v]] < rank[v] && c[parent[v]][v] > 0)
  }

  ghost predicate Closed(c: Matrix, m: nat, side: set<int>) {
    && Square(c, |c|) && m <= |c|
    && forall u, v | u in side && 0 <= u < |c| && 0 <= v < m && v !in side :: c[u][v] <= 0
  }

  lemma {:induction false} WalkStaysInside(c: Matrix, m: nat, path: seq<nat>, s: nat, t: nat, side: set<int>)
    requires Walk(c, m, path, s, t) && Closed(c, m, side) && s in side
    ensures t in side
  {
    if |path| > 1 {
      var k := |path| - 1;
      assert forall i | 0 <= i < k - 1 :: PositiveAt(c, m, path, i) ==> PositiveAt(c, m, path[..k], i);
      WalkStaysInside(c, m, path[..k], s, path[k - 1], side);
      assert PositiveAt(c, m, path, k - 1);
    }
  }

  lemma {:induction false} TreeGivesWalk(c: Matrix, m: nat, parent: seq<int>, rank: map<int, nat>, s: nat, v: nat)
    returns (path: seq<nat>)
    requires ParentTree(c, m, parent, rank, s) && v in rank
    ensures Walk(c, m, path, s, v)
    decreases rank[v]
  {
    if v == s {
      path := [s];
    } else {
      var before := TreeGivesWalk(c, m, parent, rank, s, parent[v]);
      path := before + [v];
      forall i | 0 <= i < |path| - 1
        ensures PositiveAt(c, m, path, i)
      {
        if i < |before| - 1 { assert PositiveAt(c, m, before, i); }
      }
    }
  }

  /** What the search leaves behind decides reachability. */
  lemma SearchDecides(c: Matrix, m: nat, parent: seq<int>, rank: map<int, nat>, s: nat, t: nat)
    requires ParentTree(c, m, parent, rank, s) && Closed(c, m, rank.Keys)
    ensures t in rank <==> Reaches(c, m, s, t)
  {
    if t in rank {
      var path := TreeGivesWalk(c, m, parent, rank, s, t);
    }
    if Reaches(c, m, s, t) {
      var path :| Walk(c, m, path, s, t);
      WalkStaysInside(c, m, path, s, t, rank.Keys);
    }
  }

  ghost predicate Frontier(c: Matrix, m: nat, rank: map<int, nat>, queue: seq<int>, done: set<int>) {
    && Square(c, |c|) && m <= |c|
    && (forall i | 0 <= i < |queue| :: queue[i] in rank && queue[i] !in done)
    && (forall i, j | 0 <= i < j < |queue| :: queue[i] != queue[j])
    && (forall v | v in rank :: v in done || v in queue)
    && (forall v | v in done :: v in rank)
  }

  /** No positive entry leads from `u` to an unvisited vertex below `k`. */
  ghost predicate Explored(c: Matrix, rank: map<int, nat>, u: int, k: nat) {
    Square(c, |c|) && 0 <= u < |c| && k <= |c| && forall v | 0 <= v < k && c[u][v] > 0 :: v in rank
  }

  ghost predicate AllExplored(c: Matrix, m: nat, rank: map<int, nat>, done: set<int>) {
    forall u | u in done :: Explored(c, rank, u, m)
  }

  ghost predicate Searching(c: Matrix, m: nat, visited: seq<bool>, parent: seq<int>, rank: map<int, nat>, s: nat,
                            queue: seq<int>, done: set<int>, clock: nat) {
    && |visited| == |c| && (forall v | 0 <= v < |c| :: visited[v] <==> v in rank)
    && ParentTree(c, m, parent, rank, s)
    && Frontier(c, m, rank, queue, done)
    && (forall x | x in rank :: rank[x] < clock)
  }

  /** A newly found neighbour of `u` joins the queue. */
  lemma VisitKeeps(c: Matrix, m: nat, visited: seq<bool>, parent: seq<int>, rank: map<int, nat>, s: nat,
                   queue: seq<int>, done: set<int>, clock: nat, u: int, v: nat)
    requires Searching(c, m, visited, parent, rank, s, queue, done, clock)
    requires u in rank && v < m && v !in rank && c[u][v] > 0
    ensures Searching(c, m, visited[v := true], parent[v := u], rank[v := clock], s, queue + [v], done, clock + 1)
  {
    VisitKeepsTree(c, m, parent, rank, s, u, v, clock);
    VisitKeepsFrontier(c, m, rank, queue, done, v, clock);
  }

  lemma VisitKeepsTree(c: Matrix, m: nat, parent: seq<int>, rank: map<int, nat>, s: nat, u: int, v: nat, clock: nat)
    requires ParentTree(c, m, parent, rank, s) && forall x | x in rank :: rank[x] < clock
    requires u in rank && v < m && v !in rank && c[u][v] > 0
    ensures ParentTree(c, m, parent[v := u], rank[v := clock], s)
  {
    assert ParentAt(c, m, parent, rank, s, u);
    var more := rank[v := clock];
    forall x | x in more
      ensures ParentAt(c, m, parent[v := u], more, s, x)
    {
      if x != v { assert ParentAt(c, m, parent, rank, s, x); }
    }
  }

  lemma VisitKeepsFrontier(c: Matrix, m: nat, rank: map<int, nat>, queue: seq<int>, done: set<int>, v: nat, clock: nat)
    requires Frontier(c, m, rank, queue, done) && v !in rank
    ensures Frontier(c, m, rank[v := clock], queue + [v], done)
  {
    var longer := queue + [v];
    assert longer[|queue|] == v;
    assert forall x | x in queue :: x in longer;
  }

  lemma ExploredKeeps(c: Matrix, m: nat, rank: map<int, nat>, more: map<int, nat>, done: set<int>, u: int, k: nat)
    requires AllExplored(c, m, rank, done - {u}) && Explored(c, rank, u, k)
    requires rank.Keys <= more.Keys && k < m <= |c| && (c[u][k] > 0 ==> k in more)
    ensures AllExplored(c, m, more, done - {u}) && Explored(c, more, u, k + 1)
  {
  }

  /** The search while the entries of `u` below `k` have been looked at. */
  ghost predicate Scanning(c: Matrix, m: nat, visited: seq<bool>, parent: seq<int>, rank: map<int, nat>, s: nat,
                           queue: seq<int>, done: set<int>, clock: nat, u: int, k: nat) {
    && Searching(c, m, visited, parent, rank, s, queue, done, clock)
    && u in rank && AllExplored(c, m, rank, done - {u}) && k <= m && Explored(c, rank, u, k)
  }

  /** Looks at one entry of `u`. */
  method Look(rgraph: array2<int>, ghost m: nat, u: int, v: nat, ghost s: nat, visited: array<bool>, parent: array<int>,
              queue0: seq<int>, ghost rank0: map<int, nat>, ghost done: set<int>, ghost clock0: nat)
    returns (queue: seq<int>, ghost rank: map<int, nat>, ghost clock: nat)
    requires rgraph.Length0 == rgraph.Length1 == parent.Length == visited.Length && v < m <= parent.Length
    requires Scanning(Rows(rgraph), m, visited[..], parent[..], rank0, s, queue0, done, clock0, u, v)
    modifies visited, parent
    ensures Scanning(Rows(rgraph), m, visited[..], parent[..], rank, s, queue, done, clock, u, v + 1)
  {
    ghost var c := Rows(rgraph);
    queue, rank, clock := queue0, rank0, clock0;
    if !visited[v] && rgraph[u, v] > 0 {
      VisitKeeps(c, m, visited[..], parent[..], rank, s, queue, done, clock, u, v);
      queue := queue + [v];
      parent[v] := u;
      visited[v] := true;
      rank := rank[v as int := clock];
      clock := clock + 1;
    }
    ExploredKeeps(c, m, rank0, rank, done, u, v);
  }

  /** Looks at the entries of `u` in one layer. */
  method ScanLayer(n: nat, rgraph: array2<int>, u: int, d: nat, ghost s: nat, visited: array<bool>, parent: array<int>,
                   queue0: seq<int>, ghost rank0: map<int, nat>, ghost done: set<int>, ghost clock0: nat)
    returns (queue: seq<int>, ghost rank: map<int, nat>, ghost clock: nat)
    requires rgraph.Length0 == rgraph.Length1 == parent.Length == visited.Length && n * n <= parent.Length && d < n
    requires Scanning(Rows(rgraph), n * n, visited[..], parent[..], rank0, s, queue0, done, clock0, u, n * d)
    modifies visited, parent
    ensures Scanning(Rows(rgraph), n * n, visited[..], parent[..], rank, s, queue, done, clock, u, n * (d + 1))
  {
    ghost var c, m := Rows(rgraph), n * n;
    queue, rank, clock := queue0, rank0, clock0;
    for i := 0 to n
      invariant Scanning(c, m, visited[..], parent[..], rank, s, queue, done, clock, u, n * d + i)
    {
      LayerIndex(n, d, i);
      queue, rank, clock := Look(rgraph, m, u, n * d + i, s, visited, parent, queue, rank, done, clock);
    }
    LayerEnd(n, d);
  }

  /** Puts every unvisited vertex that `u` has residual capacity to into the queue. */
  method Scan(n: nat, rgraph: array2<int>, u: int, ghost s: nat, visited: array<bool>, parent: array<int>,
              queue0: seq<int>, ghost rank0: map<int, nat>, ghost done: set<int>, ghost clock0: nat)
    returns (queue: seq<int>, ghost rank: map<int, nat>, ghost clock: nat)
    requires rgraph.Length0 == rgraph.Length1 == parent.Length == visited.Length && n * n <= parent.Length
    requires Scanning(Rows(rgraph), n * n, visited[..], parent[..], rank0, s, queue0, done, clock0, u, 0)
    modifies visited, parent
    ensures Scanning(Rows(rgraph), n * n, visited[..], parent[..], rank, s, queue, done, clock, u, n * n)
  {
    ghost var c, m := Rows(rgraph), n * n;
    queue, rank, clock := queue0, rank0, clock0;
    for d := 0 to n
      invariant Scanning(c, m, visited[..], parent[..], rank, s, queue, done, clock, u, n * d)
    {
      queue, rank, clock := ScanLayer(n, rgraph, u, d, s, visited, parent, queue, rank, done, clock);
    }
  }

  lemma Dequeue(c: Matrix, m: nat, visited: seq<bool>, parent: seq<int>, rank: map<int, nat>, s: nat,
                queue: seq<int>, done: set<int>, clock: nat)
    requires Searching(c, m, visited, parent, rank, s, queue, done, clock) && AllExplored(c, m, rank, done)
    requires queue != []
    ensures Searching(c, m, visited, parent, rank, s, queue[1..], done + {queue[0]}, clock)
    ensures queue[0] in rank && queue[0] !in done && 0 <= queue[0] < |c|
    ensures AllExplored(c, m, rank, done + {queue[0]} - {queue[0]})
  {
    assert queue == [queue[0]] + queue[1..];
    assert ParentAt(c, m, parent, rank, s, queue[0]);
    assert done + {queue[0]} - {queue[0]} == done;
  }

  /** When the queue runs empty, nothing leads out of the visited vertices. */
  lemma EmptyQueueCloses(c: Matrix, m: nat, visited: seq<bool>, parent: seq<int>, rank: map<int, nat>, s: nat,
                         done: set<int>, clock: nat)
    requires Searching(c, m, visited, parent, rank, s, [], done, clock) && AllExplored(c, m, rank, done)
    ensures Closed(c, m, rank.Keys)
  {
  }

  /** Takes the first vertex off the queue and scans it. */
  method Visit(n: nat, rgraph: array2<int>, ghost s: nat, visited: array<bool>, parent: array<int>,
               queue0: seq<int>, ghost rank0: map<int, nat>, ghost done: set<int>, ghost clock0: nat)
    returns (queue: seq<int>, ghost rank: map<int, nat>, ghost clock: nat)
    requires rgraph.Length0 == rgraph.Length1 == parent.Length == visited.Length && n * n <= parent.Length
    requires queue0 != [] && queue0[0] in done
    requires Searching(Rows(rgraph), n * n, visited[..], parent[..], rank0, s, queue0, done - {queue0[0]}, clock0)
    requires AllExplored(Rows(rgraph), n * n, rank0, done - {queue0[0]})
    modifies visited, parent
    ensures Searching(Rows(rgraph), n * n, visited[..], parent[..], rank, s, queue, done, clock)
    ensures AllExplored(Rows(rgraph), n * n, rank, done)
  {
    ghost var before := done - {queue0[0]};
    Dequeue(Rows(rgraph), n * n, visited[..], parent[..], rank0, s, queue0, before, clock0);
    assert before + {queue0[0]} == done;
    queue, rank, clock := Scan(n, rgraph, queue0[0], s, visited, parent, queue0[1..], rank0, done, clock0);
  }

  method Bfs(n: nat, rgraph: array2<int>, s: nat, t: nat, parent: array<int>)
    returns (found: bool, ghost rank: map<int, nat>)
    requires rgraph.Length0 == rgraph.Length1 == parent.Length && n * n <= parent.Length
    requires s < n * n && t < n * n
    modifies parent
    ensures ParentTree(Rows(rgraph), n * n, parent[..], rank, s)
    ensures Closed(Rows(rgraph), n * n, rank.Keys)
    ensures found <==> t in rank
    ensures found <==> Reaches(Rows(rgraph), n * n, s, t)
  {
    ghost var c, m := Rows(rgraph), n * n;
    var visited := new bool[parent.Length](_ => false);
    var queue := [s];
    visited[s] := true;
    parent[s] := -1;
    rank := map[s as int := 0];
    ghost var clock, done: set<int> := 1, {};
    while queue != []
      invariant Searching(c, m, visited[..], parent[..], rank, s, queue, done, clock)
      invariant AllExplored(c, m, rank, done)
      decreases UpTo(|c|) - done
    {
      done := done + {queue[0]};
      queue, rank, clock := Visit(n, rgraph, s, visited, parent, queue, rank, done, clock);
    }
    EmptyQueueCloses(c, m, visited[..], parent[..], rank, s, done, clock);
    found := visited[t];
    SearchDecides(c, m, parent[..], rank, s, t);
  }

  // ---- Augmenting along the path found ----

  const INT_MAX: int := 0x7fff_ffff

  /** A piece of the parent chain that starts at the target. */
  ghost predicate ChainFrom(parent: seq<int>, rank: map<int, nat>, s: nat, t: nat, chain: seq<int>) {
    && chain != [] && chain[0] == t
    && (forall i | 0 <= i < |chain| :: chain[i] in rank)
    && (forall i | 0 <= i < |chain| - 1 :: NextOnChain(parent, s, chain, i))
    && (forall i, j | 0 <= i < j < |chain| :: rank[chain[j]] < rank[chain[i]])
  }

  /** The parent chain from the target back to the source. */
  ghost predicate Chain(c: Matrix, m: nat, parent: seq<int>, rank: map<int, nat>, s: nat, t: nat, chain: seq<int>) {
    ParentTree(c, m, parent, rank, s) && ChainFrom(parent, rank, s, t, chain) && chain[|chain| - 1] == s
  }

  lemma ChainGrows(c: Matrix, m: nat, parent: seq<int>, rank: map<int, nat>, s: nat, t: nat, chain: seq<int>, v: int)
    requires ParentTree(c, m, parent, rank, s) && ChainFrom(parent, rank, s, t, chain)
    requires chain[|chain| - 1] == v && v != s
    ensures ParentAt(c, m, parent, rank, s, v) && ChainFrom(parent, rank, s, t, chain + [parent[v]])
  {
    assert ParentAt(c, m, parent, rank, s, v);
    var longer := chain + [parent[v]];
    forall i | 0 <= i < |longer| - 1
      ensures NextOnChain(parent, s, longer, i)
    {
      if i < |chain| - 1 { assert NextOnChain(parent, s, chain, i); }
    }
  }

  ghost predicate NextOnChain(parent: seq<int>, s: nat, chain: seq<int>, i: nat)
    requires i + 1 < |chain|
  {
    chain[i] != s && 0 <= chain[i] < |parent| && chain[i + 1] == parent[chain[i]]
  }

  /** Every edge of the chain has residual capacity for `flow`. */
  ghost predicate Carries(c: Matrix, parent: seq<int>, s: nat, chain: seq<int>, flow: int) {
    && Square(c, |c|) && |parent| == |c|
    && forall i | 0 <= i < |chain| && chain[i] != s :: CarriesInto(c, parent, chain[i], flow)
  }

  ghost predicate CarriesInto(c: Matrix, parent: seq<int>, v: int, flow: int)
    requires Square(c, |c|) && |parent| == |c|
  {
    0 <= v < |c| && 0 <= parent[v] < |c| && flow <= c[parent[v]][v]
  }

  /** Taking in the edge into the last vertex may lower the flow. */
  lemma CarriesGrows(c: Matrix, parent: seq<int>, s: nat, chain: seq<int>, flow: int, less: int)
    requires chain != [] && Carries(c, parent, s, chain[..|chain| - 1], flow) && less <= flow
    requires chain[|chain| - 1] == s || CarriesInto(c, parent, chain[|chain| - 1], less)
    ensures Carries(c, parent, s, chain, less)
  {
    var k := |chain| - 1;
    forall i | 0 <= i < |chain| && chain[i] != s
      ensures CarriesInto(c, parent, chain[i], less)
    {
      if i < k { assert CarriesInto(c, parent, chain[..k][i], flow); }
    }
  }

  /** Some edge of the chain has no more capacity than `flow`. */
  ghost predicate IsTight(c: Matrix, parent: seq<int>, s: nat, chain: seq<int>, flow: int) {
    && Square(c, |c|) && |parent| == |c|
    && exists i :: 0 <= i < |chain| && chain[i] != s && TightInto(c, parent, chain[i], flow)
  }

  ghost predicate TightInto(c: Matrix, parent: seq<int>, v: int, flow: int)
    requires Square(c, |c|) && |parent| == |c|
  {
    0 <= v < |c| && 0 <= parent[v] < |c| && c[parent[v]][v] == flow
  }

  lemma TightGrows(c: Matrix, parent: seq<int>, s: nat, chain: seq<int>, flow: int, less: int, u: int)
    requires chain != [] && chain[|chain| - 1] != s && Square(c, |c|) && |parent| == |c|
    requires (less == flow && (flow == INT_MAX || IsTight(c, parent, s, chain, flow)))
             || TightInto(c, parent, chain[|chain| - 1], less)
    ensures less == INT_MAX || IsTight(c, parent, s, chain + [u], less)
  {
    var k := |chain| - 1;
    assert (chain + [u])[k] == chain[k];
    if less != INT_MAX && !TightInto(c, parent, chain[k], less) {
      var i :| 0 <= i < |chain| && chain[i] != s && TightInto(c, parent, chain[i], flow);
      assert (chain + [u])[i] == chain[i];
    }
  }

  method Bottleneck(rgraph: array2<int>, ghost m: nat, parent: array<int>, ghost rank: map<int, nat>, s: nat, t: nat)
    returns (pathFlow: int, ghost chain: seq<int>)
    requires rgraph.Length0 == rgraph.Length1 == parent.Length
    requires ParentTree(Rows(rgraph), m, parent[..], rank, s) && t in rank
    ensures Chain(Rows(rgraph), m, parent[..], rank, s, t, chain)
    ensures 0 < pathFlow <= INT_MAX
    ensures Carries(Rows(rgraph), parent[..], s, chain, pathFlow)
    ensures pathFlow == INT_MAX || IsTight(Rows(rgraph), parent[..], s, chain, pathFlow)
  {
    pathFlow := INT_MAX;
    var v: int := t;
    chain := [v];
    while v != s
      invariant ChainFrom(parent[..], rank, s, t, chain) && chain[|chain| - 1] == v
      invariant 0 < pathFlow <= INT_MAX
      invariant Carries(Rows(rgraph), parent[..], s, chain[..|chain| - 1], pathFlow)
      invariant pathFlow == INT_MAX || IsTight(Rows(rgraph), parent[..], s, chain, pathFlow)
      decreases rank[v]
    {
      ChainGrows(Rows(rgraph), m, parent[..], rank, s, t, chain, v);
      var u := parent[v];
      ghost var before := pathFlow;
      pathFlow := if rgraph[u, v] < pathFlow then rgraph[u, v] else pathFlow;
      CarriesGrows(Rows(rgraph), parent[..], s, chain, before, pathFlow);
      TightGrows(Rows(rgraph), parent[..], s, chain, before, pathFlow, u);
      assert (chain + [u])[..|chain|] == chain;
      chain := chain + [u];
      v := u;
    }
    CarriesGrows(Rows(rgraph), parent[..], s, chain, pathFlow, pathFlow);
  }

  /** One edge carries `delta` more: less forward capacity, more backward capacity. */
  ghost predicate Pushed(c: Matrix, d: Matrix, u: nat, v: nat, delta: int) {
    && Square(c, |c|) && Square(d, |c|) && u < |c| && v < |c| && u != v
    && forall x, y | 0 <= x < |c| && 0 <= y < |c| ::
         d[x][y] == c[x][y] + (if x == v && y == u then delta else 0) - (if x == u && y == v then delta else 0)
  }

  lemma CutPushed(c: Matrix, d: Matrix, u: nat, v: nat, delta: int, side: set<int>, m: nat)
    requires Pushed(c, d, u, v, delta) && u < m && v < m <= |c|
    ensures Cut(d, side, m)
         == Cut(c, side, m) - delta * ((if u in side then 1 else 0) - (if v in side then 1 else 0))
  {
    var half := c[u := c[u][v := c[u][v] - delta]];
    assert Bumped(c, half, u, v, -delta);
    assert Bumped(half, d, v, u, delta);
    CutOfBumped(c, half, u, v, -delta, side, m, m);
    CutOfBumped(half, d, v, u, delta, side, m, m);
  }

  ghost predicate SamePairs(c: Matrix, d: Matrix) {
    && Square(c, |c|) && Square(d, |c|)
    && forall x, y | 0 <= x < |c| && 0 <= y < |c| :: c[x][y] + c[y][x] == d[x][y] + d[y][x]
  }

  ghost function Side(side: set<int>, v: int): int {
    if v in side then 1 else 0
  }

  /** Entries between vertices that rank no higher than `bound` are as at the start. */
  ghost predicate Untouched(c: Matrix, d: Matrix, rank: map<int, nat>, bound: nat) {
    && Square(c, |c|) && Square(d, |c|)
    && forall x, y | 0 <= x < |c| && 0 <= y < |c| && x in rank && y in rank && rank[x] <= bound && rank[y] <= bound ::
         c[x][y] == d[x][y]
  }

  /** State of the update loop when the chain is processed down to `v`. */
  ghost predicate Pushing(c: Matrix, d: Matrix, m: nat, rank: map<int, nat>, v: int, t: nat, flow: int) {
    && SamePairs(c, d) && NonNegative(d) && m <= |c| == |d| && v in rank
    && Untouched(c, d, rank, rank[v])
    && forall side: set<int> :: Cut(d, side, m) == Cut(c, side, m) - flow * (Side(side, v) - Side(side, t))
  }

  lemma PushKeeps(c: Matrix, d: Matrix, e: Matrix, m: nat, rank: map<int, nat>, u: nat, v: nat, t: nat, flow: int)
    requires Pushing(c, d, m, rank, v, t, flow) && Pushed(d, e, u, v, flow) && u < m && v < m
    requires u in rank && rank[u] < rank[v] && 0 < flow <= c[u][v]
    ensures Pushing(c, e, m, rank, u, t, flow)
  {
    assert d[u][v] == c[u][v];
    forall side: set<int>
      ensures Cut(e, side, m) == Cut(c, side, m) - flow * (Side(side, u) - Side(side, t))
    {
      CutPushed(d, e, u, v, flow, side, m);
      assert flow * (Side(side, u) - Side(side, t))
          == flow * (Side(side, v) - Side(side, t)) + flow * (Side(side, u) - Side(side, v));
    }
    PushKeepsEntries(c, d, e, m, rank, u, v, t, flow);
  }

  lemma PushKeepsEntries(c: Matrix, d: Matrix, e: Matrix, m: nat, rank: map<int, nat>, u: nat, v: nat, t: nat,
                         flow: int)
    requires Pushing(c, d, m, rank, v, t, flow) && Pushed(d, e, u, v, flow)
    requires u in rank && rank[u] < rank[v] && 0 < flow <= d[u][v]
    ensures NonNegative(e) && SamePairs(c, e) && Untouched(c, e, rank, rank[u])
  {
  }

  method PushNext(rgraph: array2<int>, ghost c: Matrix, m: nat, ghost rank: map<int, nat>, u: nat, v: nat,
                  ghost t: nat, flow: int)
    requires rgraph.Length0 == rgraph.Length1 && u < m && v < m <= rgraph.Length0
    requires Pushing(c, Rows(rgraph), m, rank, v, t, flow) && u in rank && rank[u] < rank[v] && 0 < flow <= c[u][v]
    modifies rgraph
    ensures Pushing(c, Rows(rgraph), m, rank, u, t, flow)
  {
    ghost var d := Rows(rgraph);
    PushEdge(rgraph, u, v, flow);
    PushKeeps(c, d, Rows(rgraph), m, rank, u, v, t, flow);
  }

  method PushEdge(rgraph: array2<int>, u: nat, v: nat, flow: int)
    requires rgraph.Length0 == rgraph.Length1 && u < rgraph.Length0 && v < rgraph.Length0 && u != v
    modifies rgraph
    ensures Pushed(old(Rows(rgraph)), Rows(rgraph), u, v, flow)
  {
    rgraph[u, v] := rgraph[u, v] - flow;
    rgraph[v, u] := rgraph[v, u] + flow;
  }

  method Push(rgraph: array2<int>, m: nat, parent: array<int>, ghost rank: map<int, nat>, s: nat, t: nat,
              pathFlow: int, ghost chain: seq<int>)
    requires rgraph.Length0 == rgraph.Length1 == parent.Length && m <= parent.Length && s < m && t < m
    requires Chain(Rows(rgraph), m, parent[..], rank, s, t, chain)
    requires 0 < pathFlow && NonNegative(Rows(rgraph)) && Carries(Rows(rgraph), parent[..], s, chain, pathFlow)
    modifies rgraph
    ensures Pushing(old(Rows(rgraph)), Rows(rgraph), m, rank, s, t, pathFlow)
  {
    var v: int := t;
    ghost var c, at := Rows(rgraph), 0;
    while v != s
      invariant 0 <= at < |chain| && chain[at] == v
      invariant Pushing(c, Rows(rgraph), m, rank, v, t, pathFlow)
      decreases |chain| - at
    {
      assert NextOnChain(parent[..], s, chain, at) && CarriesInto(c, parent[..], v, pathFlow);
      var u := parent[v];
      PushNext(rgraph, c, m, rank, u, v, t, pathFlow);
      v := u;
      at := at + 1;
    }
  }

  // ---- Maximum flow, minimum cut ----

  ghost predicate Separates(side: set<int>, s: nat, t: nat) {
    s in side && t !in side
  }

  ghost predicate MinCut(c: Matrix, m: nat, s: nat, t: nat, value: int)
    requires Square(c, |c|) && m <= |c|
  {
    && (exists side: set<int> :: Separates(side, s, t) && Cut(c, side, m) == value)
    && (forall side: set<int> :: Separates(side, s, t) ==> value <= Cut(c, side, m))
  }

  /** The residual matrix `d` has lost `value` on every cut between `s` and `t`, has won it on every
      cut between `t` and `s`, and has kept all others; without any flow it is as it was. */
  ghost predicate Carried(c: Matrix, d: Matrix, m: nat, s: nat, t: nat, value: int) {
    && SamePairs(c, d) && NonNegative(d) && m <= |c| == |d| && value >= 0 && (value == 0 ==> d == c)
    && forall side: set<int> :: Cut(d, side, m) == Cut(c, side, m) - value * (Side(side, s) - Side(side, t))
  }

  /** A flow that leaves no residual route is a maximum one, and a cut attests it. */
  lemma BlockedFlowIsMinCut(c: Matrix, d: Matrix, m: nat, s: nat, t: nat, value: int, side: set<int>)
    requires Carried(c, d, m, s, t, value)
    requires Closed(d, m, side) && Separates(side, s, t)
    ensures MinCut(c, m, s, t, value)
  {
    SaturatedCut(d, side, m);
    assert value * (Side(side, s) - Side(side, t)) == value;
    forall other: set<int> | Separates(other, s, t)
      ensures value <= Cut(c, other, m)
    {
      CutNonNegative(d, other, m);
      assert value * (Side(other, s) - Side(other, t)) == value;
    }
  }

  lemma CarriedMore(c: Matrix, d: Matrix, e: Matrix, m: nat, rank: map<int, nat>, s: nat, t: nat, value: int, flow: int)
    requires Carried(c, d, m, s, t, value) && Pushing(d, e, m, rank, s, t, flow) && flow > 0
    ensures Carried(c, e, m, s, t, value + flow)
  {
    forall side: set<int>
      ensures Cut(e, side, m) == Cut(c, side, m) - (value + flow) * (Side(side, s) - Side(side, t))
    {
      SumTimes(value, flow, Side(side, s) - Side(side, t));
    }
  }

  lemma SumTimes(a: int, b: int, k: int)
    ensures (a + b) * k == a * k + b * k
  {
  }

  /** Pushes what the path found can carry. */
  method AugmentAlong(rgraph: array2<int>, m: nat, parent: array<int>, ghost rank: map<int, nat>, s: nat, t: nat,
                      ghost c: Matrix, maxFlow: int) returns (more: int)
    requires rgraph.Length0 == rgraph.Length1 == parent.Length && m <= parent.Length && s < m && t < m && s != t
    requires ParentTree(Rows(rgraph), m, parent[..], rank, s) && t in rank
    requires Carried(c, Rows(rgraph), m, s, t, maxFlow)
    modifies rgraph
    ensures Carried(c, Rows(rgraph), m, s, t, more) && more > maxFlow
  {
    ghost var d := Rows(rgraph);
    var pathFlow, chain := Bottleneck(rgraph, m, parent, rank, s, t);
    Push(rgraph, m, parent, rank, s, t, pathFlow, chain);
    CarriedMore(c, d, Rows(rgraph), m, rank, s, t, maxFlow, pathFlow);
    more := maxFlow + pathFlow;
  }

  /** The flow never exceeds what can leave `s`. */
  lemma FlowIsBounded(c: Matrix, d: Matrix, m: nat, s: nat, t: nat, value: int)
    requires Carried(c, d, m, s, t, value) && s != t
    ensures value <= Cut(c, {s as int}, m)
  {
    CutNonNegative(d, {s as int}, m);
    assert value * (Side({s as int}, s) - Side({s as int}, t)) == value;
  }

  /** The augmentation loop: it ends, and with the value of a minimum cut of the
      matrix it started from. */
  method Augment(n: nat, rgraph: array2<int>, s: nat, t: nat) returns (maxFlow: int)
    requires rgraph.Length0 == rgraph.Length1 && n * n <= rgraph.Length0
    requires s < n * n && t < n * n && s != t && NonNegative(Rows(rgraph))
    modifies rgraph
    ensures MinCut(old(Rows(rgraph)), n * n, s, t, maxFlow)
    ensures Carried(old(Rows(rgraph)), Rows(rgraph), n * n, s, t, maxFlow)
    ensures !Reaches(Rows(rgraph), n * n, s, t)
  {
    ghost var c, m := Rows(rgraph), n * n;
    var parent := new int[rgraph.Length0];
    maxFlow := 0;
    while true
      invariant fresh(parent)
      invariant Carried(c, Rows(rgraph), m, s, t, maxFlow)
      decreases Cut(c, {s as int}, m) - maxFlow
    {
      ghost var d := Rows(rgraph);
      FlowIsBounded(c, d, m, s, t, maxFlow);
      var found, rank := Bfs(n, rgraph, s, t, parent);
      if !found {
        BlockedFlowIsMinCut(c, d, m, s, t, maxFlow, rank.Keys);
        return;
      }
      maxFlow := AugmentAlong(rgraph, n * n, parent, rank, s, t, c, maxFlow);
    }
  }
}
