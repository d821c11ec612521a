/**
  What a node computes when it starts: the size of a Byzantine quorum and its
  own row of the neighbour relation.
 */
module Topology {
  import opened Counting

  /** The smallest size of which any two sets overlap in more than `f` nodes. The correct
      nodes alone reach it exactly when fewer than a third of all nodes are faulty. */
  function QuorumSize(n: nat, f: nat): (size: nat)
    ensures 2 * size - n >= f + 1 > 2 * (size - 1) - n
    ensures size <= n - f <==> n >= 3 * f + 1
    ensures n >= 3 * f + 1 ==> size >= 2 * f + 1
  {
    (n + f) / 2 + 1
  }

  /** The handlers' own computation: round up to even, then halve. */
  method ByzQuorumSize(numNodes: nat, numFaulty: nat) returns (size: nat)
    ensures size == QuorumSize(numNodes, numFaulty)
  {
    size := numNodes + numFaulty + 1;
    if size % 2 == 1 {
      size := size + 1;
    }
    size := size / 2;
  }

  /** Any two quorums have a correct node in common. */
  lemma QuorumsShareACorrectNode(n: nat, f: nat, faulty: set<nat>, a: set<nat>, b: set<nat>) returns (e: nat)
    requires |faulty| <= f && (forall x | x in a :: x < n) && (forall x | x in b :: x < n)
    requires |a| >= QuorumSize(n, f) && |b| >= QuorumSize(n, f)
    ensures e in a && e in b && e !in faulty
  {
    assert a <= Below(n) && b <= Below(n);
    OverlapCard(a, b, Below(n));
    e := Escape(a * b, faulty);
  }

  /** A quorum, less any `f` nodes, is still more than `f` when `n >= 3f + 1`. */
  lemma QuorumHasCorrectMajority(n: nat, f: nat, faulty: set<nat>, a: set<nat>)
    requires |faulty| <= f && n >= 3 * f + 1 && |a| >= QuorumSize(n, f)
    ensures |a - faulty| >= f + 1
  {
    DifferenceCard(a, faulty);
  }

  // ---- Neighbours ----

  /** The topology file lists the pair, in one direction or the other. */
  ghost predicate Paired(pairs: seq<(nat, nat)>, a: nat, b: nat) {
    a != b && ((a, b) in pairs || (b, a) in pairs)
  }

  ghost predicate Matrix(connected: array2<bool>, n: nat, pairs: seq<(nat, nat)>)
    reads connected
  {
    && connected.Length0 == n && connected.Length1 == n
    && forall a: nat, b: nat | a < n && b < n :: connected[a, b] <==> Paired(pairs, a, b)
  }

  ghost predicate Increasing(s: seq<nat>) {
    forall i, j | 0 <= i < j < |s| :: s[i] < s[j]
  }

  lemma PairedMore(pairs: seq<(nat, nat)>, i: nat, a: nat, b: nat)
    requires i < |pairs|
    ensures Paired(pairs[..i + 1], a, b)
       <==> Paired(pairs[..i], a, b) || (a != b && (pairs[i] == (a, b) || pairs[i] == (b, a)))
  {
    assert pairs[..i + 1] == pairs[..i] + [pairs[i]];
  }

  method Connect(n: nat, pairs: seq<(nat, nat)>) returns (connected: array2<bool>)
    requires forall p | p in pairs :: p.0 < n && p.1 < n
    ensures Matrix(connected, n, pairs)
  {
    connected := new bool[n, n]((a, b) => false);
    for i := 0 to |pairs|
      invariant Matrix(connected, n, pairs[..i])
      invariant fresh(connected)
    {
      assert pairs[i] in pairs;
      var (a, b) := pairs[i];
      forall c: nat, d: nat
        ensures Paired(pairs[..i + 1], c, d)
           <==> Paired(pairs[..i], c, d) || (c != d && (pairs[i] == (c, d) || pairs[i] == (d, c)))
      {
        PairedMore(pairs, i, c, d);
      }
      if a != b {
        connected[a, b] := true;
        connected[b, a] := true;
      }
    }
    assert pairs[..|pairs|] == pairs;
  }

  /** A node's neighbours are the nodes the file pairs it with, in increasing order. */
  method SelfNeighbors(myid: nat, n: nat, pairs: seq<(nat, nat)>) returns (neighbors: seq<nat>)
    requires myid < n && forall p | p in pairs :: p.0 < n && p.1 < n
    ensures Increasing(neighbors)
    ensures forall i: nat :: i in neighbors <==> i < n && i != myid && ((myid, i) in pairs || (i, myid) in pairs)
  {
    var connected := Connect(n, pairs);
    neighbors := [];
    for i := 0 to n
      invariant Increasing(neighbors) && forall k: nat :: k in neighbors <==> k < i && Paired(pairs, myid, k)
    {
      assert forall j | 0 <= j < |neighbors| :: neighbors[j] in neighbors;
      if connected[myid, i] {
        neighbors := neighbors + [i];
      }
    }
  }
}
