/** Numbering the vertices of equal blocks: vertex `d * n + i` is place `i` of block `d`. */
module Blocks {

  /** Layer and place of a vertex number: quotient and remainder by `n`. */
  ghost function Layer(n: nat, x: nat): nat {
    if n == 0 || x < n then 0 else 1 + Layer(n, x - n)
  }

  ghost function Place(n: nat, x: nat): nat {
    if n == 0 || x < n then x else Place(n, x - n)
  }

  lemma LayerIndex(n: nat, d: nat, i: nat)
    requires d < n && i < n
    ensures n * d + i < n * n
  {
    LayerEnd(n, d);
    LayersGrow(n, d + 1, n);
  }

  lemma {:induction false} LayersGrow(n: nat, d: nat, k: nat)
    requires d <= k
    ensures n * d <= n * k
  {
    if d < k {
      LayersGrow(n, d, k - 1);
      LayerEnd(n, k - 1);
    }
  }

  lemma LayerEnd(n: nat, d: nat)
    ensures n * d + n == n * (d + 1)
  {
  }

  lemma {:induction false} Vertex(n: nat, d: nat, i: nat)
    requires i < n
    ensures Layer(n, d * n + i) == d && Place(n, d * n + i) == i
  {
    if d > 0 {
      Vertex(n, d - 1, i);
      assert d * n + i == (d - 1) * n + i + n;
    }
  }

  lemma VertexInRange(n: nat, d: nat, i: nat)
    requires i < n && d < n
    ensures d * n + i < n * n && (d + 1) * n + i < (n + 1) * n && n * n <= (n + 1) * n
  {
    LayersGrow(n, d + 1, n);
  }

  lemma {:induction false} VertexInverse(n: nat, x: nat)
    requires n > 0
    ensures x == Layer(n, x) * n + Place(n, x) && Place(n, x) < n
  {
    if x >= n {
      VertexInverse(n, x - n);
      assert Layer(n, x) * n == Layer(n, x - n) * n + n;
    }
  }

  lemma {:induction false} LayerBound(n: nat, k: nat, y: nat)
    requires n > 0 && y < (k + 1) * n
    ensures Layer(n, y) <= k
  {
    if y >= n && k > 0 {
      assert (k + 1) * n == k * n + n;
      LayerBound(n, k - 1, y - n);
    }
  }
}
