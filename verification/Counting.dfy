/** Cardinality facts that the quorum and disjoint-path arguments rest on. */
module Counting {

  /** The node identifiers of a network of `n` nodes. */
  ghost function Below(n: nat): (s: set<nat>)
    ensures forall i: nat :: i in s <==> i < n
    ensures |s| == n
  {
    if n == 0 then {} else Below(n - 1) + {n - 1}
  }

  /** The same as integers. */
  ghost function UpTo(n: nat): (r: set<int>)
    ensures forall i :: i in r <==> 0 <= i < n
  {
    if n == 0 then {} else UpTo(n - 1) + {n - 1}
  }

  lemma {:induction false} SubsetCard<T>(a: set<T>, b: set<T>)
    requires a <= b
    ensures |a| <= |b|
    decreases a
  {
    if x :| x in a {
      SubsetCard(a - {x}, b - {x});
    }
  }

  /** A set larger than `bad` has an element outside it. */
  lemma Escape<T>(a: set<T>, bad: set<T>) returns (x: T)
    requires |a| > |bad|
    ensures x in a && x !in bad
  {
    if a <= bad {
      SubsetCard(a, bad);
      assert false;
    }
    x :| x in a && x !in bad;
  }

  /** Removing at most `|bad|` elements. */
  lemma DifferenceCard<T>(a: set<T>, bad: set<T>)
    ensures |a - bad| >= |a| - |bad|
  {
    assert a == (a - bad) + (a * bad);
    SubsetCard(a * bad, bad);
  }

  /** Two subsets of `all` overlap in at least the excess of their sizes. */
  lemma OverlapCard<T>(a: set<T>, b: set<T>, all: set<T>)
    requires a <= all && b <= all
    ensures |a * b| >= |a| + |b| - |all|
  {
    assert |a + b| == |a| + |b| - |a * b|;
    SubsetCard(a + b, all);
  }

  /** An injective map into a set is no larger than the set. */
  lemma {:induction false} Pigeonhole<K, T>(pick: map<K, T>, holes: set<T>)
    requires forall i | i in pick :: pick[i] in holes
    requires forall i, j | i in pick && j in pick && i != j :: pick[i] != pick[j]
    ensures |pick| <= |holes|
    decreases holes
  {
    if i :| i in pick {
      var rest := map j | j in pick && j != i :: pick[j];
      assert pick.Keys == rest.Keys + {i};
      assert |pick| == |pick.Keys| && |rest| == |rest.Keys|;
      Pigeonhole(rest, holes - {pick[i]});
    }
  }

  /** The integers from `lo` up to `hi`. */
  lemma {:induction false} IntervalCard(s: set<int>, lo: int, hi: int)
    requires lo <= hi && forall u :: u in s <==> lo <= u < hi
    ensures |s| == hi - lo
    decreases hi - lo
  {
    if lo < hi {
      IntervalCard(s - {hi - 1}, lo, hi - 1);
    } else {
      assert forall u :: u !in s;
      assert s == {};
    }
  }

  // ---- Sequences without repetition ----

  ghost predicate Distinct(s: seq<nat>) {
    forall i, j | 0 <= i < j < |s| :: s[i] != s[j]
  }

  ghost function Elements(s: seq<nat>): (e: set<nat>)
    ensures forall x :: x in e <==> x in s
  {
    set x | x in s
  }

  lemma {:induction false} DistinctCard(s: seq<nat>)
    requires Distinct(s)
    ensures |Elements(s)| == |s|
    decreases |s|
  {
    if s != [] {
      var k := |s| - 1;
      assert s == s[..k] + [s[k]];
      DistinctCard(s[..k]);
      assert Elements(s) == Elements(s[..k]) + {s[k]};
    }
  }

  /** A set as a sequence. */
  lemma {:induction false} Enumerate(s: set<nat>) returns (q: seq<nat>)
    ensures Distinct(q) && Elements(q) == s && |q| == |s|
    decreases s
  {
    if s == {} {
      q := [];
    } else {
      var x :| x in s;
      var rest := Enumerate(s - {x});
      q := rest + [x];
      assert x !in rest by { assert x !in Elements(rest); }
      assert Elements(q) == Elements(rest) + {x};
    }
  }

  /** A subset of the given size. */
  lemma {:induction false} Choose(s: set<nat>, k: nat) returns (some: set<nat>)
    requires k <= |s|
    ensures some <= s && |some| == k
    decreases s
  {
    if k == |s| {
      some := s;
    } else {
      var x :| x in s;
      some := Choose(s - {x}, k);
    }
  }
}
