/**
  Why faulty nodes alone cannot forge `f + 1` disjoint paths: a path that does
  not come from the originator carries the faulty node it went through.
 */
module Taint {
  import opened Counting
  import opened DisjointSearch
  import opened Dissemination

  ghost predicate TaintedMask(faulty: set<nat>, mask: Mask) {
    exists q :: q in faulty && q < |mask| && mask[q]
  }

  ghost predicate TaintedPath(faulty: set<nat>, path: seq<nat>) {
    exists q :: q in faulty && q in path
  }

  ghost predicate TaintedLists(faulty: set<nat>, lists: Lists) {
    forall i, k | 0 <= i < |lists| && 0 <= k < |lists[i]| :: TaintedMask(faulty, lists[i][k])
  }

  ghost function TaintOf(faulty: set<nat>, mask: Mask): (q: nat)
    requires TaintedMask(faulty, mask)
    ensures q in faulty && q < |mask| && mask[q]
  {
    var q :| q in faulty && q < |mask| && mask[q];
    q
  }

  /** Tainted paths that are disjoint, a correct source excepted, are at most as many as the faulty nodes. */
  lemma TaintedFamilyIsSmall(faulty: set<nat>, lists: Lists, pick: map<nat, nat>, source: nat)
    requires source !in faulty && TaintedLists(faulty, lists) && WellFormed(lists) && Family(lists, pick, source)
    ensures |pick| <= |faulty|
  {
    var hit := map i | i in pick :: TaintOf(faulty, lists[i][pick[i]]);
    forall i, j | i in hit && j in hit && i != j
      ensures hit[i] != hit[j]
    {
      assert Apart(lists[i][pick[i]], lists[j][pick[j]], source);
    }
    Pigeonhole(hit, faulty);
    assert hit.Keys == pick.Keys;
  }

  /** A message from a faulty node, or with a tainted path, gives a tainted assembled path. */
  lemma TaintedAssembled(faulty: set<nat>, origin: nat, m: Packet)
    requires origin !in faulty && (m.from in faulty || TaintedPath(faulty, m.path))
    ensures TaintedPath(faulty, Assembled(origin, m))
  {
    if m.from in faulty {
      assert m.from in Assembled(origin, m);
    } else {
      var q :| q in faulty && q in m.path;
      assert q in Assembled(origin, m);
    }
  }

  lemma TaintedStored(cfg: Config, faulty: set<nat>, origin: nat, st: NodeState, m: Packet)
    requires FitsIn(cfg, st, m) && (forall q | q in faulty :: q < cfg.n)
    requires TaintedLists(faulty, st.lists) && TaintedPath(faulty, Assembled(origin, m))
    ensures TaintedLists(faulty, Stored(cfg, origin, st, m))
  {
    var path := Assembled(origin, m);
    var q :| q in faulty && q in path;
    assert MaskOf(path, cfg.n)[q];
    assert TaintedMask(faulty, MaskOf(path, cfg.n));
  }

  /** What a node stores when every neighbour passes on a message of the source alone. */
  function OneHopLists(n: nat, source: nat): (lists: Lists)
    ensures |lists| == n && WellFormed(lists)
  {
    seq(n, i requires 0 <= i < n => [MaskOf([source, i], n)])
  }

  lemma OneHopFamily(n: nat, f: nat, source: nat)
    requires f + 1 <= n
    ensures HasDisjoint(OneHopLists(n, source), source, f + 1)
  {
    var lists := OneHopLists(n, source);
    var pick := map i | i in Below(f + 1) :: |lists[i]| - 1;
    assert pick.Keys == Below(f + 1) && |pick| == |pick.Keys|;
    forall i, j | i in pick && j in pick && i != j
      ensures Apart(lists[i][pick[i]], lists[j][pick[j]], source)
    {
      OneHopApart(n, source, i, j);
    }
    assert Family(lists, pick, source);
  }

  lemma OneHopApart(n: nat, source: nat, i: nat, j: nat)
    requires i < n && j < n && i != j
    ensures Apart(MaskOf([source, i], n), MaskOf([source, j], n), source)
  {
  }

  /** Counting disjoint paths excludes forgery exactly when the node left out of the
      comparison is correct: a faulty one alone can put itself on `f + 1` disjoint paths. */
  lemma ForgeryNeedsAFaultySource(n: nat, f: nat, faulty: set<nat>, source: nat)
    requires f + 1 <= n && source < n && |faulty| <= f
    ensures (forall lists: Lists | |lists| == n && WellFormed(lists) && TaintedLists(faulty, lists) ::
               !HasDisjoint(lists, source, f + 1)) <==> source !in faulty
  {
    if source !in faulty {
      forall lists: Lists, pick | WellFormed(lists) && TaintedLists(faulty, lists) && Family(lists, pick, source)
        ensures |pick| <= |faulty|
      {
        TaintedFamilyIsSmall(faulty, lists, pick, source);
      }
    } else {
      var lists := OneHopLists(n, source);
      forall i, k | 0 <= i < n && 0 <= k < |lists[i]|
        ensures TaintedMask(faulty, lists[i][k])
      {
        assert source < |lists[i][k]| && lists[i][k][source];
      }
      OneHopFamily(n, f, source);
    }
  }
}
