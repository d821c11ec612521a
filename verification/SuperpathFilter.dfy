/**
  The filter that drops a received path when the nodes of an earlier one are
  among its own. Dropping loses no family of disjoint paths.
 */
module SuperpathFilter {
  import opened Counting

  /** What a path was received for: a message type and the node it originates from. */
  datatype Content = Content(msgType: int, sender: nat)

  const BITSET_MAX_SIZE: nat := 100

  type Bits = b: seq<bool> | |b| == 100 witness seq(100, _ => false)

  ghost function Nodes(b: Bits): (s: set<nat>)
    ensures forall i: nat :: i in s <==> i < 100 && b[i]
  {
    set i: nat | i < 100 && b[i]
  }

  ghost predicate Fits(path: seq<nat>) {
    forall i | 0 <= i < |path| :: path[i] < BITSET_MAX_SIZE
  }

  ghost function NodesOf(path: seq<nat>): (s: set<nat>)
    ensures forall i :: i in s <==> i in path
  {
    set i | i in path
  }

  /** The family that check-then-insert keeps of a sequence of paths. */
  ghost function Kept(paths: seq<set<nat>>): (kept: seq<set<nat>>) {
    if paths == [] then []
    else
      var k := |paths| - 1;
      Offered(Kept(paths[..k]), paths[k])
  }

  ghost function Offered(kept: seq<set<nat>>, path: set<nat>): seq<set<nat>> {
    if Known(kept, path) then kept else kept + [path]
  }

  ghost predicate Known(kept: seq<set<nat>>, path: set<nat>) {
    exists k | 0 <= k < |kept| :: kept[k] <= path
  }

  // ---- Losslessness ----

  /** The picked paths meet only in `ends`. */
  ghost predicate Disjoint(paths: seq<set<nat>>, pick: set<nat>, ends: set<nat>) {
    && (forall i | i in pick :: i < |paths|)
    && (forall i, j | i in pick && j in pick && i != j :: paths[i] * paths[j] <= ends)
  }

  ghost predicate HasDisjoint(paths: seq<set<nat>>, m: nat, ends: set<nat>) {
    exists pick :: Disjoint(paths, pick, ends) && |pick| >= m
  }

  /** `paths[i]` is represented among the kept paths by `kept[to[i]]`. */
  ghost predicate Represents(paths: seq<set<nat>>, kept: seq<set<nat>>, to: map<nat, nat>) {
    forall i | i in to :: i < |paths| && to[i] < |kept| && kept[to[i]] <= paths[i]
  }

  ghost function Image(pick: set<nat>, to: map<nat, nat>): (s: set<nat>)
    requires forall i | i in pick :: i in to
  {
    set i | i in pick :: to[i]
  }

  /** Representing sets that are smaller keep a family disjoint and as large. */
  lemma ImageIsDisjoint(paths: seq<set<nat>>, kept: seq<set<nat>>, to: map<nat, nat>, pick: set<nat>, ends: set<nat>)
    requires Represents(paths, kept, to) && Disjoint(paths, pick, ends) && pick == to.Keys
    requires forall j | 0 <= j < |kept| :: !(kept[j] <= ends)
    ensures Disjoint(kept, Image(pick, to), ends) && |Image(pick, to)| >= |pick|
  {
    forall i, j | i in pick && j in pick && i != j
      ensures to[i] != to[j] && kept[to[i]] * kept[to[j]] <= ends
    {
      assert kept[to[i]] * kept[to[j]] <= paths[i] * paths[j];
    }
    Pigeonhole(to, Image(pick, to));
  }

  lemma {:induction false} EveryPathIsCovered(paths: seq<set<nat>>, i: nat)
    requires i < |paths|
    ensures Known(Kept(paths), paths[i])
  {
    var k := |paths| - 1;
    var before := Kept(paths[..k]);
    if i < k {
      EveryPathIsCovered(paths[..k], i);
      var j :| 0 <= j < |before| && before[j] <= paths[i];
      assert Kept(paths)[j] == before[j];
    } else if !Known(before, paths[k]) {
      assert Kept(paths)[|before|] == paths[k];
    }
  }

  /** Where a kept path stood in the sequence. */
  lemma {:induction false} KeptComesFrom(paths: seq<set<nat>>) returns (from: seq<nat>)
    ensures Selects(paths, from, Kept(paths))
  {
    if paths == [] {
      from := [];
    } else {
      var k := |paths| - 1;
      from := KeptComesFrom(paths[..k]);
      SelectsMore(paths, from, Kept(paths[..k]));
      if !Known(Kept(paths[..k]), paths[k]) {
        from := from + [k];
      }
    }
  }

  /** `kept` is the subsequence of `paths` at the indices `from`. */
  ghost predicate Selects(paths: seq<set<nat>>, from: seq<nat>, kept: seq<set<nat>>) {
    && |from| == |kept|
    && (forall j | 0 <= j < |from| :: from[j] < |paths| && kept[j] == paths[from[j]])
    && (forall i, j | 0 <= i < j < |from| :: from[i] < from[j])
  }

  lemma SelectsMore(paths: seq<set<nat>>, from: seq<nat>, kept: seq<set<nat>>)
    requires paths != [] && Selects(paths[..|paths| - 1], from, kept)
    ensures Selects(paths, from, kept) && Selects(paths, from + [|paths| - 1], kept + [paths[|paths| - 1]])
  {
    forall j | 0 <= j < |from|
      ensures from[j] < |paths| - 1 && kept[j] == paths[from[j]]
    {
      assert kept[j] == paths[..|paths| - 1][from[j]];
    }
  }

  lemma KeptFamilyIsReceived(paths: seq<set<nat>>, pick: set<nat>, ends: set<nat>)
    requires Disjoint(Kept(paths), pick, ends)
    ensures HasDisjoint(paths, |pick|, ends)
  {
    var from := KeptComesFrom(paths);
    var to := map j | j in pick :: from[j];
    var image := set j | j in pick :: to[j];
    Pigeonhole(to, image);
    assert to.Keys == pick && |to| == |to.Keys|;
    assert Disjoint(paths, image, ends);
  }

  lemma ReceivedFamilyIsKept(paths: seq<set<nat>>, pick: set<nat>, ends: set<nat>)
    requires Disjoint(paths, pick, ends)
    requires forall i | 0 <= i < |paths| :: !(paths[i] <= ends)
    ensures HasDisjoint(Kept(paths), |pick|, ends)
  {
    var kept := Kept(paths);
    forall i | i in pick
      ensures Known(kept, paths[i])
    {
      EveryPathIsCovered(paths, i);
    }
    var to := map i | i in pick :: CoverOf(kept, paths[i]);
    var from := KeptComesFrom(paths);
    assert to.Keys == pick && |to| == |to.Keys|;
    ImageIsDisjoint(paths, kept, to, pick, ends);
  }

  ghost function CoverOf(kept: seq<set<nat>>, path: set<nat>): (k: nat)
    requires Known(kept, path)
    ensures k < |kept| && kept[k] <= path
  {
    var k: nat :| k < |kept| && kept[k] <= path;
    k
  }

  /** The kept family holds `m` paths that meet only in `ends` iff the full sequence does. */
  lemma FilterIsLossless(paths: seq<set<nat>>, m: nat, ends: set<nat>)
    requires forall i | 0 <= i < |paths| :: !(paths[i] <= ends)
    ensures HasDisjoint(Kept(paths), m, ends) <==> HasDisjoint(paths, m, ends)
  {
    if HasDisjoint(Kept(paths), m, ends) {
      var pick :| Disjoint(Kept(paths), pick, ends) && |pick| >= m;
      KeptFamilyIsReceived(paths, pick, ends);
    }
    if HasDisjoint(paths, m, ends) {
      var pick :| Disjoint(paths, pick, ends) && |pick| >= m;
      ReceivedFamilyIsKept(paths, pick, ends);
    }
  }

  /** A path is dropped exactly when an earlier one is contained in it. */
  lemma DroppedExactly(paths: seq<set<nat>>, path: set<nat>)
    ensures Known(Kept(paths), path) <==> exists i | 0 <= i < |paths| :: paths[i] <= path
  {
    if Known(Kept(paths), path) {
      var k :| 0 <= k < |Kept(paths)| && Kept(paths)[k] <= path;
      var from := KeptComesFrom(paths);
      assert Kept(paths)[k] == paths[from[k]];
    }
    if i :| 0 <= i < |paths| && paths[i] <= path {
      EveryPathIsCovered(paths, i);
    }
  }

  /** No kept path is contained in a later one. */
  lemma {:induction false} KeptIsMinimal(paths: seq<set<nat>>)
    ensures forall i, j | 0 <= i < j < |Kept(paths)| :: !(Kept(paths)[i] <= Kept(paths)[j])
  {
    if paths != [] { KeptIsMinimal(paths[..|paths| - 1]); }
  }

  // ---- The peer's filter ----

  ghost function AllNodes(known: seq<Bits>): (s: seq<set<nat>>)
    ensures |s| == |known|
  {
    seq(|known|, k requires 0 <= k < |known| => Nodes(known[k]))
  }

  class Filter {
    var receivedPaths: map<Content, seq<Bits>>

    ghost function Family(xId: Content): (s: seq<set<nat>>)
      reads this
    {
      if xId in receivedPaths then AllNodes(receivedPaths[xId]) else []
    }

    constructor ()
      ensures forall xId :: Family(xId) == []
    {
      receivedPaths := map[];
    }

    method CheckIfSubpathReceived(xId: Content, path: seq<nat>) returns (known: bool)
      requires Fits(path)
      ensures known <==> Known(Family(xId), NodesOf(path))
    {
      known := false;
      if xId in receivedPaths {
        var candidate: Bits := seq(100, i requires 0 <= i < 100 => i in path);
        for k := 0 to |receivedPaths[xId]|
          invariant forall l | 0 <= l < k :: !(Nodes(receivedPaths[xId][l]) <= NodesOf(path))
        {
          var knownBits := receivedPaths[xId][k];
          var isSubset := true;
          for i := 0 to BITSET_MAX_SIZE
            invariant isSubset <==> forall j | 0 <= j < i :: knownBits[j] ==> candidate[j]
          {
            if knownBits[i] && !candidate[i] {
              isSubset := false;
              break;
            }
          }
          assert isSubset <==> Nodes(knownBits) <= NodesOf(path);
          if isSubset {
            assert Family(xId)[k] <= NodesOf(path);
            return true;
          }
        }
      }
    }

    method InsertPath(xId: Content, path: seq<nat>)
      requires Fits(path)
      modifies this
      ensures Family(xId) == old(Family(xId)) + [NodesOf(path)]
      ensures forall other: Content | other != xId :: Family(other) == old(Family(other))
    {
      var bits: Bits := seq(100, i requires 0 <= i < 100 => i in path);
      assert Nodes(bits) == NodesOf(path);
      if xId !in receivedPaths {
        receivedPaths := receivedPaths[xId := [bits]];
      } else {
        receivedPaths := receivedPaths[xId := receivedPaths[xId] + [bits]];
      }
    }

    /** Check, then insert: the way every handler uses the filter. */
    method Offer(xId: Content, path: seq<nat>) returns (isNew: bool)
      requires Fits(path)
      modifies this
      ensures isNew <==> !Known(old(Family(xId)), NodesOf(path))
      ensures Family(xId) == Offered(old(Family(xId)), NodesOf(path))
      ensures forall other: Content | other != xId :: Family(other) == old(Family(other))
    {
      var known := CheckIfSubpathReceived(xId, path);
      if !known {
        InsertPath(xId, path);
      }
      isNew := !known;
    }
  }
}
