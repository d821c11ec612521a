/**
  The delivery test shared by the Dolev and the Bracha-Dolev handlers: do the
  newest path and `f` stored paths from other link senders have no node in
  common, the source excepted?
 */
module DisjointSearch {
  import opened Counting
  import opened Permutation

  /** One received path as the set of its nodes: bit `j` is set iff `j` is on it. */
  type Mask = seq<bool>

  /** The stored paths of one message: for every link sender, in order of arrival. */
  type Lists = seq<seq<Mask>>

  predicate WellFormed(lists: Lists) {
    forall i, k | 0 <= i < |lists| && 0 <= k < |lists[i]| :: |lists[i][k]| == |lists|
  }

  ghost predicate Apart(a: Mask, b: Mask, source: nat) {
    forall j | 0 <= j < |a| && j < |b| && j != source :: !(a[j] && b[j])
  }

  /** `pick` names one stored path for each of its link senders. */
  ghost predicate Picks(lists: Lists, pick: map<nat, nat>) {
    forall i | i in pick :: i < |lists| && pick[i] < |lists[i]|
  }

  /** The picked paths are pairwise disjoint outside the source. */
  ghost predicate Family(lists: Lists, pick: map<nat, nat>, source: nat) {
    && Picks(lists, pick)
    && forall i, j | i in pick && j in pick && i != j ::
         Apart(lists[i][pick[i]], lists[j][pick[j]], source)
  }

  ghost predicate Uses(lists: Lists, pick: map<nat, nat>, sender: nat) {
    sender < |lists| && sender in pick && pick[sender] == |lists[sender]| - 1
  }

  /** Some `m` stored paths from distinct link senders are disjoint. */
  ghost predicate HasDisjoint(lists: Lists, source: nat, m: nat) {
    exists pick :: Family(lists, pick, source) && |pick| == m
  }

  /** ... and the newest path from `sender` is one of them. */
  ghost predicate NewestDisjoint(lists: Lists, source: nat, m: nat, sender: nat) {
    exists pick :: Family(lists, pick, source) && |pick| == m && Uses(lists, pick, sender)
  }

  lemma ExtendFamily(lists: Lists, rest: map<nat, nat>, l: nat, k: nat, source: nat)
    requires Family(lists, rest, source) && l < |lists| && k < |lists[l]|
    requires l !in rest
    requires forall j | j in rest :: Apart(lists[j][rest[j]], lists[l][k], source)
    ensures Family(lists, rest[l := k], source) && |rest[l := k]| == |rest| + 1
  {
    assert rest[l := k].Keys == rest.Keys + {l};
    assert |rest[l := k]| == |rest[l := k].Keys| && |rest| == |rest.Keys|;
  }

  /** Stored paths, one per entry, given by link sender and position. */
  ghost predicate AllThere(lists: Lists, senders: seq<nat>, slots: seq<nat>) {
    |senders| == |slots| && forall i | 0 <= i < |senders| :: senders[i] < |lists| && slots[i] < |lists[senders[i]]|
  }

  ghost predicate ApartAt(lists: Lists, senders: seq<nat>, slots: seq<nat>, source: nat, i: nat, j: nat)
    requires AllThere(lists, senders, slots) && i < |senders| && j < |senders|
  {
    senders[i] != senders[j] && Apart(lists[senders[i]][slots[i]], lists[senders[j]][slots[j]], source)
  }

  /** Stored paths from different link senders that are pairwise apart make a family. */
  lemma {:induction false} PathsMakeFamily(lists: Lists, senders: seq<nat>, slots: seq<nat>, source: nat, m: nat)
    returns (pick: map<nat, nat>)
    requires AllThere(lists, senders, slots) && m <= |senders|
    requires forall i, j | 0 <= i < j < |senders| :: ApartAt(lists, senders, slots, source, i, j)
    ensures Family(lists, pick, source) && |pick| == m
    ensures forall h | h in pick :: exists i | 0 <= i < m :: senders[i] == h && slots[i] == pick[h]
  {
    if m == 0 {
      pick := map[];
    } else {
      pick := PathsMakeFamily(lists, senders, slots, source, m - 1);
      forall h | h in pick
        ensures h != senders[m - 1] && Apart(lists[h][pick[h]], lists[senders[m - 1]][slots[m - 1]], source)
      {
        var i :| 0 <= i < m - 1 && senders[i] == h && slots[i] == pick[h];
        assert ApartAt(lists, senders, slots, source, i, m - 1);
      }
      ExtendFamily(lists, pick, senders[m - 1], slots[m - 1], source);
      pick := pick[senders[m - 1] := slots[m - 1]];
    }
  }

  ghost predicate Holds(lists: Lists, from: nat, mask: Mask) {
    from < |lists| && exists k :: 0 <= k < |lists[from]| && lists[from][k] == mask
  }

  ghost function Slot(lists: Lists, from: nat, mask: Mask): (k: nat)
    requires Holds(lists, from, mask)
    ensures k < |lists[from]| && lists[from][k] == mask
  {
    var k: nat :| k < |lists[from]| && lists[from][k] == mask;
    k
  }

  /** Stored paths from different link senders, with these node sets, are a disjoint family. */
  lemma HeldIsDisjoint(lists: Lists, senders: seq<nat>, masks: seq<Mask>, source: nat)
    requires |senders| == |masks| && forall i | 0 <= i < |senders| :: Holds(lists, senders[i], masks[i])
    requires forall i, j | 0 <= i < j < |senders| :: senders[i] != senders[j] && Apart(masks[i], masks[j], source)
    ensures HasDisjoint(lists, source, |senders|)
  {
    var slots := seq(|senders|, i requires 0 <= i < |senders| && Holds(lists, senders[i], masks[i]) =>
                                  Slot(lists, senders[i], masks[i]));
    assert AllThere(lists, senders, slots);
    forall i, j | 0 <= i < j < |senders|
      ensures ApartAt(lists, senders, slots, source, i, j)
    {
    }
    var pick := PathsMakeFamily(lists, senders, slots, source, |senders|);
  }

  /** The same for a set of link senders, one path each. */
  lemma HeldSetIsDisjoint(lists: Lists, senders: set<nat>, mask: nat -> Mask, source: nat)
    requires forall x | x in senders :: Holds(lists, x, mask(x))
    requires forall x, y | x in senders && y in senders && x != y :: Apart(mask(x), mask(y), source)
    ensures HasDisjoint(lists, source, |senders|)
  {
    var order := Enumerate(senders);
    var masks := seq(|order|, i requires 0 <= i < |order| => mask(order[i]));
    forall i | 0 <= i < |order|
      ensures order[i] in senders && Holds(lists, order[i], masks[i])
    {
      assert order[i] in Elements(order);
    }
    HeldIsDisjoint(lists, order, masks, source);
  }

  // ---- Index tuples: the odometer over the lists of the selected senders ----

  ghost predicate InRange(t: seq<nat>, sizes: seq<nat>) {
    |t| == |sizes| && forall i | 0 <= i < |t| :: t[i] < sizes[i]
  }

  /** Odometer order: the rightmost difference decides. */
  ghost predicate Earlier(a: seq<nat>, b: seq<nat>) {
    |a| == |b| && exists k :: EarlierAt(a, b, k)
  }

  ghost predicate EarlierAt(a: seq<nat>, b: seq<nat>, k: int)
    requires |a| == |b|
  {
    0 <= k < |a| && a[k] < b[k] && forall j | k < j < |a| :: a[j] == b[j]
  }

  ghost function AllTuples(sizes: seq<nat>): set<seq<nat>> {
    if sizes == [] then {[]}
    else set h: nat, t | h < sizes[0] && t in AllTuples(sizes[1..]) :: [h] + t
  }

  lemma {:induction false} AllTuplesComplete(t: seq<nat>, sizes: seq<nat>)
    requires InRange(t, sizes)
    ensures t in AllTuples(sizes)
  {
    if sizes != [] {
      AllTuplesComplete(t[1..], sizes[1..]);
      assert t == [t[0]] + t[1..];
    }
  }

  lemma EarlierTransitive(a: seq<nat>, b: seq<nat>, c: seq<nat>)
    requires Earlier(a, b) && Earlier(b, c)
    ensures Earlier(a, c)
  {
    var k :| EarlierAt(a, b, k);
    var l :| EarlierAt(b, c, l);
    assert EarlierAt(a, c, if k < l then l else k);
  }

  lemma EarlierIrreflexive(a: seq<nat>, b: seq<nat>)
    requires Earlier(a, b)
    ensures a != b
  {
    var k :| EarlierAt(a, b, k);
  }

  /** The rightmost difference below `n`, if there is one. */
  lemma {:induction false} RightmostDifference(a: seq<nat>, b: seq<nat>, n: nat) returns (k: int)
    requires |a| == |b| && n <= |a|
    ensures k == -1 ==> forall j | 0 <= j < n :: a[j] == b[j]
    ensures k != -1 ==> 0 <= k < n && a[k] != b[k] && forall j | k < j < n :: a[j] == b[j]
  {
    if n == 0 {
      k := -1;
    } else if a[n - 1] != b[n - 1] {
      k := n - 1;
    } else {
      k := RightmostDifference(a, b, n - 1);
    }
  }

  /** What one odometer step leaves: positions below `pos` restart, the pinned
      one excepted, and position `pos` moves on. Nothing is pinned when `pin == |a|`. */
  ghost predicate Advanced(a: seq<nat>, b: seq<nat>, pos: nat, pin: nat) {
    && |a| == |b| && pos < |a| && pin <= |a|
    && b[pos] == a[pos] + 1
    && (forall j | 0 <= j < pos :: b[j] == if j == pin then a[j] else 0)
    && (forall j | pos < j < |a| :: b[j] == a[j])
  }

  /** The odometer skips no tuple that agrees on the pinned position. */
  lemma NothingBetween(a: seq<nat>, b: seq<nat>, pos: nat, pin: nat, sizes: seq<nat>, t: seq<nat>)
    requires InRange(a, sizes) && Advanced(a, b, pos, pin)
    requires forall j | 0 <= j < pos :: a[j] == sizes[j] - 1
    requires InRange(t, sizes) && (pin < |t| ==> t[pin] == a[pin]) && Earlier(t, b)
    ensures t == a || Earlier(t, a)
  {
    var k :| EarlierAt(t, b, k);
    var d := RightmostDifference(t, a, |a|);
    if d != -1 {
      assert k >= pos;
      assert EarlierAt(t, a, d);
    }
  }

  lemma StepIsLater(a: seq<nat>, b: seq<nat>, pos: nat, pin: nat)
    requires Advanced(a, b, pos, pin)
    ensures Earlier(a, b)
  {
    assert EarlierAt(a, b, pos);
  }

  lemma LastIsLatest(a: seq<nat>, sizes: seq<nat>, t: seq<nat>)
    requires InRange(a, sizes) && forall j | 0 <= j < |a| :: a[j] == sizes[j] - 1
    requires InRange(t, sizes)
    ensures t == a || Earlier(t, a)
  {
    var d := RightmostDifference(t, a, |a|);
    if d != -1 {
      assert EarlierAt(t, a, d);
    }
  }

  method Advance(index: array<nat>, sizes: seq<nat>, pin: nat) returns (pos: nat)
    requires InRange(index[..], sizes) && pin <= |sizes| && (pin < |sizes| ==> index[pin] == sizes[pin] - 1)
    modifies index
    ensures pos <= index.Length
    ensures forall j | 0 <= j < pos :: old(index[j]) == sizes[j] - 1
    ensures pos < index.Length ==>
              && Advanced(old(index[..]), index[..], pos, pin)
              && InRange(index[..], sizes)
              && pos != pin
  {
    pos := 0;
    while pos < index.Length && index[pos] == sizes[pos] - 1
      invariant pos <= index.Length
      invariant forall j | 0 <= j < pos :: old(index[j]) == sizes[j] - 1
      invariant forall j | 0 <= j < pos :: index[j] == if j == pin then old(index[j]) else 0
      invariant forall j | pos <= j < index.Length :: index[j] == old(index[j])
    {
      if pos != pin {
        index[pos] := 0;
      }
      pos := pos + 1;
    }
    if pos < index.Length {
      index[pos] := index[pos] + 1;
    }
  }

  // ---- One combination of link senders ----

  ghost predicate Increasing(sel: seq<nat>) {
    forall i, j | 0 <= i < j < |sel| :: sel[i] < sel[j]
  }

  /** `sel` lists link senders that each have at least one stored path. */
  ghost predicate Selectable(lists: Lists, sel: seq<nat>) {
    Increasing(sel) && forall i | 0 <= i < |sel| :: sel[i] < |lists| && lists[sel[i]] != []
  }

  function Sizes(lists: Lists, sel: seq<nat>): (s: seq<nat>)
    requires forall i | 0 <= i < |sel| :: sel[i] < |lists|
    ensures |s| == |sel|
  {
    seq(|sel|, i requires 0 <= i < |sel| => |lists[sel[i]]|)
  }

  ghost predicate TupleApart(lists: Lists, sel: seq<nat>, t: seq<nat>, source: nat)
    requires Selectable(lists, sel) && InRange(t, Sizes(lists, sel))
  {
    forall i, j | 0 <= i < j < |sel| :: Apart(lists[sel[i]][t[i]], lists[sel[j]][t[j]], source)
  }

  /** Adds one path to the union of those seen; reports a node met before. */
  method MarkPath(current: Mask, source: nat, union: array<bool>) returns (clash: bool)
    requires |current| == union.Length
    modifies union
    ensures forall j | 0 <= j < union.Length ::
              union[j] == (old(union[j]) || (j != source && current[j]))
    ensures clash <==> exists j | 0 <= j < union.Length :: j != source && current[j] && old(union[j])
  {
    clash := false;
    for j := 0 to union.Length
      invariant forall k | 0 <= k < j :: union[k] == (old(union[k]) || (k != source && current[k]))
      invariant forall k | j <= k < union.Length :: union[k] == old(union[k])
      invariant clash <==> exists k | 0 <= k < j :: k != source && current[k] && old(union[k])
    {
      if j != source && current[j] {
        if union[j] {
          clash := true;
        } else {
          union[j] := true;
        }
      }
    }
  }

  ghost predicate Covered(lists: Lists, sel: seq<nat>, t: seq<nat>, source: nat, k: nat, j: nat)
    requires Selectable(lists, sel) && InRange(t, Sizes(lists, sel)) && WellFormed(lists)
    requires k <= |sel| && j < |lists|
  {
    j != source && exists i | 0 <= i < k :: lists[sel[i]][t[i]][j]
  }

  ghost predicate FirstApart(lists: Lists, sel: seq<nat>, t: seq<nat>, source: nat, k: nat)
    requires Selectable(lists, sel) && InRange(t, Sizes(lists, sel)) && k <= |sel|
  {
    forall p, q | 0 <= p < q < k :: Apart(lists[sel[p]][t[p]], lists[sel[q]][t[q]], source)
  }

  ghost predicate ApartFromFirst(lists: Lists, sel: seq<nat>, t: seq<nat>, source: nat, k: nat)
    requires Selectable(lists, sel) && InRange(t, Sizes(lists, sel)) && k < |sel|
  {
    forall p | 0 <= p < k :: Apart(lists[sel[p]][t[p]], lists[sel[k]][t[k]], source)
  }

  /** The next path meets the union of the first `k` iff it meets one of them. */
  lemma ClashMeans(lists: Lists, sel: seq<nat>, t: seq<nat>, source: nat, k: nat)
    requires WellFormed(lists) && Selectable(lists, sel) && InRange(t, Sizes(lists, sel)) && k < |sel|
    ensures (exists j | 0 <= j < |lists| :: lists[sel[k]][t[k]][j] && Covered(lists, sel, t, source, k, j))
       <==> !ApartFromFirst(lists, sel, t, source, k)
    ensures FirstApart(lists, sel, t, source, k + 1)
       <==> FirstApart(lists, sel, t, source, k) && ApartFromFirst(lists, sel, t, source, k)
  {
    var current := lists[sel[k]][t[k]];
    if j :| 0 <= j < |lists| && current[j] && Covered(lists, sel, t, source, k, j) {
      var p :| 0 <= p < k && lists[sel[p]][t[p]][j];
      assert !Apart(lists[sel[p]][t[p]], current, source);
    }
    if p :| 0 <= p < k && !Apart(lists[sel[p]][t[p]], current, source) {
      var j :| 0 <= j < |lists| && j != source && lists[sel[p]][t[p]][j] && current[j];
      assert Covered(lists, sel, t, source, k, j);
    }
  }

  /** What marking the next path makes of the union. */
  lemma MarkedMeans(lists: Lists, sel: seq<nat>, t: seq<nat>, source: nat, k: nat, was: seq<bool>, now: seq<bool>)
    requires WellFormed(lists) && Selectable(lists, sel) && InRange(t, Sizes(lists, sel)) && k < |sel|
    requires |was| == |now| == |lists|
    requires forall j | 0 <= j < |lists| :: was[j] <==> Covered(lists, sel, t, source, k, j)
    requires forall j | 0 <= j < |lists| :: now[j] == (was[j] || (j != source && lists[sel[k]][t[k]][j]))
    ensures forall j | 0 <= j < |lists| :: now[j] <==> Covered(lists, sel, t, source, k + 1, j)
  {
  }

  /** Do the paths that `index` points at avoid each other outside the source? */
  method AllApart(lists: Lists, sel: seq<nat>, index: array<nat>, source: nat) returns (apart: bool)
    requires WellFormed(lists) && Selectable(lists, sel) && InRange(index[..], Sizes(lists, sel))
    ensures apart <==> TupleApart(lists, sel, index[..], source)
  {
    apart := true;
    var union := new bool[|lists|](_ => false);
    ghost var t := index[..];
    for i := 0 to |sel|
      invariant index[..] == t
      invariant forall j | 0 <= j < |lists| :: union[j] <==> Covered(lists, sel, t, source, i, j)
      invariant apart <==> FirstApart(lists, sel, t, source, i)
    {
      ghost var was := union[..];
      ClashMeans(lists, sel, t, source, i);
      var clash := MarkPath(lists[sel[i]][index[i]], source, union);
      MarkedMeans(lists, sel, t, source, i, was, union[..]);
      assert clash == !ApartFromFirst(lists, sel, t, source, i);
      if clash {
        apart := false;
      }
    }
  }

  /** A tuple that keeps the pinned position, if there is one. */
  ghost predicate Candidate(sizes: seq<nat>, pin: nat, t: seq<nat>)
    requires pin <= |sizes|
  {
    InRange(t, sizes) && (pin < |sizes| ==> t[pin] == sizes[pin] - 1)
  }

  /** Where the odometer starts: all at 0, except for position `slot`. */
  ghost function Start(m: nat, slot: nat, last: nat): seq<nat> {
    seq(m, i => if i == slot then last else 0)
  }

  /** The tuples the odometer has not gone past yet. */
  ghost function Remaining(sizes: seq<nat>, index: seq<nat>): set<seq<nat>> {
    set t | t in AllTuples(sizes) && !Earlier(t, index)
  }

  lemma RemainingFalls(sizes: seq<nat>, a: seq<nat>, b: seq<nat>)
    requires InRange(a, sizes) && Earlier(a, b)
    ensures Remaining(sizes, b) < Remaining(sizes, a)
  {
    AllTuplesComplete(a, sizes);
    if Earlier(a, a) { EarlierIrreflexive(a, a); }
    assert a in Remaining(sizes, a) && a !in Remaining(sizes, b);
    forall t | t in Remaining(sizes, b)
      ensures t in Remaining(sizes, a)
    {
      if Earlier(t, a) { EarlierTransitive(t, a, b); }
    }
  }

  /** No candidate between `start` and `index` is a tuple of disjoint paths. */
  ghost predicate NoneBefore(lists: Lists, sel: seq<nat>, pin: nat, source: nat, start: seq<nat>, index: seq<nat>)
    requires Selectable(lists, sel) && pin <= |sel|
  {
    forall t | Candidate(Sizes(lists, sel), pin, t) && Earlier(t, index) && !Earlier(t, start) ::
      !TupleApart(lists, sel, t, source)
  }

  lemma NoneBeforeNext(lists: Lists, sel: seq<nat>, pin: nat, source: nat, start: seq<nat>,
                       a: seq<nat>, b: seq<nat>, pos: nat)
    requires Selectable(lists, sel) && pin <= |sel|
    requires Candidate(Sizes(lists, sel), pin, a) && Advanced(a, b, pos, pin)
    requires forall j | 0 <= j < pos :: a[j] == Sizes(lists, sel)[j] - 1
    requires NoneBefore(lists, sel, pin, source, start, a) && !TupleApart(lists, sel, a, source)
    ensures NoneBefore(lists, sel, pin, source, start, b)
  {
    forall t | Candidate(Sizes(lists, sel), pin, t) && Earlier(t, b) && !Earlier(t, start)
      ensures !TupleApart(lists, sel, t, source)
    {
      NothingBetween(a, b, pos, pin, Sizes(lists, sel), t);
    }
  }

  lemma NoneAtAll(lists: Lists, sel: seq<nat>, pin: nat, source: nat, start: seq<nat>, a: seq<nat>)
    requires Selectable(lists, sel) && pin <= |sel|
    requires Candidate(Sizes(lists, sel), pin, a)
    requires forall j | 0 <= j < |sel| :: a[j] == Sizes(lists, sel)[j] - 1
    requires NoneBefore(lists, sel, pin, source, start, a) && !TupleApart(lists, sel, a, source)
    ensures forall t | Candidate(Sizes(lists, sel), pin, t) && !Earlier(t, start) :: !TupleApart(lists, sel, t, source)
  {
    forall t | Candidate(Sizes(lists, sel), pin, t) && !Earlier(t, start)
      ensures !TupleApart(lists, sel, t, source)
    {
      LastIsLatest(a, Sizes(lists, sel), t);
    }
  }

  /** With the newest path pinned the odometer starts at the first candidate. */
  lemma PinnedStartIsFirst(lists: Lists, sel: seq<nat>, pin: nat, t: seq<nat>)
    requires Selectable(lists, sel) && pin < |sel| && Candidate(Sizes(lists, sel), pin, t)
    ensures !Earlier(t, Start(|sel|, pin, |lists[sel[pin]]| - 1))
  {
  }

  /** The odometer loop over one path per selected sender. It starts with position `slot`
      at `last` and never moves the pinned position. */
  method SearchTuples(lists: Lists, sel: seq<nat>, source: nat, slot: nat, last: nat, pin: nat) returns (found: bool)
    requires WellFormed(lists) && Selectable(lists, sel) && slot < |sel| && last < |lists[sel[slot]]|
    requires pin == |sel| || (pin == slot && last == |lists[sel[pin]]| - 1)
    ensures found <==> exists t | Candidate(Sizes(lists, sel), pin, t) && !Earlier(t, Start(|sel|, slot, last)) ::
                         TupleApart(lists, sel, t, source)
  {
    ghost var sizes, start := Sizes(lists, sel), Start(|sel|, slot, last);
    var index := new nat[|sel|](_ => 0);
    index[slot] := last;
    assert index[..] == start;
    while true
      invariant Candidate(sizes, pin, index[..]) && (index[..] == start || Earlier(start, index[..]))
      invariant NoneBefore(lists, sel, pin, source, start, index[..])
      decreases Remaining(sizes, index[..])
    {
      var apart := AllApart(lists, sel, index, source);
      ghost var now := index[..];
      NotBeforeStart(start, now);
      if apart {
        return true;
      }
      var pos := Advance(index, Sizes(lists, sel), pin);
      if pos == |sel| {
        NoneAtAll(lists, sel, pin, source, start, now);
        return false;
      }
      NoneBeforeNext(lists, sel, pin, source, start, now, index[..], pos);
      StepIsLater(now, index[..], pos, pin);
      LaterStays(start, now, index[..]);
      RemainingFalls(sizes, now, index[..]);
    }
  }

  lemma NotBeforeStart(start: seq<nat>, t: seq<nat>)
    requires t == start || Earlier(start, t)
    ensures !Earlier(t, start)
  {
    if Earlier(t, start) {
      if Earlier(start, t) { EarlierTransitive(start, t, start); }
      EarlierIrreflexive(start, start);
      assert false;
    }
  }

  lemma LaterStays(start: seq<nat>, a: seq<nat>, b: seq<nat>)
    requires (a == start || Earlier(start, a)) && Earlier(a, b)
    ensures Earlier(start, b)
  {
    if Earlier(start, a) { EarlierTransitive(start, a, b); }
  }

  // ---- All combinations of link senders ----

  /** Lists the senders that `bits` selects; invalid when one has no path. */
  method Select(lists: Lists, bits: seq<bool>, sender: nat) returns (valid: bool, sel: seq<nat>, pin: nat)
    requires |bits| == |lists|
    ensures valid <==> forall i | 0 <= i < |bits| && bits[i] :: lists[i] != []
    ensures valid ==> Selectable(lists, sel) && |sel| == Ones(bits) && forall i :: i in sel <==> i in Chosen(bits)
    ensures valid && sender in Chosen(bits) ==> pin < |sel| && sel[pin] == sender
  {
    valid, sel, pin := true, [], 0;
    for i := 0 to |bits|
      invariant forall k | 0 <= k < i && bits[k] :: lists[k] != []
      invariant |sel| == Ones(bits[..i]) && forall p | 0 <= p < |sel| :: sel[p] < i
      invariant Selectable(lists, sel)
      invariant forall k :: k in sel <==> 0 <= k < i && bits[k]
      invariant sender < i && bits[sender] ==> pin < |sel| && sel[pin] == sender
    {
      OnesSplit(bits[..i], bits[i]);
      assert bits[..i + 1] == bits[..i] + [bits[i]];
      if bits[i] {
        if |lists[i]| == 0 {
          valid := false;
          return;
        }
        if i == sender {
          pin := |sel|;
        }
        sel := sel + [i];
      }
    }
    assert bits[..|bits|] == bits;
  }

  /** A disjoint family over exactly the senders of `bits`, newest path included. */
  ghost predicate Hit(lists: Lists, source: nat, bits: seq<bool>, sender: nat) {
    exists pick :: Family(lists, pick, source) && pick.Keys == Chosen(bits) && Uses(lists, pick, sender)
  }

  lemma PickToTuple(lists: Lists, sel: seq<nat>, pin: nat, source: nat, pick: map<nat, nat>) returns (t: seq<nat>)
    requires Selectable(lists, sel) && pin < |sel|
    requires Family(lists, pick, source) && Uses(lists, pick, sel[pin])
    requires forall i :: i in sel <==> i in pick
    ensures Candidate(Sizes(lists, sel), pin, t) && TupleApart(lists, sel, t, source)
  {
    assert forall i | 0 <= i < |sel| :: sel[i] in sel;
    t := seq(|sel|, i requires 0 <= i < |sel| => pick[sel[i]]);
  }

  ghost function PickOf(sel: seq<nat>, t: seq<nat>): (pick: map<nat, nat>)
    requires Increasing(sel) && |t| == |sel|
    ensures forall i :: i in pick <==> i in sel
    ensures forall p | 0 <= p < |sel| :: pick[sel[p]] == t[p]
  {
    map p | 0 <= p < |sel| :: sel[p] := t[p]
  }

  lemma ApartEitherWay(lists: Lists, sel: seq<nat>, source: nat, t: seq<nat>, p: nat, q: nat)
    requires Selectable(lists, sel) && InRange(t, Sizes(lists, sel)) && TupleApart(lists, sel, t, source)
    requires p < |sel| && q < |sel| && p != q
    ensures Apart(lists[sel[p]][t[p]], lists[sel[q]][t[q]], source)
  {
    if q < p {
      assert Apart(lists[sel[q]][t[q]], lists[sel[p]][t[p]], source);
    }
  }

  lemma TupleIsFamily(lists: Lists, sel: seq<nat>, source: nat, t: seq<nat>)
    requires Selectable(lists, sel) && InRange(t, Sizes(lists, sel)) && TupleApart(lists, sel, t, source)
    ensures Family(lists, PickOf(sel, t), source)
  {
    var pick := PickOf(sel, t);
    forall i, j | i in pick && j in pick && i != j
      ensures Apart(lists[i][pick[i]], lists[j][pick[j]], source)
    {
      var p :| 0 <= p < |sel| && sel[p] == i;
      var q :| 0 <= q < |sel| && sel[q] == j;
      ApartEitherWay(lists, sel, source, t, p, q);
    }
  }

  /** Within one combination, tuples and picks say the same. */
  lemma HitIsTuple(lists: Lists, sel: seq<nat>, pin: nat, source: nat, bits: seq<bool>, sender: nat)
    requires Selectable(lists, sel) && pin < |sel| && sel[pin] == sender
    requires forall i :: i in sel <==> i in Chosen(bits)
    ensures Hit(lists, source, bits, sender)
       <==> exists t | Candidate(Sizes(lists, sel), pin, t) :: TupleApart(lists, sel, t, source)
  {
    if Hit(lists, source, bits, sender) {
      var pick :| Family(lists, pick, source) && pick.Keys == Chosen(bits) && Uses(lists, pick, sender);
      var t := PickToTuple(lists, sel, pin, source, pick);
    }
    if t :| Candidate(Sizes(lists, sel), pin, t) && TupleApart(lists, sel, t, source) {
      TupleIsFamily(lists, sel, source, t);
      assert PickOf(sel, t).Keys == Chosen(bits);
    }
  }

  lemma NoHitWithoutSender(lists: Lists, source: nat, bits: seq<bool>, sender: nat)
    requires |bits| == |lists| && Hit(lists, source, bits, sender)
    ensures sender < |bits| && bits[sender]
    ensures forall i | 0 <= i < |bits| && bits[i] :: lists[i] != []
  {
    var pick :| Family(lists, pick, source) && pick.Keys == Chosen(bits) && Uses(lists, pick, sender);
    forall i | 0 <= i < |bits| && bits[i]
      ensures lists[i] != []
    {
      assert i in Chosen(bits);
    }
  }

  ghost predicate Combination(bits: seq<bool>, n: nat, m: nat) {
    |bits| == n && Ones(bits) == m
  }

  ghost predicate NoneAfter(lists: Lists, source: nat, m: nat, sender: nat, bits: seq<bool>)
    requires |bits| == |lists|
  {
    forall b | Combination(b, |lists|, m) && Before(bits, b) :: !Hit(lists, source, b, sender)
  }

  lemma NewestIsHit(lists: Lists, source: nat, m: nat, sender: nat)
    ensures NewestDisjoint(lists, source, m, sender)
       <==> exists b | Combination(b, |lists|, m) :: Hit(lists, source, b, sender)
  {
    if NewestDisjoint(lists, source, m, sender) {
      var pick :| Family(lists, pick, source) && |pick| == m && Uses(lists, pick, sender);
      var b := Indicator(pick.Keys, |lists|);
      assert Combination(b, |lists|, m) && Hit(lists, source, b, sender);
    }
    if b :| Combination(b, |lists|, m) && Hit(lists, source, b, sender) {
      var pick :| Family(lists, pick, source) && pick.Keys == Chosen(b) && Uses(lists, pick, sender);
      ChosenCard(b);
      assert |pick| == |pick.Keys| == m;
    }
  }

  lemma NoneAfterNext(lists: Lists, source: nat, m: nat, sender: nat, bits: seq<bool>)
    requires Combination(bits, |lists|, m)
    requires NoneAfter(lists, source, m, sender, bits) && !Hit(lists, source, bits, sender)
    ensures Prev(bits).Some? ==> NoneAfter(lists, source, m, sender, Prev(bits).value)
    ensures Prev(bits).None? ==> !NewestDisjoint(lists, source, m, sender)
  {
    forall b | Combination(b, |lists|, m) && (Prev(bits).Some? ==> Before(Prev(bits).value, b))
      ensures !Hit(lists, source, b, sender)
    {
      NothingSkipped(bits, b, |lists|, m);
    }
    NewestIsHit(lists, source, m, sender);
  }

  /** Between a combination and the next one in the enumeration there is no other. */
  lemma NothingSkipped(bits: seq<bool>, b: seq<bool>, n: nat, m: nat)
    requires Combination(bits, n, m) && Combination(b, n, m)
    requires Prev(bits).Some? ==> Before(Prev(bits).value, b)
    ensures b == bits || Before(bits, b)
  {
    Trichotomy(bits, b);
    if Before(b, bits) {
      PrevIsPredecessor(bits, b);
      BeforeAsymmetric(b, Prev(bits).value);
    }
  }

  lemma {:induction false} BeforeAsymmetric(a: seq<bool>, b: seq<bool>)
    requires |a| == |b|
    ensures !(Before(a, b) && Before(b, a)) && !Before(a, a)
  {
    if a != [] {
      BeforeAsymmetric(a[1..], b[1..]);
    }
  }

  lemma NoneAfterTop(lists: Lists, source: nat, m: nat, sender: nat)
    requires m <= |lists|
    ensures NoneAfter(lists, source, m, sender, Top(|lists|, m))
  {
    forall b | Combination(b, |lists|, m)
      ensures !Before(Top(|lists|, m), b)
    {
      TopIsLast(b, m);
    }
  }

  /** The delivery test as it is meant: it enumerates the combinations of `f + 1` senders in
      the library's order and examines those that contain the link sender. */
  method MsgCanBeDelivered(lists: Lists, source: nat, numFaulty: nat, linkSender: nat) returns (found: bool)
    requires WellFormed(lists) && numFaulty + 1 <= |lists|
    requires linkSender < |lists| && lists[linkSender] != []
    ensures found <==> NewestDisjoint(lists, source, numFaulty + 1, linkSender)
  {
    var threshold := numFaulty + 1;
    var bits := Top(|lists|, threshold);
    TopOnes(|lists|, threshold);
    NoneAfterTop(lists, source, threshold, linkSender);
    while true
      invariant Combination(bits, |lists|, threshold)
      invariant NoneAfter(lists, source, threshold, linkSender, bits)
      decreases Rank(bits)
    {
      var hit := Examine(lists, source, bits, linkSender);
      if hit {
        NewestIsHit(lists, source, threshold, linkSender);
        return true;
      }
      NoneAfterNext(lists, source, threshold, linkSender, bits);
      PrevOnes(bits);
      match Prev(bits)
      case None => return false;
      case Some(next) =>
        RankFalls(next, bits);
        bits := next;
    }
  }

  method Examine(lists: Lists, source: nat, bits: seq<bool>, linkSender: nat) returns (hit: bool)
    requires WellFormed(lists) && |bits| == |lists| && linkSender < |lists|
    ensures hit <==> Hit(lists, source, bits, linkSender)
  {
    hit := false;
    var valid, sel, pin := Select(lists, bits, linkSender);
    if valid && bits[linkSender] {
      HitIsTuple(lists, sel, pin, source, bits, linkSender);
      forall t | Candidate(Sizes(lists, sel), pin, t) ensures !Earlier(t, Start(|sel|, pin, |lists[linkSender]| - 1)) {
        PinnedStartIsFirst(lists, sel, pin, t);
      }
      hit := SearchTuples(lists, sel, source, pin, |lists[linkSender]| - 1, pin);
    } else if Hit(lists, source, bits, linkSender) {
      NoHitWithoutSender(lists, source, bits, linkSender);
      assert false;
    }
  }

  // ---- Storing one more path ----

  function Grow(lists: Lists, sender: nat, mask: Mask): (grown: Lists)
    requires sender < |lists|
    ensures |grown| == |lists|
  {
    lists[sender := lists[sender] + [mask]]
  }

  /** A family among the grown lists uses the newest path or was there before. */
  lemma GrownFamily(lists: Lists, source: nat, m: nat, sender: nat, mask: Mask)
    requires sender < |lists|
    ensures HasDisjoint(Grow(lists, sender, mask), source, m)
       <==> HasDisjoint(lists, source, m) || NewestDisjoint(Grow(lists, sender, mask), source, m, sender)
  {
    var grown := Grow(lists, sender, mask);
    if HasDisjoint(lists, source, m) {
      var pick :| Family(lists, pick, source) && |pick| == m;
      FamilyGrows(lists, source, sender, mask, pick);
    }
    if HasDisjoint(grown, source, m) && !NewestDisjoint(grown, source, m, sender) {
      var pick :| Family(grown, pick, source) && |pick| == m;
      assert !Uses(grown, pick, sender);
      FamilyShrinks(lists, source, sender, mask, pick);
    }
  }

  lemma FamilyGrows(lists: Lists, source: nat, sender: nat, mask: Mask, pick: map<nat, nat>)
    requires sender < |lists| && Family(lists, pick, source)
    ensures Family(Grow(lists, sender, mask), pick, source)
  {
    var grown := Grow(lists, sender, mask);
    assert forall i | i in pick :: grown[i][pick[i]] == lists[i][pick[i]];
  }

  lemma FamilyShrinks(lists: Lists, source: nat, sender: nat, mask: Mask, pick: map<nat, nat>)
    requires sender < |lists| && Family(Grow(lists, sender, mask), pick, source)
    requires !Uses(Grow(lists, sender, mask), pick, sender)
    ensures Family(lists, pick, source)
  {
    var grown := Grow(lists, sender, mask);
    assert forall i | i in pick :: pick[i] < |lists[i]| && grown[i][pick[i]] == lists[i][pick[i]];
  }
}
