/**
  The delivery test as it is written: it also visits combinations without the link
  sender, and starts their first slot at the size of the link sender's list. This
  says what that search answers, and when it reads beyond a list.
 */
module FullSearch {
  import opened Permutation
  import opened DisjointSearch

  datatype Verdict = Disjoint | NotDisjoint | BeyondList

  /** Every selected sender has a stored path. */
  ghost predicate AllStored(lists: Lists, bits: seq<bool>) {
    |bits| == |lists| && forall i | 0 <= i < |bits| && bits[i] :: lists[i] != []
  }

  ghost predicate FirstOf(bits: seq<bool>, i: nat) {
    i < |bits| && bits[i] && forall j | 0 <= j < i :: !bits[j]
  }

  /** The starting index of the first selected sender lies beyond its list. */
  ghost predicate Beyond(lists: Lists, bits: seq<bool>, sender: nat)
    requires sender < |lists| == |bits|
  {
    AllStored(lists, bits) && !bits[sender] && exists i: nat :: FirstOf(bits, i) && |lists[sender]| > |lists[i]|
  }

  /** The odometer comes past this choice: with the link sender, all that use its newest path;
      without it, all but those before the starting index of the first slot. */
  ghost predicate Visited(lists: Lists, bits: seq<bool>, sender: nat, pick: map<nat, nat>)
    requires sender < |lists| == |bits|
  {
    if bits[sender] then Uses(lists, pick, sender)
    else exists i: nat :: FirstOf(bits, i) && !Overlooked(lists, sender, pick, i)
  }

  ghost predicate Overlooked(lists: Lists, sender: nat, pick: map<nat, nat>, first: nat)
    requires sender < |lists|
  {
    first in pick && pick[first] < |lists[sender]| - 1 && forall j | j in pick && j != first :: pick[j] == 0
  }

  ghost predicate Finds(lists: Lists, source: nat, bits: seq<bool>, sender: nat)
    requires sender < |lists| == |bits|
  {
    exists pick :: Family(lists, pick, source) && pick.Keys == Chosen(bits) && Visited(lists, bits, sender, pick)
  }

  ghost predicate Decides(lists: Lists, source: nat, bits: seq<bool>, sender: nat)
    requires sender < |lists| == |bits|
  {
    Beyond(lists, bits, sender) || Finds(lists, source, bits, sender)
  }

  ghost predicate NoneDecidesAfter(lists: Lists, source: nat, m: nat, sender: nat, bits: seq<bool>)
    requires sender < |lists| == |bits|
  {
    forall b | Combination(b, |lists|, m) && Before(bits, b) :: !Decides(lists, source, b, sender)
  }

  ghost predicate FirstToDecide(lists: Lists, source: nat, m: nat, sender: nat, bits: seq<bool>)
    requires sender < |lists|
  {
    Combination(bits, |lists|, m) && Decides(lists, source, bits, sender) &&
        NoneDecidesAfter(lists, source, m, sender, bits)
  }

  /** The first combination that decides gives the answer. */
  ghost predicate Answers(lists: Lists, source: nat, m: nat, sender: nat, verdict: Verdict)
    requires sender < |lists|
  {
    match verdict
    case NotDisjoint => forall b | Combination(b, |lists|, m) :: !Decides(lists, source, b, sender)
    case Disjoint => exists b :: FirstToDecide(lists, source, m, sender, b) && !Beyond(lists, b, sender)
    case BeyondList => exists b :: FirstToDecide(lists, source, m, sender, b) && Beyond(lists, b, sender)
  }

  // ---- One combination without the link sender ----

  /** Only tuples that are 0 beyond the first slot come before the start. */
  lemma BeforeStart(t: seq<nat>, last: nat)
    requires t != []
    ensures Earlier(t, Start(|t|, 0, last)) <==> t[0] < last && forall j | 0 < j < |t| :: t[j] == 0
  {
    var start := Start(|t|, 0, last);
    if t[0] < last && forall j | 0 < j < |t| :: t[j] == 0 {
      assert EarlierAt(t, start, 0);
    }
    if k :| EarlierAt(t, start, k) {
      assert k == 0;
    }
  }

  lemma OverlookedIsBeforeStart(lists: Lists, sel: seq<nat>, sender: nat, pick: map<nat, nat>, t: seq<nat>)
    requires Selectable(lists, sel) && sel != [] && sender < |lists| && lists[sender] != [] && |t| == |sel|
    requires (forall i :: i in pick <==> i in sel)
    requires forall p | 0 <= p < |sel| :: sel[p] in pick && pick[sel[p]] == t[p]
    ensures Overlooked(lists, sender, pick, sel[0]) <==> Earlier(t, Start(|sel|, 0, |lists[sender]| - 1))
  {
    BeforeStart(t, |lists[sender]| - 1);
    if Overlooked(lists, sender, pick, sel[0]) {
      forall j | 0 < j < |t|
        ensures t[j] == 0
      {
        assert sel[j] in pick && sel[j] != sel[0];
      }
    }
    if t[0] < |lists[sender]| - 1 && forall j | 0 < j < |t| :: t[j] == 0 {
      forall i | i in pick && i != sel[0]
        ensures pick[i] == 0
      {
        var p :| 0 <= p < |sel| && sel[p] == i;
      }
    }
  }

  /** The first selected sender is the first of the list. */
  lemma FirstIsHead(sel: seq<nat>, bits: seq<bool>, i: nat)
    requires Increasing(sel) && sel != [] && forall x :: x in sel <==> x in Chosen(bits)
    ensures FirstOf(bits, i) <==> i == sel[0]
  {
    assert sel[0] in sel && sel[0] in Chosen(bits);
    forall j | j in Chosen(bits)
      ensures sel[0] <= j
    {
      assert j in sel;
    }
  }

  /** The combination's senders, in order, without the link sender. */
  ghost predicate Others(lists: Lists, bits: seq<bool>, sender: nat, sel: seq<nat>) {
    && sender < |lists| == |bits| && lists[sender] != [] && !bits[sender]
    && Selectable(lists, sel) && sel != [] && forall x :: x in sel <==> x in Chosen(bits)
  }

  ghost predicate Searched(lists: Lists, source: nat, sender: nat, sel: seq<nat>, t: seq<nat>)
    requires Selectable(lists, sel) && sender < |lists| && lists[sender] != []
  {
    && Candidate(Sizes(lists, sel), |sel|, t) && !Earlier(t, Start(|sel|, 0, |lists[sender]| - 1))
    && TupleApart(lists, sel, t, source)
  }

  lemma SearchedMeans(lists: Lists, source: nat, sender: nat, sel: seq<nat>)
    requires Selectable(lists, sel) && sender < |lists| && lists[sender] != []
    ensures (exists t :: Searched(lists, source, sender, sel, t))
       <==> exists t | Candidate(Sizes(lists, sel), |sel|, t) && !Earlier(t, Start(|sel|, 0, |lists[sender]| - 1)) ::
              TupleApart(lists, sel, t, source)
  {
    if t :| Candidate(Sizes(lists, sel), |sel|, t) && !Earlier(t, Start(|sel|, 0, |lists[sender]| - 1))
            && TupleApart(lists, sel, t, source) {
      assert Searched(lists, source, sender, sel, t);
    }
  }

  lemma FoundIsSearched(lists: Lists, source: nat, bits: seq<bool>, sender: nat, sel: seq<nat>, pick: map<nat, nat>)
    returns (t: seq<nat>)
    requires Others(lists, bits, sender, sel)
    requires Family(lists, pick, source) && pick.Keys == Chosen(bits) && Visited(lists, bits, sender, pick)
    ensures Searched(lists, source, sender, sel, t)
  {
    assert forall i :: i in sel <==> i in pick;
    t := TupleOfPick(lists, sel, source, pick);
    var i: nat :| FirstOf(bits, i) && !Overlooked(lists, sender, pick, i);
    FirstIsHead(sel, bits, i);
    OverlookedIsBeforeStart(lists, sel, sender, pick, t);
  }

  lemma SearchedIsFound(lists: Lists, source: nat, bits: seq<bool>, sender: nat, sel: seq<nat>, t: seq<nat>)
    requires Others(lists, bits, sender, sel) && Searched(lists, source, sender, sel, t)
    ensures Finds(lists, source, bits, sender)
  {
    var pick := PickOf(sel, t);
    FirstIsHead(sel, bits, sel[0]);
    TupleIsFamily(lists, sel, source, t);
    OverlookedIsBeforeStart(lists, sel, sender, pick, t);
    assert pick.Keys == Chosen(bits);
    assert Visited(lists, bits, sender, pick);
  }

  /** Without the link sender in the combination, tuples and picks say the same. */
  lemma FindsIsTuple(lists: Lists, source: nat, bits: seq<bool>, sender: nat, sel: seq<nat>)
    requires Others(lists, bits, sender, sel)
    ensures Finds(lists, source, bits, sender) <==> exists t :: Searched(lists, source, sender, sel, t)
  {
    if Finds(lists, source, bits, sender) {
      var pick :| Family(lists, pick, source) && pick.Keys == Chosen(bits) && Visited(lists, bits, sender, pick);
      var t := FoundIsSearched(lists, source, bits, sender, sel, pick);
    }
    if t :| Searched(lists, source, sender, sel, t) {
      SearchedIsFound(lists, source, bits, sender, sel, t);
    }
  }

  lemma TupleOfPick(lists: Lists, sel: seq<nat>, source: nat, pick: map<nat, nat>) returns (t: seq<nat>)
    requires Selectable(lists, sel) && Family(lists, pick, source) && forall i :: i in sel <==> i in pick
    ensures Candidate(Sizes(lists, sel), |sel|, t) && TupleApart(lists, sel, t, source)
    ensures forall p | 0 <= p < |sel| :: sel[p] in pick && pick[sel[p]] == t[p]
  {
    assert forall i | 0 <= i < |sel| :: sel[i] in sel;
    t := seq(|sel|, i requires 0 <= i < |sel| => pick[sel[i]]);
  }

  // ---- The search ----

  method Examine(lists: Lists, source: nat, bits: seq<bool>, linkSender: nat) returns (verdict: Verdict)
    requires WellFormed(lists) && linkSender < |lists| == |bits| && lists[linkSender] != [] && Ones(bits) > 0
    ensures verdict == if Beyond(lists, bits, linkSender) then BeyondList
                       else if Finds(lists, source, bits, linkSender) then Disjoint else NotDisjoint
  {
    var valid, sel, slot := Select(lists, bits, linkSender);
    if !valid {
      NothingInvalid(lists, source, bits, linkSender);
      return NotDisjoint;
    }
    if bits[linkSender] {
      var hit := DisjointSearch.Examine(lists, source, bits, linkSender);
      verdict := if hit then Disjoint else NotDisjoint;
    } else {
      FirstIsHead(sel, bits, sel[0]);
      BeyondMeans(lists, bits, linkSender, sel);
      if |lists[linkSender]| - 1 >= |lists[sel[0]]| {
        return BeyondList;
      }
      FindsIsTuple(lists, source, bits, linkSender, sel);
      var found := SearchTuples(lists, sel, source, 0, |lists[linkSender]| - 1, |sel|);
      SearchedMeans(lists, source, linkSender, sel);
      verdict := if found then Disjoint else NotDisjoint;
    }
  }

  lemma NothingInvalid(lists: Lists, source: nat, bits: seq<bool>, sender: nat)
    requires sender < |lists| == |bits| && !AllStored(lists, bits)
    ensures !Finds(lists, source, bits, sender)
  {
    forall pick | Picks(lists, pick)
      ensures pick.Keys != Chosen(bits)
    {
      var i :| 0 <= i < |bits| && bits[i] && lists[i] == [];
      assert i in Chosen(bits);
    }
  }

  lemma BeyondMeans(lists: Lists, bits: seq<bool>, sender: nat, sel: seq<nat>)
    requires sender < |lists| == |bits| && AllStored(lists, bits) && !bits[sender]
    requires Selectable(lists, sel) && sel != [] && forall x :: x in sel <==> x in Chosen(bits)
    ensures Beyond(lists, bits, sender) <==> |lists[sender]| > |lists[sel[0]]|
  {
    FirstIsHead(sel, bits, sel[0]);
    forall i: nat | FirstOf(bits, i)
      ensures i == sel[0]
    {
      FirstIsHead(sel, bits, i);
    }
  }

  method MsgCanBeDelivered(lists: Lists, source: nat, numFaulty: nat, linkSender: nat) returns (verdict: Verdict)
    requires WellFormed(lists) && numFaulty + 1 <= |lists|
    requires linkSender < |lists| && lists[linkSender] != []
    ensures Answers(lists, source, numFaulty + 1, linkSender, verdict)
  {
    var threshold := numFaulty + 1;
    var bits := Top(|lists|, threshold);
    TopOnes(|lists|, threshold);
    NoneDecidesAfterTop(lists, source, threshold, linkSender);
    while true
      invariant Combination(bits, |lists|, threshold)
      invariant NoneDecidesAfter(lists, source, threshold, linkSender, bits)
      decreases Rank(bits)
    {
      verdict := Examine(lists, source, bits, linkSender);
      if verdict != NotDisjoint {
        assert FirstToDecide(lists, source, threshold, linkSender, bits);
        return;
      }
      NoneDecidesNext(lists, source, threshold, linkSender, bits);
      PrevOnes(bits);
      match Prev(bits)
      case None => return;
      case Some(next) =>
        RankFalls(next, bits);
        bits := next;
    }
  }

  lemma NoneDecidesAfterTop(lists: Lists, source: nat, m: nat, sender: nat)
    requires m <= |lists| && sender < |lists|
    ensures NoneDecidesAfter(lists, source, m, sender, Top(|lists|, m))
  {
    forall b | Combination(b, |lists|, m)
      ensures !Before(Top(|lists|, m), b)
    {
      TopIsLast(b, m);
    }
  }

  lemma NoneDecidesNext(lists: Lists, source: nat, m: nat, sender: nat, bits: seq<bool>)
    requires sender < |lists| && Combination(bits, |lists|, m)
    requires NoneDecidesAfter(lists, source, m, sender, bits) && !Decides(lists, source, bits, sender)
    ensures Prev(bits).Some? ==> NoneDecidesAfter(lists, source, m, sender, Prev(bits).value)
    ensures Prev(bits).None? ==> forall b | Combination(b, |lists|, m) :: !Decides(lists, source, b, sender)
  {
    forall b | Combination(b, |lists|, m) && (Prev(bits).Some? ==> Before(Prev(bits).value, b))
      ensures !Decides(lists, source, b, sender)
    {
      NothingSkipped(bits, b, |lists|, m);
    }
  }

  // ---- What the answer is worth ----

  ghost predicate SomeBeyond(lists: Lists, m: nat, sender: nat)
    requires sender < |lists|
  {
    exists b :: Combination(b, |lists|, m) && Beyond(lists, b, sender)
  }

  /** No disjoint family existed before the newest path came. */
  ghost predicate OnlyNewest(lists: Lists, source: nat, m: nat, sender: nat) {
    HasDisjoint(lists, source, m) ==>
      forall pick | Family(lists, pick, source) && |pick| == m :: Uses(lists, pick, sender)
  }

  lemma FindsIsFamily(lists: Lists, source: nat, m: nat, sender: nat, b: seq<bool>)
    requires sender < |lists| && Combination(b, |lists|, m) && OnlyNewest(lists, source, m, sender)
    ensures Finds(lists, source, b, sender) ==> NewestDisjoint(lists, source, m, sender)
  {
    if Finds(lists, source, b, sender) {
      var pick :| Family(lists, pick, source) && pick.Keys == Chosen(b) && Visited(lists, b, sender, pick);
      ChosenCard(b);
      assert |pick| == |pick.Keys| == m;
      assert HasDisjoint(lists, source, m);
    }
  }

  lemma FamilyIsFound(lists: Lists, source: nat, m: nat, sender: nat)
    requires sender < |lists| && NewestDisjoint(lists, source, m, sender)
    ensures exists b :: Combination(b, |lists|, m) && Finds(lists, source, b, sender)
  {
    NewestIsHit(lists, source, m, sender);
    var b :| Combination(b, |lists|, m) && Hit(lists, source, b, sender);
    NoHitWithoutSender(lists, source, b, sender);
    var pick :| Family(lists, pick, source) && pick.Keys == Chosen(b) && Uses(lists, pick, sender);
    assert Visited(lists, b, sender, pick);
  }

  /** Some combination starts beyond a list, and none that the enumeration examines earlier finds
      a disjoint family without doing so itself. */
  ghost predicate ReadsBeyond(lists: Lists, source: nat, m: nat, sender: nat)
    requires sender < |lists|
  {
    exists b :: Combination(b, |lists|, m) && Beyond(lists, b, sender) && NoneFindsAfter(lists, source, m, sender, b)
  }

  ghost predicate NoneFindsAfter(lists: Lists, source: nat, m: nat, sender: nat, bits: seq<bool>)
    requires sender < |lists| == |bits|
  {
    forall c | Combination(c, |lists|, m) && Before(bits, c) ::
        Finds(lists, source, c, sender) ==> Beyond(lists, c, sender)
  }

  /** The search as written reads beyond a list exactly under that condition. */
  lemma ReadsBeyondExactly(lists: Lists, source: nat, m: nat, sender: nat, verdict: Verdict)
    requires sender < |lists| && Answers(lists, source, m, sender, verdict)
    ensures verdict.BeyondList? <==> ReadsBeyond(lists, source, m, sender)
  {
    if verdict.BeyondList? {
      var d :| FirstToDecide(lists, source, m, sender, d) && Beyond(lists, d, sender);
      assert NoneFindsAfter(lists, source, m, sender, d);
    } else if ReadsBeyond(lists, source, m, sender) {
      var b :| Combination(b, |lists|, m) && Beyond(lists, b, sender) && NoneFindsAfter(lists, source, m, sender, b);
      assert Decides(lists, source, b, sender);
      var d :| FirstToDecide(lists, source, m, sender, d) && !Beyond(lists, d, sender);
      Trichotomy(b, d);
      assert false;
    }
  }

  /** While the newest path is part of every disjoint family, the search as written answers
      rightly unless it reads beyond a list. For that some combination without the link sender
      must start beyond a list; with nothing to find this is enough. */
  lemma AnswerIsRight(lists: Lists, source: nat, m: nat, sender: nat, verdict: Verdict)
    requires sender < |lists| && OnlyNewest(lists, source, m, sender) && Answers(lists, source, m, sender, verdict)
    ensures verdict.BeyondList? <==> ReadsBeyond(lists, source, m, sender)
    ensures !verdict.BeyondList? ==> (verdict.Disjoint? <==> NewestDisjoint(lists, source, m, sender))
    ensures verdict.BeyondList? ==> SomeBeyond(lists, m, sender)
    ensures SomeBeyond(lists, m, sender) && !NewestDisjoint(lists, source, m, sender) ==> verdict.BeyondList?
  {
    ReadsBeyondExactly(lists, source, m, sender, verdict);
    if NewestDisjoint(lists, source, m, sender) {
      FamilyIsFound(lists, source, m, sender);
    } else {
      forall b | Combination(b, |lists|, m)
        ensures !Finds(lists, source, b, sender)
      {
        FindsIsFamily(lists, source, m, sender, b);
      }
    }
  }

  /** With no disjoint family before the newest path, there is none without it. */
  lemma UndecidedBefore(lists: Lists, source: nat, m: nat, sender: nat, mask: Mask)
    requires sender < |lists| && !HasDisjoint(lists, source, m)
    ensures OnlyNewest(Grow(lists, sender, mask), source, m, sender)
  {
    var grown := Grow(lists, sender, mask);
    forall pick | Family(grown, pick, source) && |pick| == m
      ensures Uses(grown, pick, sender)
    {
      if !Uses(grown, pick, sender) { FamilyShrinks(lists, source, sender, mask, pick); }
    }
  }
}
