/**
  The C++ library step std::prev_permutation on strings of zeros and ones, as
  the delivery test uses it to enumerate all choices of `f + 1` link senders.
 */
module Permutation {
  import opened Options

  /** Number of selected positions. */
  function Ones(s: seq<bool>): nat {
    if s == [] then 0 else (if s[0] then 1 else 0) + Ones(s[1..])
  }

  /** Lexicographic order, false before true. */
  predicate Before(a: seq<bool>, b: seq<bool>)
    requires |a| == |b|
  {
    a != [] && if a[0] == b[0] then Before(a[1..], b[1..]) else b[0]
  }

  /** The string with its `c` ones first: where the enumeration starts. */
  function Top(n: nat, c: nat): (s: seq<bool>)
    requires c <= n
    ensures |s| == n
  {
    seq(n, i requires 0 <= i < n => i < c)
  }

  /** The greatest rearrangement before `s`; None when `s` is the least one. */
  function Prev(s: seq<bool>): (p: Option<seq<bool>>)
    ensures p.Some? ==> |p.value| == |s|
  {
    if s == [] then None
    else
      match Prev(s[1..])
      case Some(t) => Some([s[0]] + t)
      case None =>
        if s[0] && Ones(s[1..]) < |s| - 1 then
          Some([false] + Top(|s| - 1, Ones(s[1..]) + 1))
        else None
  }

  lemma {:induction false} OnesBound(s: seq<bool>)
    ensures Ones(s) <= |s|
    ensures Ones(s) == |s| ==> forall i | 0 <= i < |s| :: s[i]
    ensures Ones(s) == 0 ==> forall i | 0 <= i < |s| :: !s[i]
  {
    if s != [] {
      OnesBound(s[1..]);
      assert forall i | 0 < i < |s| :: s[i] == s[1..][i - 1];
    }
  }

  lemma {:induction false} TopOnes(n: nat, c: nat)
    requires c <= n
    ensures Ones(Top(n, c)) == c
  {
    if n > 0 {
      if c > 0 {
        assert Top(n, c)[1..] == Top(n - 1, c - 1);
        TopOnes(n - 1, c - 1);
      } else {
        assert Top(n, c)[1..] == Top(n - 1, 0);
        TopOnes(n - 1, 0);
      }
    }
  }

  /** Nothing with the same number of ones comes after Top. */
  lemma {:induction false} TopIsLast(s: seq<bool>, c: nat)
    requires Ones(s) == c <= |s|
    ensures !Before(Top(|s|, c), s)
  {
    if s != [] {
      var rest := s[1..];
      OnesBound(rest);
      if c > 0 {
        assert Top(|s|, c)[1..] == Top(|rest|, c - 1);
        if s[0] { TopIsLast(rest, c - 1); }
      } else {
        assert Top(|s|, 0)[1..] == Top(|rest|, 0);
        TopIsLast(rest, 0);
      }
    }
  }

  lemma {:induction false} PrevOnes(s: seq<bool>)
    ensures Prev(s).Some? ==> Ones(Prev(s).value) == Ones(s) && Before(Prev(s).value, s)
  {
    if s != [] {
      PrevOnes(s[1..]);
      match Prev(s[1..])
      case Some(t) =>
        assert Prev(s).value[1..] == t;
      case None =>
        if Prev(s).Some? {
          TopOnes(|s| - 1, Ones(s[1..]) + 1);
          assert Prev(s).value[1..] == Top(|s| - 1, Ones(s[1..]) + 1);
        }
    }
  }

  /** The library step skips nothing: whatever comes before `s` and has as many
      ones is the step's result or comes before it. */
  lemma {:induction false} PrevIsPredecessor(s: seq<bool>, m: seq<bool>)
    requires |m| == |s| && Ones(m) == Ones(s) && Before(m, s)
    ensures Prev(s).Some? && (m == Prev(s).value || Before(m, Prev(s).value))
  {
    var rs, rm := s[1..], m[1..];
    assert s == [s[0]] + rs && m == [m[0]] + rm;
    if m[0] == s[0] {
      PrevIsPredecessor(rs, rm);
      assert Prev(s).value[1..] == Prev(rs).value;
    } else {
      OnesBound(rm);
      if Prev(rs).Some? {
        assert Prev(s).value[0];
      } else {
        var top := Top(|rs|, Ones(rs) + 1);
        assert Prev(s).value == [false] + top && Prev(s).value[1..] == top;
        TopOnes(|rs|, Ones(rs) + 1);
        TopIsLast(rm, Ones(rs) + 1);
        Trichotomy(top, rm);
      }
    }
  }

  lemma {:induction false} Trichotomy(a: seq<bool>, b: seq<bool>)
    requires |a| == |b|
    ensures a == b || Before(a, b) || Before(b, a)
  {
    if a != [] {
      Trichotomy(a[1..], b[1..]);
      assert a == [a[0]] + a[1..] && b == [b[0]] + b[1..];
    }
  }

  /** A rank that falls along the enumeration, so that it ends. */
  ghost function Rank(s: seq<bool>): nat {
    if s == [] then 0 else (if s[0] then Pow2(|s| - 1) else 0) + Rank(s[1..])
  }

  ghost function Pow2(n: nat): nat {
    if n == 0 then 1 else 2 * Pow2(n - 1)
  }

  lemma {:induction false} RankBound(s: seq<bool>)
    ensures Rank(s) < Pow2(|s|)
  {
    if s != [] { RankBound(s[1..]); }
  }

  lemma {:induction false} RankFalls(a: seq<bool>, b: seq<bool>)
    requires |a| == |b| && Before(a, b)
    ensures Rank(a) < Rank(b)
  {
    if a[0] == b[0] {
      RankFalls(a[1..], b[1..]);
    } else {
      RankBound(a[1..]);
    }
  }

  /** The positions a string selects. */
  ghost function Chosen(s: seq<bool>): (c: set<nat>)
    ensures forall i :: i in c <==> 0 <= i < |s| && s[i]
  {
    set i: nat | i < |s| && s[i]
  }

  lemma {:induction false} ChosenCard(s: seq<bool>)
    ensures |Chosen(s)| == Ones(s)
    decreases |s|
  {
    if s != [] {
      var k := |s| - 1;
      var t := s[..k];
      ChosenCard(t);
      OnesSplit(t, s[k]);
      assert t + [s[k]] == s;
      ChosenSplit(t, s[k]);
    }
  }

  lemma ChosenSplit(t: seq<bool>, b: bool)
    ensures Chosen(t + [b]) == if b then Chosen(t) + {|t|} else Chosen(t)
  {
  }

  lemma {:induction false} OnesSplit(s: seq<bool>, b: bool)
    ensures Ones(s + [b]) == Ones(s) + (if b then 1 else 0)
  {
    if s != [] {
      OnesSplit(s[1..], b);
      assert (s + [b])[1..] == s[1..] + [b];
    }
  }

  /** The string that selects exactly the members of `c`. */
  ghost function Indicator(c: set<nat>, n: nat): (s: seq<bool>)
    requires forall i | i in c :: i < n
    ensures |s| == n && Ones(s) == |c| && Chosen(s) == c
  {
    var s := seq(n, i requires 0 <= i < n => i in c);
    ChosenCard(s);
    assert Chosen(s) == c;
    s
  }
}
