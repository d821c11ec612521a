/** Sums over bags of messages, to show that runs end. */
module Weights {
  function Pow(k: nat, e: nat): nat {
    if e == 0 then 1 else k * Pow(k, e - 1)
  }

  lemma {:induction false} PowMonotone(k: nat, a: nat, b: nat)
    requires k >= 1 && a <= b
    ensures 1 <= Pow(k, a) <= Pow(k, b)
  {
    if b == 0 {
    } else if a == b {
      PowMonotone(k, a - 1, b - 1);
      Grows(k, Pow(k, a - 1));
    } else {
      PowMonotone(k, a, b - 1);
      Grows(k, Pow(k, b - 1));
    }
  }

  lemma Grows(k: nat, x: nat)
    requires k >= 1
    ensures x <= k * x
  {
    assert k * x == x + (k - 1) * x;
  }

  ghost function Weigh<T(!new)>(bag: multiset<T>, weight: T -> nat): nat
    decreases |bag|
  {
    if bag == multiset{} then 0
    else
      var p :| p in bag;
      weight(p) + Weigh(bag - multiset{p}, weight)
  }

  lemma {:induction false} WeighMore<T(!new)>(bag: multiset<T>, weight: T -> nat, m: T)
    ensures Weigh(bag + multiset{m}, weight) == Weigh(bag, weight) + weight(m)
    decreases |bag|
  {
    var more := bag + multiset{m};
    var p :| p in more && Weigh(more, weight) == weight(p) + Weigh(more - multiset{p}, weight);
    if p == m {
      assert more - multiset{m} == bag;
    } else {
      var rest := bag - multiset{p};
      assert more - multiset{p} == rest + multiset{m};
      assert rest + multiset{p} == bag;
      WeighMore(rest, weight, m);
      WeighMore(rest, weight, p);
    }
  }

  lemma {:induction false} WeighAll<T(!new)>(bag: multiset<T>, weight: T -> nat, out: seq<T>, bound: nat)
    requires forall p | p in out :: weight(p) <= bound
    ensures Weigh(bag + multiset(out), weight) <= Weigh(bag, weight) + |out| * bound
  {
    if out == [] {
      assert bag + multiset(out) == bag;
    } else {
      var k := |out| - 1;
      LastOut(bag, out);
      WeighAll(bag, weight, out[..k], bound);
      WeighMore(bag + multiset(out[..k]), weight, out[k]);
      assert weight(out[k]) <= bound by { assert out[k] in out; }
      OneMore(k, bound);
    }
  }

  lemma LastOut<T>(bag: multiset<T>, out: seq<T>)
    requires out != []
    ensures bag + multiset(out) == (bag + multiset(out[..|out| - 1])) + multiset{out[|out| - 1]}
  {
    assert out == out[..|out| - 1] + [out[|out| - 1]];
  }

  lemma OneMore(k: nat, bound: nat)
    ensures (k + 1) * bound == k * bound + bound
  {
  }

  lemma Exchanged<T(!new)>(bag: multiset<T>, weight: T -> nat, m: T, out: seq<T>, bound: nat)
    requires m in bag && forall p | p in out :: weight(p) <= bound
    ensures Weigh(bag - multiset{m} + multiset(out), weight) + weight(m) <= Weigh(bag, weight) + |out| * bound
  {
    var rest := bag - multiset{m};
    assert rest + multiset{m} == bag;
    WeighMore(rest, weight, m);
    WeighAll(rest, weight, out, bound);
  }

  /** One message is replaced by at most `degree` messages of a smaller power. */
  lemma Replaced<T(!new)>(bag: multiset<T>, weight: T -> nat, m: T, out: seq<T>, degree: nat, e: nat)
    requires m in bag && |out| <= degree && weight(m) == Pow(degree + 1, e)
    requires forall p | p in out :: e > 0 && weight(p) <= Pow(degree + 1, e - 1)
    ensures Weigh(bag - multiset{m} + multiset(out), weight) < Weigh(bag, weight)
  {
    PowMonotone(degree + 1, 0, e);
    if out == [] {
      Exchanged(bag, weight, m, out, 0);
    } else {
      assert out[0] in out;
      PowMonotone(degree + 1, 0, e - 1);
      Exchanged(bag, weight, m, out, Pow(degree + 1, e - 1));
      FewerTimes(|out|, degree, Pow(degree + 1, e - 1));
    }
  }

  lemma FewerTimes(a: nat, degree: nat, bound: nat)
    requires a <= degree && bound >= 1
    ensures a * bound < (degree + 1) * bound
  {
    assert (degree + 1) * bound == a * bound + (degree + 1 - a) * bound;
    Grows(degree + 1 - a, bound);
  }

  /** One message is replaced by at most `degree` messages, each at most `Pow(degree + 1, e)`. */
  lemma Charged<T(!new)>(bag: multiset<T>, weight: T -> nat, m: T, out: seq<T>, degree: nat, e: nat)
    requires m in bag && |out| <= degree && forall p | p in out :: weight(p) <= Pow(degree + 1, e)
    ensures Weigh(bag - multiset{m} + multiset(out), weight) < Weigh(bag, weight) + Pow(degree + 1, e + 1)
  {
    PowMonotone(degree + 1, 0, e);
    Exchanged(bag, weight, m, out, Pow(degree + 1, e));
    FewerTimes(|out|, degree, Pow(degree + 1, e));
  }

  // ---- Bags of messages with heights ----

  ghost function Weight<T(!new)>(degree: nat, height: T -> nat): T -> nat {
    (m: T) => Pow(degree + 1, height(m))
  }

  ghost function Load<T(!new)>(bag: multiset<T>, degree: nat, height: T -> nat): nat {
    Weigh(bag, Weight(degree, height))
  }

  ghost predicate AllBelow<T(!new)>(out: seq<T>, degree: nat, height: T -> nat, e: nat) {
    forall p | p in out :: Weight(degree, height)(p) <= Pow(degree + 1, e)
  }

  lemma HeightsBelow<T(!new)>(out: seq<T>, degree: nat, height: T -> nat, e: nat)
    requires forall p | p in out :: height(p) <= e
    ensures AllBelow(out, degree, height, e)
  {
    forall p | p in out
      ensures Weight(degree, height)(p) <= Pow(degree + 1, e)
    {
      PowMonotone(degree + 1, height(p), e);
    }
  }

  /** A message makes room for lower ones. */
  lemma LowerLoad<T(!new)>(bag: multiset<T>, degree: nat, height: T -> nat, m: T, out: seq<T>)
    requires m in bag && |out| <= degree && forall p | p in out :: height(p) < height(m)
    ensures Load(bag - multiset{m} + multiset(out), degree, height) < Load(bag, degree, height)
  {
    if out != [] {
      assert out[0] in out;
      HeightsBelow(out, degree, height, height(m) - 1);
    }
    Replaced(bag, Weight(degree, height), m, out, degree, height(m));
  }

  /** Messages up to some height weigh less than one above it. */
  lemma BoundedLoad<T(!new)>(bag: multiset<T>, degree: nat, height: T -> nat, m: T, out: seq<T>, top: nat)
    requires m in bag && |out| <= degree && forall p | p in out :: height(p) <= top
    ensures Load(bag - multiset{m} + multiset(out), degree, height) < Load(bag, degree, height)
            + Pow(degree + 1, top + 1)
  {
    HeightsBelow(out, degree, height, top);
    Charged(bag, Weight(degree, height), m, out, degree, top);
  }

  // ---- Things that happen a bounded number of times ----

  ghost function Worth(count: nat, price: nat): nat {
    if count == 0 then 0 else Worth(count - 1, price) + price
  }

  lemma {:induction false} WorthGrows(fewer: nat, count: nat, price: nat)
    requires fewer <= count
    ensures Worth(fewer, price) <= Worth(count, price)
  {
    if fewer < count { WorthGrows(fewer, count - 1, price); }
  }

  lemma LessInAll(after: nat, fewer: nat, before: nat, count: nat, price: nat)
    requires (after < before && fewer <= count) || (after < before + price && fewer + 1 <= count)
    ensures after + Worth(fewer, price) < before + Worth(count, price)
  {
    WorthGrows(fewer, count, price);
    if fewer < count { WorthGrows(fewer + 1, count, price); }
  }
}
