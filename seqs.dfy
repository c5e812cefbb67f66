/**
 * Counting and summing over sequences: the `reduce((a, b) => a + b, 0)` and
 * `filter(...).length` idioms the source uses, defined once.
 * Every definition peels off the LAST element, matching loops that extend a
 * processed prefix one element at a time.
 */
module Seqs {

  /** Number of occurrences of `x` in `s`. */
  function Count<T(==)>(s: seq<T>, x: T): (r: nat)
    ensures r <= |s|
  {
    if |s| == 0 then 0 else Count(s[..|s| - 1], x) + (if s[|s| - 1] == x then 1 else 0)
  }

  lemma CountSnoc<T>(s: seq<T>, y: T, x: T)
    ensures Count(s + [y], x) == Count(s, x) + (if y == x then 1 else 0)
  {
    assert (s + [y])[..|s|] == s;
  }

  /** Absent elements are not counted, present ones are. */
  lemma {:induction false} CountPositive<T>(s: seq<T>, x: T)
    ensures Count(s, x) > 0 <==> x in s
  {
    if |s| > 0 {
      var p := s[..|s| - 1];
      CountPositive(p, x);
      assert s == p + [s[|s| - 1]];
      assert x in s <==> x in p || x == s[|s| - 1];
    }
  }

  predicate Distinct<T(==)>(s: seq<T>) {
    forall i, j :: 0 <= i < j < |s| ==> s[i] != s[j]
  }

  /** `reduce((a, b) => a + b, 0)` over numbers. */
  function Sum(s: seq<real>): real {
    if |s| == 0 then 0.0 else Sum(s[..|s| - 1]) + s[|s| - 1]
  }

  lemma SumSnoc(s: seq<real>, x: real)
    ensures Sum(s + [x]) == Sum(s) + x
  {
    assert (s + [x])[..|s|] == s;
  }

  /** Changing one element changes the sum by the difference. */
  lemma {:induction false} SumUpdate(s: seq<real>, i: nat, v: real)
    requires i < |s|
    ensures Sum(s[i := v]) == Sum(s) - s[i] + v
  {
    var n := |s| - 1;
    if i == n {
      assert s[i := v][..n] == s[..n];
    } else {
      SumUpdate(s[..n], i, v);
      assert s[i := v][..n] == s[..n][i := v];
    }
  }

  /** A sum of values in [0, 1] lies in [0, |s|]. */
  lemma {:induction false} SumOfFractions(s: seq<real>)
    requires forall i :: 0 <= i < |s| ==> 0.0 <= s[i] <= 1.0
    ensures 0.0 <= Sum(s) <= |s| as real
  {
    if |s| > 0 {
      SumOfFractions(s[..|s| - 1]);
    }
  }

  /** The same sum over naturals, for count tables. */
  function SumNat(s: seq<nat>): nat {
    if |s| == 0 then 0 else SumNat(s[..|s| - 1]) + s[|s| - 1]
  }

  lemma SumNatSnoc(s: seq<nat>, x: nat)
    ensures SumNat(s + [x]) == SumNat(s) + x
  {
    assert (s + [x])[..|s|] == s;
  }

  lemma {:induction false} SumNatUpdate(s: seq<nat>, i: nat, v: nat)
    requires i < |s|
    ensures SumNat(s[i := v]) == SumNat(s) - s[i] + v
  {
    var n := |s| - 1;
    if i == n {
      assert s[i := v][..n] == s[..n];
    } else {
      SumNatUpdate(s[..n], i, v);
      assert s[i := v][..n] == s[..n][i := v];
    }
  }

  /** No element of a table of counts exceeds the table's total. */
  lemma {:induction false} ElementAtMostSumNat(s: seq<nat>, i: nat)
    requires i < |s|
    ensures s[i] <= SumNat(s)
  {
    if i < |s| - 1 {
      ElementAtMostSumNat(s[..|s| - 1], i);
    }
  }

  /** Position of the first occurrence of `x`. */
  function FirstIndex<T(==)>(s: seq<T>, x: T): (k: nat)
    requires x in s
    ensures k < |s| && s[k] == x
    ensures forall j :: 0 <= j < k ==> s[j] != x
  {
    if s[0] == x then 0 else 1 + FirstIndex(s[1..], x)
  }

  /** Extending a sequence does not move the first occurrence of what it already held. */
  lemma FirstIndexPrefix<T>(s: seq<T>, n: nat, x: T)
    requires n <= |s| && x in s[..n]
    ensures FirstIndex(s, x) == FirstIndex(s[..n], x) < n
  {
    var a, b := FirstIndex(s, x), FirstIndex(s[..n], x);
    assert s[b] == s[..n][b] == x;
    assert a <= b;
    assert s[..n][a] == s[a] == x;
  }

  lemma DivMul(a: real, t: real)
    requires t > 0.0
    ensures a / t * t == a
  {
  }

  lemma DivAdd(a: real, b: real, t: real)
    requires t > 0.0
    ensures a / t + b / t == (a + b) / t
  {
  }

  /** An average of values in [0, 1] lies in [0, 1] and times the count gives back the total. */
  lemma Average(total: real, n: real)
    requires 0.0 <= total <= n && n > 0.0
    ensures 0.0 <= total / n <= 1.0
    ensures total / n * n == total
  {
    FractionBounds(total, n);
    DivMul(total, n);
  }

  /** A part over its whole is a fraction in [0, 1], and 1 only for the whole itself. */
  lemma FractionBounds(a: real, n: real)
    requires 0.0 <= a <= n && n > 0.0
    ensures 0.0 <= a / n <= 1.0
    ensures a / n == 1.0 <==> a == n
    ensures a > 0.0 ==> a / n > 0.0
  {
  }
}
