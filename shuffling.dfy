/**
 * The Fisher-Yates shuffle written out three times in the source
 * (`kFoldIndices` and `splitData` in src/app/utils/dataUtils.ts, `shuffle` in
 * src/app/api/naive-bayes/route.ts): for i from the last position down to 1,
 * swap position i with `j = Math.floor(Math.random() * (i + 1))`.
 *
 * `Math.random()` becomes a sequence of draws in [0, 1), the draw for step i
 * being `draws[i]`; nothing is assumed about how they are distributed.
 */
module Shuffling {

  /** Every draw lies in [0, 1), as `Math.random()` promises. */
  predicate ValidDraws(draws: seq<real>, n: nat) {
    |draws| >= n && forall k :: 0 <= k < |draws| ==> 0.0 <= draws[k] < 1.0
  }

  lemma PositiveProduct(a: real, b: real)
    requires a > 0.0 && b > 0.0
    ensures a * b > 0.0
  {
  }

  /** `Math.floor(d * (i + 1))`: a position in 0..i. */
  function SwapIndex(d: real, i: nat): (j: nat)
    requires 0.0 <= d < 1.0
    ensures j <= i
  {
    var m := (i + 1) as real;
    var x := d * m;
    assert x < m by {
      PositiveProduct(1.0 - d, m);
      assert m - x == (1.0 - d) * m;
    }
    x.Floor
  }

  /** `[a[i], a[j]] = [a[j], a[i]]` */
  function Swap<T>(s: seq<T>, i: nat, j: nat): (r: seq<T>)
    requires i < |s| && j < |s|
    ensures |r| == |s| && r[i] == s[j] && r[j] == s[i]
    ensures forall k :: 0 <= k < |s| && k != i && k != j ==> r[k] == s[k]
  {
    s[i := s[j]][j := s[i]]
  }

  lemma SwapPermutes<T>(s: seq<T>, i: nat, j: nat)
    requires i < |s| && j < |s|
    ensures multiset(Swap(s, i, j)) == multiset(s)
  {
    assert multiset(s[i := s[j]]) == multiset(s) - multiset{s[i]} + multiset{s[j]};
  }

  /** Steps i, i - 1, ..., 1 of the shuffle applied to `s`. */
  function ShuffleSteps<T>(s: seq<T>, draws: seq<real>, i: nat): seq<T>
    requires i < |s| && ValidDraws(draws, |s|)
    decreases i
  {
    if i == 0 then s else ShuffleSteps(Swap(s, i, SwapIndex(draws[i], i)), draws, i - 1)
  }

  /** The whole shuffle of `s`. */
  function Shuffled<T>(s: seq<T>, draws: seq<real>): seq<T>
    requires ValidDraws(draws, |s|)
  {
    if |s| == 0 then s else ShuffleSteps(s, draws, |s| - 1)
  }

  lemma {:induction false} ShuffleStepsPermutes<T>(s: seq<T>, draws: seq<real>, i: nat)
    requires i < |s| && ValidDraws(draws, |s|)
    ensures |ShuffleSteps(s, draws, i)| == |s|
    ensures multiset(ShuffleSteps(s, draws, i)) == multiset(s)
    decreases i
  {
    if i > 0 {
      var j := SwapIndex(draws[i], i);
      SwapPermutes(s, i, j);
      ShuffleStepsPermutes(Swap(s, i, j), draws, i - 1);
    }
  }

  /** Whatever the draws, the shuffle returns a permutation of its input. */
  lemma ShuffledIsPermutation<T>(s: seq<T>, draws: seq<real>)
    requires ValidDraws(draws, |s|)
    ensures |Shuffled(s, draws)| == |s|
    ensures multiset(Shuffled(s, draws)) == multiset(s)
  {
    if |s| > 0 {
      ShuffleStepsPermutes(s, draws, |s| - 1);
    }
  }

  method SwapElements<T>(a: array<T>, i: nat, j: nat)
    requires i < a.Length && j < a.Length
    modifies a
    ensures a[..] == Swap(old(a[..]), i, j)
  {
    a[i], a[j] := a[j], a[i];
  }

  /** The swap loop, on the array it shuffles in place. */
  method ShuffleInPlace<T>(a: array<T>, draws: seq<real>)
    requires ValidDraws(draws, a.Length)
    modifies a
    ensures a[..] == Shuffled(old(a[..]), draws)
  {
    if a.Length == 0 {
      return;
    }
    var i := a.Length - 1;
    while i > 0
      invariant 0 <= i < a.Length
      invariant ShuffleSteps(a[..], draws, i) == Shuffled(old(a[..]), draws)
    {
      var j := SwapIndex(draws[i], i);
      ghost var before := a[..];
      SwapElements(a, i, j);
      assert ShuffleSteps(before, draws, i) == ShuffleSteps(a[..], draws, i - 1);
      i := i - 1;
    }
  }

  /** `arr.slice()` followed by the swap loop: the input is only read. */
  method ShuffledCopy<T>(arr: seq<T>, draws: seq<real>) returns (r: seq<T>)
    requires ValidDraws(draws, |arr|)
    ensures r == Shuffled(arr, draws)
    ensures |r| == |arr| && multiset(r) == multiset(arr)
  {
    var a := new T[|arr|](i requires 0 <= i < |arr| => arr[i]);
    assert a[..] == arr;
    ShuffleInPlace(a, draws);
    r := a[..];
    ShuffledIsPermutation(arr, draws);
  }
}
