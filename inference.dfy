/**
 * Prediction with a trained hybrid Naive Bayes model (`predict` in
 * src/app/naive-bayes/model.ts): every class is scored by its log prior plus
 * one log-likelihood term per feature, and the best-scoring class wins.
 *
 * `Math.log` and `gaussianProb` (built from `Math.sqrt`, `Math.exp` and
 * `Math.PI`) are not spelled out: they are the two fields of a
 * `Transcendental`, which scoring takes as a parameter.
 */
module Inference {
  import opened Js
  import opened Seqs
  import opened Statistics
  import opened Training

  datatype Transcendental = Transcendental(log: real -> real, gaussian: (real, real, real) -> real)

  /** `gaussianProb(...) || 1e-9`: a density of zero is replaced by 1e-9. */
  function DensityOrFloor(p: real): (q: real)
    ensures q != 0.0
    ensures p != 0.0 ==> q == p
  {
    if p == 0.0 then 0.000000001 else p
  }

  /** A class's count for `v` (0 when unseen), never more than the table's total. */
  function CountOf(counts: Record<nat>, v: string): (n: nat)
    ensures n <= SumNat(Values(counts))
    ensures v !in counts.entries ==> n == 0
    ensures v in counts.entries ==> n == counts.entries[v]
  {
    if v in counts.entries then
      var j := FirstIndex(counts.keys, v);
      ElementAtMostSumNat(Values(counts), j);
      counts.entries[v]
    else 0
  }

  /**
   * Laplace-smoothed likelihood of category `v`:
   * `(count + 1) / (total + max(1, number of categories seen))`.
   * It is a probability, never zero, so its log is always defined.
   */
  function Laplace(counts: Record<nat>, v: string): (p: real)
    ensures 0.0 < p <= 1.0
  {
    var count := CountOf(counts, v);
    var total := SumNat(Values(counts));
    var width := if |counts.keys| > 1 then |counts.keys| else 1;
    FractionBounds((count + 1) as real, (total + width) as real);
    (count + 1) as real / (total + width) as real
  }

  /** The log-likelihood term of a Gaussian feature for class `cls`; a class without statistics uses {0, 1, 0}. */
  function NumericTerm(rt: Runtime, math: Transcendental, stats: map<string, NumericStats>, cls: string, val: Value): real {
    var x := ParseNumber(rt, val);
    var st := if cls in stats then stats[cls] else NumericStats(0.0, 1.0, 0);
    if !x.IsFinite() then math.log(0.000001)
    else math.log(DensityOrFloor(math.gaussian(x.r, st.mean, st.variance)))
  }

  /** The log-likelihood term of a categorical feature for class `cls`; a class without a table uses `{}`. */
  function CategoricalTerm(rt: Runtime, math: Transcendental, cat: map<string, Record<nat>>, cls: string, val: Value): real {
    var counts := if cls in cat then cat[cls] else EmptyRecord();
    math.log(Laplace(counts, ToString(rt, Coalesce(val, Str("")))))
  }

  /** Lines 88-107: one feature's contribution; a column the model has no statistics for contributes nothing. */
  function FeatureTerm(rt: Runtime, math: Transcendental, model: Model, cls: string, fname: string, row: Row): real {
    if fname !in model.features then 0.0 else
      match model.features[fname]
      case Numeric(stats) => NumericTerm(rt, math, stats, cls, Field(row, fname))
      case Categorical(cat) => CategoricalTerm(rt, math, cat, cls, Field(row, fname))
  }

  /** The feature terms of `cols`, added up. */
  function FeatureTerms(rt: Runtime, math: Transcendental, model: Model, cls: string, cols: seq<string>, row: Row): real {
    if |cols| == 0 then 0.0 else
      FeatureTerms(rt, math, model, cls, cols[..|cols| - 1], row) + FeatureTerm(rt, math, model, cls, cols[|cols| - 1], row)
  }

  /** Line 86: `Math.log(model.classPriors[cls] ?? 1e-9)`. */
  function LogPrior(math: Transcendental, model: Model, cls: string): real {
    math.log(if cls in model.classPriors then model.classPriors[cls] else 0.000000001)
  }

  /** The score `predict` assigns to class `cls`. */
  function ClassScore(rt: Runtime, math: Transcendental, model: Model, cls: string, row: Row): real {
    LogPrior(math, model, cls) + FeatureTerms(rt, math, model, cls, model.featureColumns, row)
  }

  /** `entries.sort((a, b) => b[1] - a[1])[0]`: the position of a maximum (here the first one). */
  function FirstMaxIndex(vals: seq<real>): (k: nat)
    requires |vals| > 0
    ensures k < |vals|
    ensures forall i :: 0 <= i < |vals| ==> vals[i] <= vals[k]
    ensures forall i :: 0 <= i < k ==> vals[i] < vals[k]
  {
    if |vals| == 1 then 0 else
      var k := FirstMaxIndex(vals[..|vals| - 1]);
      if vals[|vals| - 1] > vals[k] then |vals| - 1 else k
  }

  /** `scores` holds each class's score under its own key, and nothing else. */
  ghost predicate ScoresOf(scores: map<string, real>, rt: Runtime, math: Transcendental, model: Model, row: Row) {
    && (forall c :: c in scores <==> c in model.classes)
    && (forall c :: c in scores ==> scores[c] == ClassScore(rt, math, model, c, row))
  }

  /**
   * `predict`: scores every class and returns a class with the highest score;
   * no classes gives `''` and no scores. Which of several equally scored
   * classes wins is not promised (this model takes the first in `classes`).
   */
  method Predict(rt: Runtime, math: Transcendental, model: Model, row: Row) returns (predicted: string, scores: map<string, real>)
    ensures ScoresOf(scores, rt, math, model, row)
    ensures scores == map[] <==> |model.classes| == 0
    ensures |model.classes| == 0 ==> predicted == ""
    ensures |model.classes| > 0 ==>
      && predicted in model.classes
      && (forall c :: c in model.classes ==> ClassScore(rt, math, model, c, row) <= ClassScore(rt, math, model, predicted, row))
  {
    scores := map[];
    for k := 0 to |model.classes|
      invariant forall c :: c in scores <==> c in model.classes[..k]
      invariant forall c :: c in scores ==> scores[c] == ClassScore(rt, math, model, c, row)
    {
      var cls := model.classes[k];
      assert model.classes[..k + 1] == model.classes[..k] + [cls];
      var logProb := LogPrior(math, model, cls);
      for j := 0 to |model.featureColumns|
        invariant logProb == LogPrior(math, model, cls) + FeatureTerms(rt, math, model, cls, model.featureColumns[..j], row)
      {
        var fname := model.featureColumns[j];
        assert model.featureColumns[..j + 1][..j] == model.featureColumns[..j];
        logProb := logProb + FeatureTerm(rt, math, model, cls, fname, row);
      }
      assert model.featureColumns[..|model.featureColumns|] == model.featureColumns;
      scores := scores[cls := logProb];
    }
    assert model.classes[..|model.classes|] == model.classes;
    if |model.classes| == 0 {
      predicted := "";
      return;
    }
    assert model.classes[0] in scores;
    var vals := seq(|model.classes|, i requires 0 <= i < |model.classes| => scores[model.classes[i]]);
    var best := FirstMaxIndex(vals);
    predicted := model.classes[best];
    forall c | c in model.classes
      ensures ClassScore(rt, math, model, c, row) <= ClassScore(rt, math, model, predicted, row)
    {
      var i := FirstIndex(model.classes, c);
      assert vals[i] <= vals[best];
    }
  }

  /** Keeps the columns the model has statistics for, in order. */
  function KnownColumns(model: Model, cols: seq<string>): (r: seq<string>)
    ensures forall f :: f in r <==> f in cols && f in model.features
    ensures |r| <= |cols|
  {
    if |cols| == 0 then [] else
      var p := KnownColumns(model, cols[..|cols| - 1]);
      var f := cols[|cols| - 1];
      assert cols == cols[..|cols| - 1] + [f];
      if f in model.features then p + [f] else p
  }

  /** Line 90: columns without statistics are skipped, so dropping them does not change any score. */
  lemma {:induction false} UnknownColumnsSkipped(rt: Runtime, math: Transcendental, model: Model, cls: string,
                                                 cols: seq<string>, row: Row)
    ensures FeatureTerms(rt, math, model, cls, KnownColumns(model, cols), row) == FeatureTerms(rt, math, model, cls, cols, row)
  {
    if |cols| > 0 {
      var n := |cols| - 1;
      var p := KnownColumns(model, cols[..n]);
      UnknownColumnsSkipped(rt, math, model, cls, cols[..n], row);
      var rest := FeatureTerms(rt, math, model, cls, cols[..n], row);
      assert FeatureTerms(rt, math, model, cls, cols, row) == rest + FeatureTerm(rt, math, model, cls, cols[n], row);
      if cols[n] in model.features {
        var q := p + [cols[n]];
        assert KnownColumns(model, cols) == q;
        assert q[..|q| - 1] == p;
        assert FeatureTerms(rt, math, model, cls, q, row) == rest + FeatureTerm(rt, math, model, cls, cols[n], row);
      } else {
        assert KnownColumns(model, cols) == p;
      }
    }
  }

  /** Lines 91-98: a value that does not parse as a finite number costs the fixed penalty `log(1e-6)` whatever the class. */
  lemma NonNumericPenalty(rt: Runtime, math: Transcendental, model: Model, c1: string, c2: string, fname: string, row: Row)
    requires fname in model.features && model.features[fname].Numeric?
    requires !IsNumericValue(rt, Field(row, fname))
    ensures FeatureTerm(rt, math, model, c1, fname, row) == math.log(0.000001)
    ensures FeatureTerm(rt, math, model, c1, fname, row) == FeatureTerm(rt, math, model, c2, fname, row)
  {
  }

  /** Sum over `ks` of `(count + 1)`, the Laplace numerators of a count table. */
  function SmoothedTotal(counts: Record<nat>, ks: seq<string>): nat
    requires forall k :: k in ks ==> k in counts.entries
  {
    if |ks| == 0 then 0 else SmoothedTotal(counts, ks[..|ks| - 1]) + counts.entries[ks[|ks| - 1]] + 1
  }

  lemma {:induction false} SmoothedTotalIsTotalPlusWidth(counts: Record<nat>, n: nat)
    requires n <= |counts.keys|
    ensures SmoothedTotal(counts, counts.keys[..n]) == SumNat(Values(counts)[..n]) + n
  {
    if n > 0 {
      SmoothedTotalIsTotalPlusWidth(counts, n - 1);
      assert counts.keys[..n][..n - 1] == counts.keys[..n - 1];
      assert Values(counts)[..n][..n - 1] == Values(counts)[..n - 1];
    }
  }

  /** Laplace probabilities over `ks`, added up. */
  function LaplaceSum(counts: Record<nat>, ks: seq<string>): real {
    if |ks| == 0 then 0.0 else LaplaceSum(counts, ks[..|ks| - 1]) + Laplace(counts, ks[|ks| - 1])
  }

  lemma {:induction false} LaplaceSumIsRatio(counts: Record<nat>, ks: seq<string>, d: real)
    requires forall k :: k in ks ==> k in counts.entries
    requires d == (SumNat(Values(counts)) + (if |counts.keys| > 1 then |counts.keys| else 1)) as real
    ensures LaplaceSum(counts, ks) == SmoothedTotal(counts, ks) as real / d
  {
    if |ks| > 0 {
      var n := |ks| - 1;
      LaplaceSumIsRatio(counts, ks[..n], d);
      assert Laplace(counts, ks[n]) == (counts.entries[ks[n]] + 1) as real / d;
      DivAdd(SmoothedTotal(counts, ks[..n]) as real, (counts.entries[ks[n]] + 1) as real, d);
    }
  }

  /**
   * Over the categories a class has seen, the smoothed likelihoods add up to
   * exactly 1 (an unseen value then gets `1 / (total + V)` on top).
   */
  lemma LaplaceOverSeenSumsToOne(counts: Record<nat>)
    requires |counts.keys| > 0
    ensures LaplaceSum(counts, counts.keys) == 1.0
  {
    var ks := counts.keys;
    var total := SumNat(Values(counts));
    var d := (total + |ks|) as real;
    assert ks[..|ks|] == ks;
    assert Values(counts)[..|ks|] == Values(counts);
    SmoothedTotalIsTotalPlusWidth(counts, |ks|);
    assert SmoothedTotal(counts, ks) == total + |ks|;
    LaplaceSumIsRatio(counts, ks, d);
    FractionBounds(d, d);
  }
}
