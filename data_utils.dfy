/**
 * The evaluation and data-inspection utilities of src/app/utils/dataUtils.ts:
 * k-fold index partitioning, the holdout split, the metrics report, column
 * type detection and the choice of a candidate target column.
 */
module DataUtils {
  import opened Js
  import opened Seqs
  import opened Statistics
  import opened Training
  import opened Shuffling
  import opened Metrics

  // ---------------------------------------------------------------- k folds

  /** `Array.from({length: n}, (_, i) => i)` */
  function Range(n: nat): (r: seq<nat>)
    ensures |r| == n && forall i :: 0 <= i < n ==> r[i] == i
  {
    seq(n, i requires 0 <= i < n => i)
  }

  /** The members of `s` whose position is `f` modulo `k`, in order: fold `f` of the round-robin deal. */
  function RoundRobin(s: seq<nat>, k: nat, f: nat): seq<nat>
    requires k > 0
  {
    if |s| == 0 then [] else
      var m := |s| - 1;
      RoundRobin(s[..m], k, f) + (if m % k == f then [s[m]] else [])
  }

  /** The folds one after another. */
  function Flatten(folds: seq<seq<nat>>): seq<nat> {
    if |folds| == 0 then [] else Flatten(folds[..|folds| - 1]) + folds[|folds| - 1]
  }

  /**
   * `kFoldIndices`: with `k <= 1` the single fold `[0, ..., n-1]`; otherwise
   * the shuffled indices dealt round-robin into `k` folds.
   */
  method KFoldIndices(n: nat, k: int, draws: seq<real>) returns (folds: seq<seq<nat>>)
    requires ValidDraws(draws, n)
    ensures k <= 1 ==> folds == [Range(n)]
    ensures k > 1 ==> (|folds| == k &&
      forall f :: 0 <= f < k ==> folds[f] == RoundRobin(Shuffled(Range(n), draws), k, f))
  {
    if k <= 1 {
      return [Range(n)];
    }
    var idx := new nat[n](i requires 0 <= i < n => i);
    assert idx[..] == Range(n);
    ShuffleInPlace(idx, draws);
    folds := seq(k, _ => []);
    for i := 0 to n
      invariant |folds| == k
      invariant forall f :: 0 <= f < k ==> folds[f] == RoundRobin(idx[..i], k, f)
    {
      assert idx[..i + 1][..i] == idx[..i];
      folds := folds[i % k := folds[i % k] + [idx[i]]];
    }
    assert idx[..n] == idx[..];
  }

  lemma {:induction false} FlattenUpdate(folds: seq<seq<nat>>, f: nat, x: nat)
    requires f < |folds|
    ensures multiset(Flatten(folds[f := folds[f] + [x]])) == multiset(Flatten(folds)) + multiset{x}
  {
    var m := |folds| - 1;
    if f < m {
      FlattenUpdate(folds[..m], f, x);
      assert folds[f := folds[f] + [x]][..m] == folds[..m][f := folds[f] + [x]];
    } else {
      assert folds[f := folds[f] + [x]][..m] == folds[..m];
    }
  }

  /** All the folds of the deal, in fold order. */
  function Deal(s: seq<nat>, k: nat): (folds: seq<seq<nat>>)
    requires k > 0
    ensures |folds| == k && forall f :: 0 <= f < k ==> folds[f] == RoundRobin(s, k, f)
  {
    seq(k, f requires 0 <= f < k => RoundRobin(s, k, f))
  }

  /** Dealing one more member puts it at the end of fold `m % k` and leaves the other folds alone. */
  lemma DealSnoc(s: seq<nat>, k: nat)
    requires k > 0 && |s| > 0
    ensures var m := |s| - 1;
            var before := Deal(s[..m], k);
            Deal(s, k) == before[m % k := before[m % k] + [s[m]]]
  {
    var m := |s| - 1;
    var before := Deal(s[..m], k);
    var after := before[m % k := before[m % k] + [s[m]]];
    forall f | 0 <= f < k ensures Deal(s, k)[f] == after[f] {
      assert Deal(s, k)[f] == RoundRobin(s[..m], k, f) + (if m % k == f then [s[m]] else []);
    }
  }

  /** Dealing loses nothing and duplicates nothing: the folds together are a permutation of the dealt sequence. */
  lemma {:induction false} DealPartitions(s: seq<nat>, k: nat)
    requires k > 0
    ensures multiset(Flatten(Deal(s, k))) == multiset(s)
  {
    if |s| == 0 {
      EmptyFolds(Deal(s, k));
    } else {
      var m := |s| - 1;
      DealPartitions(s[..m], k);
      DealSnoc(s, k);
      FlattenUpdate(Deal(s[..m], k), m % k, s[m]);
      assert s == s[..m] + [s[m]];
    }
  }

  lemma {:induction false} EmptyFolds(folds: seq<seq<nat>>)
    requires forall f :: 0 <= f < |folds| ==> folds[f] == []
    ensures Flatten(folds) == []
  {
    if |folds| > 0 {
      EmptyFolds(folds[..|folds| - 1]);
    }
  }

  /** `[0, ..., n-1]` holds every index below n exactly once, and nothing else. */
  lemma {:induction false} RangeOccurrences(n: nat, v: nat)
    ensures multiset(Range(n))[v] == if v < n then 1 else 0
  {
    if n > 0 {
      RangeOccurrences(n - 1, v);
      assert Range(n) == Range(n - 1) + [n - 1];
    }
  }

  /** With k >= 2, every index in 0..n-1 lands in exactly one fold, and nothing else does. */
  lemma KFoldsPartitionIndices(n: nat, k: nat, draws: seq<real>, v: nat)
    requires k > 1 && ValidDraws(draws, n)
    ensures multiset(Flatten(Deal(Shuffled(Range(n), draws), k)))[v] == if v < n then 1 else 0
  {
    DealPartitions(Shuffled(Range(n), draws), k);
    ShuffledIsPermutation(Range(n), draws);
    RangeOccurrences(n, v);
  }

  lemma MulMonotone(a: nat, b: nat, k: nat)
    ensures a <= b ==> a * k <= b * k
  {
  }

  /** Division with remainder has one answer: `q * k + r` with `0 <= r < k` divides to `q`, remainder `r`. */
  lemma DivModUnique(q: nat, r: nat, k: nat)
    requires r < k
    ensures (q * k + r) / k == q && (q * k + r) % k == r
  {
    var n := q * k + r;
    var q', r' := n / k, n % k;
    assert n == q' * k + r';
    MulMonotone(q + 1, q', k);
    MulMonotone(q' + 1, q, k);
    assert (q + 1) * k == q * k + k;
    assert (q' + 1) * k == q' * k + k;
  }

  /** Counting one further: the remainder wraps to 0 after k - 1, carrying into the quotient. */
  lemma DivModNext(m: nat, k: nat)
    requires k > 0
    ensures m % k == k - 1 ==> (m + 1) / k == m / k + 1 && (m + 1) % k == 0
    ensures m % k < k - 1 ==> (m + 1) / k == m / k && (m + 1) % k == m % k + 1
  {
    var q, r := m / k, m % k;
    assert m == q * k + r;
    if r == k - 1 {
      DivModUnique(q + 1, 0, k);
      assert m + 1 == (q + 1) * k + 0;
    } else {
      DivModUnique(q, r + 1, k);
      assert m + 1 == q * k + (r + 1);
    }
  }

  /** Fold f of a deal of s receives |s| / k members, plus one for the first |s| % k folds. */
  lemma {:induction false} RoundRobinSize(s: seq<nat>, k: nat, f: nat)
    requires 0 <= f < k
    ensures |RoundRobin(s, k, f)| == |s| / k + (if f < |s| % k then 1 else 0)
  {
    if |s| > 0 {
      var m := |s| - 1;
      RoundRobinSize(s[..m], k, f);
      DivModNext(m, k);
    }
  }

  /** Fold sizes differ by at most one; folds past the n-th are empty when k > n. */
  lemma FoldSizesBalanced(s: seq<nat>, k: nat, f: nat, g: nat)
    requires 0 <= f < k && 0 <= g < k
    ensures |RoundRobin(s, k, f)| <= |RoundRobin(s, k, g)| + 1
    ensures k > |s| && f >= |s| ==> RoundRobin(s, k, f) == []
  {
    RoundRobinSize(s, k, f);
    RoundRobinSize(s, k, g);
  }

  // ----------------------------------------------------------------- split

  /** `Math.max(1, Math.floor((trainPercent / 100) * len))`, as far as `slice(0, t)` can take: at most `len`. */
  function TrainCount(trainPercent: real, len: nat): (t: nat)
    ensures t <= len
    ensures len > 0 ==> t >= 1
  {
    var t := (trainPercent / 100.0 * len as real).Floor;
    var clamped := if t > 1 then t else 1;
    if clamped < len then clamped else len
  }

  /** Asking for 100% or more trains on everything and leaves no test set. */
  lemma TrainCountFull(trainPercent: real, len: nat)
    requires trainPercent >= 100.0
    ensures TrainCount(trainPercent, len) == len
  {
    var x := trainPercent / 100.0;
    assert x >= 1.0;
    assert (x - 1.0) * len as real >= 0.0;
    assert x * len as real >= len as real;
  }

  /** Asking for nothing (or less) still trains on one row: the `Math.max(1, ...)` floor. */
  lemma TrainCountEmpty(trainPercent: real, len: nat)
    requires trainPercent <= 0.0 && len > 0
    ensures TrainCount(trainPercent, len) == 1
  {
    var x := trainPercent / 100.0;
    assert x <= 0.0;
    assert x * len as real <= 0.0 by {
      assert (-x) * len as real >= 0.0;
    }
  }

  /**
   * `splitData`: shuffles a copy, then `train` is its first `TrainCount`
   * elements and `test` the rest; the input is only read.
   */
  method SplitData<T>(arr: seq<T>, trainPercent: real, draws: seq<real>) returns (train: seq<T>, test: seq<T>)
    requires ValidDraws(draws, |arr|)
    ensures train + test == Shuffled(arr, draws)
    ensures |train| == TrainCount(trainPercent, |arr|)
    ensures multiset(train + test) == multiset(arr)
  {
    var a := ShuffledCopy(arr, draws);
    var t := TrainCount(trainPercent, |arr|);
    train, test := a[..t], a[t..];
    assert train + test == a;
  }

  // --------------------------------------------------------------- metrics

  /** `preds[i]` as an object key: past the end it reads `undefined`, which indexes as the key "undefined". */
  function PredKey(preds: seq<string>, i: nat): string {
    if i < |preds| then preds[i] else "undefined"
  }

  /** The (actual, predicted) class positions of every position whose two labels are both classes. */
  function KnownPairs(classes: seq<string>, actuals: seq<string>, preds: seq<string>): (r: seq<(nat, nat)>)
    ensures PairsWithin(r, |classes|)
    ensures |r| <= |actuals|
  {
    if |actuals| == 0 then [] else
      var m := |actuals| - 1;
      var p := KnownPairs(classes, actuals[..m], preds);
      var a, q := actuals[m], PredKey(preds, m);
      if a in classes && q in classes then p + [(LastIndex(classes, a), LastIndex(classes, q))] else p
  }

  /** Positions where the prediction equals the actual label (`actuals[i] === preds[i]`). */
  function Matches(actuals: seq<string>, preds: seq<string>): (k: nat)
    ensures k <= |actuals|
  {
    if |actuals| == 0 then 0 else
      var m := |actuals| - 1;
      Matches(actuals[..m], preds) + (if m < |preds| && actuals[m] == preds[m] then 1 else 0)
  }

  /** `actuals.length ? correct / actuals.length : 0` */
  function Accuracy(correct: nat, total: nat): (r: real)
    requires correct <= total
    ensures 0.0 <= r <= 1.0
    ensures total == 0 ==> r == 0.0
    ensures total > 0 ==> (r == 1.0 <==> correct == total)
  {
    if total == 0 then 0.0 else
      FractionBounds(correct as real, total as real);
      correct as real / total as real
  }

  /** Lines 64-65: `idx[c]` is the last position of `c` in `classes`. */
  method IndexClasses(classes: seq<string>) returns (idx: map<string, nat>)
    ensures forall c :: c in idx <==> c in classes
    ensures forall c :: c in idx ==> idx[c] == LastIndex(classes, c)
  {
    idx := map[];
    for i := 0 to |classes|
      invariant forall c :: c in idx <==> c in classes[..i]
      invariant forall c :: c in idx ==> idx[c] == LastIndex(classes[..i], c)
    {
      PerClassStep(classes, i);
      idx := idx[classes[i] := i];
    }
    assert classes[..|classes|] == classes;
  }

  /** One more position: its pair is tallied when both of its labels are classes, and it matches when they are equal. */
  lemma PositionStep(classes: seq<string>, actuals: seq<string>, preds: seq<string>, i: nat)
    requires i < |actuals|
    ensures KnownPairs(classes, actuals[..i + 1], preds)
            == KnownPairs(classes, actuals[..i], preds) +
               (if actuals[i] in classes && PredKey(preds, i) in classes
                then [(LastIndex(classes, actuals[i]), LastIndex(classes, PredKey(preds, i)))] else [])
    ensures Matches(actuals[..i + 1], preds)
            == Matches(actuals[..i], preds) + (if i < |preds| && actuals[i] == preds[i] then 1 else 0)
  {
    assert actuals[..i + 1][..i] == actuals[..i];
  }

  /** Lines 67-73: the matrix loop, skipping a position whose actual or predicted label is not a class. */
  method TallyKnownPairs(classes: seq<string>, idx: map<string, nat>, actuals: seq<string>, preds: seq<string>) returns (cm: Matrix)
    requires forall c :: c in idx <==> c in classes
    requires forall c :: c in idx ==> idx[c] == LastIndex(classes, c)
    ensures cm == Tabulate(|classes|, KnownPairs(classes, actuals, preds))
  {
    var n := |classes|;
    cm := Zeros(n);
    for i := 0 to |actuals|
      invariant cm == Tabulate(n, KnownPairs(classes, actuals[..i], preds))
    {
      PositionStep(classes, actuals, preds, i);
      var a, p := actuals[i], PredKey(preds, i);
      if a in idx && p in idx {
        ghost var pairs := KnownPairs(classes, actuals[..i], preds);
        ghost var more := pairs + [(idx[a], idx[p])];
        assert more[..|more| - 1] == pairs;
        assert KnownPairs(classes, actuals[..i + 1], preds) == more;
        assert Tabulate(n, more) == Bump(Tabulate(n, pairs), idx[a], idx[p]);
        cm := Bump(cm, idx[a], idx[p]);
      } else {
        assert KnownPairs(classes, actuals[..i + 1], preds) == KnownPairs(classes, actuals[..i], preds);
      }
    }
    assert actuals[..|actuals|] == actuals;
  }

  /** Lines 74-75: the match loop; a position past the end of `preds` never matches. */
  method CountMatches(actuals: seq<string>, preds: seq<string>) returns (correct: nat)
    ensures correct == Matches(actuals, preds)
  {
    correct := 0;
    for i := 0 to |actuals|
      invariant correct == Matches(actuals[..i], preds)
    {
      PositionStep([], actuals, preds, i);
      if i < |preds| && actuals[i] == preds[i] {
        correct := correct + 1;
      }
    }
    assert actuals[..|actuals|] == actuals;
  }

  /**
   * `computeMetrics`: the confusion matrix counts the positions whose actual
   * and predicted labels are both classes (others are skipped), accuracy
   * counts every match, and the macro averages divide by `n || 1`.
   */
  method ComputeMetrics(classes: seq<string>, actuals: seq<string>, preds: seq<string>) returns (m: Report)
    ensures m.confusionMatrix == Tabulate(|classes|, KnownPairs(classes, actuals, preds))
    ensures m.accuracy == Accuracy(Matches(actuals, preds), |actuals|)
    ensures m.precisionPerClass.keys == Dedup(classes)
    ensures forall c :: c in m.precisionPerClass.entries ==>
              c in classes && m.precisionPerClass.entries[c] == PrecisionAt(m.confusionMatrix, LastIndex(classes, c))
    ensures forall c :: c in m.recallPerClass.entries ==>
              c in classes && m.recallPerClass.entries[c] == RecallAt(m.confusionMatrix, LastIndex(classes, c))
    ensures forall c :: c in m.f1PerClass.entries ==>
              c in classes && m.f1PerClass.entries[c] == F1At(m.confusionMatrix, LastIndex(classes, c))
    ensures m.recallPerClass.keys == Dedup(classes) && m.f1PerClass.keys == Dedup(classes)
    ensures Fractions(m.precisionPerClass) && Fractions(m.recallPerClass) && Fractions(m.f1PerClass)
    ensures m.macroPrecision == Finite(MacroAverage(m.precisionPerClass, |classes|))
    ensures m.macroRecall == Finite(MacroAverage(m.recallPerClass, |classes|))
    ensures m.macroF1 == Finite(MacroAverage(m.f1PerClass, |classes|))
    ensures m.macroPrecision.Finite? && 0.0 <= m.macroPrecision.r <= 1.0
    ensures m.macroRecall.Finite? && 0.0 <= m.macroRecall.r <= 1.0
    ensures m.macroF1.Finite? && 0.0 <= m.macroF1.r <= 1.0
    ensures |classes| == 0 ==> m.macroPrecision == m.macroRecall == m.macroF1 == Finite(0.0)
  {
    var idx := IndexClasses(classes);
    var n := |classes|;
    var cm := TallyKnownPairs(classes, idx, actuals, preds);
    var correct := CountMatches(actuals, preds);
    var accuracy := Accuracy(correct, |actuals|);
    var precision, recall, f1 := PerClassScores(classes, cm);
    m := Report(accuracy, cm, precision, recall, f1,
                Finite(MacroAverage(precision, n)), Finite(MacroAverage(recall, n)), Finite(MacroAverage(f1, n)));
  }

  /** Row `i` of the matrix counts the known positions whose actual label's index is `i`; all cells count every known position. */
  lemma ConfusionMatrixCounts(classes: seq<string>, actuals: seq<string>, preds: seq<string>, i: nat)
    requires i < |classes|
    ensures var pairs := KnownPairs(classes, actuals, preds);
            && RowSum(Tabulate(|classes|, pairs), i) == CountActual(pairs, i)
            && ColumnSum(Tabulate(|classes|, pairs), i) == CountPredicted(pairs, i)
            && Total(Tabulate(|classes|, pairs)) == |pairs|
  {
    var pairs := KnownPairs(classes, actuals, preds);
    TabulateRowSum(|classes|, pairs, i);
    TabulateColumnSum(|classes|, pairs, i);
    TabulateTotal(|classes|, pairs);
  }

  /** Positions with a label outside `classes` are skipped: the matrix counts exactly the positions whose two labels are classes. */
  lemma {:induction false} KnownPairsCount(classes: seq<string>, actuals: seq<string>, preds: seq<string>)
    ensures |KnownPairs(classes, actuals, preds)| == |actuals| <==>
            forall i :: 0 <= i < |actuals| ==> actuals[i] in classes && PredKey(preds, i) in classes
  {
    if |actuals| > 0 {
      var m := |actuals| - 1;
      KnownPairsCount(classes, actuals[..m], preds);
      assert forall i :: 0 <= i < m ==> actuals[..m][i] == actuals[i];
    }
  }

  // ----------------------------------------------------------- column types

  datatype ColumnType = NumericColumn | CategoricalColumn

  /** Lines 13-18: a present value whose stripped text is non-empty and parses to a finite number. */
  predicate LooksNumeric(rt: Runtime, v: Value) {
    && !IsNullish(v)
    && var s := KeepNumericChars(ToString(rt, v));
    && s != ""
    && rt.parseFloat(s).IsFinite()
  }

  /** How many rows' `c` values look numeric. */
  function NumericCount(rt: Runtime, rows: seq<Row>, c: string): (k: nat)
    ensures k <= |rows|
  {
    if |rows| == 0 then 0 else
      NumericCount(rt, rows[..|rows| - 1], c) + (if LooksNumeric(rt, Field(rows[|rows| - 1], c)) then 1 else 0)
  }

  /** `Math.max(1, Math.floor(len * 0.7))` */
  function Threshold(len: nat): (t: nat)
    ensures t >= 1
    ensures len >= 1 ==> t <= len
  {
    var f := (len as real * 0.7).Floor;
    if f > 1 then f else 1
  }

  /** `data.slice(0, Math.min(sampleSize, data.length))` */
  function Sample(data: seq<Row>, sampleSize: nat): (s: seq<Row>)
    ensures |s| == if sampleSize < |data| then sampleSize else |data|
    ensures s == data[..|s|]
  {
    if sampleSize < |data| then data[..sampleSize] else data
  }

  /** The verdict for one column of the sample. */
  function ColumnVerdict(rt: Runtime, sample: seq<Row>, c: string): ColumnType {
    if NumericCount(rt, sample, c) >= Threshold(|sample|) then NumericColumn else CategoricalColumn
  }

  /** Lines 11-19: the counting loop over the sample for one column. */
  method CountNumeric(rt: Runtime, sample: seq<Row>, c: string) returns (numericCount: nat)
    ensures numericCount == NumericCount(rt, sample, c)
  {
    numericCount := 0;
    for i := 0 to |sample|
      invariant numericCount == NumericCount(rt, sample[..i], c)
    {
      assert sample[..i + 1][..i] == sample[..i];
      var v := Field(sample[i], c);
      if !IsNullish(v) {
        var s := KeepNumericChars(ToString(rt, v));
        if s != "" {
          var x := rt.parseFloat(s);
          if x.IsFinite() {
            numericCount := numericCount + 1;
          }
        }
      }
    }
    assert sample[..|sample|] == sample;
  }

  /** Every column in `types` holds its verdict on the sample. */
  ghost predicate Verdicts(types: Record<ColumnType>, rt: Runtime, sample: seq<Row>) {
    forall c :: c in types.entries ==> types.entries[c] == ColumnVerdict(rt, sample, c)
  }

  /** Recording the next column's verdict appends that column and keeps every verdict right. */
  lemma VerdictStep(types: Record<ColumnType>, rt: Runtime, sample: seq<Row>, cols: seq<string>, j: nat)
    requires j < |cols| && Distinct(cols)
    requires types.keys == cols[..j] && Verdicts(types, rt, sample)
    ensures var next := Put(types, cols[j], ColumnVerdict(rt, sample, cols[j]));
            next.keys == cols[..j + 1] && Verdicts(next, rt, sample)
  {
    assert cols[j] !in types.entries by {
      assert forall i :: 0 <= i < j ==> cols[i] != cols[j];
    }
    assert cols[..j + 1] == cols[..j] + [cols[j]];
  }

  /**
   * `detectColumnTypes`: `{}` for no data; otherwise one verdict per column of
   * the first row, in that row's key order.
   */
  method DetectColumnTypes(rt: Runtime, data: seq<Row>, sampleSize: nat) returns (types: Record<ColumnType>)
    requires sampleSize >= 1
    ensures |data| == 0 ==> types.keys == []
    ensures |data| > 0 ==> types.keys == data[0].keys
    ensures Verdicts(types, rt, Sample(data, sampleSize))
  {
    types := EmptyRecord();
    if |data| == 0 {
      return;
    }
    var sample := Sample(data, sampleSize);
    var cols := sample[0].keys;
    for j := 0 to |cols|
      invariant types.keys == cols[..j]
      invariant Verdicts(types, rt, sample)
    {
      var c := cols[j];
      var numericCount := CountNumeric(rt, sample, c);
      var verdict := if numericCount >= Threshold(|sample|) then NumericColumn else CategoricalColumn;
      VerdictStep(types, rt, sample, cols, j);
      types := Put(types, c, verdict);
    }
    assert cols[..|cols|] == cols;
  }

  /** A column whose sampled values all look numeric is numeric. */
  lemma AllLookNumericIsNumeric(rt: Runtime, sample: seq<Row>, c: string)
    requires |sample| > 0
    requires forall i :: 0 <= i < |sample| ==> LooksNumeric(rt, Field(sample[i], c))
    ensures ColumnVerdict(rt, sample, c) == NumericColumn
  {
    AllCounted(rt, sample, c);
  }

  lemma {:induction false} AllCounted(rt: Runtime, rows: seq<Row>, c: string)
    requires forall i :: 0 <= i < |rows| ==> LooksNumeric(rt, Field(rows[i], c))
    ensures NumericCount(rt, rows, c) == |rows|
  {
    if |rows| > 0 {
      AllCounted(rt, rows[..|rows| - 1], c);
    }
  }

  lemma {:induction false} NoneCounted(rt: Runtime, rows: seq<Row>, c: string)
    requires forall i :: 0 <= i < |rows| ==> !LooksNumeric(rt, Field(rows[i], c))
    ensures NumericCount(rt, rows, c) == 0
  {
    if |rows| > 0 {
      NoneCounted(rt, rows[..|rows| - 1], c);
    }
  }

  /** A column with no numeric-looking value (empty cells, text) is categorical: the threshold is at least 1. */
  lemma NoneLookNumericIsCategorical(rt: Runtime, sample: seq<Row>, c: string)
    requires forall i :: 0 <= i < |sample| ==> !LooksNumeric(rt, Field(sample[i], c))
    ensures ColumnVerdict(rt, sample, c) == CategoricalColumn
  {
    NoneCounted(rt, sample, c);
  }

  // ---------------------------------------------------------- target choice

  /** Line 30: the preferred target names, in order. */
  const Preferred: seq<string> := ["label", "price_idr", "price", "class", "price"]

  /** The first of `names` that is one of `cols`. */
  function FirstIn(names: seq<string>, cols: seq<string>): (r: Option<string>)
    ensures r.Some? ==> r.value in names && r.value in cols
    ensures r.None? <==> forall x :: x in names ==> x !in cols
  {
    if |names| == 0 then None
    else if names[0] in cols then Some(names[0])
    else FirstIn(names[1..], cols)
  }

  /** `new Set(...filter(s => s !== '')).size / data.length` for column `c`. */
  function UniqueRatio(rt: Runtime, data: seq<Row>, c: string): real
    requires |data| > 0
  {
    |DistinctNonEmpty(Labels(rt, data, c))| as real / |data| as real
  }

  /** A column's ratio is below 1 exactly when it has an empty cell or a repeated value. */
  lemma UniqueRatioBelowOne(rt: Runtime, data: seq<Row>, c: string)
    requires |data| > 0
    ensures UniqueRatio(rt, data, c) < 1.0 <==> |DistinctNonEmpty(Labels(rt, data, c))| < |data|
    ensures UniqueRatio(rt, data, c) < 1.0 <==> "" in Labels(rt, data, c) || !Distinct(Labels(rt, data, c))
    ensures UniqueRatio(rt, data, c) <= 1.0
  {
    FewerClassesThanLabels(Labels(rt, data, c));
    DistinctNonEmptyLength(Labels(rt, data, c));
    FractionBounds(|DistinctNonEmpty(Labels(rt, data, c))| as real, |data| as real);
  }

  /** A column of empty cells has no distinct non-empty value. */
  lemma {:induction false} NoClassesWhenAllEmpty(xs: seq<string>)
    requires forall i :: 0 <= i < |xs| ==> xs[i] == ""
    ensures DistinctNonEmpty(xs) == []
  {
    if |xs| > 0 {
      NoClassesWhenAllEmpty(xs[..|xs| - 1]);
    }
  }

  /**
   * A column whose cells are all empty has ratio 0, the lowest possible, so
   * when one exists the heuristic's pick (if it is not a preferred name)
   * is a column without a single class: training on it fails.
   */
  lemma BlankColumnWins(rt: Runtime, data: seq<Row>, cols: seq<string>, blank: string, r: string)
    requires |data| > 0 && blank in cols
    requires forall i :: 0 <= i < |data| ==> CellText(rt, data[i], blank) == ""
    requires forall i :: 0 <= i < |cols| ==> UniqueRatio(rt, data, r) <= UniqueRatio(rt, data, cols[i])
    ensures DistinctNonEmpty(Labels(rt, data, r)) == []
  {
    NoClassesWhenAllEmpty(Labels(rt, data, blank));
    var k :| 0 <= k < |cols| && cols[k] == blank;
    assert UniqueRatio(rt, data, r) <= UniqueRatio(rt, data, blank) == 0.0;
    NoneOverSome(|DistinctNonEmpty(Labels(rt, data, r))|, |data|);
  }

  /** A count over a positive total is at most 0 only when the count is 0. */
  lemma NoneOverSome(a: nat, n: nat)
    requires n > 0
    ensures a as real / n as real <= 0.0 ==> a == 0
  {
  }

  /** Line 31: the first preferred name among the columns. */
  method FindPreferred(cols: seq<string>) returns (r: Option<string>)
    ensures r == FirstIn(Preferred, cols)
  {
    for i := 0 to |Preferred|
      invariant forall x :: x in Preferred[..i] ==> x !in cols
    {
      if Preferred[i] in cols {
        FirstInAt(Preferred, cols, i);
        return Some(Preferred[i]);
      }
      assert Preferred[..i + 1] == Preferred[..i] + [Preferred[i]];
    }
    assert Preferred[..|Preferred|] == Preferred;
    return None;
  }

  /** `c` has the lowest unique ratio of all `cols`, strictly lower than every column before it. */
  ghost predicate FirstLowest(rt: Runtime, data: seq<Row>, cols: seq<string>, c: string)
    requires |data| > 0 && c in cols
  {
    && (forall i :: 0 <= i < |cols| ==> UniqueRatio(rt, data, c) <= UniqueRatio(rt, data, cols[i]))
    && (forall i :: 0 <= i < FirstIndex(cols, c) ==> UniqueRatio(rt, data, c) < UniqueRatio(rt, data, cols[i]))
  }

  /** After the first `j` columns: `best` is the first column of lowest ratio so far, if that ratio is below 1. */
  ghost predicate Scanned(rt: Runtime, data: seq<Row>, cols: seq<string>, j: nat,
                          best: Option<string>, bestRatio: real, bestAt: nat)
    requires |data| > 0 && j <= |cols|
  {
    && (best.None? ==> bestRatio == 1.0 && forall i :: 0 <= i < j ==> UniqueRatio(rt, data, cols[i]) >= 1.0)
    && (best.Some? ==>
          && bestAt < j && cols[bestAt] == best.value
          && bestRatio == UniqueRatio(rt, data, best.value) && bestRatio < 1.0
          && (forall i :: 0 <= i < j ==> bestRatio <= UniqueRatio(rt, data, cols[i]))
          && (forall i :: 0 <= i < bestAt ==> bestRatio < UniqueRatio(rt, data, cols[i])))
  }

  /** Column `j` replaces the best so far exactly when its ratio is strictly lower. */
  lemma ScanStep(rt: Runtime, data: seq<Row>, cols: seq<string>, j: nat,
                 best: Option<string>, bestRatio: real, bestAt: nat)
    requires |data| > 0 && j < |cols|
    requires Scanned(rt, data, cols, j, best, bestRatio, bestAt)
    ensures var r := UniqueRatio(rt, data, cols[j]);
            if r < bestRatio then Scanned(rt, data, cols, j + 1, Some(cols[j]), r, j)
            else Scanned(rt, data, cols, j + 1, best, bestRatio, bestAt)
  {
  }

  /** Lines 33-40: the best-so-far loop, starting from ratio 1 and replacing only on a strictly lower ratio. */
  method LowestRatioColumn(rt: Runtime, data: seq<Row>, cols: seq<string>) returns (best: Option<string>)
    requires |data| > 0
    ensures best.None? ==> forall i :: 0 <= i < |cols| ==> UniqueRatio(rt, data, cols[i]) >= 1.0
    ensures best.Some? ==> best.value in cols && UniqueRatio(rt, data, best.value) < 1.0 && FirstLowest(rt, data, cols, best.value)
  {
    best := None;
    var bestRatio := 1.0;
    ghost var bestAt := 0;
    for j := 0 to |cols|
      invariant Scanned(rt, data, cols, j, best, bestRatio, bestAt)
    {
      var c := cols[j];
      var uniq := DistinctNonEmpty(Labels(rt, data, c));
      var ratio := |uniq| as real / |data| as real;
      ScanStep(rt, data, cols, j, best, bestRatio, bestAt);
      if ratio < bestRatio {
        bestRatio := ratio;
        best := Some(c);
        bestAt := j;
      }
    }
    if best.Some? {
      assert FirstIndex(cols, best.value) <= bestAt;
    }
  }

  /**
   * `inferCandidateTarget`: `null` for no data; else the first preferred name
   * among the first row's columns; else the first column with the lowest
   * unique ratio, provided it is below 1.
   */
  method InferCandidateTarget(rt: Runtime, data: seq<Row>) returns (r: Option<string>)
    ensures |data| == 0 ==> r == None
    ensures |data| > 0 && FirstIn(Preferred, data[0].keys).Some? ==> r == FirstIn(Preferred, data[0].keys)
    ensures |data| > 0 && FirstIn(Preferred, data[0].keys).None? ==>
      && (r.None? ==> forall c :: c in data[0].keys ==> UniqueRatio(rt, data, c) >= 1.0)
      && (r.Some? ==> r.value in data[0].keys && UniqueRatio(rt, data, r.value) < 1.0 && FirstLowest(rt, data, data[0].keys, r.value))
  {
    if |data| == 0 {
      return None;
    }
    var cols := data[0].keys;
    r := FindPreferred(cols);
    if r.Some? {
      return;
    }
    r := LowestRatioColumn(rt, data, cols);
  }

  /** The scan for a preferred name stops at the first one present. */
  lemma {:induction false} FirstInAt(names: seq<string>, cols: seq<string>, i: nat)
    requires i < |names| && names[i] in cols
    requires forall x :: x in names[..i] ==> x !in cols
    ensures FirstIn(names, cols) == Some(names[i])
  {
    if i > 0 {
      assert names[0] in names[..i];
      assert names[1..][..i - 1] == names[..i][1..];
      FirstInAt(names[1..], cols, i - 1);
    }
  }
}
