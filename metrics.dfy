/**
 * The evaluation arithmetic shared by `computeMetrics`
 * (src/app/utils/dataUtils.ts) and `evaluate` (src/app/api/naive-bayes/route.ts):
 * the n-by-n confusion matrix, per-class precision, recall and F1, and the
 * records they are written into.
 */
module Metrics {
  import opened Js
  import opened Seqs

  /** `cm[actualIndex][predictedIndex]` */
  type Matrix = seq<seq<nat>>

  /** What both evaluations return. */
  datatype Report = Report(
    accuracy: real,
    confusionMatrix: Matrix,
    precisionPerClass: Record<real>,
    recallPerClass: Record<real>,
    f1PerClass: Record<real>,
    macroPrecision: Number,
    macroRecall: Number,
    macroF1: Number)

  predicate IsSquare(cm: Matrix, n: nat) {
    |cm| == n && forall r :: 0 <= r < n ==> |cm[r]| == n
  }

  /** `Array.from({length: n}, () => Array(n).fill(0))` */
  function Zeros(n: nat): (cm: Matrix)
    ensures IsSquare(cm, n)
    ensures forall r, c :: 0 <= r < n && 0 <= c < n ==> cm[r][c] == 0
  {
    seq(n, _ => seq(n, _ => 0))
  }

  /** `cm[a][p]++` */
  function Bump(cm: Matrix, a: nat, p: nat): (r: Matrix)
    requires a < |cm| && p < |cm[a]|
  {
    cm[a := cm[a][p := cm[a][p] + 1]]
  }

  /** Every pair indexes an n-by-n matrix. */
  predicate PairsWithin(pairs: seq<(nat, nat)>, n: nat) {
    forall k :: 0 <= k < |pairs| ==> pairs[k].0 < n && pairs[k].1 < n
  }

  /** The confusion matrix that counting the (actual, predicted) index pairs in order builds. */
  function Tabulate(n: nat, pairs: seq<(nat, nat)>): (cm: Matrix)
    requires PairsWithin(pairs, n)
    ensures IsSquare(cm, n)
  {
    if |pairs| == 0 then Zeros(n) else
      var last := pairs[|pairs| - 1];
      Bump(Tabulate(n, pairs[..|pairs| - 1]), last.0, last.1)
  }

  /** `cm[r].reduce((s, v) => s + v, 0)` */
  function RowSum(cm: Matrix, r: nat): nat
    requires r < |cm|
  {
    SumNat(cm[r])
  }

  /** Column `c` of the matrix, top to bottom. */
  function Column(cm: Matrix, c: nat): (col: seq<nat>)
    requires forall r :: 0 <= r < |cm| ==> c < |cm[r]|
    ensures |col| == |cm| && forall r :: 0 <= r < |cm| ==> col[r] == cm[r][c]
  {
    seq(|cm|, r requires 0 <= r < |cm| => cm[r][c])
  }

  /** `cm.reduce((s, row) => s + row[c], 0)` */
  function ColumnSum(cm: Matrix, c: nat): nat
    requires forall r :: 0 <= r < |cm| ==> c < |cm[r]|
  {
    SumNat(Column(cm, c))
  }

  /** Every cell of the matrix, added up. */
  function Total(cm: Matrix): nat {
    if |cm| == 0 then 0 else Total(cm[..|cm| - 1]) + SumNat(cm[|cm| - 1])
  }

  /** How many pairs have actual index `a`. */
  function CountActual(pairs: seq<(nat, nat)>, a: nat): (k: nat)
    ensures k <= |pairs|
  {
    if |pairs| == 0 then 0 else CountActual(pairs[..|pairs| - 1], a) + (if pairs[|pairs| - 1].0 == a then 1 else 0)
  }

  /** How many pairs have predicted index `p`. */
  function CountPredicted(pairs: seq<(nat, nat)>, p: nat): (k: nat)
    ensures k <= |pairs|
  {
    if |pairs| == 0 then 0 else CountPredicted(pairs[..|pairs| - 1], p) + (if pairs[|pairs| - 1].1 == p then 1 else 0)
  }

  lemma {:induction false} ZerosSums(n: nat, i: nat)
    requires i < n
    ensures SumNat(Zeros(n)[i]) == 0
    ensures SumNat(Column(Zeros(n), i)) == 0
  {
    ZeroSum(Zeros(n)[i]);
    ZeroSum(Column(Zeros(n), i));
  }

  lemma {:induction false} ZeroSum(s: seq<nat>)
    requires forall k :: 0 <= k < |s| ==> s[k] == 0
    ensures SumNat(s) == 0
  {
    if |s| > 0 {
      ZeroSum(s[..|s| - 1]);
    }
  }

  lemma {:induction false} ZerosTotal(n: nat, m: nat)
    requires m <= n
    ensures Total(Zeros(n)[..m]) == 0
  {
    if m > 0 {
      ZerosTotal(n, m - 1);
      assert Zeros(n)[..m][..m - 1] == Zeros(n)[..m - 1];
      ZerosSums(n, m - 1);
    }
  }

  /** Each cell counts the pairs equal to its (row, column). */
  lemma {:induction false} TabulateCell(n: nat, pairs: seq<(nat, nat)>, a: nat, p: nat)
    requires PairsWithin(pairs, n) && a < n && p < n
    ensures Tabulate(n, pairs)[a][p] == Count(pairs, (a, p))
  {
    if |pairs| > 0 {
      TabulateCell(n, pairs[..|pairs| - 1], a, p);
    }
  }

  /** Row `a` sums to the number of pairs whose actual index is `a`. */
  lemma {:induction false} TabulateRowSum(n: nat, pairs: seq<(nat, nat)>, a: nat)
    requires PairsWithin(pairs, n) && a < n
    ensures RowSum(Tabulate(n, pairs), a) == CountActual(pairs, a)
  {
    if |pairs| == 0 {
      ZerosSums(n, a);
    } else {
      var q := pairs[..|pairs| - 1];
      var last := pairs[|pairs| - 1];
      var cm := Tabulate(n, q);
      TabulateRowSum(n, q, a);
      if last.0 == a {
        SumNatUpdate(cm[a], last.1, cm[a][last.1] + 1);
      }
    }
  }

  /** Column `p` sums to the number of pairs whose predicted index is `p`. */
  lemma {:induction false} TabulateColumnSum(n: nat, pairs: seq<(nat, nat)>, p: nat)
    requires PairsWithin(pairs, n) && p < n
    ensures ColumnSum(Tabulate(n, pairs), p) == CountPredicted(pairs, p)
  {
    if |pairs| == 0 {
      ZerosSums(n, p);
    } else {
      var q := pairs[..|pairs| - 1];
      var last := pairs[|pairs| - 1];
      var cm := Tabulate(n, q);
      TabulateColumnSum(n, q, p);
      var col := Column(cm, p);
      if last.1 == p {
        assert Column(Tabulate(n, pairs), p) == col[last.0 := col[last.0] + 1];
        SumNatUpdate(col, last.0, col[last.0] + 1);
      } else {
        assert Column(Tabulate(n, pairs), p) == col;
      }
    }
  }

  lemma {:induction false} TotalUpdate(cm: Matrix, a: nat, row: seq<nat>)
    requires a < |cm|
    ensures Total(cm[a := row]) == Total(cm) - SumNat(cm[a]) + SumNat(row)
  {
    var m := |cm| - 1;
    if a < m {
      TotalUpdate(cm[..m], a, row);
      assert cm[a := row][..m] == cm[..m][a := row];
    } else {
      assert cm[a := row][..m] == cm[..m];
    }
  }

  /** All cells together count every pair once. */
  lemma {:induction false} TabulateTotal(n: nat, pairs: seq<(nat, nat)>)
    requires PairsWithin(pairs, n)
    ensures Total(Tabulate(n, pairs)) == |pairs|
  {
    if |pairs| == 0 {
      assert Zeros(n)[..n] == Zeros(n);
      ZerosTotal(n, n);
    } else {
      var q := pairs[..|pairs| - 1];
      var last := pairs[|pairs| - 1];
      var cm := Tabulate(n, q);
      TabulateTotal(n, q);
      SumNatUpdate(cm[last.0], last.1, cm[last.0][last.1] + 1);
      TotalUpdate(cm, last.0, cm[last.0][last.1 := cm[last.0][last.1] + 1]);
    }
  }

  /** `whole === 0 ? 0 : part / whole`: a fraction in [0, 1], 0 when there is nothing to divide. */
  function Ratio(part: nat, whole: nat): (r: real)
    requires part <= whole
    ensures 0.0 <= r <= 1.0
    ensures whole == 0 ==> r == 0.0
    ensures whole > 0 ==> r * whole as real == part as real
  {
    if whole == 0 then 0.0 else
      FractionBounds(part as real, whole as real);
      part as real / whole as real
  }

  /** The diagonal cell never exceeds its row or its column. */
  lemma DiagonalBounded(cm: Matrix, i: nat)
    requires IsSquare(cm, |cm|) && i < |cm|
    ensures cm[i][i] <= ColumnSum(cm, i)
    ensures cm[i][i] <= RowSum(cm, i)
  {
    ElementAtMostSumNat(Column(cm, i), i);
    ElementAtMostSumNat(cm[i], i);
  }

  /** Lines 82-85: `tp / (tp + fp)` for class position `i`, where `tp + fp` is the column total. */
  function PrecisionAt(cm: Matrix, i: nat): (r: real)
    requires IsSquare(cm, |cm|) && i < |cm|
    ensures 0.0 <= r <= 1.0
    ensures ColumnSum(cm, i) == 0 ==> r == 0.0
    ensures ColumnSum(cm, i) > 0 ==> r * ColumnSum(cm, i) as real == cm[i][i] as real
  {
    DiagonalBounded(cm, i);
    var tp := cm[i][i];
    var fp := ColumnSum(cm, i) - tp;
    Ratio(tp, tp + fp)
  }

  /** Lines 82-86: `tp / (tp + fn)` for class position `i`, where `tp + fn` is the row total. */
  function RecallAt(cm: Matrix, i: nat): (r: real)
    requires IsSquare(cm, |cm|) && i < |cm|
    ensures 0.0 <= r <= 1.0
    ensures RowSum(cm, i) == 0 ==> r == 0.0
    ensures RowSum(cm, i) > 0 ==> r * RowSum(cm, i) as real == cm[i][i] as real
  {
    DiagonalBounded(cm, i);
    var tp := cm[i][i];
    var fn := RowSum(cm, i) - tp;
    Ratio(tp, tp + fn)
  }

  /** `prec + rec === 0 ? 0 : 2 * prec * rec / (prec + rec)`: the harmonic mean, in [0, 1]. */
  function F1(prec: real, rec: real): (f: real)
    requires 0.0 <= prec <= 1.0 && 0.0 <= rec <= 1.0
    ensures 0.0 <= f <= 1.0
    ensures prec + rec == 0.0 ==> f == 0.0
    ensures prec + rec > 0.0 ==> f * (prec + rec) == 2.0 * prec * rec
  {
    if prec + rec == 0.0 then 0.0 else
      var s := prec + rec;
      assert prec * rec <= prec && prec * rec <= rec by {
        assert prec * (1.0 - rec) >= 0.0;
        assert rec * (1.0 - prec) >= 0.0;
      }
      assert prec * rec >= 0.0;
      FractionBounds(2.0 * prec * rec, s);
      (2.0 * prec * rec) / s
  }

  function F1At(cm: Matrix, i: nat): real
    requires IsSquare(cm, |cm|) && i < |cm|
  {
    F1(PrecisionAt(cm, i), RecallAt(cm, i))
  }

  /** The distinct members of `s` in first-occurrence order: the key order of a record written at each `s[i]`. */
  function Dedup(s: seq<string>): (r: seq<string>)
    ensures forall x :: x in r <==> x in s
    ensures Distinct(r)
    ensures |r| <= |s|
  {
    if |s| == 0 then [] else
      var p := Dedup(s[..|s| - 1]);
      assert s == s[..|s| - 1] + [s[|s| - 1]];
      if s[|s| - 1] in p then p else p + [s[|s| - 1]]
  }

  /** `classes.forEach((c, i) => idx[c] = i)` leaves `idx[c]` at the LAST position of `c`. */
  function LastIndex(s: seq<string>, x: string): (k: nat)
    requires x in s
    ensures k < |s| && s[k] == x
    ensures forall j :: k < j < |s| ==> s[j] != x
  {
    var m := |s| - 1;
    if s[m] == x then m else
      assert s == s[..m] + [s[m]];
      LastIndex(s[..m], x)
  }

  /** Extending the class list by one position: how the key order and the last positions move. */
  lemma PerClassStep(classes: seq<string>, i: nat)
    requires i < |classes|
    ensures Dedup(classes[..i + 1]) == if classes[i] in classes[..i] then Dedup(classes[..i]) else Dedup(classes[..i]) + [classes[i]]
    ensures LastIndex(classes[..i + 1], classes[i]) == i
    ensures forall c :: c in classes[..i + 1] <==> c in classes[..i] || c == classes[i]
    ensures forall c :: c in classes[..i] && c != classes[i] ==> LastIndex(classes[..i + 1], c) == LastIndex(classes[..i], c)
  {
    assert classes[..i + 1] == classes[..i] + [classes[i]];
    assert classes[..i + 1][..i] == classes[..i];
  }

  /** Every value of a per-class record is a fraction. */
  predicate Fractions(rec: Record<real>) {
    forall c :: c in rec.entries ==> 0.0 <= rec.entries[c] <= 1.0
  }

  /** Which of the three per-class scores a record holds. */
  datatype Score = Precision | Recall | FScore

  function ScoreAt(cm: Matrix, score: Score, i: nat): (r: real)
    requires IsSquare(cm, |cm|) && i < |cm|
    ensures 0.0 <= r <= 1.0
  {
    match score
    case Precision => PrecisionAt(cm, i)
    case Recall => RecallAt(cm, i)
    case FScore => F1At(cm, i)
  }

  /** The score of every class position, in order. */
  ghost function Scores(cm: Matrix, score: Score): (r: seq<real>)
    requires IsSquare(cm, |cm|)
    ensures |r| == |cm|
    ensures forall i :: 0 <= i < |cm| ==> r[i] == ScoreAt(cm, score, i) && 0.0 <= r[i] <= 1.0
  {
    seq(|cm|, i requires 0 <= i < |cm| => ScoreAt(cm, score, i))
  }

  /** `rec` is what writing `rec[cls[i]] = vals[i]` for i = 0, 1, ... in order leaves behind. */
  ghost predicate KeyedByLastIndex(rec: Record<real>, cls: seq<string>, vals: seq<real>)
    requires |cls| <= |vals|
  {
    && rec.keys == Dedup(cls)
    && forall c :: c in rec.entries ==> c in cls && rec.entries[c] == vals[LastIndex(cls, c)]
  }

  lemma KeyedByLastIndexStep(rec: Record<real>, classes: seq<string>, vals: seq<real>, i: nat)
    requires i < |classes| <= |vals| && KeyedByLastIndex(rec, classes[..i], vals)
    ensures KeyedByLastIndex(Put(rec, classes[i], vals[i]), classes[..i + 1], vals)
  {
    PerClassStep(classes, i);
  }

  /** Once every class is written, the record holds each class's score at its last position, all of them fractions. */
  lemma KeyedScoresDone(rec: Record<real>, classes: seq<string>, cm: Matrix, score: Score)
    requires IsSquare(cm, |classes|) && KeyedByLastIndex(rec, classes[..|classes|], Scores(cm, score))
    ensures rec.keys == Dedup(classes)
    ensures forall c :: c in rec.entries ==> c in classes && rec.entries[c] == ScoreAt(cm, score, LastIndex(classes, c))
    ensures Fractions(rec)
  {
    assert classes[..|classes|] == classes;
  }

  /** Lines 81-91: per-class precision, recall and F1 of a square confusion matrix. */
  method PerClassScores(classes: seq<string>, cm: Matrix)
    returns (precision: Record<real>, recall: Record<real>, f1: Record<real>)
    requires IsSquare(cm, |classes|)
    ensures precision.keys == Dedup(classes) && recall.keys == Dedup(classes) && f1.keys == Dedup(classes)
    ensures forall c :: c in precision.entries ==> c in classes && precision.entries[c] == PrecisionAt(cm, LastIndex(classes, c))
    ensures forall c :: c in recall.entries ==> c in classes && recall.entries[c] == RecallAt(cm, LastIndex(classes, c))
    ensures forall c :: c in f1.entries ==> c in classes && f1.entries[c] == F1At(cm, LastIndex(classes, c))
    ensures Fractions(precision) && Fractions(recall) && Fractions(f1)
  {
    ghost var precs, recs, f1s := Scores(cm, Precision), Scores(cm, Recall), Scores(cm, FScore);
    precision, recall, f1 := EmptyRecord(), EmptyRecord(), EmptyRecord();
    for i := 0 to |classes|
      invariant KeyedByLastIndex(precision, classes[..i], precs)
      invariant KeyedByLastIndex(recall, classes[..i], recs)
      invariant KeyedByLastIndex(f1, classes[..i], f1s)
    {
      var prec := PrecisionAt(cm, i);
      var rec := RecallAt(cm, i);
      var f := F1(prec, rec);
      KeyedByLastIndexStep(precision, classes, precs, i);
      KeyedByLastIndexStep(recall, classes, recs, i);
      KeyedByLastIndexStep(f1, classes, f1s, i);
      precision := Put(precision, classes[i], prec);
      recall := Put(recall, classes[i], rec);
      f1 := Put(f1, classes[i], f);
    }
    KeyedScoresDone(precision, classes, cm, Precision);
    KeyedScoresDone(recall, classes, cm, Recall);
    KeyedScoresDone(f1, classes, cm, FScore);
  }

  /** Every per-class value in [0, 1] makes the values' sum at most the number of classes. */
  lemma FractionsSum(rec: Record<real>, n: nat)
    requires Fractions(rec) && |rec.keys| <= n
    ensures 0.0 <= Sum(Values(rec)) <= n as real
  {
    var vs := Values(rec);
    forall k | 0 <= k < |vs| ensures 0.0 <= vs[k] <= 1.0 {
      assert rec.keys[k] in rec.entries;
    }
    SumOfFractions(vs);
  }

  /** `total / (n || 1)` for a total of `n` fractions. */
  function OverCount(total: real, n: nat): (m: real)
    requires 0.0 <= total <= n as real
    ensures 0.0 <= m <= 1.0
    ensures n == 0 ==> m == total == 0.0
    ensures n > 0 ==> m * n as real == total
  {
    if n == 0 then total else
      Average(total, n as real);
      total / n as real
  }

  /** `Object.values(rec).reduce((a, b) => a + b, 0) / (n || 1)`: in [0, 1], and 0 for no classes. */
  function MacroAverage(rec: Record<real>, n: nat): (m: real)
    requires Fractions(rec) && |rec.keys| <= n
    ensures 0.0 <= m <= 1.0
    ensures n == 0 ==> m == 0.0
    ensures n == 0 ==> m == Sum(Values(rec))
    ensures n > 0 ==> m * n as real == Sum(Values(rec))
  {
    FractionsSum(rec, n);
    OverCount(Sum(Values(rec)), n)
  }
}
