/**
 * The evaluation step of the training endpoint (`evaluate` in
 * src/app/api/naive-bayes/route.ts): every test row is predicted with the
 * trained model and tallied into a confusion matrix over `model.classes`.
 *
 * The endpoint's `shuffle` and `split` are the same algorithms as the
 * shuffle and `splitData` of src/app/utils/dataUtils.ts and share their
 * models, `Shuffling.ShuffledCopy` and `DataUtils.SplitData`.
 */
module Route {
  import opened Js
  import opened Seqs
  import opened Training
  import opened Inference
  import opened Metrics
  import opened DataUtils

  /** `String(row.label)` for every test row. */
  function Actuals(rt: Runtime, rows: seq<Row>): (r: seq<string>)
    ensures |r| == |rows|
    ensures forall i :: 0 <= i < |rows| ==> r[i] == ToString(rt, Field(rows[i], "label"))
  {
    seq(|rows|, i requires 0 <= i < |rows| => ToString(rt, Field(rows[i], "label")))
  }

  /** Every test row's label is one of the model's classes: otherwise `cm[ai]` is `undefined` and the increment throws. */
  predicate LabelsKnown(rt: Runtime, model: Model, rows: seq<Row>) {
    forall i :: 0 <= i < |rows| ==> ToString(rt, Field(rows[i], "label")) in model.classes
  }

  /** `preds[i]` is a best-scoring class for row `i`, as `predict` promises. */
  ghost predicate BestPredictions(rt: Runtime, math: Transcendental, model: Model, rows: seq<Row>, preds: seq<string>) {
    && |preds| == |rows|
    && forall i :: 0 <= i < |rows| ==>
         && preds[i] in model.classes
         && forall c :: c in model.classes ==> ClassScore(rt, math, model, c, rows[i]) <= ClassScore(rt, math, model, preds[i], rows[i])
  }

  /** `sum / n` with no guard: for no classes the sum is 0 and the quotient `NaN`. */
  function MacroOverN(rec: Record<real>, n: nat): (x: Number)
    requires Fractions(rec) && |rec.keys| <= n
    ensures n == 0 ==> x == NaN
    ensures n > 0 ==> x.Finite? && 0.0 <= x.r <= 1.0 && x.r * n as real == Sum(Values(rec))
  {
    if n == 0 then NaN else
      var total := Sum(Values(rec));
      FractionsSum(rec, n);
      FractionBounds(total, n as real);
      DivMul(total, n as real);
      Finite(total / n as real)
  }

  /** The pairs of a prefix of the positions do not look at predictions past that prefix. */
  lemma {:induction false} KnownPairsPrefix(classes: seq<string>, actuals: seq<string>, preds: seq<string>, p: string)
    requires |actuals| <= |preds|
    ensures KnownPairs(classes, actuals, preds + [p]) == KnownPairs(classes, actuals, preds)
  {
    if |actuals| > 0 {
      KnownPairsPrefix(classes, actuals[..|actuals| - 1], preds, p);
    }
  }

  lemma {:induction false} MatchesPrefix(actuals: seq<string>, preds: seq<string>, p: string)
    requires |actuals| <= |preds|
    ensures Matches(actuals, preds + [p]) == Matches(actuals, preds)
  {
    if |actuals| > 0 {
      MatchesPrefix(actuals[..|actuals| - 1], preds, p);
    }
  }

  /** One more row: its (actual, predicted) pair is tallied last, and it matches when the two labels are equal. */
  lemma TallyStep(classes: seq<string>, actuals: seq<string>, i: nat, preds: seq<string>, p: string)
    requires |preds| == i < |actuals|
    requires actuals[i] in classes && p in classes
    ensures KnownPairs(classes, actuals[..i + 1], preds + [p])
            == KnownPairs(classes, actuals[..i], preds) + [(LastIndex(classes, actuals[i]), LastIndex(classes, p))]
    ensures Matches(actuals[..i + 1], preds + [p]) == Matches(actuals[..i], preds) + (if actuals[i] == p then 1 else 0)
  {
    assert actuals[..i + 1][..i] == actuals[..i];
    KnownPairsPrefix(classes, actuals[..i], preds, p);
    MatchesPrefix(actuals[..i], preds, p);
  }

  lemma BestPredictionsStep(rt: Runtime, math: Transcendental, model: Model, rows: seq<Row>, i: nat, preds: seq<string>, p: string)
    requires i < |rows| && BestPredictions(rt, math, model, rows[..i], preds)
    requires p in model.classes
    requires forall c :: c in model.classes ==> ClassScore(rt, math, model, c, rows[i]) <= ClassScore(rt, math, model, p, rows[i])
    ensures BestPredictions(rt, math, model, rows[..i + 1], preds + [p])
  {
  }

  /** Lines 27-34: the loop over the test rows, predicting each and tallying it into the matrix and the match count. */
  method PredictAndTally(rt: Runtime, math: Transcendental, model: Model, testData: seq<Row>)
    returns (cm: Matrix, correct: nat, ghost preds: seq<string>)
    requires LabelsKnown(rt, model, testData)
    ensures BestPredictions(rt, math, model, testData, preds)
    ensures cm == Tabulate(|model.classes|, KnownPairs(model.classes, Actuals(rt, testData), preds))
    ensures |KnownPairs(model.classes, Actuals(rt, testData), preds)| == |testData|
    ensures correct == Matches(Actuals(rt, testData), preds)
  {
    var classes := model.classes;
    var labelIndex := IndexClasses(classes);
    var n := |classes|;
    cm := Zeros(n);
    correct := 0;
    ghost var actuals := Actuals(rt, testData);
    preds := [];
    for i := 0 to |testData|
      invariant |preds| == i
      invariant BestPredictions(rt, math, model, testData[..i], preds)
      invariant cm == Tabulate(n, KnownPairs(classes, actuals[..i], preds))
      invariant |KnownPairs(classes, actuals[..i], preds)| == i
      invariant correct == Matches(actuals[..i], preds)
    {
      var row := testData[i];
      var actual := ToString(rt, Field(row, "label"));
      var pred, _ := Predict(rt, math, model, row);
      TallyStep(classes, actuals, i, preds, pred);
      BestPredictionsStep(rt, math, model, testData, i, preds, pred);
      assert actuals[i] == actual;
      preds := preds + [pred];
      cm := Bump(cm, labelIndex[actual], labelIndex[pred]);
      if actual == pred {
        correct := correct + 1;
      }
    }
    assert actuals[..|testData|] == actuals;
    assert testData[..|testData|] == testData;
  }

  /**
   * `evaluate`: the report for the test rows, whose predictions are returned
   * alongside as a ghost. The matrix counts every row; accuracy is the share
   * of rows predicted right; the macro averages divide by the number of
   * classes, `NaN` when there are none.
   */
  method Evaluate(rt: Runtime, math: Transcendental, model: Model, testData: seq<Row>) returns (m: Report, ghost preds: seq<string>)
    requires LabelsKnown(rt, model, testData)
    ensures BestPredictions(rt, math, model, testData, preds)
    ensures m.confusionMatrix == Tabulate(|model.classes|, KnownPairs(model.classes, Actuals(rt, testData), preds))
    ensures Total(m.confusionMatrix) == |testData|
    ensures m.accuracy == Accuracy(Matches(Actuals(rt, testData), preds), |testData|)
    ensures m.precisionPerClass.keys == Dedup(model.classes)
    ensures forall c :: c in m.precisionPerClass.entries ==>
              c in model.classes && m.precisionPerClass.entries[c] == PrecisionAt(m.confusionMatrix, LastIndex(model.classes, c))
    ensures forall c :: c in m.recallPerClass.entries ==>
              c in model.classes && m.recallPerClass.entries[c] == RecallAt(m.confusionMatrix, LastIndex(model.classes, c))
    ensures forall c :: c in m.f1PerClass.entries ==>
              c in model.classes && m.f1PerClass.entries[c] == F1At(m.confusionMatrix, LastIndex(model.classes, c))
    ensures m.recallPerClass.keys == Dedup(model.classes) && m.f1PerClass.keys == Dedup(model.classes)
    ensures Fractions(m.precisionPerClass) && Fractions(m.recallPerClass) && Fractions(m.f1PerClass)
    ensures m.macroPrecision == MacroOverN(m.precisionPerClass, |model.classes|)
    ensures m.macroRecall == MacroOverN(m.recallPerClass, |model.classes|)
    ensures m.macroF1 == MacroOverN(m.f1PerClass, |model.classes|)
    ensures |model.classes| == 0 ==> m.macroPrecision == m.macroRecall == m.macroF1 == NaN
    ensures |model.classes| > 0 ==>
              && m.macroPrecision.Finite? && 0.0 <= m.macroPrecision.r <= 1.0
              && m.macroRecall.Finite? && 0.0 <= m.macroRecall.r <= 1.0
              && m.macroF1.Finite? && 0.0 <= m.macroF1.r <= 1.0
  {
    var n := |model.classes|;
    var cm, correct;
    cm, correct, preds := PredictAndTally(rt, math, model, testData);
    TabulateTotal(n, KnownPairs(model.classes, Actuals(rt, testData), preds));
    var accuracy := Accuracy(correct, |testData|);
    var precision, recall, f1 := PerClassScores(model.classes, cm);
    m := Report(accuracy, cm, precision, recall, f1,
                MacroOverN(precision, n), MacroOverN(recall, n), MacroOverN(f1, n));
  }

  /**
   * Row `i` of the evaluation matrix sums to the number of test rows labelled
   * `classes[i]`, for a model whose classes are distinct (as every trained
   * model's are).
   */
  lemma EvaluationRowSums(rt: Runtime, model: Model, testData: seq<Row>, preds: seq<string>, i: nat)
    requires LabelsKnown(rt, model, testData) && |preds| == |testData|
    requires forall j :: 0 <= j < |preds| ==> preds[j] in model.classes
    requires Distinct(model.classes) && i < |model.classes|
    ensures RowSum(Tabulate(|model.classes|, KnownPairs(model.classes, Actuals(rt, testData), preds)), i)
            == Count(Actuals(rt, testData), model.classes[i])
  {
    var actuals := Actuals(rt, testData);
    TabulateRowSum(|model.classes|, KnownPairs(model.classes, actuals, preds), i);
    AllPairsKnown(model.classes, actuals, preds, i);
  }

  /** With every label and prediction a class, each position contributes one pair, indexed by its actual label. */
  lemma {:induction false} AllPairsKnown(classes: seq<string>, actuals: seq<string>, preds: seq<string>, a: nat)
    requires |actuals| <= |preds|
    requires forall j :: 0 <= j < |actuals| ==> actuals[j] in classes && preds[j] in classes
    requires Distinct(classes) && a < |classes|
    ensures CountActual(KnownPairs(classes, actuals, preds), a) == Count(actuals, classes[a])
  {
    if |actuals| > 0 {
      var m := |actuals| - 1;
      AllPairsKnown(classes, actuals[..m], preds, a);
      var k := LastIndex(classes, actuals[m]);
      assert k == a <==> actuals[m] == classes[a];
    }
  }
}
