/**
 * Training of the hybrid Naive Bayes classifier (`trainNaiveBayes` in
 * src/app/naive-bayes/model.ts): class discovery, class priors, and per-class
 * statistics for every feature column, Gaussian (mean, variance, count) for a
 * column whose every value is numeric and a table of category counts for any
 * other column.
 */
module Training {
  import opened Js
  import opened Seqs
  import opened Statistics

  datatype TrainError =
    | EmptyData   // 'Empty data'
    | NoClasses   // 'No classes found for targetColumn'

  datatype Result<+T> = Success(value: T) | Failure(error: TrainError)

  datatype NumericStats = NumericStats(mean: real, variance: real, count: nat)

  /** A feature's statistics per class, keyed by class label. */
  datatype FeatureStats =
    | Numeric(numeric: map<string, NumericStats>)
    | Categorical(categorical: map<string, Record<nat>>)

  datatype Model = Model(
    classPriors: map<string, real>,
    features: map<string, FeatureStats>,
    classes: seq<string>,
    featureColumns: seq<string>,
    targetColumn: string)

  /** The target label of every row, `String(r[targetColumn] ?? '')`; '' means unlabelled. */
  function Labels(rt: Runtime, data: seq<Row>, target: string): (r: seq<string>)
    ensures |r| == |data|
    ensures forall i :: 0 <= i < |data| ==> r[i] == CellText(rt, data[i], target)
  {
    seq(|data|, i requires 0 <= i < |data| => CellText(rt, data[i], target))
  }

  /**
   * `Array.from(new Set(xs.filter(s => s !== '')))`: the distinct non-empty
   * strings of `xs`, each once (their order is `DistinctNonEmptyOrder`).
   */
  function DistinctNonEmpty(xs: seq<string>): (r: seq<string>)
    ensures forall x :: x in r <==> x in xs && x != ""
    ensures Distinct(r)
  {
    if |xs| == 0 then [] else
      var n := |xs| - 1;
      var p := DistinctNonEmpty(xs[..n]);
      assert xs == xs[..n] + [xs[n]];
      if xs[n] == "" || xs[n] in p then p else p + [xs[n]]
  }

  /** The members of `r`, all taken from `xs`, are listed in the order they first occur in `xs`. */
  ghost predicate InFirstSeenOrder(xs: seq<string>, r: seq<string>)
    requires forall x :: x in r ==> x in xs
  {
    forall i, j :: 0 <= i < j < |r| ==> FirstIndex(xs, r[i]) < FirstIndex(xs, r[j])
  }

  /** Members taken from a prefix keep their first positions, and their order, in the whole sequence. */
  lemma FirstSeenExtend(xs: seq<string>, n: nat, p: seq<string>)
    requires n <= |xs| && forall y :: y in p ==> y in xs[..n]
    requires InFirstSeenOrder(xs[..n], p)
    ensures forall y :: y in p ==> y in xs && FirstIndex(xs, y) < n
    ensures InFirstSeenOrder(xs, p)
  {
    forall y | y in p ensures y in xs && FirstIndex(xs, y) == FirstIndex(xs[..n], y) < n {
      FirstIndexPrefix(xs, n, y);
    }
  }

  /** A member first seen after all of `p` may be listed after them. */
  lemma FirstSeenAppend(xs: seq<string>, p: seq<string>, x: string)
    requires x in xs && forall y :: y in p ==> y in xs && FirstIndex(xs, y) < FirstIndex(xs, x)
    requires InFirstSeenOrder(xs, p)
    ensures InFirstSeenOrder(xs, p + [x])
  {
    var r := p + [x];
    forall i, j | 0 <= i < j < |r| ensures FirstIndex(xs, r[i]) < FirstIndex(xs, r[j]) {
      assert r[i] == p[i] && p[i] in p;
      if j < |p| {
        assert r[j] == p[j];
      }
    }
  }

  /** A `Set` iterates in insertion order: the classes come in the order of their first row. */
  lemma {:induction false} DistinctNonEmptyOrder(xs: seq<string>)
    ensures InFirstSeenOrder(xs, DistinctNonEmpty(xs))
  {
    if |xs| > 0 {
      var n := |xs| - 1;
      var p := DistinctNonEmpty(xs[..n]);
      DistinctNonEmptyOrder(xs[..n]);
      FirstSeenExtend(xs, n, p);
      var x := xs[n];
      if x != "" && x !in p {
        assert x !in xs[..n];
        assert FirstIndex(xs, x) == n;
        FirstSeenAppend(xs, p, x);
        assert DistinctNonEmpty(xs) == p + [x];
      } else {
        assert DistinctNonEmpty(xs) == p;
      }
    }
  }

  /** There can be no more distinct labels than labels. */
  lemma {:induction false} DistinctNonEmptyLength(xs: seq<string>)
    ensures |DistinctNonEmpty(xs)| <= |xs|
  {
    if |xs| > 0 {
      DistinctNonEmptyLength(xs[..|xs| - 1]);
    }
  }

  /** There are fewer classes than labels exactly when some label is empty or some label repeats. */
  lemma {:induction false} FewerClassesThanLabels(xs: seq<string>)
    ensures |DistinctNonEmpty(xs)| < |xs| <==> "" in xs || !Distinct(xs)
  {
    if |xs| > 0 {
      var n := |xs| - 1;
      var s, x := xs[..n], xs[n];
      var p := DistinctNonEmpty(s);
      FewerClassesThanLabels(s);
      DistinctNonEmptyLength(s);
      assert xs == s + [x];
      if x == "" {
        assert DistinctNonEmpty(xs) == p;
      } else if x in p {
        assert DistinctNonEmpty(xs) == p;
        var j :| 0 <= j < n && s[j] == x;
        assert xs[j] == xs[n];
      } else {
        assert DistinctNonEmpty(xs) == p + [x];
        assert x !in s;
        assert Distinct(xs) <==> Distinct(s) by {
          if Distinct(xs) {
            forall i, j | 0 <= i < j < n ensures s[i] != s[j] {
              assert s[i] == xs[i] && s[j] == xs[j];
            }
          }
          if Distinct(s) {
            forall i, j | 0 <= i < j < |xs| ensures xs[i] != xs[j] {
              assert xs[i] == s[i];
              if j < n {
                assert xs[j] == s[j];
              }
            }
          }
        }
      }
    }
  }

  /** Occurrences of the members of `cs` in `xs`, added up. */
  function CountAll(cs: seq<string>, xs: seq<string>): nat {
    if |cs| == 0 then 0 else CountAll(cs[..|cs| - 1], xs) + Count(xs, cs[|cs| - 1])
  }

  /** One more element adds one to the total of exactly the lists that hold it once. */
  lemma {:induction false} CountAllSnoc(cs: seq<string>, xs: seq<string>, x: string)
    requires Distinct(cs)
    ensures CountAll(cs, xs + [x]) == CountAll(cs, xs) + (if x in cs then 1 else 0)
  {
    if |cs| > 0 {
      var q := cs[..|cs| - 1];
      assert cs == q + [cs[|cs| - 1]];
      CountAllSnoc(q, xs, x);
      CountSnoc(xs, x, cs[|cs| - 1]);
    }
  }

  /** Every labelled row is counted under exactly one class: the classes' counts add up to the labelled rows. */
  lemma {:induction false} ClassCountsCoverLabelledRows(xs: seq<string>)
    ensures CountAll(DistinctNonEmpty(xs), xs) == |xs| - Count(xs, "")
  {
    if |xs| > 0 {
      var n := |xs| - 1;
      var s, x := xs[..n], xs[n];
      assert xs == s + [x];
      var d := DistinctNonEmpty(s);
      ClassCountsCoverLabelledRows(s);
      CountAllSnoc(d, s, x);
      CountSnoc(s, x, "");
      if x != "" && x !in d {
        assert DistinctNonEmpty(xs) == d + [x];
        assert (d + [x])[..|d|] == d;
        CountSnoc(s, x, x);
        CountPositive(s, x);
      }
    }
  }

  /** `vals.every(v => isNumericValue(v))` over the column `fname`. */
  predicate AllNumeric(rt: Runtime, data: seq<Row>, fname: string) {
    forall i | 0 <= i < |data| :: IsNumericValue(rt, Field(data[i], fname))
  }

  /** One more row adds one to its label's count and nothing to any other. */
  lemma CountLabelsSnoc(rt: Runtime, data: seq<Row>, target: string, cls: string)
    requires |data| > 0
    ensures var n := |data| - 1;
            Count(Labels(rt, data, target), cls)
            == Count(Labels(rt, data[..n], target), cls) + (if CellText(rt, data[n], target) == cls then 1 else 0)
  {
    var n := |data| - 1;
    var p, x := Labels(rt, data[..n], target), CellText(rt, data[n], target);
    assert Labels(rt, data, target) == p + [x] by {
      forall i | 0 <= i < |data| ensures Labels(rt, data, target)[i] == (p + [x])[i] {
        if i < n {
          assert data[..n][i] == data[i];
        }
      }
    }
    CountSnoc(p, x, cls);
  }

  /**
   * The finite values of `fname` on the rows of class `cls`:
   * `data.filter(r => String(r[t] ?? '') === cls).map(r => parseNumber(r[fname])).filter(Number.isFinite)`.
   */
  function ClassValues(rt: Runtime, data: seq<Row>, target: string, fname: string, cls: string): (nums: seq<real>)
    ensures |nums| <= Count(Labels(rt, data, target), cls)
  {
    if |data| == 0 then [] else
      var n := |data| - 1;
      var p := ClassValues(rt, data[..n], target, fname, cls);
      var x := ParseNumber(rt, Field(data[n], fname));
      CountLabelsSnoc(rt, data, target, cls);
      if CellText(rt, data[n], target) == cls && x.IsFinite() then p + [x.r] else p
  }

  /** When every value of the column is numeric, no row of the class is lost to the finiteness filter. */
  lemma {:induction false} ClassValuesCoverClass(rt: Runtime, data: seq<Row>, target: string, fname: string, cls: string)
    requires AllNumeric(rt, data, fname)
    ensures |ClassValues(rt, data, target, fname, cls)| == Count(Labels(rt, data, target), cls)
  {
    if |data| > 0 {
      var n := |data| - 1;
      ClassValuesCoverClass(rt, data[..n], target, fname, cls);
      CountLabelsSnoc(rt, data, target, cls);
    }
  }

  /**
   * A class's Gaussian parameters: {mean 0, variance 1, count 0} when it has no
   * finite value, else the mean, the floored population variance and the count.
   */
  function StatsFor(nums: seq<real>): (st: NumericStats)
    ensures st.variance > 0.0
    ensures st.count == |nums|
    ensures |nums| == 0 ==> st == NumericStats(0.0, 1.0, 0)
    ensures |nums| > 0 ==> st.mean == Mean(nums).r && st.mean * |nums| as real == Sum(nums)
    ensures |nums| > 0 ==> st.variance == Variance(nums, st.mean)
  {
    if |nums| == 0 then NumericStats(0.0, 1.0, 0) else
      var mu := Mean(nums).r;
      NumericStats(mu, Variance(nums, mu), |nums|)
  }

  /** `counts[v] = (counts[v] || 0) + 1` */
  function Increment(counts: Record<nat>, v: string): (r: Record<nat>)
    ensures Get(r, v) == Some(if v in counts.entries then counts.entries[v] + 1 else 1)
    ensures forall w :: w != v ==> Get(r, w) == Get(counts, w)
  {
    Put(counts, v, if v in counts.entries then counts.entries[v] + 1 else 1)
  }

  /** Counting one more occurrence adds one to the table's total. */
  lemma IncrementTotal(counts: Record<nat>, v: string)
    ensures SumNat(Values(Increment(counts, v))) == SumNat(Values(counts)) + 1
  {
    PutTotal(counts, v, if v in counts.entries then counts.entries[v] + 1 else 1);
  }

  /** The category counts of `fname` over the rows labelled `cls`, keys in first-seen order. */
  function Tally(rt: Runtime, data: seq<Row>, target: string, fname: string, cls: string): Record<nat> {
    if |data| == 0 then EmptyRecord() else
      var n := |data| - 1;
      var t := Tally(rt, data[..n], target, fname, cls);
      var lab := CellText(rt, data[n], target);
      if lab != "" && lab == cls then Increment(t, CellText(rt, data[n], fname)) else t
  }

  /** A class's count table adds up to the number of rows labelled with it. */
  lemma {:induction false} TallyTotal(rt: Runtime, data: seq<Row>, target: string, fname: string, cls: string)
    requires cls != ""
    ensures SumNat(Values(Tally(rt, data, target, fname, cls))) == Count(Labels(rt, data, target), cls)
  {
    if |data| > 0 {
      var n := |data| - 1;
      TallyTotal(rt, data[..n], target, fname, cls);
      IncrementTotal(Tally(rt, data[..n], target, fname, cls), CellText(rt, data[n], fname));
      CountLabelsSnoc(rt, data, target, cls);
    }
  }

  /** What training stores for the feature `fname`. */
  ghost predicate FeatureTrained(fs: FeatureStats, rt: Runtime, data: seq<Row>, classes: seq<string>,
                                 target: string, fname: string)
  {
    if AllNumeric(rt, data, fname) then
      && fs.Numeric?
      && (forall c :: c in fs.numeric <==> c in classes)
      && (forall c :: c in fs.numeric ==> fs.numeric[c] == StatsFor(ClassValues(rt, data, target, fname, c)))
    else
      && fs.Categorical?
      && (forall c :: c in fs.categorical <==> c in classes)
      && (forall c :: c in fs.categorical ==> fs.categorical[c] == Tally(rt, data, target, fname, c))
  }

  /** The model that training builds from `data`, stated declaratively. */
  ghost predicate TrainedFrom(m: Model, rt: Runtime, data: seq<Row>, featureColumns: seq<string>, target: string) {
    var labels := Labels(rt, data, target);
    && |data| > 0
    && m.classes == DistinctNonEmpty(labels)
    && m.featureColumns == featureColumns
    && m.targetColumn == target
    && (forall c :: c in m.classPriors <==> c in m.classes)
    && (forall c :: c in m.classPriors ==> m.classPriors[c] == Count(labels, c) as real / |data| as real)
    && (forall f :: f in m.features <==> f in featureColumns)
    && (forall f :: f in m.features ==> FeatureTrained(m.features[f], rt, data, m.classes, target, f))
  }

  /** Line 39: every class starts at 0. */
  method ZeroCounts(classes: seq<string>) returns (counts: map<string, nat>)
    ensures forall c :: c in counts <==> c in classes
    ensures forall c :: c in counts ==> counts[c] == 0
  {
    counts := map[];
    for k := 0 to |classes|
      invariant forall c :: c in counts <==> c in classes[..k]
      invariant forall c :: c in counts ==> counts[c] == 0
    {
      assert classes[..k + 1] == classes[..k] + [classes[k]];
      counts := counts[classes[k] := 0];
    }
    assert classes[..|classes|] == classes;
  }

  /** After the first `i` rows: the classes and the labels seen are keys, each counting its rows so far. */
  ghost predicate Counted(counts: map<string, nat>, classes: seq<string>, labels: seq<string>, i: nat)
    requires i <= |labels|
  {
    && (forall c :: c in counts <==> c in classes || (c in labels[..i] && c != ""))
    && (forall c :: c in counts ==> counts[c] == if c == "" then 0 else Count(labels[..i], c))
  }

  /** Row `i` raises its label's count by one, and an empty label changes nothing. */
  lemma CountedStep(counts: map<string, nat>, classes: seq<string>, labels: seq<string>, i: nat)
    requires i < |labels| && Counted(counts, classes, labels, i)
    ensures var cls := labels[i];
            cls != "" ==> Counted(counts[cls := (if cls in counts then counts[cls] else 0) + 1], classes, labels, i + 1)
    ensures labels[i] == "" ==> Counted(counts, classes, labels, i + 1)
  {
    var cls := labels[i];
    assert labels[..i + 1] == labels[..i] + [cls];
    var next := if cls != "" then counts[cls := (if cls in counts then counts[cls] else 0) + 1] else counts;
    forall c | c in next ensures next[c] == if c == "" then 0 else Count(labels[..i + 1], c) {
      CountSnoc(labels[..i], cls, c);
      CountPositive(labels[..i], c);
      if c != cls {
        assert c in counts && next[c] == counts[c];
      }
    }
  }

  /** Lines 38-44: how many rows carry each label; an empty label is skipped. */
  method CountClasses(rt: Runtime, data: seq<Row>, target: string, classes: seq<string>)
    returns (counts: map<string, nat>)
    ensures forall c :: c in counts <==> c in classes || (c in Labels(rt, data, target) && c != "")
    ensures forall c :: c in counts ==> counts[c] == if c == "" then 0 else Count(Labels(rt, data, target), c)
  {
    ghost var labels := Labels(rt, data, target);
    counts := ZeroCounts(classes);
    for i := 0 to |data|
      invariant Counted(counts, classes, labels, i)
    {
      var cls := CellText(rt, data[i], target);
      CountedStep(counts, classes, labels, i);
      if cls != "" {
        counts := counts[cls := (if cls in counts then counts[cls] else 0) + 1];
      }
    }
    assert labels[..|data|] == labels;
  }

  /** Lines 54-59: Gaussian parameters of a numeric feature for every class. */
  method NumericFeatureStats(rt: Runtime, data: seq<Row>, classes: seq<string>, target: string, fname: string)
    returns (stats: map<string, NumericStats>)
    ensures forall c :: c in stats <==> c in classes
    ensures forall c :: c in stats ==> stats[c] == StatsFor(ClassValues(rt, data, target, fname, c))
  {
    stats := map[];
    for k := 0 to |classes|
      invariant forall c :: c in stats <==> c in classes[..k]
      invariant forall c :: c in stats ==> stats[c] == StatsFor(ClassValues(rt, data, target, fname, c))
    {
      var cls := classes[k];
      assert classes[..k + 1] == classes[..k] + [cls];
      var nums := ClassValues(rt, data, target, fname, cls);
      if |nums| == 0 {
        stats := stats[cls := NumericStats(0.0, 1.0, 0)];
      } else {
        var mu := Mean(nums).r;
        stats := stats[cls := NumericStats(mu, Variance(nums, mu), |nums|)];
      }
    }
    assert classes[..|classes|] == classes;
  }

  /**
   * Lines 62-69: category counts of a categorical feature for every class.
   * The source indexes `catStats[cls]` without a guard, so every non-empty
   * label must be one of `classes`.
   */
  method CategoricalFeatureStats(rt: Runtime, data: seq<Row>, classes: seq<string>, target: string, fname: string)
    returns (cat: map<string, Record<nat>>)
    requires forall i :: 0 <= i < |data| && CellText(rt, data[i], target) != "" ==> CellText(rt, data[i], target) in classes
    ensures forall c :: c in cat <==> c in classes
    ensures forall c :: c in cat ==> cat[c] == Tally(rt, data, target, fname, c)
  {
    cat := map[];
    for k := 0 to |classes|
      invariant forall c :: c in cat <==> c in classes[..k]
      invariant forall c :: c in cat ==> cat[c] == EmptyRecord()
    {
      assert classes[..k + 1] == classes[..k] + [classes[k]];
      cat := cat[classes[k] := EmptyRecord()];
    }
    assert classes[..|classes|] == classes;
    for i := 0 to |data|
      invariant forall c :: c in cat <==> c in classes
      invariant forall c :: c in cat ==> cat[c] == Tally(rt, data[..i], target, fname, c)
    {
      assert data[..i + 1][..i] == data[..i];
      var cls := CellText(rt, data[i], target);
      if cls != "" {
        var v := CellText(rt, data[i], fname);
        cat := cat[cls := Increment(cat[cls], v)];
      }
    }
    assert data[..|data|] == data;
  }

  /** Lines 45-47: each class's share of all rows, `classCounts[c] / data.length`. */
  method ClassPriors(classes: seq<string>, classCounts: map<string, nat>, total: nat)
    returns (priors: map<string, real>)
    requires total > 0
    ensures forall c :: c in priors <==> c in classes
    ensures forall c :: c in priors ==> priors[c] == (if c in classCounts then classCounts[c] else 0) as real / total as real
  {
    priors := map[];
    for k := 0 to |classes|
      invariant forall c :: c in priors <==> c in classes[..k]
      invariant forall c :: c in priors ==> priors[c] == (if c in classCounts then classCounts[c] else 0) as real / total as real
    {
      var c := classes[k];
      assert classes[..k + 1] == classes[..k] + [c];
      priors := priors[c := (if c in classCounts then classCounts[c] else 0) as real / total as real];
    }
    assert classes[..|classes|] == classes;
  }

  /** Lines 51-71: a feature is Gaussian when every value of its column is numeric, categorical otherwise. */
  method TrainFeature(rt: Runtime, data: seq<Row>, classes: seq<string>, target: string, fname: string)
    returns (fs: FeatureStats)
    requires forall i :: 0 <= i < |data| && CellText(rt, data[i], target) != "" ==> CellText(rt, data[i], target) in classes
    ensures FeatureTrained(fs, rt, data, classes, target, fname)
  {
    var numeric := true;
    for i := 0 to |data|
      invariant numeric <==> AllNumeric(rt, data[..i], fname)
    {
      assert data[..i + 1][..i] == data[..i];
      numeric := numeric && IsNumericValue(rt, Field(data[i], fname));
    }
    assert data[..|data|] == data;
    if numeric {
      var stats := NumericFeatureStats(rt, data, classes, target, fname);
      fs := Numeric(stats);
    } else {
      var cat := CategoricalFeatureStats(rt, data, classes, target, fname);
      fs := Categorical(cat);
    }
  }

  /** Lines 49-72: statistics for every feature column. */
  method TrainFeatures(rt: Runtime, data: seq<Row>, classes: seq<string>, featureColumns: seq<string>, target: string)
    returns (features: map<string, FeatureStats>)
    requires forall i :: 0 <= i < |data| && CellText(rt, data[i], target) != "" ==> CellText(rt, data[i], target) in classes
    ensures forall f :: f in features <==> f in featureColumns
    ensures forall f :: f in features ==> FeatureTrained(features[f], rt, data, classes, target, f)
  {
    features := map[];
    for k := 0 to |featureColumns|
      invariant forall f :: f in features <==> f in featureColumns[..k]
      invariant forall f :: f in features ==> FeatureTrained(features[f], rt, data, classes, target, f)
    {
      var fname := featureColumns[k];
      assert featureColumns[..k + 1] == featureColumns[..k] + [fname];
      var fs := TrainFeature(rt, data, classes, target, fname);
      features := features[fname := fs];
    }
    assert featureColumns[..|featureColumns|] == featureColumns;
  }

  /** Every labelled row's label is one of the discovered classes. */
  lemma LabelsInClasses(rt: Runtime, data: seq<Row>, target: string)
    ensures forall i :: 0 <= i < |data| && CellText(rt, data[i], target) != "" ==>
              CellText(rt, data[i], target) in DistinctNonEmpty(Labels(rt, data, target))
  {
    var labels := Labels(rt, data, target);
    forall i | 0 <= i < |data| && CellText(rt, data[i], target) != ""
      ensures CellText(rt, data[i], target) in DistinctNonEmpty(labels)
    {
      assert labels[i] in labels;
    }
  }

  /**
   * `trainNaiveBayes`: fails on an empty dataset, then when no row has a
   * non-empty target; otherwise builds the model `TrainedFrom` describes.
   */
  method Train(rt: Runtime, data: seq<Row>, featureColumns: seq<string>, target: string)
    returns (res: Result<Model>)
    ensures res == Failure(EmptyData) <==> |data| == 0
    ensures res == Failure(NoClasses) <==> |data| > 0 && DistinctNonEmpty(Labels(rt, data, target)) == []
    ensures res.Success? ==> TrainedFrom(res.value, rt, data, featureColumns, target)
  {
    if |data| == 0 {
      return Failure(EmptyData);
    }
    var classes := DistinctNonEmpty(Labels(rt, data, target));
    if |classes| == 0 {
      return Failure(NoClasses);
    }
    LabelsInClasses(rt, data, target);
    var classCounts := CountClasses(rt, data, target, classes);
    var classPriors := ClassPriors(classes, classCounts, |data|);
    var features := TrainFeatures(rt, data, classes, featureColumns, target);
    res := Success(Model(classPriors, features, classes, featureColumns, target));
  }

  /** `classPriors[c]` added up over the model's classes. */
  function PriorSum(priors: map<string, real>, cs: seq<string>): real {
    if |cs| == 0 then 0.0 else
      var c := cs[|cs| - 1];
      PriorSum(priors, cs[..|cs| - 1]) + (if c in priors then priors[c] else 0.0)
  }

  lemma {:induction false} PriorSumIsCountRatio(priors: map<string, real>, cs: seq<string>, labels: seq<string>, total: nat)
    requires total > 0
    requires forall c :: c in cs ==> c in priors && priors[c] == Count(labels, c) as real / total as real
    ensures PriorSum(priors, cs) == CountAll(cs, labels) as real / total as real
  {
    if |cs| > 0 {
      var c := cs[|cs| - 1];
      PriorSumIsCountRatio(priors, cs[..|cs| - 1], labels, total);
      assert priors[c] == Count(labels, c) as real / total as real;
      DivAdd(CountAll(cs[..|cs| - 1], labels) as real, Count(labels, c) as real, total as real);
    }
  }

  /** Priors that are each class's share of the rows add up to the share of labelled rows: 1 only when no label is empty. */
  lemma PriorsAddUp(priors: map<string, real>, labels: seq<string>)
    requires |labels| > 0
    requires forall c :: c in DistinctNonEmpty(labels) ==> c in priors && priors[c] == Count(labels, c) as real / |labels| as real
    ensures 0.0 <= PriorSum(priors, DistinctNonEmpty(labels)) <= 1.0
    ensures PriorSum(priors, DistinctNonEmpty(labels)) == 1.0 <==> "" !in labels
  {
    var classes := DistinctNonEmpty(labels);
    PriorSumIsCountRatio(priors, classes, labels, |labels|);
    ClassCountsCoverLabelledRows(labels);
    var labelled := |labels| - Count(labels, "");
    FractionBounds(labelled as real, |labels| as real);
    CountPositive(labels, "");
  }

  /**
   * The priors of a trained model add up to at most 1, and to exactly 1 when
   * (and only when) every row has a non-empty target: unlabelled rows count in
   * the denominator but under no class.
   */
  lemma TrainedPriorsSum(m: Model, rt: Runtime, data: seq<Row>, featureColumns: seq<string>, target: string)
    requires TrainedFrom(m, rt, data, featureColumns, target)
    ensures 0.0 <= PriorSum(m.classPriors, m.classes) <= 1.0
    ensures PriorSum(m.classPriors, m.classes) == 1.0 <==>
            forall i :: 0 <= i < |data| ==> CellText(rt, data[i], target) != ""
  {
    var labels := Labels(rt, data, target);
    PriorsAddUp(m.classPriors, labels);
    if "" in labels {
      var i :| 0 <= i < |labels| && labels[i] == "";
      assert CellText(rt, data[i], target) == "";
    }
  }

  /** For a numeric feature every row of a class has a finite value, so its count is the class size. */
  lemma TrainedNumericCounts(m: Model, rt: Runtime, data: seq<Row>, featureColumns: seq<string>, target: string,
                             f: string, c: string)
    requires TrainedFrom(m, rt, data, featureColumns, target)
    requires f in m.features && m.features[f].Numeric? && c in m.features[f].numeric
    ensures m.features[f].numeric[c].count == Count(Labels(rt, data, target), c)
    ensures m.features[f].numeric[c].variance > 0.0
  {
    assert AllNumeric(rt, data, f);
    ClassValuesCoverClass(rt, data, target, f, c);
  }

  /** For a categorical feature each class's count table adds up to the rows labelled with that class. */
  lemma TrainedCategoricalTotals(m: Model, rt: Runtime, data: seq<Row>, featureColumns: seq<string>, target: string,
                                 f: string, c: string)
    requires TrainedFrom(m, rt, data, featureColumns, target)
    requires f in m.features && m.features[f].Categorical? && c in m.features[f].categorical
    ensures SumNat(Values(m.features[f].categorical[c])) == Count(Labels(rt, data, target), c)
  {
    assert c in m.classes;
    TallyTotal(rt, data, target, f, c);
  }
}
