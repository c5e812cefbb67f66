/**
 * The page's preparation of a dataset for training (src/app/page.tsx): the
 * default target chosen when a sheet is loaded, and `remapTarget`, which
 * copies the chosen target column into the `label` column the endpoint
 * trains on.
 */
module Page {
  import opened Js
  import opened Training

  /** The key the training endpoint reads its classes from. */
  const LabelKey: string := "label"

  /**
   * Lines 52-53: `'label'` when the first row has that column, otherwise its
   * last column (`undefined`, here `None`, for a row with no columns).
   */
  function DefaultTarget(cols: seq<string>): (r: Option<string>)
    ensures LabelKey in cols ==> r == Some(LabelKey)
    ensures LabelKey !in cols && |cols| > 0 ==> r == Some(cols[|cols| - 1])
    ensures r.Some? <==> |cols| > 0
    ensures r.Some? ==> r.value in cols
  {
    if LabelKey in cols then Some(LabelKey)
    else if |cols| > 0 then Some(cols[|cols| - 1])
    else None
  }

  /** Lines 64-66: a copy of the row whose `label` is `String(row[target])`. */
  function RemapRow(rt: Runtime, row: Row, target: string): (r: Row)
    ensures Get(r, LabelKey) == Some(Str(ToString(rt, Field(row, target))))
    ensures forall k :: k != LabelKey ==> Get(r, k) == Get(row, k)
    ensures LabelKey in row.entries ==> r.keys == row.keys
    ensures LabelKey !in row.entries ==> r.keys == row.keys + [LabelKey]
  {
    Put(row, LabelKey, Str(ToString(rt, Field(row, target))))
  }

  /**
   * `remapTarget`: one fresh row per input row, in order; with target
   * `'label'` each is an unchanged copy, otherwise each gets its `label` from
   * the target column.
   */
  function RemapTarget(rt: Runtime, raw: seq<Row>, target: string): (r: seq<Row>)
    ensures |r| == |raw|
    ensures target == LabelKey ==> r == raw
    ensures target != LabelKey ==> forall i :: 0 <= i < |raw| ==> r[i] == RemapRow(rt, raw[i], target)
  {
    if target == LabelKey then raw
    else seq(|raw|, i requires 0 <= i < |raw| => RemapRow(rt, raw[i], target))
  }

  /**
   * After remapping, the classes the model trains on are the stringified
   * target values: a missing target cell becomes the class "undefined" and a
   * null one "null", not an unlabelled row.
   */
  lemma RemappedLabels(rt: Runtime, raw: seq<Row>, target: string, i: nat)
    requires target != LabelKey && i < |raw|
    ensures Labels(rt, RemapTarget(rt, raw, target), LabelKey)[i] == ToString(rt, Field(raw[i], target))
    ensures Field(raw[i], target).Undefined? ==> Labels(rt, RemapTarget(rt, raw, target), LabelKey)[i] == "undefined"
  {
    var r := RemapTarget(rt, raw, target);
    assert Field(r[i], LabelKey) == Str(ToString(rt, Field(raw[i], target)));
  }

  /** Remapping twice with the same target gives the same rows as remapping once. */
  lemma RemapIdempotent(rt: Runtime, raw: seq<Row>, target: string)
    ensures RemapTarget(rt, RemapTarget(rt, raw, target), target) == RemapTarget(rt, raw, target)
  {
    if target != LabelKey {
      var once := RemapTarget(rt, raw, target);
      forall i | 0 <= i < |raw| ensures RemapRow(rt, once[i], target) == once[i] {
        var row := once[i];
        assert Field(row, target) == Field(raw[i], target);
        assert row.entries[LabelKey] == Str(ToString(rt, Field(row, target)));
        assert row.entries[LabelKey := Str(ToString(rt, Field(row, target)))] == row.entries;
      }
    }
  }
}
