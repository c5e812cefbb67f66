/**
 * The feature/target selection of src/app/components/ProcessPanel.tsx: the
 * panel's state is the target column (or none) and the ordered list of
 * feature columns, and its two toggles replace that state.
 */
module ProcessPanel {
  import opened Js
  import opened Seqs

  /** `list.filter(c => c !== x)`: every member except `x`, in order. */
  function Without(s: seq<string>, x: string): (r: seq<string>)
    ensures forall y :: y in r <==> y in s && y != x
    ensures |r| <= |s|
  {
    if |s| == 0 then [] else
      var m := |s| - 1;
      Without(s[..m], x) + (if s[m] != x then [s[m]] else [])
  }

  /** The filter works member by member: it distributes over concatenation. */
  lemma {:induction false} WithoutConcat(a: seq<string>, b: seq<string>, x: string)
    ensures Without(a + b, x) == Without(a, x) + Without(b, x)
  {
    if |b| == 0 {
      assert a + b == a;
    } else {
      var m := |b| - 1;
      WithoutConcat(a, b[..m], x);
      assert (a + b)[..|a + b| - 1] == a + b[..m];
    }
  }

  /** Filtering out a column that is not there changes nothing. */
  lemma {:induction false} WithoutAbsent(s: seq<string>, x: string)
    requires x !in s
    ensures Without(s, x) == s
  {
    if |s| > 0 {
      var m := |s| - 1;
      WithoutAbsent(s[..m], x);
      assert s == s[..m] + [s[m]];
    }
  }

  /** A list without duplicates stays without duplicates once a column is filtered out. */
  lemma {:induction false} WithoutDistinct(s: seq<string>, x: string)
    requires Distinct(s)
    ensures Distinct(Without(s, x))
  {
    if |s| > 0 {
      var m := |s| - 1;
      WithoutDistinct(s[..m], x);
      assert s[m] !in s[..m];
    }
  }

  /** In a list without duplicates, filtering out a member removes exactly its one position and keeps the rest in order. */
  lemma WithoutMember(s: seq<string>, i: nat)
    requires Distinct(s) && i < |s|
    ensures Without(s, s[i]) == s[..i] + s[i + 1..]
  {
    var x, a, b := s[i], s[..i], s[i + 1..];
    OnlyOnce(s, i);
    assert s == (a + [x]) + b;
    WithoutConcat(a + [x], b, x);
    AddThenRemove(a, x);
    WithoutAbsent(b, x);
    assert Without(s, x) == Without(a + [x], x) + Without(b, x) == a + b;
  }

  /** In a list without duplicates, a member occurs neither before nor after its own position. */
  lemma OnlyOnce(s: seq<string>, i: nat)
    requires Distinct(s) && i < |s|
    ensures s[i] !in s[..i] && s[i] !in s[i + 1..]
  {
    var x, a, b := s[i], s[..i], s[i + 1..];
    forall j | 0 <= j < |a| ensures a[j] != x { assert a[j] == s[j]; }
    forall j | 0 <= j < |b| ensures b[j] != x { assert b[j] == s[i + 1 + j]; }
  }

  /** Toggling a feature on and then off again gives back the list it started from. */
  lemma AddThenRemove(s: seq<string>, col: string)
    requires col !in s
    ensures Without(s + [col], col) == s
  {
    WithoutConcat(s, [col], col);
    assert Without([col], col) == [] by {
      assert [col][..0] == [];
    }
    WithoutAbsent(s, col);
  }

  class Panel {
    var targetColumn: Option<string>
    var featureColumns: seq<string>

    /** The target is never also a feature, and no feature is listed twice. */
    predicate Valid()
      reads this
    {
      && (targetColumn.Some? ==> targetColumn.value !in featureColumns)
      && Distinct(featureColumns)
    }

    /** The panel shows the selection its parent holds. */
    constructor (target: Option<string>, features: seq<string>)
      ensures targetColumn == target && featureColumns == features
      ensures (target.Some? ==> target.value !in features) && Distinct(features) ==> Valid()
    {
      targetColumn := target;
      featureColumns := features;
    }

    /**
     * `toggleAsTarget(col)`: clears the target when it is `col`, otherwise
     * makes `col` the target; either way `col` stops being a feature.
     */
    method ToggleAsTarget(col: string)
      modifies this
      ensures targetColumn == if old(targetColumn) == Some(col) then None else Some(col)
      ensures featureColumns == Without(old(featureColumns), col)
      ensures targetColumn.Some? ==> targetColumn.value !in featureColumns
      ensures Distinct(old(featureColumns)) ==> Valid()
    {
      if targetColumn == Some(col) {
        targetColumn := None;
      } else {
        targetColumn := Some(col);
      }
      if Distinct(featureColumns) {
        WithoutDistinct(featureColumns, col);
      }
      featureColumns := Without(featureColumns, col);
    }

    /**
     * `toggleFeature(col)`: removes `col` when it is a feature; otherwise
     * appends it, unless it is the target, in which case nothing changes.
     */
    method ToggleFeature(col: string)
      modifies this
      ensures targetColumn == old(targetColumn)
      ensures col in old(featureColumns) ==> featureColumns == Without(old(featureColumns), col)
      ensures col !in old(featureColumns) && old(targetColumn) == Some(col) ==> featureColumns == old(featureColumns)
      ensures col !in old(featureColumns) && old(targetColumn) != Some(col) ==> featureColumns == old(featureColumns) + [col]
      ensures old(Valid()) ==> Valid()
    {
      if col in featureColumns {
        if Distinct(featureColumns) {
          WithoutDistinct(featureColumns, col);
        }
        featureColumns := Without(featureColumns, col);
      } else {
        if targetColumn == Some(col) {
          return;
        }
        featureColumns := featureColumns + [col];
      }
    }
  }
}
