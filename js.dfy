/**
 * The slice of JavaScript semantics that the classifier and its evaluation
 * utilities rely on: cell values, insertion-ordered records, `String(v)`,
 * `v ?? d` and the character filter `s.replace(/[^\d.-]/g, '')`.
 *
 * `String()` applied to a number and `parseFloat` are not spelled out: they are
 * the two fields of a `Runtime`, which every coercion takes as a parameter.
 */
module Js {
  import opened Seqs

  datatype Option<+T> = None | Some(value: T)

  /** A JavaScript number: a finite value or one of the three non-finite ones. */
  datatype Number = Finite(r: real) | NaN | PosInfinity | NegInfinity {
    /** `Number.isFinite` */
    predicate IsFinite() { Finite? }
  }

  /** A cell value as it reaches the core from JSON or a spreadsheet. */
  datatype Value = Undefined | Null | Bool(b: bool) | Num(n: Number) | Str(s: string)

  /** The runtime's `String(n)` for numbers and its `parseFloat`. */
  datatype Runtime = Runtime(numberToString: Number -> string, parseFloat: string -> Number)

  /**
   * A plain object with string keys: `keys` is the order `Object.keys` reports
   * (insertion order), `entries` the key/value association.
   */
  datatype Dict<V> = Dict(keys: seq<string>, entries: map<string, V>)

  ghost predicate WellFormed<V>(d: Dict<V>) {
    && (forall i, j :: 0 <= i < j < |d.keys| ==> d.keys[i] != d.keys[j])
    && (forall k :: k in d.entries <==> k in d.keys)
  }

  /** Every object the program builds: each key once, in insertion order. */
  type Record<V> = d: Dict<V> | WellFormed(d) witness Dict([], map[])

  /** A data row: column name to cell value. */
  type Row = Record<Value>

  function EmptyRecord<V>(): (r: Record<V>)
    ensures r.keys == [] && r.entries == map[]
  {
    Dict([], map[])
  }

  /** `d[k]`, with `None` standing for `undefined`. */
  function Get<V>(d: Record<V>, k: string): Option<V> {
    if k in d.entries then Some(d.entries[k]) else None
  }

  /** `d[k] = v` on a record: an existing key keeps its place, a new key goes last. */
  function Put<V>(d: Record<V>, k: string, v: V): (r: Record<V>)
    ensures Get(r, k) == Some(v)
    ensures forall k' :: k' != k ==> Get(r, k') == Get(d, k')
    ensures k in d.entries ==> r.keys == d.keys
    ensures k !in d.entries ==> r.keys == d.keys + [k]
  {
    var r := Dict(if k in d.entries then d.keys else d.keys + [k], d.entries[k := v]);
    assert WellFormed(r);
    r
  }

  /** `Object.values(d)`: the values in key order. */
  function Values<V>(d: Record<V>): (r: seq<V>)
    ensures |r| == |d.keys|
    ensures forall i :: 0 <= i < |r| ==> r[i] == d.entries[d.keys[i]]
  {
    seq(|d.keys|, i requires 0 <= i < |d.keys| => d.entries[d.keys[i]])
  }

  /** Overwriting an existing key changes its value in place in `Object.values`. */
  lemma PutValuesExisting<V>(d: Record<V>, k: string, v: V, j: nat)
    requires j < |d.keys| && d.keys[j] == k
    ensures Values(Put(d, k, v)) == Values(d)[j := v]
  {
    var a, b := Values(Put(d, k, v)), Values(d)[j := v];
    assert |a| == |b|;
    forall i | 0 <= i < |a| ensures a[i] == b[i] {
      if i != j { assert d.keys[i] != k; }
    }
  }

  /** A new key appends its value to `Object.values`. */
  lemma PutValuesNew<V>(d: Record<V>, k: string, v: V)
    requires k !in d.entries
    ensures Values(Put(d, k, v)) == Values(d) + [v]
  {
    var a, b := Values(Put(d, k, v)), Values(d) + [v];
    assert |a| == |b|;
    forall i | 0 <= i < |a| ensures a[i] == b[i] {
      if i < |d.keys| { assert d.keys[i] != k; }
    }
  }

  /** In a table of counts, `d[k] = v` changes the total by the difference. */
  lemma PutTotal(d: Record<nat>, k: string, v: nat)
    ensures SumNat(Values(Put(d, k, v))) == SumNat(Values(d)) - (if k in d.entries then d.entries[k] else 0) + v
  {
    if k in d.entries {
      var j := FirstIndex(d.keys, k);
      PutValuesExisting(d, k, v, j);
      SumNatUpdate(Values(d), j, v);
    } else {
      PutValuesNew(d, k, v);
      SumNatSnoc(Values(d), v);
    }
  }

  /** `row[k]`: a missing column reads as `undefined`. */
  function Field(row: Row, k: string): Value {
    match Get(row, k)
    case Some(v) => v
    case None => Undefined
  }

  predicate IsNullish(v: Value) {
    v.Undefined? || v.Null?
  }

  /** `v ?? d` */
  function Coalesce(v: Value, d: Value): (r: Value)
    ensures !IsNullish(v) ==> r == v
    ensures IsNullish(v) ==> r == d
  {
    if IsNullish(v) then d else v
  }

  /** `String(v)` */
  function ToString(rt: Runtime, v: Value): string {
    match v
    case Undefined => "undefined"
    case Null => "null"
    case Bool(b) => if b then "true" else "false"
    case Num(n) => rt.numberToString(n)
    case Str(s) => s
  }

  /** `String(row[col] ?? '')`: the text of a cell, empty when it is missing. */
  function CellText(rt: Runtime, row: Row, col: string): string {
    ToString(rt, Coalesce(Field(row, col), Str("")))
  }

  /**
   * A missing or null cell reads as the empty text, the mark of an
   * unlabelled row, where plain `String` of a missing cell would give
   * "undefined"; any other cell reads as its `String`.
   */
  lemma NullishCellIsEmpty(rt: Runtime, row: Row, col: string)
    ensures col !in row.entries ==> CellText(rt, row, col) == "" && ToString(rt, Field(row, col)) == "undefined"
    ensures Field(row, col).Null? ==> CellText(rt, row, col) == ""
    ensures !IsNullish(Field(row, col)) ==> CellText(rt, row, col) == ToString(rt, Field(row, col))
  {
  }

  /** A character that `/[^\d.-]/g` does not remove. */
  predicate IsNumericChar(c: char) {
    ('0' <= c <= '9') || c == '.' || c == '-'
  }

  /** `s.replace(/[^\d.-]/g, '')`: keeps the digits, dots and minus signs in order. */
  function KeepNumericChars(s: string): (r: string)
    ensures |r| <= |s|
    ensures forall i :: 0 <= i < |r| ==> IsNumericChar(r[i])
  {
    if s == [] then [] else
      (if IsNumericChar(s[0]) then [s[0]] else []) + KeepNumericChars(s[1..])
  }

  /** The filter works character by character: it distributes over concatenation. */
  lemma {:induction false} KeepNumericCharsConcat(a: string, b: string)
    ensures KeepNumericChars(a + b) == KeepNumericChars(a) + KeepNumericChars(b)
  {
    if a != [] {
      assert (a + b)[1..] == a[1..] + b;
      KeepNumericCharsConcat(a[1..], b);
    } else {
      assert a + b == b;
    }
  }

  /** The filter leaves a string alone exactly when it has nothing to remove. */
  lemma {:induction false} KeepNumericCharsFixed(s: string)
    ensures KeepNumericChars(s) == s <==> forall i :: 0 <= i < |s| ==> IsNumericChar(s[i])
  {
    if s != [] {
      KeepNumericCharsFixed(s[1..]);
      if !IsNumericChar(s[0]) {
        assert |KeepNumericChars(s)| <= |s[1..]| < |s|;
      } else if KeepNumericChars(s) == s {
        assert KeepNumericChars(s[1..]) == s[1..];
        forall i | 0 <= i < |s| ensures IsNumericChar(s[i]) {
          if i > 0 { assert s[i] == s[1..][i - 1]; }
        }
      } else {
        assert KeepNumericChars(s[1..]) != s[1..];
        var i :| 0 <= i < |s[1..]| && !IsNumericChar(s[1..][i]);
        assert !IsNumericChar(s[i + 1]);
      }
    }
  }
}
