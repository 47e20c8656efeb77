/** The cell guard `safeCell`, the noisy-path test `shouldSummarize` and the row
    flattener `flattenRow`, which writes a nested JSON value into one shared,
    insertion-ordered record from dotted path to scalar. */
module Flatten {
  import opened Text
  import opened JsonValue

  /** An insertion-ordered record: `Record<string, any>` as the code builds it. */
  type FlatRow = seq<(string, Value)>

  /** The spreadsheet cell-length guard. */
  const MAX_CELL: nat := 32000
  const TRUNCATION_MARK := "\U{2026}(truncated)"
  /** Recursion stops once the depth exceeds this. */
  const MAX_DEPTH: nat := 4
  /** JavaScript array lengths are unsigned 32-bit integers. */
  const MAX_ARRAY_LENGTH: nat := 0x1_0000_0000 - 1

  /* ---------- safeCell ---------- */

  /** `safeCell(v)`: over-long strings keep their first MAX_CELL characters
      followed by the truncation mark; everything else passes unchanged. */
  function SafeCell(v: Value): (r: Value)
    ensures !v.Str? || |v.s| <= MAX_CELL ==> r == v
    ensures v.Str? ==> r.Str? && |r.s| <= MAX_CELL + |TRUNCATION_MARK|
    ensures v.Str? && |v.s| > MAX_CELL ==>
      |r.s| == MAX_CELL + |TRUNCATION_MARK| && r.s[..MAX_CELL] == v.s[..MAX_CELL] && EndsWith(r.s, TRUNCATION_MARK)
  {
    if v.Str? && |v.s| > MAX_CELL then Str(v.s[..MAX_CELL] + TRUNCATION_MARK) else v
  }

  /** Guarding a guarded cell changes nothing: a truncated string is longer
      than MAX_CELL but already ends in its own mark. */
  lemma SafeCellIdempotent(v: Value)
    ensures SafeCell(SafeCell(v)) == SafeCell(v)
  {
    if v.Str? && |v.s| > MAX_CELL {
      var t := v.s[..MAX_CELL] + TRUNCATION_MARK;
      assert t[..MAX_CELL] == v.s[..MAX_CELL];
    }
  }

  /* ---------- shouldSummarize ---------- */

  /** The case-insensitive patterns of noisy branches. */
  const PRUNE_PATTERNS: seq<string> :=
    ["account_transactions", "previous_values", "account_type_col_span_list", "columns", "history", "audit"]

  predicate ShouldSummarize(path: string) {
    exists pattern :: pattern in PRUNE_PATTERNS && Contains(Lower(path), pattern)
  }

  /* ---------- the record being written ---------- */

  /** `out[key] = v`: overwrite in place when the key is present, append otherwise. */
  function Assign(out: FlatRow, key: string, v: Value): FlatRow {
    if out == [] then [(key, v)]
    else if out[0].0 == key then [(key, v)] + out[1..]
    else [out[0]] + Assign(out[1..], key, v)
  }

  predicate HasKey(out: FlatRow, key: string) {
    exists j :: 0 <= j < |out| && out[j].0 == key
  }

  predicate DistinctKeys(out: FlatRow) {
    forall i, j :: 0 <= i < j < |out| ==> out[i].0 != out[j].0
  }

  /** A value the record may hold: a scalar that the cell guard leaves alone. */
  predicate IsCell(v: Value) {
    !IsNested(v) && SafeCell(v) == v
  }

  predicate ScalarValues(out: FlatRow) {
    forall j :: 0 <= j < |out| ==> !IsNested(out[j].1)
  }

  predicate CellValues(out: FlatRow) {
    forall j :: 0 <= j < |out| ==> IsCell(out[j].1)
  }

  /** `before` is still there, key for key and in order, at the front of `out`. */
  predicate KeepsKeysOf(out: FlatRow, before: FlatRow) {
    |before| <= |out| && forall j :: 0 <= j < |before| ==> out[j].0 == before[j].0
  }

  /** Assigning to a new key appends. */
  lemma {:induction false} AssignAppends(out: FlatRow, key: string, v: Value)
    requires !HasKey(out, key)
    ensures Assign(out, key, v) == out + [(key, v)]
  {
    if out != [] {
      assert !HasKey(out[1..], key) by {
        forall j | 0 <= j < |out[1..]| ensures out[1..][j].0 != key {
          assert out[1..][j] == out[j + 1];
        }
      }
      AssignAppends(out[1..], key, v);
      assert [out[0]] + (out[1..] + [(key, v)]) == out + [(key, v)];
    }
  }

  /** Assigning to a present key replaces its value where it first stands. */
  lemma {:induction false} AssignReplaces(out: FlatRow, key: string, v: Value, j: nat)
    requires j < |out| && out[j].0 == key && forall i :: 0 <= i < j ==> out[i].0 != key
    ensures Assign(out, key, v) == out[j := (key, v)]
  {
    if j > 0 {
      assert out[0].0 != key;
      forall i | 0 <= i < j - 1 ensures out[1..][i].0 != key {
        assert out[1..][i] == out[i + 1];
      }
      AssignReplaces(out[1..], key, v, j - 1);
      assert [out[0]] + out[1..][j - 1 := (key, v)] == out[j := (key, v)];
    }
  }

  /** Assigning a cell keeps the record well formed and its earlier keys in place. */
  lemma AssignWellFormed(out: FlatRow, key: string, v: Value)
    requires DistinctKeys(out)
    ensures DistinctKeys(Assign(out, key, v)) && KeepsKeysOf(Assign(out, key, v), out)
    ensures HasKey(Assign(out, key, v), key)
    ensures ScalarValues(out) && !IsNested(v) ==> ScalarValues(Assign(out, key, v))
    ensures CellValues(out) && IsCell(v) ==> CellValues(Assign(out, key, v))
  {
    if HasKey(out, key) {
      var j :| 0 <= j < |out| && out[j].0 == key;
      assert forall i :: 0 <= i < j ==> out[i].0 != key;
      AssignReplaces(out, key, v, j);
      assert Assign(out, key, v)[j] == (key, v);
    } else {
      AssignAppends(out, key, v);
      assert Assign(out, key, v)[|out|] == (key, v);
    }
  }

  /* ---------- flattenRow ---------- */

  /** `prefix || 'value'`. */
  function KeyOrValue(prefix: string): string {
    if prefix == "" then "value" else prefix
  }

  /** `prefix ? `${prefix}.${k}` : k`. */
  function ChildKey(prefix: string, k: string): string {
    if prefix == "" then k else prefix + "." + k
  }

  function ItemsLabel(n: nat): string {
    "[" + NatToString(n) + " items]"
  }

  /** The placeholder of a pruned branch. */
  function Summary(v: Value): string
    requires IsNested(v)
  {
    if v.Arr? then ItemsLabel(|v.items|) else "[object]"
  }

  /** `flattenRow(v, prefix, out, depth)`: the record `out` becomes once `v`
      has been written into it under `prefix`. */
  function Flatten(v: Value, prefix: string, out: FlatRow, depth: nat): FlatRow
    decreases v, 1, 0
  {
    if v.Null? then out
    else if depth > MAX_DEPTH then Assign(out, KeyOrValue(prefix), Str("[nested object]"))
    else if !IsNested(v) then Assign(out, KeyOrValue(prefix), SafeCell(v))
    else if v.Arr? then
      if forall x :: x in v.items ==> !IsNested(x) then
        Assign(out, KeyOrValue(prefix), SafeCell(Str(Join(v.items, "; "))))
      else
        Assign(out, KeyOrValue(prefix), Str(ItemsLabel(|v.items|)))
    else FlattenFields(v, 0, prefix, out, depth)
  }

  /** The effect of one member `(k, v)` of an object under `prefix`. */
  function FlattenField(obj: Value, i: nat, prefix: string, out: FlatRow, depth: nat): FlatRow
    requires obj.Obj? && i < |obj.fields|
    decreases obj, 0, |obj.fields| - i, 0
  {
    var (k, v) := obj.fields[i];
    var key := ChildKey(prefix, k);
    if IsNested(v) then
      if ShouldSummarize(key) then Assign(out, key, Str(Summary(v)))
      else Flatten(v, key, out, depth + 1)
    else Assign(out, key, SafeCell(v))
  }

  /** The `for … of Object.entries(obj)` loop, from member `i` on. */
  function FlattenFields(obj: Value, i: nat, prefix: string, out: FlatRow, depth: nat): FlatRow
    requires obj.Obj? && i <= |obj.fields|
    decreases obj, 0, |obj.fields| - i, 1
  {
    if i == |obj.fields| then out
    else FlattenFields(obj, i + 1, prefix, FlattenField(obj, i, prefix, out, depth), depth)
  }

  /** `flattenRow(v)` with its default arguments. */
  function Flat(v: Value): FlatRow {
    Flatten(v, "", [], 0)
  }

  /* ---------- the imperative flattener ---------- */

  /** The mutable `out` record that `flattenRow` threads through its recursion. */
  class FlatRecord {
    var entries: FlatRow

    constructor ()
      ensures entries == []
    {
      entries := [];
    }

    /** `out[key] = v`. */
    method Set(key: string, v: Value)
      modifies this
      ensures entries == Assign(old(entries), key, v)
    {
      entries := Assign(entries, key, v);
    }
  }

  /** `flattenRow(obj, prefix, out, depth)`: writes `obj` into `out` key by key. */
  method FlattenRow(obj: Value, prefix: string, out: FlatRecord, depth: nat)
    modifies out
    ensures out.entries == Flatten(obj, prefix, old(out.entries), depth)
    decreases obj
  {
    if obj.Null? {
      return;
    }
    if depth > MAX_DEPTH {
      out.Set(KeyOrValue(prefix), Str("[nested object]"));
      return;
    }
    if !IsNested(obj) {
      out.Set(KeyOrValue(prefix), SafeCell(obj));
      return;
    }
    if obj.Arr? {
      if forall x :: x in obj.items ==> !IsNested(x) {
        out.Set(KeyOrValue(prefix), SafeCell(Str(Join(obj.items, "; "))));
      } else {
        out.Set(KeyOrValue(prefix), Str(ItemsLabel(|obj.items|)));
      }
      return;
    }
    var fields := obj.fields;
    var i := 0;
    while i < |fields|
      invariant 0 <= i <= |fields|
      invariant FlattenFields(obj, i, prefix, out.entries, depth) == Flatten(obj, prefix, old(out.entries), depth)
    {
      var (k, v) := fields[i];
      var key := ChildKey(prefix, k);
      if IsNested(v) {
        if ShouldSummarize(key) {
          out.Set(key, Str(Summary(v)));
        } else {
          FlattenRow(v, key, out, depth + 1);
        }
      } else {
        out.Set(key, SafeCell(v));
      }
      i := i + 1;
    }
  }

  /** `flattenRow(obj)`: a fresh record filled from `obj`. */
  method FlattenValue(obj: Value) returns (row: FlatRow)
    ensures row == Flat(obj)
    ensures DistinctKeys(row) && ScalarValues(row)
  {
    var out := new FlatRecord();
    FlattenRow(obj, "", out, 0);
    row := out.entries;
    FlatIsFlat(obj);
  }

  /* ---------- what the flattener guarantees ---------- */

  /** Every array inside `v` has a length JavaScript can represent. */
  predicate ArraysFit(v: Value)
    decreases v
  {
    match v
    case Arr(items) => |items| <= MAX_ARRAY_LENGTH && forall x :: x in items ==> ArraysFit(x)
    case Obj(fields) => forall j :: 0 <= j < |fields| ==> ArraysFit(fields[j].1)
    case _ => true
  }

  function Pow10(k: nat): nat {
    if k == 0 then 1 else 10 * Pow10(k - 1)
  }

  lemma {:induction false} NatToStringLength(n: nat, k: nat)
    requires 1 <= k && n < Pow10(k)
    ensures |NatToString(n)| <= k
  {
    if n >= 10 {
      NatToStringLength(n / 10, k - 1);
    }
  }

  /** "[N items]" for a JavaScript array length is a short cell. */
  lemma ItemsLabelIsCell(n: nat)
    requires n <= MAX_ARRAY_LENGTH
    ensures IsCell(Str(ItemsLabel(n)))
  {
    assert Pow10(10) == 10000000000;
    NatToStringLength(n, 10);
  }

  /** Writing a value keeps the record's keys distinct, its values scalar and
      its earlier keys where they were; if every array in the value has a
      JavaScript length, every value written is also left alone by `safeCell`. */
  lemma {:induction false} FlattenInvariant(v: Value, prefix: string, out: FlatRow, depth: nat)
    requires DistinctKeys(out) && ScalarValues(out)
    ensures var r := Flatten(v, prefix, out, depth);
      DistinctKeys(r) && ScalarValues(r) && KeepsKeysOf(r, out) &&
      (CellValues(out) && ArraysFit(v) ==> CellValues(r))
    decreases v, 1, 0
  {
    var key := KeyOrValue(prefix);
    if v.Null? {
    } else if depth > MAX_DEPTH {
      assert Flatten(v, prefix, out, depth) == Assign(out, key, Str("[nested object]"));
      AssignWellFormed(out, key, Str("[nested object]"));
    } else if !IsNested(v) {
      assert Flatten(v, prefix, out, depth) == Assign(out, key, SafeCell(v));
      SafeCellIdempotent(v);
      AssignWellFormed(out, key, SafeCell(v));
    } else if v.Arr? {
      if forall x :: x in v.items ==> !IsNested(x) {
        var cell := SafeCell(Str(Join(v.items, "; ")));
        assert Flatten(v, prefix, out, depth) == Assign(out, key, cell);
        SafeCellIdempotent(Str(Join(v.items, "; ")));
        AssignWellFormed(out, key, cell);
      } else {
        assert Flatten(v, prefix, out, depth) == Assign(out, key, Str(ItemsLabel(|v.items|)));
        if ArraysFit(v) {
          ItemsLabelIsCell(|v.items|);
        }
        AssignWellFormed(out, key, Str(ItemsLabel(|v.items|)));
      }
    } else {
      assert Flatten(v, prefix, out, depth) == FlattenFields(v, 0, prefix, out, depth);
      FieldsInvariant(v, 0, prefix, out, depth);
    }
  }

  lemma {:induction false} FieldsInvariant(obj: Value, i: nat, prefix: string, out: FlatRow, depth: nat)
    requires obj.Obj? && i <= |obj.fields|
    requires DistinctKeys(out) && ScalarValues(out)
    ensures var r := FlattenFields(obj, i, prefix, out, depth);
      DistinctKeys(r) && ScalarValues(r) && KeepsKeysOf(r, out) &&
      (CellValues(out) && ArraysFit(obj) ==> CellValues(r))
    decreases obj, 0, |obj.fields| - i, 0
  {
    if i < |obj.fields| {
      var (k, v) := obj.fields[i];
      var key := ChildKey(prefix, k);
      var next := FlattenField(obj, i, prefix, out, depth);
      assert ArraysFit(obj) ==> ArraysFit(v);
      if IsNested(v) {
        if ShouldSummarize(key) {
          if ArraysFit(obj) && v.Arr? {
            ItemsLabelIsCell(|v.items|);
          }
          AssignWellFormed(out, key, Str(Summary(v)));
        } else {
          FlattenInvariant(v, key, out, depth + 1);
        }
      } else {
        SafeCellIdempotent(v);
        AssignWellFormed(out, key, SafeCell(v));
      }
      FieldsInvariant(obj, i + 1, prefix, next, depth);
    }
  }

  /** No value of a flattened record is an object or an array, and no key
      appears twice. */
  lemma FlatIsFlat(v: Value)
    ensures DistinctKeys(Flat(v)) && ScalarValues(Flat(v))
    ensures ArraysFit(v) ==> CellValues(Flat(v))
  {
    FlattenInvariant(v, "", [], 0);
  }

  /** Re-flattening a flat record from member `i` on, having already written
      its first `i` members, rebuilds it. */
  lemma {:induction false} RebuildFields(r: FlatRow, i: nat)
    requires i <= |r| && DistinctKeys(r) && CellValues(r)
    ensures FlattenFields(Obj(r), i, "", r[..i], 0) == r
    decreases |r| - i
  {
    if i == |r| {
      assert r[..i] == r;
    } else {
      var (k, v) := r[i];
      assert !HasKey(r[..i], k);
      AssignAppends(r[..i], k, v);
      assert FlattenField(Obj(r), i, "", r[..i], 0) == r[..i] + [(k, v)] == r[..i + 1];
      RebuildFields(r, i + 1);
    }
  }

  /** Flattening is idempotent: the rows stored by table discovery are
      flattened a second time before their columns are picked, and that second
      pass returns them unchanged, keys, order and values. */
  lemma FlatIdempotent(v: Value)
    requires ArraysFit(v)
    ensures Flat(Obj(Flat(v))) == Flat(v)
  {
    FlatIsFlat(v);
    RebuildFields(Flat(v), 0);
    assert Flat(v)[..0] == [];
  }

  /** A noisy branch is summarised without being looked into: replacing its
      contents by any other value of the same kind (an array of the same
      length, or any object) leaves the result unchanged. */
  lemma PrunedBranchUnread(fields: seq<(string, Value)>, j: nat, w: Value,
                           prefix: string, out: FlatRow, depth: nat)
    requires j < |fields|
    requires IsNested(fields[j].1) && ShouldSummarize(ChildKey(prefix, fields[j].0))
    requires IsNested(w) && Summary(w) == Summary(fields[j].1)
    ensures Flatten(Obj(fields), prefix, out, depth) ==
            Flatten(Obj(fields[j := (fields[j].0, w)]), prefix, out, depth)
  {
    if depth <= MAX_DEPTH {
      FieldsAgree(Obj(fields), Obj(fields[j := (fields[j].0, w)]), j, 0, prefix, out, depth);
    }
  }

  lemma {:induction false} FieldsAgree(a: Value, b: Value, j: nat, i: nat, prefix: string, out: FlatRow, depth: nat)
    requires a.Obj? && b.Obj? && |a.fields| == |b.fields| && j < |a.fields| && i <= |a.fields|
    requires forall m :: 0 <= m < |a.fields| && m != j ==> a.fields[m] == b.fields[m]
    requires a.fields[j].0 == b.fields[j].0 && ShouldSummarize(ChildKey(prefix, a.fields[j].0))
    requires IsNested(a.fields[j].1) && IsNested(b.fields[j].1) && Summary(a.fields[j].1) == Summary(b.fields[j].1)
    ensures FlattenFields(a, i, prefix, out, depth) == FlattenFields(b, i, prefix, out, depth)
    decreases |a.fields| - i
  {
    if i < |a.fields| {
      assert FlattenField(a, i, prefix, out, depth) == FlattenField(b, i, prefix, out, depth);
      FieldsAgree(a, b, j, i + 1, prefix, FlattenField(a, i, prefix, out, depth), depth);
    }
  }

  /** A string without the first character of `p` does not contain `p`. */
  lemma {:induction false} FirstCharAbsent(s: string, p: string)
    requires p != [] && p[0] !in s
    ensures !Contains(s, p)
    decreases |s|
  {
    if |s| > 0 {
      FirstCharAbsent(s[1..], p);
    }
  }

  /** A path holding any letter-case variant of a noisy pattern is summarized. */
  lemma NoisyIsSummarized(a: string, w: string, b: string, pattern: string)
    requires pattern in PRUNE_PATTERNS && Lower(w) == pattern
    ensures ShouldSummarize(a + w + b)
  {
    assert Lower(a + w + b) == Lower(a) + pattern + Lower(b);
    ContainsInfix(Lower(a), pattern, Lower(b));
  }

  lemma {:induction false} ContainsInfix(x: string, p: string, y: string)
    ensures Contains(x + p + y, p)
    decreases |x|
  {
    if x == [] {
      assert x + p + y == p + y;
      assert (p + y)[..|p|] == p;
    } else {
      ContainsInfix(x[1..], p, y);
      assert (x + p + y)[1..] == x[1..] + p + y;
    }
  }

  /** A path whose letters are none of a, c, h and p, in either case,
      matches no prune pattern. */
  lemma NotNoisy(path: string)
    requires forall j :: 0 <= j < |path| ==> LowerChar(path[j]) !in "apch"
    ensures !ShouldSummarize(path)
  {
    var lp := Lower(path);
    forall pattern | pattern in PRUNE_PATTERNS ensures !Contains(lp, pattern) {
      assert pattern[0] in "apch";
      assert pattern[0] !in lp by {
        forall j | 0 <= j < |lp| ensures lp[j] != pattern[0] {
          assert lp[j] == LowerChar(path[j]);
        }
      }
      FirstCharAbsent(lp, pattern);
    }
  }

  /** One member written under `prefix` at a depth within the cap. */
  lemma SingleMember(k: string, v: Value, prefix: string, depth: nat)
    requires depth <= MAX_DEPTH && IsNested(v) && !ShouldSummarize(ChildKey(prefix, k))
    ensures Flatten(Obj([(k, v)]), prefix, [], depth) == Flatten(v, ChildKey(prefix, k), [], depth + 1)
  {
    var obj := Obj([(k, v)]);
    assert FlattenFields(obj, 0, prefix, [], depth) ==
           FlattenFields(obj, 1, prefix, FlattenField(obj, 0, prefix, [], depth), depth);
  }

  /** Recursion stops below the fifth level: a chain of six nested objects
      keeps the path of five keys and replaces what lies beneath it. */
  lemma DepthCapExample(leaf: Value)
    ensures Flat(Obj([("k", Obj([("l", Obj([("m", Obj([("n", Obj([("o", Obj([("q", leaf)]))]))]))]))]))])) ==
            [("k.l.m.n.o", Str("[nested object]"))]
  {
    var v5 := Obj([("q", leaf)]);
    var v4 := Obj([("o", v5)]);
    var v3 := Obj([("n", v4)]);
    var v2 := Obj([("m", v3)]);
    var v1 := Obj([("l", v2)]);
    assert ChildKey("", "k") == "k" && ChildKey("k", "l") == "k.l" && ChildKey("k.l", "m") == "k.l.m";
    assert ChildKey("k.l.m", "n") == "k.l.m.n" && ChildKey("k.l.m.n", "o") == "k.l.m.n.o";
    NotNoisy("k"); NotNoisy("k.l"); NotNoisy("k.l.m"); NotNoisy("k.l.m.n"); NotNoisy("k.l.m.n.o");
    SingleMember("k", v1, "", 0);
    SingleMember("l", v2, "k", 1);
    SingleMember("m", v3, "k.l", 2);
    SingleMember("n", v4, "k.l.m", 3);
    SingleMember("o", v5, "k.l.m.n", 4);
    assert Flatten(v5, "k.l.m.n.o", [], 5) == [("k.l.m.n.o", Str("[nested object]"))];
  }
}
