/** Table discovery (`collectTablesDeep`) and ranking (`extractTablesFromZohoDeep`):
    every array inside the document whose first element is an object, or null,
    becomes a candidate table of flattened rows; the candidates are ranked by a
    bonus-weighted score and given spreadsheet-safe sheet names. */
module Tables {
  import opened Text
  import opened JsonValue
  import opened Flatten

  /** A candidate table: the (last 64 characters of the) path of the array it
      came from, its flattened rows and their number. */
  datatype Table = Table(name: string, rows: seq<FlatRow>, size: nat)

  /** The path the walk starts from. */
  const ROOT := "root"
  /** Table names keep at most this many trailing characters of the path. */
  const MAX_TABLE_NAME: nat := 64

  /* ---------- the walk ---------- */

  /** `node.length && typeof node[0] === 'object' && !Array.isArray(node[0])`:
      `typeof null` is 'object', so a leading null counts. */
  predicate IsRowSet(items: seq<Value>) {
    |items| > 0 && (items[0].Null? || items[0].Obj?)
  }

  /** `path.slice(-64)`. */
  function Last64(path: string): (r: string)
    ensures |r| <= MAX_TABLE_NAME && EndsWith(path, r)
    ensures |path| <= MAX_TABLE_NAME ==> r == path
    ensures |path| > MAX_TABLE_NAME ==> |r| == MAX_TABLE_NAME
  {
    if |path| <= MAX_TABLE_NAME then path else path[|path| - MAX_TABLE_NAME..]
  }

  function ItemPath(path: string, i: nat): string {
    path + "[" + NatToString(i) + "]"
  }

  function FieldPath(path: string, k: string): string {
    path + "." + k
  }

  /** `node.map(r => flattenRow(r))`. */
  function FlatAll(items: seq<Value>): (rows: seq<FlatRow>)
    ensures |rows| == |items|
  {
    seq(|items|, j requires 0 <= j < |items| => Flat(items[j]))
  }

  /** The table an array node contributes by itself, if any. */
  function TableAt(node: Value, path: string): seq<Table> {
    if node.Arr? && IsRowSet(node.items) then [Table(Last64(path), FlatAll(node.items), |node.items|)] else []
  }

  /** The tables `collectTablesDeep(node, path)` appends, in order: falsy
      values and other scalars add nothing; an array adds its own table and
      then those of its elements; an object those of its members. */
  function Collected(node: Value, path: string): seq<Table>
    decreases node, 1, 0
  {
    if !Truthy(node) then []
    else if node.Arr? then TableAt(node, path) + CollectedItems(node, 0, path)
    else if node.Obj? then CollectedFields(node, 0, path)
    else []
  }

  function CollectedItems(node: Value, i: nat, path: string): seq<Table>
    requires node.Arr? && i <= |node.items|
    decreases node, 0, |node.items| - i
  {
    if i == |node.items| then []
    else Collected(node.items[i], ItemPath(path, i)) + CollectedItems(node, i + 1, path)
  }

  function CollectedFields(node: Value, i: nat, path: string): seq<Table>
    requires node.Obj? && i <= |node.fields|
    decreases node, 0, |node.fields| - i
  {
    if i == |node.fields| then []
    else Collected(node.fields[i].1, FieldPath(path, node.fields[i].0)) + CollectedFields(node, i + 1, path)
  }

  /** The shared `out` array the walk pushes onto. */
  class TableCollector {
    var tables: seq<Table>

    constructor ()
      ensures tables == []
    {
      tables := [];
    }

    /** `out.push(t)`. */
    method Push(t: Table)
      modifies this
      ensures tables == old(tables) + [t]
    {
      tables := tables + [t];
    }
  }

  /** `node.map(r => flattenRow(r))`, each row written into a fresh record. */
  method FlattenItems(items: seq<Value>) returns (rows: seq<FlatRow>)
    ensures rows == FlatAll(items)
  {
    rows := [];
    var j := 0;
    while j < |items|
      invariant 0 <= j <= |items|
      invariant rows == FlatAll(items)[..j]
    {
      var row := FlattenValue(items[j]);
      rows := rows + [row];
      j := j + 1;
    }
  }

  /** `collectTablesDeep(node, path, out)`: a pre-order walk that pushes one
      table per row-set array it meets. */
  method CollectTablesDeep(node: Value, path: string, out: TableCollector)
    modifies out
    ensures out.tables == old(out.tables) + Collected(node, path)
    decreases node, 1
  {
    if !Truthy(node) {
      return;
    }
    if node.Arr? {
      if IsRowSet(node.items) {
        var rows := FlattenItems(node.items);
        out.Push(Table(Last64(path), rows, |rows|));
        assert TableAt(node, path) == [Table(Last64(path), rows, |rows|)];
      }
      CollectItems(node, path, out);
    } else if node.Obj? {
      CollectFields(node, path, out);
    }
  }

  /** `node.forEach((v, i) => collectTablesDeep(v, `${path}[${i}]`, out))`. */
  method CollectItems(node: Value, path: string, out: TableCollector)
    requires node.Arr?
    modifies out
    ensures out.tables == old(out.tables) + CollectedItems(node, 0, path)
    decreases node, 0
  {
    var items := node.items;
    var i := 0;
    while i < |items|
      invariant 0 <= i <= |items|
      invariant out.tables + CollectedItems(node, i, path) == old(out.tables) + CollectedItems(node, 0, path)
    {
      CollectTablesDeep(items[i], ItemPath(path, i), out);
      assert CollectedItems(node, i, path) == Collected(items[i], ItemPath(path, i)) + CollectedItems(node, i + 1, path);
      i := i + 1;
    }
  }

  /** `for (const [k, v] of Object.entries(node)) collectTablesDeep(v, `${path}.${k}`, out)`. */
  method CollectFields(node: Value, path: string, out: TableCollector)
    requires node.Obj?
    modifies out
    ensures out.tables == old(out.tables) + CollectedFields(node, 0, path)
    decreases node, 0
  {
    var fields := node.fields;
    var i := 0;
    while i < |fields|
      invariant 0 <= i <= |fields|
      invariant out.tables + CollectedFields(node, i, path) == old(out.tables) + CollectedFields(node, 0, path)
    {
      var (k, v) := fields[i];
      CollectTablesDeep(v, FieldPath(path, k), out);
      assert CollectedFields(node, i, path) == Collected(v, FieldPath(path, k)) + CollectedFields(node, i + 1, path);
      i := i + 1;
    }
  }

  /* ---------- the walk is a pre-order filter ---------- */

  /** Every node of the document with its path, parents before children,
      members and elements in order. */
  function Nodes(node: Value, path: string): seq<(Value, string)>
    decreases node, 1, 0
  {
    [(node, path)] +
      (if node.Arr? then NodesItems(node, 0, path)
       else if node.Obj? then NodesFields(node, 0, path)
       else [])
  }

  function NodesItems(node: Value, i: nat, path: string): seq<(Value, string)>
    requires node.Arr? && i <= |node.items|
    decreases node, 0, |node.items| - i
  {
    if i == |node.items| then []
    else Nodes(node.items[i], ItemPath(path, i)) + NodesItems(node, i + 1, path)
  }

  function NodesFields(node: Value, i: nat, path: string): seq<(Value, string)>
    requires node.Obj? && i <= |node.fields|
    decreases node, 0, |node.fields| - i
  {
    if i == |node.fields| then []
    else Nodes(node.fields[i].1, FieldPath(path, node.fields[i].0)) + NodesFields(node, i + 1, path)
  }

  /** The tables of a list of nodes, in list order. */
  function TablesOf(ns: seq<(Value, string)>): seq<Table> {
    if ns == [] then [] else TableAt(ns[0].0, ns[0].1) + TablesOf(ns[1..])
  }

  lemma {:induction false} TablesOfAppend(a: seq<(Value, string)>, b: seq<(Value, string)>)
    ensures TablesOf(a + b) == TablesOf(a) + TablesOf(b)
  {
    if a == [] {
      assert a + b == b;
    } else {
      assert (a + b)[0] == a[0];
      assert (a + b)[1..] == a[1..] + b;
      TablesOfAppend(a[1..], b);
    }
  }

  /** The walk yields exactly one table for every row-set array of the
      document, in pre-order: each array's table before the tables found
      inside it, and siblings in member order. */
  lemma {:induction false} CollectedIsPreorder(node: Value, path: string)
    ensures Collected(node, path) == TablesOf(Nodes(node, path))
    decreases node, 1, 0
  {
    var rest :=
      if node.Arr? then NodesItems(node, 0, path)
      else if node.Obj? then NodesFields(node, 0, path)
      else [];
    assert Nodes(node, path) == [(node, path)] + rest;
    TablesOfAppend([(node, path)], rest);
    assert TablesOf([(node, path)]) == TableAt(node, path);
    if node.Arr? {
      ItemsArePreorder(node, 0, path);
    } else if node.Obj? {
      FieldsArePreorder(node, 0, path);
    }
  }

  lemma {:induction false} ItemsArePreorder(node: Value, i: nat, path: string)
    requires node.Arr? && i <= |node.items|
    ensures CollectedItems(node, i, path) == TablesOf(NodesItems(node, i, path))
    decreases node, 0, |node.items| - i
  {
    if i < |node.items| {
      CollectedIsPreorder(node.items[i], ItemPath(path, i));
      ItemsArePreorder(node, i + 1, path);
      TablesOfAppend(Nodes(node.items[i], ItemPath(path, i)), NodesItems(node, i + 1, path));
    }
  }

  lemma {:induction false} FieldsArePreorder(node: Value, i: nat, path: string)
    requires node.Obj? && i <= |node.fields|
    ensures CollectedFields(node, i, path) == TablesOf(NodesFields(node, i, path))
    decreases node, 0, |node.fields| - i
  {
    if i < |node.fields| {
      var p := FieldPath(path, node.fields[i].0);
      CollectedIsPreorder(node.fields[i].1, p);
      FieldsArePreorder(node, i + 1, path);
      TablesOfAppend(Nodes(node.fields[i].1, p), NodesFields(node, i + 1, path));
    }
  }

  /** A table has as many rows as its array has elements, each the flattened
      element, and a name of at most 64 characters ending its path. */
  predicate TableOf(t: Table, node: Value, path: string) {
    node.Arr? && IsRowSet(node.items) &&
    t.name == Last64(path) && t.size == |t.rows| == |node.items| &&
    forall j :: 0 <= j < |t.rows| ==> t.rows[j] == Flat(node.items[j])
  }

  /** Every table collected from a list of nodes is the table of one of them. */
  lemma {:induction false} TablesOfShape(ns: seq<(Value, string)>)
    ensures forall t :: t in TablesOf(ns) ==> exists k :: 0 <= k < |ns| && TableOf(t, ns[k].0, ns[k].1)
  {
    if ns != [] {
      TablesOfShape(ns[1..]);
      forall t | t in TablesOf(ns)
        ensures exists k :: 0 <= k < |ns| && TableOf(t, ns[k].0, ns[k].1)
      {
        if t in TableAt(ns[0].0, ns[0].1) {
          assert TableOf(t, ns[0].0, ns[0].1);
        } else {
          assert t in TablesOf(ns[1..]);
          var k :| 0 <= k < |ns[1..]| && TableOf(t, ns[1..][k].0, ns[1..][k].1);
          assert ns[1..][k] == ns[k + 1];
        }
      }
    }
  }

  /** Every collected table has the shape of the array it was found at, and its
      rows are flat records. */
  lemma CollectedShape(node: Value, path: string)
    ensures forall t :: t in Collected(node, path) ==>
      |t.name| <= MAX_TABLE_NAME && t.size == |t.rows| &&
      (exists k :: 0 <= k < |Nodes(node, path)| && TableOf(t, Nodes(node, path)[k].0, Nodes(node, path)[k].1)) &&
      forall j :: 0 <= j < |t.rows| ==> DistinctKeys(t.rows[j]) && ScalarValues(t.rows[j])
  {
    CollectedIsPreorder(node, path);
    TablesOfShape(Nodes(node, path));
    forall t | t in Collected(node, path)
      ensures forall j :: 0 <= j < |t.rows| ==> DistinctKeys(t.rows[j]) && ScalarValues(t.rows[j])
    {
      var k :| 0 <= k < |Nodes(node, path)| && TableOf(t, Nodes(node, path)[k].0, Nodes(node, path)[k].1);
      forall j | 0 <= j < |t.rows| ensures DistinctKeys(t.rows[j]) && ScalarValues(t.rows[j]) {
        FlatIsFlat(Nodes(node, path)[k].0.items[j]);
      }
    }
  }

  /** A leading null makes a table: its first row is the empty record. */
  lemma LeadingNullMakesTable(rest: seq<Value>)
    ensures Collected(Arr([Null] + rest), ROOT)[0] == Table(ROOT, [[]] + FlatAll(rest), 1 + |rest|)
  {
    var items := [Null] + rest;
    assert FlatAll(items) == [[]] + FlatAll(rest) by {
      forall j | 0 <= j < |items| ensures FlatAll(items)[j] == ([[]] + FlatAll(rest))[j] {
        if j > 0 {
          assert items[j] == rest[j - 1];
        }
      }
    }
  }

  /** An array of arrays is not a table itself; only what is inside may be. */
  lemma ArrayOfArraysIsNoTable(inner: seq<Value>, rest: seq<Value>, path: string)
    ensures TableAt(Arr([Arr(inner)] + rest), path) == []
  {
  }

  /* ---------- ranking ---------- */

  /** The ranking score: the row count plus name bonuses, the name lower-cased.
      The bonuses add at most 17000, and the "trial"/"tb" bonus alone
      outweighs the other two together. */
  function Score(t: Table): (r: int)
    ensures t.size <= r <= t.size + 17000
    ensures r >= t.size + 10000 <==> Contains(Lower(t.name), "trial") || Contains(Lower(t.name), "tb")
  {
    var p := Lower(t.name);
    t.size
      + (if Contains(p, "trial") || Contains(p, "tb") then 10000 else 0)
      + (if Contains(p, ".values") then 5000 else 0)
      + (if Contains(p, "rows") || Contains(p, "records") || Contains(p, "items") then 2000 else 0)
  }

  /** A table whose name mentions a trial balance outranks every table whose
      name carries neither "trial" nor "tb", unless the latter has at least
      3000 more rows. */
  lemma TrialBalanceOutranks(a: Table, b: Table)
    requires Contains(Lower(a.name), "trial")
    requires !Contains(Lower(b.name), "trial") && !Contains(Lower(b.name), "tb")
    requires b.size < a.size + 3000
    ensures Score(a) > Score(b)
  {
  }

  /** Inserts `x`, which came before every element of `s`, after the elements
      whose key is strictly higher: ties keep `x` first. */
  function Insert(x: Table, s: seq<Table>, key: Table -> int): seq<Table> {
    if s == [] || key(s[0]) <= key(x) then [x] + s
    else [s[0]] + Insert(x, s[1..], key)
  }

  /** A stable sort by descending key: insertion of each table, last first. */
  function SortBy(ts: seq<Table>, key: Table -> int): seq<Table> {
    if ts == [] then [] else Insert(ts[0], SortBy(ts[1..], key), key)
  }

  /** `all.sort((a, b) => score(b) - score(a))`, which the language requires to
      be stable. */
  function SortByScore(ts: seq<Table>): seq<Table> {
    SortBy(ts, Score)
  }

  predicate NonIncreasing(s: seq<Table>, key: Table -> int) {
    forall i, j :: 0 <= i < j < |s| ==> key(s[i]) >= key(s[j])
  }

  /** The tables of `s` whose key is `k`, in order. */
  function WithKey(s: seq<Table>, key: Table -> int, k: int): seq<Table> {
    if s == [] then []
    else (if key(s[0]) == k then [s[0]] else []) + WithKey(s[1..], key, k)
  }

  lemma {:induction false} InsertPermutes(x: Table, s: seq<Table>, key: Table -> int)
    ensures multiset(Insert(x, s, key)) == multiset(s) + multiset{x}
  {
    if s != [] && key(s[0]) > key(x) {
      InsertPermutes(x, s[1..], key);
      assert s == [s[0]] + s[1..];
    }
  }

  /** Everything `Insert` returns is bounded by a bound of `x` and of `s`. */
  lemma {:induction false} InsertBounded(x: Table, s: seq<Table>, key: Table -> int, b: int)
    requires key(x) <= b
    requires forall j :: 0 <= j < |s| ==> key(s[j]) <= b
    ensures forall j :: 0 <= j < |Insert(x, s, key)| ==> key(Insert(x, s, key)[j]) <= b
  {
    if s != [] && key(s[0]) > key(x) {
      InsertBounded(x, s[1..], key, b);
      var q := Insert(x, s[1..], key);
      assert Insert(x, s, key) == [s[0]] + q;
      forall j | 0 < j < |q| + 1 ensures key(([s[0]] + q)[j]) <= b {
        assert ([s[0]] + q)[j] == q[j - 1];
      }
    } else {
      forall j | 0 < j < |s| + 1 ensures key(([x] + s)[j]) <= b {
        assert ([x] + s)[j] == s[j - 1];
      }
    }
  }

  lemma {:induction false} InsertOrdered(x: Table, s: seq<Table>, key: Table -> int)
    requires NonIncreasing(s, key)
    ensures NonIncreasing(Insert(x, s, key), key)
  {
    if s == [] || key(s[0]) <= key(x) {
      var r := [x] + s;
      assert Insert(x, s, key) == r;
      forall i, j | 0 <= i < j < |r| ensures key(r[i]) >= key(r[j]) {
        if i == 0 {
          assert key(s[0]) >= key(s[j - 1]);
        } else {
          assert r[i] == s[i - 1] && r[j] == s[j - 1];
        }
      }
    } else {
      var t := s[1..];
      assert NonIncreasing(t, key) by {
        forall i, j | 0 <= i < j < |t| ensures key(t[i]) >= key(t[j]) {
          assert t[i] == s[i + 1] && t[j] == s[j + 1];
        }
      }
      forall j | 0 <= j < |t| ensures key(t[j]) <= key(s[0]) {
        assert t[j] == s[j + 1];
      }
      InsertOrdered(x, t, key);
      InsertBounded(x, t, key, key(s[0]));
      var q := Insert(x, t, key);
      var r := [s[0]] + q;
      assert Insert(x, s, key) == r;
      forall i, j | 0 <= i < j < |r| ensures key(r[i]) >= key(r[j]) {
        if i == 0 {
          assert r[j] == q[j - 1];
        } else {
          assert r[i] == q[i - 1] && r[j] == q[j - 1];
        }
      }
    }
  }

  lemma {:induction false} InsertKeepsTies(x: Table, s: seq<Table>, key: Table -> int, k: int)
    ensures WithKey(Insert(x, s, key), key, k) == (if key(x) == k then [x] else []) + WithKey(s, key, k)
  {
    var xs: seq<Table> := if key(x) == k then [x] else [];
    if s != [] && key(s[0]) > key(x) {
      var t := s[1..];
      var hs: seq<Table> := if key(s[0]) == k then [s[0]] else [];
      InsertKeepsTies(x, t, key, k);
      var q := Insert(x, t, key);
      assert Insert(x, s, key) == [s[0]] + q;
      assert ([s[0]] + q)[1..] == q;
      assert WithKey(Insert(x, s, key), key, k) == hs + WithKey(q, key, k);
      assert WithKey(s, key, k) == hs + WithKey(t, key, k);
      assert hs == [] || xs == [];
    } else {
      assert Insert(x, s, key) == [x] + s;
      assert ([x] + s)[1..] == s;
      assert WithKey([x] + s, key, k) == xs + WithKey(s, key, k);
    }
  }

  /** The sort keeps every table exactly once. */
  lemma {:induction false} SortPermutes(ts: seq<Table>, key: Table -> int)
    ensures multiset(SortBy(ts, key)) == multiset(ts)
    ensures |SortBy(ts, key)| == |ts|
  {
    if ts != [] {
      SortPermutes(ts[1..], key);
      InsertPermutes(ts[0], SortBy(ts[1..], key), key);
      assert ts == [ts[0]] + ts[1..];
    }
  }

  /** The sort puts higher keys first. */
  lemma {:induction false} SortOrdered(ts: seq<Table>, key: Table -> int)
    ensures NonIncreasing(SortBy(ts, key), key)
  {
    if ts != [] {
      SortOrdered(ts[1..], key);
      InsertOrdered(ts[0], SortBy(ts[1..], key), key);
    }
  }

  /** The sort is stable: tables of equal key stay in their original order. */
  lemma {:induction false} SortStable(ts: seq<Table>, key: Table -> int, k: int)
    ensures WithKey(SortBy(ts, key), key, k) == WithKey(ts, key, k)
  {
    if ts != [] {
      SortStable(ts[1..], key, k);
      InsertKeepsTies(ts[0], SortBy(ts[1..], key), key, k);
    }
  }

  /* ---------- sheet names ---------- */

  /** The characters a worksheet name may not contain, besides the '.' the
      name is cut at. */
  predicate IsForbiddenSheetChar(c: char) {
    c == ':' || c == '\\' || c == '/' || c == '?' || c == '*' || c == '[' || c == ']'
  }

  const MAX_SHEET_NAME: nat := 31

  /** What every produced sheet name satisfies. */
  predicate IsLegalSheetName(name: string) {
    0 < |name| <= MAX_SHEET_NAME && !IsJsSpace(name[0]) &&
    forall j :: 0 <= j < |name| ==> name[j] != '.' && !IsForbiddenSheetChar(name[j])
  }

  /** No '.' and no forbidden character. */
  predicate Clean(s: string) {
    forall j :: 0 <= j < |s| ==> s[j] != '.' && !IsForbiddenSheetChar(s[j])
  }

  /** `name.split('.').slice(-1)[0]`: what follows the last '.'. */
  function AfterLastDot(s: string): (r: string)
    ensures |r| <= |s|
    ensures forall j :: 0 <= j < |r| ==> r[j] != '.'
    decreases |s|
  {
    if s == [] then []
    else if s[|s| - 1] == '.' then []
    else AfterLastDot(s[..|s| - 1]) + [s[|s| - 1]]
  }

  /** The last segment is the whole tail after the last '.', or the whole
      name when it has none. */
  lemma {:induction false} AfterLastDotIsLastSegment(s: string)
    ensures var r := AfterLastDot(s);
      s[|s| - |r|..] == r && (|r| < |s| ==> s[|s| - |r| - 1] == '.')
    decreases |s|
  {
    if s != [] && s[|s| - 1] != '.' {
      var n := |s|;
      var t := s[..n - 1];
      AfterLastDotIsLastSegment(t);
      var r' := AfterLastDot(t);
      var m := |r'|;
      assert AfterLastDot(s) == r' + [s[n - 1]];
      assert s[n - m - 1..n - 1] == t[n - 1 - m..];
      assert s[n - m - 1..] == s[n - m - 1..n - 1] + [s[n - 1]];
      if m < |t| {
        assert s[n - m - 2] == t[n - 1 - m - 1];
      }
    }
  }

  /** `Sheet${i + 1}`. */
  function DefaultSheetName(i: nat): (r: string)
    ensures 0 < |r| && !IsJsSpace(r[0]) && Clean(r)
  {
    "Sheet" + NatToString(i + 1)
  }

  /** Where the lazy group `\[.*?\]` opened before `p` closes: at the first
      ']' from `p` on, provided no line terminator comes first. */
  function GroupEnd(s: string, p: nat): (r: Option<nat>)
    requires p <= |s|
    ensures r.Some? ==>
      p <= r.value < |s| && s[r.value] == ']' &&
      forall m :: p <= m < r.value ==> s[m] != ']' && !IsLineTerminator(s[m])
    ensures r.None? ==>
      forall m :: p <= m < |s| && s[m] == ']' ==> exists q :: p <= q < m && IsLineTerminator(s[q])
    decreases |s| - p
  {
    if p == |s| then None
    else if s[p] == ']' then Some(p)
    else if IsLineTerminator(s[p]) then None
    else GroupEnd(s, p + 1)
  }

  /** `.replace(/\[.*?\]/g, '')`: removes, left to right, each '[' with
      everything up to the nearest ']' on the same line. */
  function StripBracketGroups(s: string): (r: string)
    ensures |r| <= |s|
    ensures forall j :: 0 <= j < |r| ==> r[j] in s
    decreases |s|
  {
    if s == [] then []
    else if s[0] == '[' && GroupEnd(s, 1).Some? then StripBracketGroups(s[GroupEnd(s, 1).value + 1..])
    else [s[0]] + StripBracketGroups(s[1..])
  }

  /** The lazy group closes at the first ']' when no line terminator comes
      before it. */
  lemma {:induction false} GroupEndAt(s: string, p: nat, q: nat)
    requires p <= q < |s| && s[q] == ']'
    requires forall m :: p <= m < q ==> s[m] != ']' && !IsLineTerminator(s[m])
    ensures GroupEnd(s, p) == Some(q)
    decreases q - p
  {
    if p < q {
      GroupEndAt(s, p + 1, q);
    }
  }

  /** A bracket group on one line, such as the index in `data[3]`, is removed
      and the text around it kept. */
  lemma {:induction false} BracketGroupRemoved(a: string, k: string, b: string)
    requires forall j :: 0 <= j < |a| ==> a[j] != '['
    requires forall j :: 0 <= j < |k| ==> k[j] != ']' && !IsLineTerminator(k[j])
    ensures StripBracketGroups(a + "[" + k + "]" + b) == a + StripBracketGroups(b)
    decreases |a|
  {
    var g := "[" + k + "]";
    if a == [] {
      assert a + "[" + k + "]" + b == "[" + k + "]" + b;
      LeadingGroupRemoved(k, b);
    } else {
      var t := a[1..] + g + b;
      assert a + g + b == [a[0]] + t;
      assert t == a[1..] + "[" + k + "]" + b;
      BracketGroupRemoved(a[1..], k, b);
      StripKeepsPlainHead(a[0], t);
      assert a + "[" + k + "]" + b == a + g + b;
      calc {
        StripBracketGroups(a + g + b);
        [a[0]] + StripBracketGroups(t);
        [a[0]] + (a[1..] + StripBracketGroups(b));
        { assert a == [a[0]] + a[1..]; }
        a + StripBracketGroups(b);
      }
    }
  }

  lemma StripKeepsPlainHead(c: char, t: string)
    requires c != '['
    ensures StripBracketGroups([c] + t) == [c] + StripBracketGroups(t)
  {
    assert ([c] + t)[1..] == t;
  }

  lemma LeadingGroupRemoved(k: string, b: string)
    requires forall j :: 0 <= j < |k| ==> k[j] != ']' && !IsLineTerminator(k[j])
    ensures StripBracketGroups("[" + k + "]" + b) == StripBracketGroups(b)
  {
    var s := "[" + k + "]" + b;
    forall m | 1 <= m < |k| + 1 ensures s[m] != ']' && !IsLineTerminator(s[m]) {
      assert s[m] == k[m - 1];
    }
    assert s[|k| + 1] == ']';
    GroupEndAt(s, 1, |k| + 1);
    assert s[|k| + 2..] == b;
  }

  /** `.replace(/[:\\/?*\[\]]/g, ' ')`. */
  function ReplaceForbidden(s: string): (r: string)
    ensures |r| == |s|
    ensures forall j :: 0 <= j < |r| ==> !IsForbiddenSheetChar(r[j])
    ensures forall j :: 0 <= j < |s| ==>
      (IsForbiddenSheetChar(s[j]) ==> r[j] == ' ') && (!IsForbiddenSheetChar(s[j]) ==> r[j] == s[j])
  {
    seq(|s|, j requires 0 <= j < |s| => if IsForbiddenSheetChar(s[j]) then ' ' else s[j])
  }

  /** `.replace(/\s+/g, ' ')`: each run of whitespace becomes one space. */
  function CollapseWhitespace(s: string): (r: string)
    ensures |r| <= |s|
    decreases |s|
  {
    if s == [] then []
    else if IsJsSpace(s[0]) then [' '] + CollapseWhitespace(DropSpaces(s[1..]))
    else [s[0]] + CollapseWhitespace(s[1..])
  }

  /** Collapsing introduces no character but the space. */
  lemma {:induction false} CollapseKeepsChars(s: string)
    ensures forall j :: 0 <= j < |CollapseWhitespace(s)| ==> CollapseWhitespace(s)[j] in s || CollapseWhitespace(s)[j] == ' '
    decreases |s|
  {
    if s != [] {
      var r := CollapseWhitespace(s);
      if IsJsSpace(s[0]) {
        var rest := DropSpaces(s[1..]);
        CollapseKeepsChars(rest);
        assert r == [' '] + CollapseWhitespace(rest);
        forall j | 0 <= j < |r| ensures r[j] in s || r[j] == ' ' {
          if j > 0 && r[j] != ' ' {
            assert r[j] in rest;
            var m :| 0 <= m < |rest| && rest[m] == r[j];
            assert rest[m] == s[1..][|s[1..]| - |rest| + m];
          }
        }
      } else {
        CollapseKeepsChars(s[1..]);
        assert r == [s[0]] + CollapseWhitespace(s[1..]);
        forall j | 0 <= j < |r| ensures r[j] in s || r[j] == ' ' {
          if j > 0 && r[j] != ' ' {
            assert r[j] in s[1..];
          }
        }
      }
    }
  }

  /** The collapsed string starts with whitespace exactly when the input does. */
  lemma CollapseHead(s: string)
    requires s != []
    ensures CollapseWhitespace(s) != [] && (IsJsSpace(s[0]) <==> IsJsSpace(CollapseWhitespace(s)[0]))
  {
  }

  /** After collapsing, every whitespace character is a plain space and no
      two are adjacent. */
  predicate SingleSpaced(r: string) {
    forall j :: 0 <= j < |r| && IsJsSpace(r[j]) ==> r[j] == ' ' && (j + 1 < |r| ==> !IsJsSpace(r[j + 1]))
  }

  lemma {:induction false} CollapseLeavesSingleSpaces(s: string)
    ensures SingleSpaced(CollapseWhitespace(s))
    decreases |s|
  {
    if s != [] {
      var r := CollapseWhitespace(s);
      var space := IsJsSpace(s[0]);
      var t := if space then DropSpaces(s[1..]) else s[1..];
      var tail := CollapseWhitespace(t);
      var c := if space then ' ' else s[0];
      CollapseLeavesSingleSpaces(t);
      assert SingleSpaced(tail);
      assert r == [c] + tail;
      assert space ==> t == [] || !IsJsSpace(t[0]);
      if space && t != [] {
        CollapseHead(t);
      }
      forall j | 0 <= j < |r| && IsJsSpace(r[j])
        ensures r[j] == ' ' && (j + 1 < |r| ==> !IsJsSpace(r[j + 1]))
      {
        if j > 0 {
          assert r[j] == tail[j - 1];
          assert IsJsSpace(tail[j - 1]);
          assert tail[j - 1] == ' ';
          if j + 1 < |r| {
            assert r[j + 1] == tail[j];
            assert !IsJsSpace(tail[j]);
          }
        } else {
          assert r[0] == c;
          assert space;
          if j + 1 < |r| {
            assert r[1] == tail[0];
            assert !IsJsSpace(tail[0]);
          }
        }
      }
    }
  }

  /** Reference reading of `\s+` to ' ': first every whitespace character
      becomes a space, ... */
  function Blanked(s: string): (r: string)
    ensures |r| == |s|
    decreases |s|
  {
    if s == [] then [] else [if IsJsSpace(s[0]) then ' ' else s[0]] + Blanked(s[1..])
  }

  /** ... then every space that follows a space is dropped. */
  function SqueezeBlanks(t: string): (r: string)
    ensures |r| <= |t|
    decreases |t|
  {
    if |t| < 2 then t
    else if t[0] == ' ' && t[1] == ' ' then SqueezeBlanks(t[1..])
    else [t[0]] + SqueezeBlanks(t[1..])
  }

  /** A space followed by a whitespace run squeezes like the space alone. */
  lemma {:induction false} SqueezeSkipsRun(u: string)
    ensures SqueezeBlanks([' '] + Blanked(u)) == SqueezeBlanks([' '] + Blanked(DropSpaces(u)))
    decreases |u|
  {
    if u != [] && IsJsSpace(u[0]) {
      assert Blanked(u) == [' '] + Blanked(u[1..]);
      assert ([' '] + Blanked(u))[1..] == [' '] + Blanked(u[1..]);
      SqueezeSkipsRun(u[1..]);
    }
  }

  /** Collapsing agrees with the reference: each maximal whitespace run
      becomes exactly one space and every other character stays, in order. */
  lemma {:induction false} CollapseIsSqueeze(s: string)
    ensures CollapseWhitespace(s) == SqueezeBlanks(Blanked(s))
    decreases |s|
  {
    if s != [] {
      var b := Blanked(s[1..]);
      if IsJsSpace(s[0]) {
        var d := DropSpaces(s[1..]);
        assert Blanked(s) == [' '] + b;
        SqueezeSkipsRun(s[1..]);
        CollapseIsSqueeze(d);
        if d != [] {
          assert Blanked(d) == [d[0]] + Blanked(d[1..]);
          assert ([' '] + Blanked(d))[1..] == Blanked(d);
        }
      } else {
        assert Blanked(s) == [s[0]] + b;
        CollapseIsSqueeze(s[1..]);
        assert ([s[0]] + b)[1..] == b;
      }
    }
  }

  /** A string that is already single-spaced is left as it is. */
  lemma {:induction false} CollapseKeepsSingleSpaced(s: string)
    requires SingleSpaced(s)
    ensures CollapseWhitespace(s) == s
    decreases |s|
  {
    if s != [] {
      assert SingleSpaced(s[1..]) by {
        forall j | 0 <= j < |s[1..]| && IsJsSpace(s[1..][j])
          ensures s[1..][j] == ' ' && (j + 1 < |s[1..]| ==> !IsJsSpace(s[1..][j + 1]))
        {
          assert s[1..][j] == s[j + 1];
        }
      }
      CollapseKeepsSingleSpaced(s[1..]);
      if IsJsSpace(s[0]) {
        assert |s| > 1 ==> !IsJsSpace(s[1]);
        assert DropSpaces(s[1..]) == s[1..];
      }
      assert s == [s[0]] + s[1..];
    }
  }

  /** Collapsing twice is collapsing once. */
  lemma CollapseIdempotent(s: string)
    ensures CollapseWhitespace(CollapseWhitespace(s)) == CollapseWhitespace(s)
  {
    CollapseLeavesSingleSpaces(s);
    CollapseKeepsSingleSpaced(CollapseWhitespace(s));
  }

  /** `.trim()`. */
  function Trim(s: string): (r: string)
    ensures r == [] || (!IsJsSpace(r[0]) && !IsJsSpace(r[|r| - 1]))
  {
    var t := DropTrailingSpaces(s);
    var r := DropSpaces(t);
    if r != [] then
      assert r[|r| - 1] == t[|t| - 1];
      r
    else r
  }

  /** Trimming only removes characters from the ends. */
  lemma TrimKeepsChars(s: string)
    ensures forall j :: 0 <= j < |Trim(s)| ==> Trim(s)[j] in s
  {
    var t := DropTrailingSpaces(s);
    var r := DropSpaces(t);
    var a := |t| - |r|;
    forall j | 0 <= j < |r| ensures r[j] in s {
      assert r[j] == t[a + j] == s[a + j];
    }
  }

  /** The sheet name given to the `i`-th ranked table named `name`. */
  function SheetName(name: string, i: nat): string {
    var segment := AfterLastDot(name);
    var n1 := if segment == "" then DefaultSheetName(i) else segment;
    var n2 := CleanSegment(n1);
    var n3 := if n2 == "" then DefaultSheetName(i) else n2;
    if |n3| <= MAX_SHEET_NAME then n3 else n3[..MAX_SHEET_NAME]
  }

  predicate NoDot(s: string) {
    forall j :: 0 <= j < |s| ==> s[j] != '.'
  }

  lemma StripKeepsNoDot(s: string)
    requires NoDot(s)
    ensures NoDot(StripBracketGroups(s))
  {
    var r := StripBracketGroups(s);
    forall j | 0 <= j < |r| ensures r[j] != '.' {
      assert r[j] in s;
    }
  }

  lemma CollapseKeepsClean(s: string)
    requires Clean(s)
    ensures Clean(CollapseWhitespace(s))
  {
    var r := CollapseWhitespace(s);
    CollapseKeepsChars(s);
    forall j | 0 <= j < |r| ensures r[j] != '.' && !IsForbiddenSheetChar(r[j]) {
      if r[j] != ' ' {
        assert r[j] in s;
      }
    }
  }

  lemma TrimKeepsClean(s: string)
    requires Clean(s)
    ensures Clean(Trim(s))
  {
    var r := Trim(s);
    TrimKeepsChars(s);
    forall j | 0 <= j < |r| ensures r[j] != '.' && !IsForbiddenSheetChar(r[j]) {
      assert r[j] in s;
    }
  }

  /** The cleaned-up segment, before the second fallback and the cut to 31. */
  function CleanSegment(n1: string): string {
    Trim(CollapseWhitespace(ReplaceForbidden(StripBracketGroups(n1))))
  }

  lemma CleanSegmentIsClean(n1: string)
    requires NoDot(n1)
    ensures Clean(CleanSegment(n1))
  {
    StripKeepsNoDot(n1);
    var b := ReplaceForbidden(StripBracketGroups(n1));
    assert Clean(b);
    CollapseKeepsClean(b);
    TrimKeepsClean(CollapseWhitespace(b));
  }

  /** Every sheet name is non-empty, at most 31 characters, free of '.' and of
      the characters worksheet names forbid, and does not start with a space. */
  lemma SheetNameLegal(name: string, i: nat)
    ensures IsLegalSheetName(SheetName(name, i))
  {
    var segment := AfterLastDot(name);
    var n1 := if segment == "" then DefaultSheetName(i) else segment;
    assert NoDot(n1);
    CleanSegmentIsClean(n1);
    var n2 := CleanSegment(n1);
    var n3 := if n2 == "" then DefaultSheetName(i) else n2;
    CutKeepsLegal(n3);
  }

  /** Cutting a clean name that does not start with a space to 31 characters
      leaves a legal sheet name. */
  lemma CutKeepsLegal(n3: string)
    requires n3 != [] && !IsJsSpace(n3[0]) && Clean(n3)
    ensures IsLegalSheetName(if |n3| <= MAX_SHEET_NAME then n3 else n3[..MAX_SHEET_NAME])
  {
  }

  /** A last path segment that is already a legal name, whose only
      whitespace is single plain spaces between other characters, is used
      as it is. */
  lemma PlainSegmentKept(prefix: string, segment: string, i: nat)
    requires 0 < |segment| <= MAX_SHEET_NAME && Clean(segment) && SingleSpaced(segment)
    requires !IsJsSpace(segment[0]) && !IsJsSpace(segment[|segment| - 1])
    ensures SheetName(prefix + "." + segment, i) == segment
  {
    AfterLastDotOfSuffix(prefix + ".", segment);
    CleanSegmentFixes(segment);
  }

  lemma CleanSegmentFixes(segment: string)
    requires Clean(segment) && SingleSpaced(segment)
    requires segment == [] || (!IsJsSpace(segment[0]) && !IsJsSpace(segment[|segment| - 1]))
    ensures CleanSegment(segment) == segment
  {
    StripKeepsBracketFree(segment);
    ReplaceKeepsClean(segment);
    CollapseKeepsSingleSpaced(segment);
    TrimKeepsUntrimmed(segment);
  }

  lemma TrimKeepsUntrimmed(s: string)
    requires s == [] || (!IsJsSpace(s[0]) && !IsJsSpace(s[|s| - 1]))
    ensures Trim(s) == s
  {
    assert DropTrailingSpaces(s) == s;
    assert DropSpaces(s) == s;
  }

  /** A legal name with two spaces in a row is not kept as it is:
      "x.a  b" gives "a b". */
  lemma DoubleSpaceCollapsed(prefix: string, x: char, y: char, i: nat)
    requires !IsJsSpace(x) && !IsJsSpace(y) && Clean([x, y])
    ensures IsLegalSheetName([x, ' ', ' ', y])
    ensures SheetName(prefix + "." + [x, ' ', ' ', y], i) == [x, ' ', y]
  {
    var s := [x, ' ', ' ', y];
    assert Clean(s) by {
      forall j | 0 <= j < 4 ensures s[j] != '.' && !IsForbiddenSheetChar(s[j]) {
        if j == 0 { assert s[j] == [x, y][0]; }
        if j == 3 { assert s[j] == [x, y][1]; }
      }
    }
    AfterLastDotOfSuffix(prefix + ".", s);
    StripKeepsBracketFree(s);
    ReplaceKeepsClean(s);
    CollapseDoubleSpace(x, y);
    TrimKeepsUntrimmed([x, ' ', y]);
  }

  lemma CollapseDoubleSpace(x: char, y: char)
    requires !IsJsSpace(x) && !IsJsSpace(y)
    ensures CollapseWhitespace([x, ' ', ' ', y]) == [x, ' ', y]
  {
    var s := [x, ' ', ' ', y];
    assert s[1..] == [' ', ' ', y];
    assert [' ', ' ', y][1..] == [' ', y];
    assert [' ', y][1..] == [y];
    assert DropSpaces([' ', y]) == [y];
    assert CollapseWhitespace([y]) == [y];
    assert CollapseWhitespace(s[1..]) == [' '] + CollapseWhitespace([y]);
  }

  lemma ReplaceKeepsClean(s: string)
    requires Clean(s)
    ensures ReplaceForbidden(s) == s
  {
  }

  lemma {:induction false} AfterLastDotOfSuffix(p: string, segment: string)
    requires |p| > 0 && p[|p| - 1] == '.'
    requires forall j :: 0 <= j < |segment| ==> segment[j] != '.'
    ensures AfterLastDot(p + segment) == segment
    decreases |segment|
  {
    if segment == [] {
      assert p + segment == p;
    } else {
      var s := p + segment;
      assert s[..|s| - 1] == p + segment[..|segment| - 1];
      AfterLastDotOfSuffix(p, segment[..|segment| - 1]);
      assert segment[..|segment| - 1] + [segment[|segment| - 1]] == segment;
    }
  }

  lemma {:induction false} StripKeepsBracketFree(s: string)
    requires forall j :: 0 <= j < |s| ==> s[j] != '['
    ensures StripBracketGroups(s) == s
    decreases |s|
  {
    if s != [] {
      StripKeepsBracketFree(s[1..]);
      assert s == [s[0]] + s[1..];
    }
  }

  /* ---------- extractTablesFromZohoDeep ---------- */

  /** The ranked tables, each renamed for its place in the ranking. */
  function Extracted(doc: Value): seq<Table> {
    Renamed(SortByScore(Collected(doc, ROOT)))
  }

  /** `all.map((t, i) => ({ ...t, name: ... }))`. */
  function Renamed(ranked: seq<Table>): (r: seq<Table>)
    ensures |r| == |ranked|
  {
    seq(|ranked|, i requires 0 <= i < |ranked| => ranked[i].(name := SheetName(ranked[i].name, i)))
  }

  /** `extractTablesFromZohoDeep(json)`: collects the document's tables, ranks
      them by score (stably), and gives each a legal sheet name. */
  method ExtractTablesFromZohoDeep(doc: Value) returns (tables: seq<Table>)
    ensures tables == Extracted(doc)
    ensures |tables| == |Collected(doc, ROOT)|
    ensures forall i :: 0 <= i < |tables| ==> IsLegalSheetName(tables[i].name)
  {
    var all := new TableCollector();
    CollectTablesDeep(doc, ROOT, all);
    assert all.tables == Collected(doc, ROOT);
    var ranked := SortByScore(all.tables);
    SortPermutes(all.tables, Score);
    tables := Renamed(ranked);
    forall i | 0 <= i < |tables| ensures IsLegalSheetName(tables[i].name) {
      SheetNameLegal(ranked[i].name, i);
    }
  }

  /** The extracted tables are the collected ones, each exactly once, ranked
      by non-increasing score with ties in traversal order; only the names
      change. */
  lemma ExtractedIsRanking(doc: Value)
    ensures var ranked := SortByScore(Collected(doc, ROOT));
      |Extracted(doc)| == |ranked| &&
      multiset(ranked) == multiset(Collected(doc, ROOT)) &&
      NonIncreasing(ranked, Score) &&
      (forall k :: WithKey(ranked, Score, k) == WithKey(Collected(doc, ROOT), Score, k)) &&
      forall i :: 0 <= i < |ranked| ==>
        Extracted(doc)[i].rows == ranked[i].rows && Extracted(doc)[i].size == ranked[i].size
  {
    var all := Collected(doc, ROOT);
    SortPermutes(all, Score);
    SortOrdered(all, Score);
    forall k ensures WithKey(SortBy(all, Score), Score, k) == WithKey(all, Score, k) {
      SortStable(all, Score, k);
    }
  }
}
