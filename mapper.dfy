/** The four-column mapper: `pickByKeys` looks a canonical field up in a flat
    record through a list of aliases, `toNumber` reads amounts, and
    `mapRowToFourCols` with the keep-filter and the header row produce the
    matrix of the "Trial Balance" sheet. */
module ColumnMapper {
  import opened Text
  import opened JsonValue
  import opened Flatten

  /* ---------- alias lists ---------- */

  const NAME_KEYS: seq<string> :=
    ["name", "account_name", "account", "accountname", "account_name_formatted", "ledger_name"]
  const CODE_KEYS: seq<string> :=
    ["account_code", "code", "accountnumber", "account_number", "account_id", "accountcode", "ledger_code"]
  const NET_DEBIT_KEYS: seq<string> :=
    ["net_debit_total", "net_debit", "debit_total", "debit", "netdebit"]
  const NET_CREDIT_KEYS: seq<string> :=
    ["net_credit_total", "net_credit", "credit_total", "credit", "netcredit"]

  /* ---------- pickByKeys ---------- */

  /** `candidates.map(c => c.toLowerCase())`. */
  function LowerAll(candidates: seq<string>): (cand: seq<string>)
    ensures |cand| == |candidates|
  {
    seq(|candidates|, i requires 0 <= i < |candidates| => Lower(candidates[i]))
  }

  /** First tier: the lower-cased key is an alias, or ends with '.' and an alias. */
  predicate TailMatch(key: string, cand: seq<string>) {
    var lk := Lower(key);
    lk in cand || exists c :: c in cand && EndsWith(lk, "." + c)
  }

  /** Second tier: the lower-cased key contains an alias. */
  predicate LooseMatch(key: string, cand: seq<string>) {
    exists c :: c in cand && Contains(Lower(key), c)
  }

  /** The value of the first entry whose key passes the first tier. */
  function FindTail(flat: FlatRow, cand: seq<string>): Option<Value> {
    if flat == [] then None
    else if TailMatch(flat[0].0, cand) then Some(flat[0].1)
    else FindTail(flat[1..], cand)
  }

  /** The value of the first entry whose key passes the second tier. */
  function FindLoose(flat: FlatRow, cand: seq<string>): Option<Value> {
    if flat == [] then None
    else if LooseMatch(flat[0].0, cand) then Some(flat[0].1)
    else FindLoose(flat[1..], cand)
  }

  /** What `pickByKeys(flat, candidates)` returns; None is `undefined`. */
  function Pick(flat: FlatRow, candidates: seq<string>): Option<Value> {
    var cand := LowerAll(candidates);
    if FindTail(flat, cand).Some? then FindTail(flat, cand) else FindLoose(flat, cand)
  }

  /** `pickByKeys`: two scans of the record in key order, each returning at
      the first hit. */
  method PickByKeys(flat: FlatRow, candidates: seq<string>) returns (r: Option<Value>)
    ensures r == Pick(flat, candidates)
  {
    var cand := LowerAll(candidates);
    var i := 0;
    while i < |flat|
      invariant 0 <= i <= |flat|
      invariant FindTail(flat, cand) == FindTail(flat[i..], cand)
    {
      var (k, v) := flat[i];
      var lk := Lower(k);
      if lk in cand {
        return Some(v);
      }
      var j := 0;
      while j < |cand|
        invariant 0 <= j <= |cand|
        invariant forall m :: 0 <= m < j ==> !EndsWith(lk, "." + cand[m])
      {
        if EndsWith(lk, "." + cand[j]) {
          return Some(v);
        }
        j := j + 1;
      }
      assert flat[i..][1..] == flat[i + 1..];
      i := i + 1;
    }
    i := 0;
    while i < |flat|
      invariant 0 <= i <= |flat|
      invariant FindLoose(flat, cand) == FindLoose(flat[i..], cand)
    {
      var (k, v) := flat[i];
      var lk := Lower(k);
      var j := 0;
      while j < |cand|
        invariant 0 <= j <= |cand|
        invariant forall m :: 0 <= m < j ==> !Contains(lk, cand[m])
      {
        if Contains(lk, cand[j]) {
          return Some(v);
        }
        j := j + 1;
      }
      assert flat[i..][1..] == flat[i + 1..];
      i := i + 1;
    }
    return None;
  }

  /** The first-tier search finds exactly the first entry that passes the first tier. */
  lemma {:induction false} FindTailFirst(flat: FlatRow, cand: seq<string>)
    ensures FindTail(flat, cand).None? <==> forall j :: 0 <= j < |flat| ==> !TailMatch(flat[j].0, cand)
    ensures FindTail(flat, cand).Some? ==>
      exists j :: 0 <= j < |flat| && TailMatch(flat[j].0, cand) && FindTail(flat, cand) == Some(flat[j].1) &&
        forall i :: 0 <= i < j ==> !TailMatch(flat[i].0, cand)
  {
    if flat != [] && !TailMatch(flat[0].0, cand) {
      FindTailFirst(flat[1..], cand);
      if FindTail(flat, cand).Some? {
        var j :| 0 <= j < |flat[1..]| && TailMatch(flat[1..][j].0, cand) && FindTail(flat[1..], cand) == Some(flat[1..][j].1) &&
          forall i :: 0 <= i < j ==> !TailMatch(flat[1..][i].0, cand);
        assert flat[j + 1] == flat[1..][j];
        assert forall i :: 1 <= i < j + 1 ==> flat[i] == flat[1..][i - 1];
      } else {
        assert forall j :: 1 <= j < |flat| ==> flat[j] == flat[1..][j - 1];
      }
    }
  }

  /** The second-tier search finds exactly the first entry that passes the second tier. */
  lemma {:induction false} FindLooseFirst(flat: FlatRow, cand: seq<string>)
    ensures FindLoose(flat, cand).None? <==> forall j :: 0 <= j < |flat| ==> !LooseMatch(flat[j].0, cand)
    ensures FindLoose(flat, cand).Some? ==>
      exists j :: 0 <= j < |flat| && LooseMatch(flat[j].0, cand) && FindLoose(flat, cand) == Some(flat[j].1) &&
        forall i :: 0 <= i < j ==> !LooseMatch(flat[i].0, cand)
  {
    if flat != [] && !LooseMatch(flat[0].0, cand) {
      FindLooseFirst(flat[1..], cand);
      if FindLoose(flat, cand).Some? {
        var j :| 0 <= j < |flat[1..]| && LooseMatch(flat[1..][j].0, cand) && FindLoose(flat[1..], cand) == Some(flat[1..][j].1) &&
          forall i :: 0 <= i < j ==> !LooseMatch(flat[1..][i].0, cand);
        assert flat[j + 1] == flat[1..][j];
        assert forall i :: 1 <= i < j + 1 ==> flat[i] == flat[1..][i - 1];
      } else {
        assert forall j :: 1 <= j < |flat| ==> flat[j] == flat[1..][j - 1];
      }
    }
  }

  /** The two tiers: the first key in record order that equals an alias or
      ends with '.' and an alias wins; only when there is none, the first key
      containing an alias; otherwise nothing. */
  lemma PickTiers(flat: FlatRow, candidates: seq<string>)
    ensures var cand := LowerAll(candidates);
      ((exists j :: 0 <= j < |flat| && TailMatch(flat[j].0, cand)) ==>
        exists j :: 0 <= j < |flat| && TailMatch(flat[j].0, cand) && Pick(flat, candidates) == Some(flat[j].1) &&
          forall i :: 0 <= i < j ==> !TailMatch(flat[i].0, cand)) &&
      ((forall j :: 0 <= j < |flat| ==> !TailMatch(flat[j].0, cand)) ==>
        Pick(flat, candidates) == FindLoose(flat, cand)) &&
      (Pick(flat, candidates).None? <==>
        forall j :: 0 <= j < |flat| ==> !TailMatch(flat[j].0, cand) && !LooseMatch(flat[j].0, cand))
  {
    var cand := LowerAll(candidates);
    FindTailFirst(flat, cand);
    FindLooseFirst(flat, cand);
  }

  /** The order of the aliases within a list does not matter, only which they are. */
  lemma PickIgnoresAliasOrder(flat: FlatRow, a: seq<string>, b: seq<string>)
    requires forall c :: c in LowerAll(a) <==> c in LowerAll(b)
    ensures Pick(flat, a) == Pick(flat, b)
  {
    FindTailSameAliases(flat, LowerAll(a), LowerAll(b));
    FindLooseSameAliases(flat, LowerAll(a), LowerAll(b));
  }

  lemma {:induction false} FindTailSameAliases(flat: FlatRow, a: seq<string>, b: seq<string>)
    requires forall c :: c in a <==> c in b
    ensures FindTail(flat, a) == FindTail(flat, b)
  {
    if flat != [] {
      assert TailMatch(flat[0].0, a) == TailMatch(flat[0].0, b);
      FindTailSameAliases(flat[1..], a, b);
    }
  }

  lemma {:induction false} FindLooseSameAliases(flat: FlatRow, a: seq<string>, b: seq<string>)
    requires forall c :: c in a <==> c in b
    ensures FindLoose(flat, a) == FindLoose(flat, b)
  {
    if flat != [] {
      assert LooseMatch(flat[0].0, a) == LooseMatch(flat[0].0, b);
      FindLooseSameAliases(flat[1..], a, b);
    }
  }

  /** A suffix hit earlier in the record beats an exact hit later in it: the
      two kinds of first-tier match share one scan. */
  lemma SuffixHitBeatsLaterExactHit(x: Value, y: Value)
    ensures Pick([("account.code", x), ("code", y)], CODE_KEYS) == Some(x)
  {
    AliasesAreLowerCase();
    LowerKeepsLowerCase("account.code");
    assert "code" in CODE_KEYS;
    assert EndsWith("account.code", "." + "code");
  }

  /** No ASCII capital letter in `s`. */
  predicate HasNoUpperCase(s: string) {
    forall j :: 0 <= j < |s| ==> !('A' <= s[j] <= 'Z')
  }

  lemma LowerKeepsLowerCase(s: string)
    requires HasNoUpperCase(s)
    ensures Lower(s) == s
  {
  }

  lemma ListKeepsLowerCase(cs: seq<string>)
    requires forall i :: 0 <= i < |cs| ==> HasNoUpperCase(cs[i])
    ensures LowerAll(cs) == cs
  {
    forall i | 0 <= i < |cs| ensures LowerAll(cs)[i] == cs[i] {
      LowerKeepsLowerCase(cs[i]);
    }
  }

  lemma NameKeysLowerCase()
    ensures LowerAll(NAME_KEYS) == NAME_KEYS
  {
    ListKeepsLowerCase(NAME_KEYS);
  }

  lemma CodeKeysLowerCase()
    ensures LowerAll(CODE_KEYS) == CODE_KEYS
  {
    ListKeepsLowerCase(CODE_KEYS);
  }

  lemma AmountKeysLowerCase()
    ensures LowerAll(NET_DEBIT_KEYS) == NET_DEBIT_KEYS && LowerAll(NET_CREDIT_KEYS) == NET_CREDIT_KEYS
  {
    ListKeepsLowerCase(NET_DEBIT_KEYS);
    ListKeepsLowerCase(NET_CREDIT_KEYS);
  }

  /** The alias lists are written in lower case, so lower-casing them changes nothing. */
  lemma AliasesAreLowerCase()
    ensures LowerAll(NAME_KEYS) == NAME_KEYS && LowerAll(CODE_KEYS) == CODE_KEYS
    ensures LowerAll(NET_DEBIT_KEYS) == NET_DEBIT_KEYS && LowerAll(NET_CREDIT_KEYS) == NET_CREDIT_KEYS
  {
    NameKeysLowerCase();
    CodeKeysLowerCase();
    AmountKeysLowerCase();
  }

  /** A key without a '.' matches in the first tier only by equality. */
  lemma DotFreeKeyHasNoSuffixHit(lk: string, c: string)
    requires forall j :: 0 <= j < |lk| ==> lk[j] != '.'
    ensures !EndsWith(lk, "." + c)
  {
    if |c| + 1 <= |lk| {
      var k := |lk| - |c| - 1;
      assert lk[k..][0] == lk[k] != '.';
    }
  }

  /* ---------- toNumber ---------- */

  /** `String(v).replace(/[, ]/g, '')`. */
  function StripSeparators(s: string): (r: string)
    ensures |r| <= |s|
    ensures forall j :: 0 <= j < |r| ==> r[j] != ',' && r[j] != ' '
    ensures forall c :: c in r <==> c in s && c != ',' && c != ' '
  {
    if s == [] then []
    else if s[0] == ',' || s[0] == ' ' then StripSeparators(s[1..])
    else [s[0]] + StripSeparators(s[1..])
  }

  /** Stripping works character by character: a separator disappears, any
      other character stays where it was. */
  lemma StripOne(c: char)
    ensures StripSeparators([c]) == if c == ',' || c == ' ' then [] else [c]
  {
    assert [c][1..] == [];
  }

  /** Stripping a concatenation strips each part; with `StripOne` this fixes
      the order and the count of the kept characters. */
  lemma {:induction false} StripDistributes(a: string, b: string)
    ensures StripSeparators(a + b) == StripSeparators(a) + StripSeparators(b)
    decreases |a|
  {
    if a != [] {
      assert (a + b)[0] == a[0];
      assert (a + b)[1..] == a[1..] + b;
      StripDistributes(a[1..], b);
    } else {
      assert a + b == b;
    }
  }

  /** `v == null`: undefined or null. */
  predicate IsNullish(v: Option<Value>) {
    v.None? || v.value.Null?
  }

  /** `toNumber(v)`. `Number(s)` is the parameter `parse` (it yields NaN or an
      infinity for what it cannot read), except that `Number("")` is 0. */
  function ToNumber(v: Option<Value>, parse: string -> Number): (r: Option<Number>)
    ensures r.Some? ==> IsFinite(r.value)
    ensures IsNullish(v) || v == Some(Str("")) ==> r.None?
    ensures v.Some? && v.value.Num? ==> (r.Some? <==> IsFinite(v.value.n)) && (r.Some? ==> r.value == v.value.n)
  {
    if IsNullish(v) || v.value == Str("") then None
    else if v.value.Num? then (if IsFinite(v.value.n) then Some(v.value.n) else None)
    else
      var s := StripSeparators(ToJsString(v.value));
      var n := if s == "" then Number("0") else parse(s);
      if IsFinite(n) then Some(n) else None
  }

  /** Thousands separators and spaces do not matter: strings that differ only
      in them read the same. */
  lemma SeparatorsIgnored(s: string, t: string, parse: string -> Number)
    requires s != "" && t != "" && StripSeparators(s) == StripSeparators(t)
    ensures ToNumber(Some(Str(s)), parse) == ToNumber(Some(Str(t)), parse)
  {
  }

  /** A non-empty string of nothing but commas and spaces reads as 0, while
      an absent or empty value reads as absent. */
  lemma SeparatorsOnlyIsZero(s: string, parse: string -> Number)
    requires s != "" && forall j :: 0 <= j < |s| ==> s[j] == ',' || s[j] == ' '
    ensures ToNumber(Some(Str(s)), parse) == Some(Number("0"))
  {
    OnlySeparatorsStripToEmpty(s);
  }

  lemma {:induction false} OnlySeparatorsStripToEmpty(s: string)
    requires forall j :: 0 <= j < |s| ==> s[j] == ',' || s[j] == ' '
    ensures StripSeparators(s) == ""
  {
    if s != [] {
      OnlySeparatorsStripToEmpty(s[1..]);
    }
  }

  /* ---------- mapRowToFourCols ---------- */

  /** `{ name, account_code, net_debit_total, net_credit_total }`. */
  datatype MappedRow = MappedRow(
    name: Option<Value>,
    accountCode: Option<Value>,
    netDebitTotal: Option<Number>,
    netCreditTotal: Option<Number>)

  /** What `mapRowToFourCols(anyRow)` returns. */
  function MapRow(anyRow: Value, parse: string -> Number): MappedRow {
    var flat := Flat(anyRow);
    MappedRow(
      Pick(flat, NAME_KEYS),
      Pick(flat, CODE_KEYS),
      ToNumber(Pick(flat, NET_DEBIT_KEYS), parse),
      ToNumber(Pick(flat, NET_CREDIT_KEYS), parse))
  }

  /** `mapRowToFourCols`: flattens the row once and picks the four fields. */
  method MapRowToFourCols(anyRow: Value, parse: string -> Number) returns (m: MappedRow)
    ensures m == MapRow(anyRow, parse)
    ensures m.netDebitTotal.Some? ==> IsFinite(m.netDebitTotal.value)
    ensures m.netCreditTotal.Some? ==> IsFinite(m.netCreditTotal.value)
  {
    var flat := FlattenValue(anyRow);
    var name := PickByKeys(flat, NAME_KEYS);
    var code := PickByKeys(flat, CODE_KEYS);
    var debit := PickByKeys(flat, NET_DEBIT_KEYS);
    var credit := PickByKeys(flat, NET_CREDIT_KEYS);
    m := MappedRow(name, code, ToNumber(debit, parse), ToNumber(credit, parse));
  }

  /** Rows already flattened by table discovery map as their elements did:
      the second flattening changes nothing. */
  lemma MapFlattenedRow(v: Value, parse: string -> Number)
    requires ArraysFit(v)
    ensures MapRow(Obj(Flat(v)), parse) == MapRow(v, parse)
  {
    FlatIdempotent(v);
  }

  /** A record holding only an account code also fills the name column: the
      name alias "account" is contained in "account_code". */
  lemma CodeAloneAlsoNames(code: Value, parse: string -> Number)
    requires !IsNested(code) && SafeCell(code) == code && !code.Null?
    ensures MapRow(Obj([("account_code", code)]), parse).name == Some(code)
    ensures MapRow(Obj([("account_code", code)]), parse).accountCode == Some(code)
  {
    var flat: FlatRow := [("account_code", code)];
    var obj := Obj([("account_code", code)]);
    assert FlattenField(obj, 0, "", [], 0) == flat;
    assert FlattenFields(obj, 1, "", flat, 0) == flat;
    assert FlattenFields(obj, 0, "", [], 0) == flat;
    assert Flat(obj) == flat;
    AliasesAreLowerCase();
    LowerKeepsLowerCase("account_code");
    assert "account_code" in CODE_KEYS;
    assert "account_code" !in NAME_KEYS;
    forall c | c in NAME_KEYS ensures !EndsWith("account_code", "." + c) {
      DotFreeKeyHasNoSuffixHit("account_code", c);
    }
    assert !TailMatch("account_code", NAME_KEYS);
    assert "account" in NAME_KEYS && StartsWith("account_code", "account");
    assert LooseMatch("account_code", NAME_KEYS);
    assert flat[1..] == [];
    assert FindTail(flat, NAME_KEYS) == None;
    assert FindLoose(flat, NAME_KEYS) == Some(code);
  }

  /* ---------- keep-filter and rendering ---------- */

  /** `(r.name ?? r.account_code) != null`. */
  predicate Keep(m: MappedRow) {
    !IsNullish(m.name) || !IsNullish(m.accountCode)
  }

  /** `.filter(...)`: the kept rows, in order. */
  function KeptRows(ms: seq<MappedRow>): (r: seq<MappedRow>)
    ensures |r| <= |ms|
    ensures forall m :: m in r <==> m in ms && Keep(m)
  {
    if ms == [] then []
    else (if Keep(ms[0]) then [ms[0]] else []) + KeptRows(ms[1..])
  }

  /** Filtering works row by row: a row is kept or dropped on its own. */
  lemma KeptOne(m: MappedRow)
    ensures KeptRows([m]) == if Keep(m) then [m] else []
  {
    assert [m][1..] == [];
  }

  /** Filtering a concatenation filters each part; with `KeptOne` this fixes
      the order and the multiplicity of the kept rows, duplicates included. */
  lemma {:induction false} KeptDistributes(a: seq<MappedRow>, b: seq<MappedRow>)
    ensures KeptRows(a + b) == KeptRows(a) + KeptRows(b)
    decreases |a|
  {
    if a != [] {
      assert (a + b)[0] == a[0];
      assert (a + b)[1..] == a[1..] + b;
      KeptDistributes(a[1..], b);
    } else {
      assert a + b == b;
    }
  }

  /** The fixed header row. */
  const HEADER: seq<Value> := [Str("name"), Str("account_code"), Str("net_debit_total"), Str("net_credit_total")]

  /** `x ?? ''`. */
  function OrBlank(v: Option<Value>): Value {
    if IsNullish(v) then Str("") else v.value
  }

  function NumberOrBlank(n: Option<Number>): Value {
    if n.Some? then Num(n.value) else Str("")
  }

  function RenderRow(m: MappedRow): seq<Value> {
    [OrBlank(m.name), OrBlank(m.accountCode), NumberOrBlank(m.netDebitTotal), NumberOrBlank(m.netCreditTotal)]
  }

  /** The mapped rows of a table, before filtering. */
  function MapAll(rows: seq<Value>, parse: string -> Number): (ms: seq<MappedRow>)
    ensures |ms| == |rows|
  {
    seq(|rows|, i requires 0 <= i < |rows| => MapRow(rows[i], parse))
  }

  /** The matrix handed to the sheet writer: the header, then one line per kept row. */
  function CanonicalSheet(rows: seq<Value>, parse: string -> Number): seq<seq<Value>> {
    SheetOf(MapAll(rows, parse))
  }

  /** The header, then one line per mapped row that is kept. */
  function SheetOf(ms: seq<MappedRow>): seq<seq<Value>> {
    [HEADER] + Lines(KeptRows(ms))
  }

  /** `mapped.map(r => [...])`: one rendered line per row. */
  function Lines(kept: seq<MappedRow>): (r: seq<seq<Value>>)
    ensures |r| == |kept|
  {
    seq(|kept|, i requires 0 <= i < |kept| => RenderRow(kept[i]))
  }

  /** A rendered line has the four columns, no null cell, and a blank amount
      exactly where the amount is missing: never 0. */
  lemma RenderRowShape(m: MappedRow)
    ensures |RenderRow(m)| == 4
    ensures forall c :: 0 <= c < 4 ==> !RenderRow(m)[c].Null?
    ensures m.netDebitTotal.None? <==> RenderRow(m)[2] == Str("")
    ensures m.netCreditTotal.None? <==> RenderRow(m)[3] == Str("")
    ensures !IsNullish(m.name) ==> RenderRow(m)[0] == m.name.value
    ensures !IsNullish(m.accountCode) ==> RenderRow(m)[1] == m.accountCode.value
  {
  }

  /** The matrix is the header followed by one rendered line per kept row, in
      order; a row is kept exactly when it has a name or a code. */
  lemma CanonicalSheetShape(rows: seq<Value>, parse: string -> Number)
    ensures var sheet := CanonicalSheet(rows, parse);
      var ms := MapAll(rows, parse);
      var kept := KeptRows(ms);
      |sheet| == |kept| + 1 && sheet[0] == HEADER &&
      (forall i :: 0 <= i < |kept| ==> Keep(kept[i]) && sheet[i + 1] == RenderRow(kept[i])) &&
      (forall i :: 0 <= i < |rows| ==> (Keep(ms[i]) <==> ms[i] in kept))
  {
    SheetOfShape(MapAll(rows, parse));
  }

  /** The sheet grows with the input, row by row and in input order: an
      appended row adds its rendered line exactly when it is kept. */
  lemma CanonicalSheetGrows(rows: seq<Value>, row: Value, parse: string -> Number)
    ensures CanonicalSheet(rows + [row], parse) ==
      CanonicalSheet(rows, parse) + (if Keep(MapRow(row, parse)) then [RenderRow(MapRow(row, parse))] else [])
  {
    var ms := MapAll(rows, parse);
    var m := MapRow(row, parse);
    assert MapAll(rows + [row], parse) == ms + [m];
    SheetOfAppend(ms, m);
  }

  lemma SheetOfAppend(ms: seq<MappedRow>, m: MappedRow)
    ensures SheetOf(ms + [m]) == SheetOf(ms) + (if Keep(m) then [RenderRow(m)] else [])
  {
    KeptDistributes(ms, [m]);
    KeptOne(m);
    var kept := KeptRows(ms);
    assert Lines(KeptRows(ms + [m])) == Lines(kept) + (if Keep(m) then [RenderRow(m)] else []);
  }

  /** With no rows, the sheet is the header alone. */
  lemma CanonicalSheetEmpty(parse: string -> Number)
    ensures CanonicalSheet([], parse) == [HEADER]
  {
    assert MapAll([], parse) == [];
  }

  lemma SheetOfShape(ms: seq<MappedRow>)
    ensures var sheet := SheetOf(ms);
      var kept := KeptRows(ms);
      |sheet| == |kept| + 1 && sheet[0] == HEADER &&
      (forall i :: 0 <= i < |kept| ==> Keep(kept[i]) && sheet[i + 1] == RenderRow(kept[i])) &&
      (forall i :: 0 <= i < |ms| ==> (Keep(ms[i]) <==> ms[i] in kept))
  {
    var kept := KeptRows(ms);
    KeptByIndex(ms);
    var lines := seq(|kept|, i requires 0 <= i < |kept| => RenderRow(kept[i]));
    var sheet := [HEADER] + lines;
    assert SheetOf(ms) == sheet;
    forall i | 0 <= i < |kept| ensures sheet[i + 1] == RenderRow(kept[i]) {
      assert sheet[i + 1] == lines[i];
    }
  }

  lemma KeptByIndex(ms: seq<MappedRow>)
    ensures forall i :: 0 <= i < |ms| ==> (Keep(ms[i]) <==> ms[i] in KeptRows(ms))
    ensures forall i :: 0 <= i < |KeptRows(ms)| ==> Keep(KeptRows(ms)[i])
  {
    var kept := KeptRows(ms);
    forall i | 0 <= i < |kept| ensures Keep(kept[i]) {
      assert kept[i] in kept;
    }
  }
}
