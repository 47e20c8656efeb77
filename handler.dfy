/** The decisions the export handler takes on a fetched payload: whether it is
    treated as JSON, whether a parsed body is an upstream error envelope, and
    which single-sheet workbook is built from it. */
module Handler {
  import opened Text
  import opened JsonValue
  import opened Sniffer
  import opened Tables
  import opened ColumnMapper

  /* ---------- looksJson ---------- */

  /** `/^[\uFEFF\s\r\n]*[\{\[]/.test(head)`: after leading whitespace (the byte
      order mark, CR and LF are all in `\s`) comes '{' or '['. */
  predicate HeadOpensJson(head: string) {
    var rest := DropSpaces(head);
    rest != [] && (rest[0] == '{' || rest[0] == '[')
  }

  /** The test holds exactly when some '{' or '[' is preceded by whitespace only. */
  lemma HeadOpensJsonIff(head: string)
    ensures HeadOpensJson(head) <==>
      exists k :: 0 <= k < |head| && (head[k] == '{' || head[k] == '[') &&
        forall j :: 0 <= j < k ==> IsJsSpace(head[j])
  {
    var rest := DropSpaces(head);
    var n := |head| - |rest|;
    if HeadOpensJson(head) {
      assert head[n] == rest[0];
    }
    if exists k :: 0 <= k < |head| && (head[k] == '{' || head[k] == '[') &&
                   forall j :: 0 <= j < k ==> IsJsSpace(head[j]) {
      var k :| 0 <= k < |head| && (head[k] == '{' || head[k] == '[') &&
               forall j :: 0 <= j < k ==> IsJsSpace(head[j]);
      assert !IsJsSpace(head[k]);
      assert n == k;
      assert rest[0] == head[k];
    }
  }

  /** `looksJson`: the sniffer said json, the Content-Type mentions json, or
      the first characters of the body open a JSON object or array. */
  predicate LooksJson(guess: Guess, contentType: string, head: string) {
    guess.ext == Json || Contains(Lower(contentType), "json") || HeadOpensJson(head)
  }

  /* ---------- the upstream error envelope ---------- */

  /** `jsonBody?.code && jsonBody?.message && !jsonBody?.trialbalance && !jsonBody?.data`. */
  predicate IsUpstreamError(body: Value) {
    TruthyOpt(Get(body, "code")) && TruthyOpt(Get(body, "message")) &&
    !TruthyOpt(Get(body, "trialbalance")) && !TruthyOpt(Get(body, "data"))
  }

  /** The test goes by truthiness: a code of 0 or an empty message is no
      error, and a truthy trial balance or data member overrules both. */
  lemma ErrorEnvelopeByTruthiness(body: Value)
    ensures Get(body, "code") == Some(Num(Number("0"))) ==> !IsUpstreamError(body)
    ensures Get(body, "message") == Some(Str("")) ==> !IsUpstreamError(body)
    ensures TruthyOpt(Get(body, "trialbalance")) || TruthyOpt(Get(body, "data")) ==> !IsUpstreamError(body)
    ensures !body.Obj? ==> !IsUpstreamError(body)
  {
  }

  /** A typical envelope: a non-zero numeric code and a message. */
  lemma ErrorEnvelopeRecognised(code: Number, message: string)
    requires code.text != "0" && code.text != "NaN" && message != ""
    ensures IsUpstreamError(Obj([("code", Num(code)), ("message", Str(message))]))
  {
    var f := [("code", Num(code)), ("message", Str(message))];
    assert f[1..] == [("message", Str(message))];
    assert f[1..][1..] == [];
    assert Lookup(f[1..], "message") == Some(Str(message));
    assert Lookup(f[1..], "trialbalance") == Lookup(f[1..][1..], "trialbalance") == None;
    assert Lookup(f[1..], "data") == Lookup(f[1..][1..], "data") == None;
  }

  /* ---------- the workbook ---------- */

  /** A worksheet: its name and the rows of cells handed to the sheet writer. */
  datatype Sheet = Sheet(name: string, cells: seq<seq<Value>>)

  /** `xlsxBuf`: still the empty initial buffer, or a written one-sheet workbook. */
  datatype XlsxBuffer = Empty | Written(sheet: Sheet)

  /** The outcome of `JSON.parse` on the body with its byte order mark removed. */
  datatype ParsedBody = Parsed(doc: Value) | ParseFailed(message: string)

  function ExtName(e: Ext): string {
    match e
    case Xlsx => "xlsx"
    case Xls => "xls"
    case Csv => "csv"
    case Pdf => "pdf"
    case Json => "json"
  }

  function ParseFailureSheet(contentType: string, message: string): Sheet {
    Sheet("Info", [[Str("Zoho JSON parse failed")], [Str("Content-Type"), Str(contentType)], [Str("Error"), Str(message)]])
  }

  function ErrorSheet(body: Value): Sheet
    requires IsUpstreamError(body)
  {
    Sheet("Zoho Error", [[Str("Zoho error")], [Str("code"), Get(body, "code").value], [Str("message"), Get(body, "message").value]])
  }

  function TrialBalanceSheet(rows: seq<Value>, parse: string -> Number): Sheet {
    Sheet("Trial Balance", CanonicalSheet(rows, parse))
  }

  function NonExcelSheet(contentType: string): Sheet {
    Sheet("Info", [
      [Str("Zoho returned a non-Excel format (e.g., PDF).")],
      [Str("We saved the RAW file; 4-column XLSX not applicable.")],
      [Str("Content-Type"), Str(contentType)]])
  }

  function NoContentSheet(looksJson: bool, ext: Ext): Sheet {
    Sheet("Info", [
      [Str("No XLSX content was produced from the Zoho response.")],
      [Str("sourceType"), Str(if looksJson then "json" else ExtName(ext))]])
  }

  /** `tables.length ? tables[0].rows : []`: the rows of the best-ranked table,
      each a flat record. */
  function JsonRows(doc: Value): seq<Value> {
    var tables := Extracted(doc);
    if |tables| > 0 then seq(|tables[0].rows|, j requires 0 <= j < |tables[0].rows| => Obj(tables[0].rows[j]))
    else []
  }

  /** The JSON branch once the body has been parsed; `bufferUnset` is the value
      of the guard on the buffer, which is still the empty initial one here. */
  function JsonBranch(body: ParsedBody, contentType: string, parse: string -> Number, bufferUnset: bool): XlsxBuffer {
    match body
    case ParseFailed(message) => Written(ParseFailureSheet(contentType, message))
    case Parsed(doc) =>
      if bufferUnset && Truthy(doc) then
        if IsUpstreamError(doc) then Written(ErrorSheet(doc))
        else Written(TrialBalanceSheet(JsonRows(doc), parse))
      else Empty
  }

  /** The final guard: an empty buffer is replaced by the no-content sheet. */
  function FinalGuard(buf: XlsxBuffer, looksJson: bool, ext: Ext): Sheet {
    if buf.Empty? then NoContentSheet(looksJson, ext) else buf.sheet
  }

  /** The formats the handler reads as an incoming workbook. */
  predicate ReadAsSpreadsheet(ext: Ext) {
    ext == Xlsx || ext == Xls || ext == Csv
  }

  /** Which sheet the handler builds; `objects` are the rows the spreadsheet
      reader returns for an xlsx, xls or csv payload. */
  function Workbook(looksJson: bool, ext: Ext, contentType: string, body: ParsedBody,
                    objects: seq<Value>, parse: string -> Number, bufferUnset: bool): Sheet {
    var buf :=
      if looksJson then JsonBranch(body, contentType, parse, bufferUnset)
      else if ReadAsSpreadsheet(ext) then Written(TrialBalanceSheet(objects, parse))
      else Written(NonExcelSheet(contentType));
    FinalGuard(buf, looksJson, ext)
  }

  /** `!xlsxBuf` as written: `xlsxBuf` starts as `Buffer.alloc(0)`, a Buffer
      is an object, and every object is truthy however many bytes it holds,
      so the negation is false. */
  const NOT_EMPTY_BUFFER_AS_WRITTEN: bool := false

  /** The evidently intended guard, `xlsxBuf.length === 0`: on the JSON path
      nothing has been written to the buffer before it is tested. */
  const BUFFER_UNSET_AS_INTENDED: bool := true

  /** The handler as written: the JSON guard tests the buffer's truthiness. */
  function ConvertAsWritten(looksJson: bool, ext: Ext, contentType: string, body: ParsedBody,
                            objects: seq<Value>, parse: string -> Number): Sheet {
    Workbook(looksJson, ext, contentType, body, objects, parse, NOT_EMPTY_BUFFER_AS_WRITTEN)
  }

  /** The handler as intended: the JSON guard tests that nothing was written yet. */
  function Convert(looksJson: bool, ext: Ext, contentType: string, body: ParsedBody,
                   objects: seq<Value>, parse: string -> Number): Sheet {
    Workbook(looksJson, ext, contentType, body, objects, parse, BUFFER_UNSET_AS_INTENDED)
  }

  /** As written, a JSON payload that parses never reaches the mapper nor the
      error sheet: every such payload, a trial balance or an error envelope,
      ends in the no-content sheet. */
  lemma ParsedJsonNeverMapped(ext: Ext, contentType: string, doc: Value, objects: seq<Value>, parse: string -> Number)
    ensures ConvertAsWritten(true, ext, contentType, Parsed(doc), objects, parse) == NoContentSheet(true, ext)
  {
  }

  /** The same with an error envelope: the "Zoho Error" sheet is never built. */
  lemma ErrorEnvelopeLostAsWritten(ext: Ext, contentType: string, objects: seq<Value>, parse: string -> Number)
    ensures var body := Obj([("code", Num(Number("57"))), ("message", Str("Invalid scope"))]);
      IsUpstreamError(body) &&
      ConvertAsWritten(true, ext, contentType, Parsed(body), objects, parse).name == "Info" &&
      Convert(true, ext, contentType, Parsed(body), objects, parse).name == "Zoho Error"
  {
    ErrorEnvelopeRecognised(Number("57"), "Invalid scope");
  }

  /** As intended, a truthy parsed JSON body gives the error sheet when it is
      an error envelope and the four-column sheet of its best-ranked table
      otherwise; a falsy one (null, false, 0, "") gives the no-content sheet. */
  lemma JsonRouting(ext: Ext, contentType: string, doc: Value, objects: seq<Value>, parse: string -> Number)
    ensures var out := Convert(true, ext, contentType, Parsed(doc), objects, parse);
      (Truthy(doc) && IsUpstreamError(doc) ==>
        out.name == "Zoho Error" && out.cells[1] == [Str("code"), Get(doc, "code").value] &&
        out.cells[2] == [Str("message"), Get(doc, "message").value]) &&
      (Truthy(doc) && !IsUpstreamError(doc) ==>
        out.name == "Trial Balance" && out.cells == CanonicalSheet(JsonRows(doc), parse) && out.cells[0] == HEADER) &&
      (!Truthy(doc) ==> out == NoContentSheet(true, ext))
  {
  }

  /** The correction changes nothing but the parsed-JSON path. */
  lemma CorrectionOnlyTouchesParsedJson(looksJson: bool, ext: Ext, contentType: string, body: ParsedBody,
                                        objects: seq<Value>, parse: string -> Number)
    requires !looksJson || body.ParseFailed? || !Truthy(body.doc)
    ensures Convert(looksJson, ext, contentType, body, objects, parse) ==
            ConvertAsWritten(looksJson, ext, contentType, body, objects, parse)
  {
  }

  /** A sheet with a name and a non-empty first row. */
  predicate NonEmptySheet(sheet: Sheet) {
    sheet.name != "" && |sheet.cells| > 0 && |sheet.cells[0]| > 0
  }

  /** Whatever the JSON branch writes is a named sheet with a non-empty first row. */
  lemma JsonBranchNonEmpty(body: ParsedBody, contentType: string, parse: string -> Number, bufferUnset: bool)
    ensures JsonBranch(body, contentType, parse, bufferUnset).Written? ==>
      NonEmptySheet(JsonBranch(body, contentType, parse, bufferUnset).sheet)
  {
  }

  /** Once the payload's format is known (and, for a spreadsheet, its rows
      are read), the conversion builds one named sheet whose first row is not
      empty, with the JSON guard as written or as intended. */
  lemma AlwaysOneSheet(looksJson: bool, ext: Ext, contentType: string, body: ParsedBody,
                       objects: seq<Value>, parse: string -> Number, bufferUnset: bool)
    ensures NonEmptySheet(Workbook(looksJson, ext, contentType, body, objects, parse, bufferUnset))
  {
    var out := Workbook(looksJson, ext, contentType, body, objects, parse, bufferUnset);
    if looksJson {
      var buf := JsonBranch(body, contentType, parse, bufferUnset);
      JsonBranchNonEmpty(body, contentType, parse, bufferUnset);
      assert out == FinalGuard(buf, true, ext);
    } else if ReadAsSpreadsheet(ext) {
      CanonicalSheetShape(objects, parse);
      assert out == TrialBalanceSheet(objects, parse);
    } else {
      assert out == NonExcelSheet(contentType);
    }
  }

  /** Payloads not taken for JSON: spreadsheets go through the mapper, other
      formats get the explanatory sheet. */
  lemma SpreadsheetRouting(looksJson: bool, ext: Ext, contentType: string, body: ParsedBody,
                           objects: seq<Value>, parse: string -> Number)
    requires !looksJson
    ensures var out := Convert(looksJson, ext, contentType, body, objects, parse);
      (ReadAsSpreadsheet(ext) ==> out == Sheet("Trial Balance", CanonicalSheet(objects, parse))) &&
      (ext == Pdf || ext == Json ==> out == NonExcelSheet(contentType))
  {
  }

  /* ---------- the request as a whole ---------- */

  /** What the handler answers once the payload is fetched: the converted
      workbook is uploaded, or an exception reaches the outer `catch` and
      the answer is a 500 error with nothing converted uploaded. */
  datatype Outcome = Uploaded(sheet: Sheet) | ServerError

  /** From the fetched payload to the answer, for a given value of the JSON
      guard. `guessExtMime` throws when the file name holds a '%' escape
      `decodeURIComponent` rejects; `read` is the outcome of `XLSX.read` and
      `sheet_to_json` on the payload, `None` when they throw, `Some([])` when
      the workbook has no sheet. */
  function Answer(buf: seq<Byte>, contentType: string, contentDisp: string, decode: string -> Option<string>,
                  head: string, body: ParsedBody, read: Option<seq<Value>>, parse: string -> Number,
                  bufferUnset: bool): Outcome {
    match GuessExtMime(buf, contentType, contentDisp, decode)
    case None => ServerError
    case Some(guess) =>
      var looksJson := LooksJson(guess, contentType, head);
      if !looksJson && ReadAsSpreadsheet(guess.ext) && read.None? then ServerError
      else Uploaded(Workbook(looksJson, guess.ext, contentType, body,
                             if read.Some? then read.value else [], parse, bufferUnset))
  }

  /** The handler as written, whose JSON guard is always false. */
  function Export(buf: seq<Byte>, contentType: string, contentDisp: string, decode: string -> Option<string>,
                  head: string, body: ParsedBody, read: Option<seq<Value>>, parse: string -> Number): Outcome {
    Answer(buf, contentType, contentDisp, decode, head, body, read, parse, NOT_EMPTY_BUFFER_AS_WRITTEN)
  }

  /** The handler with the JSON guard as intended. */
  function ExportIntended(buf: seq<Byte>, contentType: string, contentDisp: string, decode: string -> Option<string>,
                          head: string, body: ParsedBody, read: Option<seq<Value>>, parse: string -> Number): Outcome {
    Answer(buf, contentType, contentDisp, decode, head, body, read, parse, BUFFER_UNSET_AS_INTENDED)
  }

  /** The request fails exactly when the sniffer throws or when a payload
      read as a spreadsheet cannot be read; otherwise the uploaded sheet is
      the conversion of the payload as sniffed, and it is a named sheet
      whose first row is not empty. */
  lemma ExportOutcome(buf: seq<Byte>, contentType: string, contentDisp: string, decode: string -> Option<string>,
                      head: string, body: ParsedBody, read: Option<seq<Value>>, parse: string -> Number,
                      bufferUnset: bool)
    ensures var sniff := GuessExtMime(buf, contentType, contentDisp, decode);
      var out := Answer(buf, contentType, contentDisp, decode, head, body, read, parse, bufferUnset);
      (out.ServerError? <==>
        (contentDisp != "" && '%' in FilenameHint(contentDisp) && decode(FilenameHint(contentDisp)).None?) ||
        (sniff.Some? && !LooksJson(sniff.value, contentType, head) && ReadAsSpreadsheet(sniff.value.ext) && read.None?)) &&
      (out.Uploaded? ==>
        out.sheet == Workbook(LooksJson(sniff.value, contentType, head), sniff.value.ext, contentType, body,
                              if read.Some? then read.value else [], parse, bufferUnset) &&
        NonEmptySheet(out.sheet))
  {
    var sniff := GuessExtMime(buf, contentType, contentDisp, decode);
    if sniff.Some? {
      var looksJson := LooksJson(sniff.value, contentType, head);
      AlwaysOneSheet(looksJson, sniff.value.ext, contentType, body, if read.Some? then read.value else [], parse, bufferUnset);
    }
  }

  /** A payload taken for JSON never depends on the spreadsheet reader: its
      answer is the same whether or not `XLSX.read` would have thrown. */
  lemma JsonIgnoresReader(buf: seq<Byte>, contentType: string, contentDisp: string, decode: string -> Option<string>,
                          head: string, body: ParsedBody, read: Option<seq<Value>>, parse: string -> Number,
                          bufferUnset: bool)
    requires var sniff := GuessExtMime(buf, contentType, contentDisp, decode);
      sniff.Some? && LooksJson(sniff.value, contentType, head)
    ensures Answer(buf, contentType, contentDisp, decode, head, body, read, parse, bufferUnset) ==
            Answer(buf, contentType, contentDisp, decode, head, body, None, parse, bufferUnset)
  {
  }

  /** The handler as written and as intended answer alike except for a
      payload taken for JSON whose body parses to a truthy value. */
  lemma ExportCorrectionOnlyTouchesParsedJson(buf: seq<Byte>, contentType: string, contentDisp: string,
                                              decode: string -> Option<string>, head: string, body: ParsedBody,
                                              read: Option<seq<Value>>, parse: string -> Number)
    requires var sniff := GuessExtMime(buf, contentType, contentDisp, decode);
      sniff.None? || !LooksJson(sniff.value, contentType, head) || body.ParseFailed? || !Truthy(body.doc)
    ensures Export(buf, contentType, contentDisp, decode, head, body, read, parse) ==
            ExportIntended(buf, contentType, contentDisp, decode, head, body, read, parse)
  {
    var sniff := GuessExtMime(buf, contentType, contentDisp, decode);
    if sniff.Some? {
      CorrectionOnlyTouchesParsedJson(LooksJson(sniff.value, contentType, head), sniff.value.ext, contentType, body,
                                      if read.Some? then read.value else [], parse);
    }
  }
}
