/** The format sniffer `guessExtMime`: classify a fetched payload as xlsx, xls,
    csv, pdf or json from, in this order, the file name in Content-Disposition
    (both forms of section 4.3 of RFC 6266), the Content-Type, and the leading
    bytes of the body. */
module Sniffer {
  import opened Text
  import opened JsonValue

  type Byte = b: int | 0 <= b < 256

  datatype Ext = Xlsx | Xls | Csv | Pdf | Json

  datatype Guess = Guess(ext: Ext, mime: string)

  function MimeOf(e: Ext): string {
    match e
    case Xlsx => "application/vnd.openxmlformats-officedocument.spreadsheetml.sheet"
    case Xls => "application/vnd.ms-excel"
    case Csv => "text/csv"
    case Pdf => "application/pdf"
    case Json => "application/json"
  }

  function GuessOf(e: Ext): Guess {
    Guess(e, MimeOf(e))
  }

  /* ---------- the file name in Content-Disposition ---------- */

  /** The two alternatives of /filename\*=UTF-8''([^;]+)|filename="?([^"]+)"?/i,
      with the case-insensitive literal parts already lower-cased. */
  const STAR_FORM := "filename*=utf-8''"
  const PLAIN_FORM := "filename="

  /** Length of the longest run of characters other than `stop` starting at
      `from`: what a greedy `[^stop]*` consumes there. */
  function RunLength(s: string, from: nat, stop: char): (n: nat)
    requires from <= |s|
    ensures from + n <= |s|
    ensures forall i :: from <= i < from + n ==> s[i] != stop
    ensures from + n == |s| || s[from + n] == stop
    decreases |s| - from
  {
    if from == |s| || s[from] == stop then 0 else 1 + RunLength(s, from + 1, stop)
  }

  /** Does the case-insensitive literal `lit` occur in `s` at position `p`? */
  predicate LiteralAt(s: string, p: nat, lit: string) {
    p + |lit| <= |s| && Lower(s[p..p + |lit|]) == lit
  }

  /** The capture of a match that starts at position `p`, trying the
      `filename*=` alternative first and the `filename=` one second. */
  function MatchAt(s: string, p: nat): Option<string>
    requires p <= |s|
  {
    if LiteralAt(s, p, STAR_FORM) && RunLength(s, p + |STAR_FORM|, ';') > 0 then
      var from := p + |STAR_FORM|;
      Some(s[from..from + RunLength(s, from, ';')])
    else if LiteralAt(s, p, PLAIN_FORM) then
      var q := p + |PLAIN_FORM|;
      // `"?` is greedy: with an opening quote the capture starts after it; giving
      // the quote back cannot help, because `[^"]+` cannot start on a quote
      var from := if q < |s| && s[q] == '"' then q + 1 else q;
      var n := RunLength(s, from, '"');
      if n > 0 then Some(s[from..from + n]) else None
    else None
  }

  /** `RegExp.prototype.exec`: the leftmost match at or after `p`. */
  function MatchFrom(s: string, p: nat): Option<string>
    requires p <= |s|
    decreases |s| - p
  {
    if MatchAt(s, p).Some? then MatchAt(s, p)
    else if p == |s| then None
    else MatchFrom(s, p + 1)
  }

  /** `m?.[1] || m?.[2] || ''`. */
  function FilenameHint(contentDisp: string): string {
    match MatchFrom(contentDisp, 0)
    case Some(name) => name
    case None => ""
  }

  function ExtFromFilename(lowerName: string): Option<Ext> {
    if EndsWith(lowerName, ".xlsx") then Some(Xlsx)
    else if EndsWith(lowerName, ".xls") then Some(Xls)
    else if EndsWith(lowerName, ".csv") then Some(Csv)
    else if EndsWith(lowerName, ".pdf") then Some(Pdf)
    else if EndsWith(lowerName, ".json") then Some(Json)
    else None
  }

  /* ---------- Content-Type ---------- */

  function ExtFromContentType(contentType: string): Option<Ext> {
    var ct := Lower(contentType);
    if contentType == "" then None
    else if Contains(ct, "officedocument.spreadsheetml.sheet") then Some(Xlsx)
    else if Contains(ct, "vnd.ms-excel") then Some(Xls)
    else if Contains(ct, "text/csv") || Contains(ct, "application/csv") then Some(Csv)
    else if Contains(ct, "pdf") then Some(Pdf)
    else if Contains(ct, "json") then Some(Json)
    else None
  }

  /* ---------- magic bytes ---------- */

  /** `b[i] === x`; a read past the end yields `undefined`, which equals no byte. */
  predicate ByteIs(buf: seq<Byte>, i: nat, x: Byte) {
    i < |buf| && buf[i] == x
  }

  /** The ZIP local file header signature "PK\x03\x04" (APPNOTE section 4.3.7). */
  predicate IsZip(buf: seq<Byte>) {
    ByteIs(buf, 0, 0x50) && ByteIs(buf, 1, 0x4B) && ByteIs(buf, 2, 0x03) && ByteIs(buf, 3, 0x04)
  }

  /** The compound file header signature (MS-CFB section 2.2). */
  predicate IsOle(buf: seq<Byte>) {
    && ByteIs(buf, 0, 0xD0) && ByteIs(buf, 1, 0xCF) && ByteIs(buf, 2, 0x11) && ByteIs(buf, 3, 0xE0)
    && ByteIs(buf, 4, 0xA1) && ByteIs(buf, 5, 0xB1) && ByteIs(buf, 6, 0x1A) && ByteIs(buf, 7, 0xE1)
  }

  /** "%PDF" (ISO 32000-1 section 7.5.2). */
  predicate IsPdf(buf: seq<Byte>) {
    ByteIs(buf, 0, 0x25) && ByteIs(buf, 1, 0x50) && ByteIs(buf, 2, 0x44) && ByteIs(buf, 3, 0x46)
  }

  function ExtFromMagic(buf: seq<Byte>): Ext {
    if IsZip(buf) then Xlsx
    else if IsOle(buf) then Xls
    else if IsPdf(buf) then Pdf
    else Json
  }

  /* ---------- the sniffer ---------- */

  /** The guess once the file name has said nothing. */
  function GuessFromTypeAndMagic(buf: seq<Byte>, contentType: string): Guess {
    match ExtFromContentType(contentType)
    case Some(e) => GuessOf(e)
    case None => GuessOf(ExtFromMagic(buf))
  }

  /** `decodeURIComponent` is the identity on a string without '%'; on the
      others it is the foreign `decode`, and `None` stands for the URIError it
      throws on a malformed escape. */
  function DecodeComponent(raw: string, decode: string -> Option<string>): Option<string> {
    if '%' in raw then decode(raw) else Some(raw)
  }

  /** `guessExtMime(buf, contentType, contentDisp)`; `None` when
      `decodeURIComponent` throws. An empty header means the header is absent. */
  function GuessExtMime(buf: seq<Byte>, contentType: string, contentDisp: string,
                        decode: string -> Option<string>): (r: Option<Guess>)
    ensures r.Some? ==> r.value.mime == MimeOf(r.value.ext)
    ensures r.None? <==>
      contentDisp != "" && '%' in FilenameHint(contentDisp) && decode(FilenameHint(contentDisp)).None?
  {
    if contentDisp == "" then Some(GuessFromTypeAndMagic(buf, contentType))
    else
      match DecodeComponent(FilenameHint(contentDisp), decode)
      case None => None
      case Some(name) =>
        match ExtFromFilename(Lower(name))
        case Some(e) => Some(GuessOf(e))
        case None => Some(GuessFromTypeAndMagic(buf, contentType))
  }

  /* ---------- precedence ---------- */

  /** A known extension in the Content-Disposition file name decides the
      guess: neither the Content-Type nor the body can change it. */
  lemma FilenameTakesPrecedence(buf: seq<Byte>, buf': seq<Byte>, ct: string, ct': string,
                                cd: string, decode: string -> Option<string>, name: string, e: Ext)
    requires cd != "" && DecodeComponent(FilenameHint(cd), decode) == Some(name)
    requires ExtFromFilename(Lower(name)) == Some(e)
    ensures GuessExtMime(buf, ct, cd, decode) == GuessExtMime(buf', ct', cd, decode) == Some(GuessOf(e))
  {
  }

  /** The Content-Disposition decides nothing: it is absent, or its file
      name decodes to a name without a known extension. */
  predicate NoFilenameDecision(cd: string, decode: string -> Option<string>) {
    cd == "" || (DecodeComponent(FilenameHint(cd), decode).Some? &&
                 ExtFromFilename(Lower(DecodeComponent(FilenameHint(cd), decode).value)).None?)
  }

  /** With no usable file name, a recognised Content-Type decides the guess,
      whatever the body holds. */
  lemma ContentTypeBeatsMagic(buf: seq<Byte>, buf': seq<Byte>, ct: string, cd: string,
                              decode: string -> Option<string>, e: Ext)
    requires NoFilenameDecision(cd, decode)
    requires ExtFromContentType(ct) == Some(e)
    ensures GuessExtMime(buf, ct, cd, decode) == GuessExtMime(buf', ct, cd, decode) == Some(GuessOf(e))
  {
  }

  /** With neither header recognised, the leading bytes decide: ZIP gives
      xlsx, the compound-file header xls, "%PDF" pdf, anything else json. */
  lemma MagicBytesDecideLast(buf: seq<Byte>, ct: string, cd: string, decode: string -> Option<string>)
    requires NoFilenameDecision(cd, decode) && ExtFromContentType(ct).None?
    ensures IsZip(buf) ==> GuessExtMime(buf, ct, cd, decode) == Some(GuessOf(Xlsx))
    ensures IsOle(buf) ==> GuessExtMime(buf, ct, cd, decode) == Some(GuessOf(Xls))
    ensures IsPdf(buf) ==> GuessExtMime(buf, ct, cd, decode) == Some(GuessOf(Pdf))
    ensures !IsZip(buf) && !IsOle(buf) && !IsPdf(buf) ==> GuessExtMime(buf, ct, cd, decode) == Some(GuessOf(Json))
  {
  }

  /** A body shorter than every signature falls through to json. */
  lemma ShortBodyIsJson(buf: seq<Byte>, ct: string, cd: string, decode: string -> Option<string>)
    requires |buf| < 4 && NoFilenameDecision(cd, decode) && ExtFromContentType(ct).None?
    ensures GuessExtMime(buf, ct, cd, decode) == Some(GuessOf(Json))
  {
  }

  /** The three signatures exclude each other, so their order does not matter. */
  lemma SignaturesDisjoint(buf: seq<Byte>)
    ensures !(IsZip(buf) && IsOle(buf)) && !(IsZip(buf) && IsPdf(buf)) && !(IsOle(buf) && IsPdf(buf))
  {
  }

  /* ---------- the file-name pattern ---------- */

  /** No match can start on a character other than 'f' or 'F'. */
  lemma NoMatchOffF(s: string, p: nat)
    requires p < |s| && s[p] != 'f' && s[p] != 'F'
    ensures MatchAt(s, p).None?
  {
    if p + |STAR_FORM| <= |s| {
      assert Lower(s[p..p + |STAR_FORM|])[0] == LowerChar(s[p]) != 'f';
    }
    if p + |PLAIN_FORM| <= |s| {
      assert Lower(s[p..p + |PLAIN_FORM|])[0] == LowerChar(s[p]) != 'f';
    }
  }

  /** A header text free of 'f' before the parameter is skipped by the search. */
  lemma {:induction false} SearchSkipsPrefix(pre: string, rest: string, p: nat)
    requires p <= |pre|
    requires forall i :: 0 <= i < |pre| ==> pre[i] != 'f' && pre[i] != 'F'
    ensures MatchFrom(pre + rest, p) == MatchFrom(pre + rest, |pre|)
    decreases |pre| - p
  {
    if p < |pre| {
      var s := pre + rest;
      assert s[p] == pre[p];
      NoMatchOffF(s, p);
      SearchSkipsPrefix(pre, rest, p + 1);
    }
  }

  /** The case-insensitive literal `lit` is found where `s` holds `t`, a
      spelling of `lit` in any case. */
  lemma LiteralFound(s: string, p: nat, t: string, lit: string)
    requires p + |t| <= |s| && s[p..p + |t|] == t && |t| == |lit|
    requires forall i :: 0 <= i < |t| ==> LowerChar(t[i]) == lit[i]
    ensures LiteralAt(s, p, lit)
  {
    assert Lower(t) == lit;
  }

  /** A run that reaches a stop character (or the end) is exactly what
      `RunLength` measures. */
  lemma RunIsWhole(s: string, from: nat, n: nat, stop: char)
    requires from + n <= |s|
    requires forall i :: from <= i < from + n ==> s[i] != stop
    requires from + n == |s| || s[from + n] == stop
    ensures RunLength(s, from, stop) == n
  {
  }

  /** Where `s` holds `filename="NAME"`, the match there captures NAME. */
  lemma QuotedMatch(s: string, p: nat, name: string)
    requires p <= |s| && s[p..] == "filename=\"" + name + "\""
    requires name != [] && '"' !in name
    ensures MatchAt(s, p) == Some(name)
  {
    var t := "filename=\"" + name + "\"";
    assert s[p..p + 9] == t[..9] == "filename=";
    LiteralFound(s, p, "filename=", PLAIN_FORM);
    assert s[p + 8] == '=';
    assert !LiteralAt(s, p, STAR_FORM) by {
      if p + |STAR_FORM| <= |s| {
        assert Lower(s[p..p + |STAR_FORM|])[8] == LowerChar(s[p + 8]) == '=';
      }
    }
    assert s[p + 9] == '"';
    var from := p + 10;
    assert s[from..from + |name|] == name;
    assert s[from + |name|] == '"';
    RunIsWhole(s, from, |name|, '"');
  }

  /** Where `s` ends with `filename*=UTF-8''NAME`, the match there captures NAME. */
  lemma ExtendedMatch(s: string, p: nat, name: string)
    requires p <= |s| && s[p..] == "filename*=UTF-8''" + name
    requires name != [] && ';' !in name
    ensures MatchAt(s, p) == Some(name)
  {
    var t := "filename*=UTF-8''" + name;
    assert s[p..p + 17] == t[..17] == "filename*=UTF-8''";
    LiteralFound(s, p, "filename*=UTF-8''", STAR_FORM);
    var from := p + 17;
    assert s[from..] == name;
    assert from + |name| == |s| && s[from..from + |name|] == name;
    RunIsWhole(s, from, |name|, ';');
  }

  /** `filename="NAME"` after a header prefix without an 'f' yields NAME. */
  lemma QuotedFilename(pre: string, name: string)
    requires forall i :: 0 <= i < |pre| ==> pre[i] != 'f' && pre[i] != 'F'
    requires name != [] && '"' !in name
    ensures FilenameHint(pre + ("filename=\"" + name + "\"")) == name
  {
    var s := pre + ("filename=\"" + name + "\"");
    SearchSkipsPrefix(pre, "filename=\"" + name + "\"", 0);
    assert s[|pre|..] == "filename=\"" + name + "\"";
    QuotedMatch(s, |pre|, name);
  }

  /** `filename*=UTF-8''NAME` after a header prefix without an 'f' yields NAME. */
  lemma ExtendedFilename(pre: string, name: string)
    requires forall i :: 0 <= i < |pre| ==> pre[i] != 'f' && pre[i] != 'F'
    requires name != [] && ';' !in name
    ensures FilenameHint(pre + ("filename*=UTF-8''" + name)) == name
  {
    var s := pre + ("filename*=UTF-8''" + name);
    SearchSkipsPrefix(pre, "filename*=UTF-8''" + name, 0);
    assert s[|pre|..] == "filename*=UTF-8''" + name;
    ExtendedMatch(s, |pre|, name);
  }
}
