# Trial-balance export: response normalisation

The export endpoint (`app/api/export/route.ts`) fetches a trial balance from
Zoho Books and turns whatever comes back into a one-sheet workbook with four
columns: name, account code, net debit total and net credit total. This
project models, in Dafny, the part of that endpoint that works on the
payload once it has been fetched:

- **the format sniffer** (`guessExtMime`). It decides xlsx, xls, csv, pdf
  or json. It looks first at the file name in Content-Disposition, in both
  forms of section 4.3 of RFC 6266. Then it looks at the Content-Type.
  Last, it looks at the leading bytes: the ZIP local-file-header signature
  (PKWARE APPNOTE section 4.3.7), the compound-file header signature
  (MS-CFB section 2.2) and `%PDF` (ISO 32000-1 section 7.5.2).
- **the flattener** (`safeCell`, `shouldSummarize`, `flattenRow`). It
  writes a nested JSON value into one insertion-ordered record, keyed by
  dotted path. Long strings are truncated. Arrays are joined or
  summarised. Noisy branches are pruned. Recursion stops below a depth cap.
- **table discovery and ranking** (`collectTablesDeep`,
  `extractTablesFromZohoDeep`). A pre-order walk collects every array whose
  first element is an object, or null. The candidates are stable-sorted
  by a bonus-weighted score, and each gets a legal sheet name.
- **the column mapper** (`pickByKeys`, `toNumber`, `mapRowToFourCols`, the
  keep-filter and the header row). It picks the four canonical fields
  through alias lists, using two match tiers.
- **the handler's decisions**: whether a payload is treated as JSON,
  whether a parsed body is an upstream error envelope, which sheet is
  built, and when the request ends in the error answer instead (the
  sniffer or the spreadsheet reader throwing).

Modules, one per file: `Text` (string helpers with JavaScript's meaning),
`JsonValue` (the parsed document, truthiness, `String(v)`), `Sniffer`,
`Flatten`, `Tables`, `ColumnMapper` and `Handler`.

Imperative parts of the source are imperative here. `flattenRow` writes
into a shared mutable record. In the model this is the class
`Flatten.FlatRecord`, whose `Set` is `out[key] = v`. The method
`FlattenRow` loops over the members and recurses, and it is proved equal
to the specification function `Flatten`. `collectTablesDeep` pushes onto a
shared array; in the model that array is `Tables.TableCollector`.
`pickByKeys` is two scans with early return. Everything else is a pure
function.

Numbers are carried by their JavaScript rendering (`String(n)`). The
pipeline only renders numbers, tests them for finiteness and passes them on.

Some behaviour of the code is worth stating plainly. The lemmas named below
prove each point.

- An exact alias match does not beat an earlier suffix match. Both are one
  tier, scanned in key order (`SuffixHitBeatsLaterExactHit`).
- A recognised Content-Type wins over the ZIP signature and the other byte
  signatures (`ContentTypeBeatsMagic`).
- Because the name alias "account" is matched loosely, a record with only
  `account_code` also fills the name column (`CodeAloneAlsoNames`).
- Table rows are flattened twice: once when a table is found, and again
  when its rows are mapped. The second pass changes nothing
  (`FlatIdempotent`, `MapFlattenedRow`).

## Model

| member | source | states |
|---|---|---|
| Sniffer.GuessExtMime | app/api/export/route.ts:18-51 | the MIME type always belongs to the chosen extension; the guess fails exactly when the file name holds a '%' escape that `decodeURIComponent` rejects |
| Sniffer.FilenameTakesPrecedence | app/api/export/route.ts:20-28 | a known extension in the Content-Disposition file name decides the guess, whatever the Content-Type and the body |
| Sniffer.ContentTypeBeatsMagic | app/api/export/route.ts:29-37 | without a usable file name, a recognised Content-Type decides the guess whatever the body holds |
| Sniffer.MagicBytesDecideLast | app/api/export/route.ts:20-50 | with no Content-Disposition, or one whose file name decodes without a known extension, and no recognised Content-Type: ZIP signature gives xlsx, compound-file header xls, %PDF pdf, anything else json |
| Sniffer.ShortBodyIsJson | app/api/export/route.ts:20-50 | a body shorter than four bytes with neither header deciding (Content-Disposition absent or its file name without a known extension) is json (reads past the end equal no byte) |
| Sniffer.SignaturesDisjoint | app/api/export/route.ts:38-48 | the three signatures exclude each other |
| Sniffer.RunLength | app/api/export/route.ts:21 | the greedy `[^;]+` / `[^"]+` run: maximal, free of the stop character, ending at it or at the end |
| Sniffer.NoMatchOffF | app/api/export/route.ts:21 | no match of the file-name pattern starts on a character other than f or F |
| Sniffer.SearchSkipsPrefix | app/api/export/route.ts:21 | the leftmost-match search passes over header text that has no f |
| Sniffer.QuotedFilename | app/api/export/route.ts:21-22 | `filename="NAME"` after a prefix without the letter f (in either case) yields NAME |
| Sniffer.ExtendedFilename | app/api/export/route.ts:21-22 | `filename*=UTF-8''NAME` (any case) after a prefix without the letter f, at the end of the header, yields NAME |
| Flatten.SafeCell | app/api/export/route.ts:57-62 | strings over 32000 characters keep their first 32000 and end with the truncation mark (at most 32012 characters); everything else is unchanged |
| Flatten.SafeCellIdempotent | app/api/export/route.ts:58-62 | guarding a guarded cell changes nothing |
| Flatten.ShouldSummarize | app/api/export/route.ts:65-75 | a path is noisy when its lower-cased form contains one of the six patterns |
| Flatten.NoisyIsSummarized | app/api/export/route.ts:65-75 | a path holding any letter-case variant of a pattern, anywhere, is summarized |
| Flatten.NotNoisy | app/api/export/route.ts:65-75 | a path none of whose characters lower-cases to a, p, c or h (the first letters of the six patterns) is not summarized |
| Flatten.AssignAppends | app/api/export/route.ts:91-95 | assigning to a key the record lacks appends it at the end |
| Flatten.AssignReplaces | app/api/export/route.ts:91-95 | assigning to a present key replaces its value in place, order unchanged |
| Flatten.FlatRecord.Set | app/api/export/route.ts:79-95 | `out[key] = v` on the shared record |
| Flatten.FlattenRow | app/api/export/route.ts:77-99 | the in-place writer leaves the record equal to the specification `Flatten` of the old record |
| Flatten.FlattenValue | app/api/export/route.ts:77-99 | `flattenRow(obj)` with default arguments: equal to `Flat(obj)`, keys distinct, no object or array value |
| Flatten.FlattenInvariant | app/api/export/route.ts:77-99 | writing a value keeps keys distinct, values scalar and earlier keys in place; with JavaScript-sized arrays every value is a guarded cell |
| Flatten.FieldsInvariant | app/api/export/route.ts:89-97 | the same for the member loop, from any member on |
| Flatten.FlatIsFlat | app/api/export/route.ts:77-99 | no value of a flattened record is an object or array and no key repeats |
| Flatten.ItemsLabelIsCell | app/api/export/route.ts:85 | `[N items]` for a JavaScript array length is a cell the guard leaves alone |
| Flatten.RebuildFields | app/api/export/route.ts:89-97 | re-flattening a flat record member by member rebuilds it |
| Flatten.FlatIdempotent | app/api/export/route.ts:77-99 | flattening the output of flattening returns it unchanged: keys, order and values |
| Flatten.PrunedBranchUnread | app/api/export/route.ts:90-93 | a pruned branch is never looked into: any other value with the same summary gives the same record |
| Flatten.SingleMember | app/api/export/route.ts:89-95 | a nested member under a clean key is flattened one level deeper under the dotted key |
| Flatten.DepthCapExample | app/api/export/route.ts:79 | six nested objects flatten to one entry, the five-key path holding `[nested object]` |
| Tables.Last64 | app/api/export/route.ts:106 | the table name is the last at most 64 characters of the path |
| Tables.FlattenItems | app/api/export/route.ts:105 | every element is flattened into its own fresh record, in order |
| Tables.TableCollector.Push | app/api/export/route.ts:106 | appends one table to the shared list |
| Tables.CollectTablesDeep | app/api/export/route.ts:101-115 | the walk appends exactly the specification's tables to what was already collected |
| Tables.CollectItems | app/api/export/route.ts:108 | the element loop appends the tables of the elements, in index order |
| Tables.CollectFields | app/api/export/route.ts:111-113 | the member loop appends the tables of the members, in insertion order |
| Tables.CollectedIsPreorder | app/api/export/route.ts:101-115 | the tables are those of the row-set arrays of the document, in pre-order: an array's own table before the tables inside it |
| Tables.ItemsArePreorder | app/api/export/route.ts:108 | the elements are walked in index order under `path[i]` |
| Tables.FieldsArePreorder | app/api/export/route.ts:111-113 | the members are walked in insertion order under `path.k` |
| Tables.CollectedShape | app/api/export/route.ts:104-106 | every table comes from one array of the document: size equals row count equals array length, row j is the flattened element j, name is at most 64 characters |
| Tables.LeadingNullMakesTable | app/api/export/route.ts:104-106 | an array whose first element is null is a table, its first row the empty record |
| Tables.ArrayOfArraysIsNoTable | app/api/export/route.ts:104 | an array whose first element is an array is not itself a table |
| Tables.Score | app/api/export/route.ts:119-126 | the score is the row count plus at most 17000, and it exceeds the row count by 10000 or more exactly when the name holds "trial" or "tb" (that bonus outweighs the other two together) |
| Tables.TrialBalanceOutranks | app/api/export/route.ts:119-126 | a table named for a trial balance outranks any table without "trial" or "tb" that has fewer than 3000 more rows |
| Tables.SortPermutes | app/api/export/route.ts:127 | the stable descending sort, for any key and so for the score, keeps every table exactly once |
| Tables.SortOrdered | app/api/export/route.ts:127 | the sort orders by non-increasing key |
| Tables.SortStable | app/api/export/route.ts:127 | tables of equal key keep their original (traversal) order |
| Tables.AfterLastDot | app/api/export/route.ts:129 | the last segment contains no '.' |
| Tables.AfterLastDotIsLastSegment | app/api/export/route.ts:129 | the last segment is the whole tail after the last '.', or the whole name |
| Tables.DefaultSheetName | app/api/export/route.ts:129 | `Sheet<i+1>` is non-empty, does not start with whitespace and holds no '.' or forbidden character |
| Tables.GroupEnd | app/api/export/route.ts:130 | a lazy `\[.*?\]` group closes at the first ']' with no line terminator before it; when it does not close, every later ']' has a line terminator before it |
| Tables.StripBracketGroups | app/api/export/route.ts:130 | removing bracket groups never lengthens the name and introduces no character |
| Tables.BracketGroupRemoved | app/api/export/route.ts:130 | a `[...]` group on one line after text without '[' is removed and the text around it kept: `data[3]` becomes `data` |
| Tables.ReplaceForbidden | app/api/export/route.ts:130 | every forbidden character becomes a space and nothing else changes |
| Tables.CollapseIsSqueeze | app/api/export/route.ts:130 | collapsing equals the reference reading of `/\s+/g` to ' ': every whitespace character becomes a space, then every space after a space is dropped, so each maximal run becomes exactly one space and every other character stays, in order |
| Tables.CollapseKeepsChars | app/api/export/route.ts:130 | collapsing introduces no character except the space |
| Tables.CollapseLeavesSingleSpaces | app/api/export/route.ts:130 | after collapsing, every whitespace character is a plain space and no two are adjacent |
| Tables.CollapseKeepsSingleSpaced | app/api/export/route.ts:130 | a string already single-spaced is left unchanged |
| Tables.CollapseIdempotent | app/api/export/route.ts:130 | collapsing twice gives the same as collapsing once |
| Tables.Trim | app/api/export/route.ts:130 | the result neither starts nor ends with whitespace |
| Tables.TrimKeepsChars | app/api/export/route.ts:130 | trimming only removes characters |
| Tables.SheetNameLegal | app/api/export/route.ts:128-133 | every sheet name is non-empty, at most 31 characters, free of `. : \ / ? * [ ]`, and does not start with whitespace |
| Tables.SheetName | app/api/export/route.ts:128-132 | the name for the i-th ranked table: the last dotted segment (or `Sheet<i+1>`), bracket groups removed, forbidden characters blanked, whitespace collapsed and trimmed, `Sheet<i+1>` again if empty, cut to 31 |
| Tables.PlainSegmentKept | app/api/export/route.ts:128-133 | a last segment that is already a legal name, whose only whitespace is single plain spaces between other characters, is used unchanged |
| Tables.DoubleSpaceCollapsed | app/api/export/route.ts:128-133 | a legal segment with two spaces in a row is changed: `x.a  b` gives `a b` |
| Tables.ExtractTablesFromZohoDeep | app/api/export/route.ts:117-134 | as many tables as were collected, each with a legal sheet name, equal to the ranked and renamed specification |
| Tables.ExtractedIsRanking | app/api/export/route.ts:117-134 | the output is a permutation of the collected tables ordered by non-increasing score, ties in traversal order; only names change |
| ColumnMapper.AliasesAreLowerCase | app/api/export/route.ts:138-141 | the four alias lists are unchanged by lower-casing |
| ColumnMapper.PickByKeys | app/api/export/route.ts:151-165 | the two early-return scans return the specification's pick |
| ColumnMapper.FindTailFirst | app/api/export/route.ts:154-158 | the first scan returns the first entry whose key equals an alias or ends with '.' and an alias, and nothing when there is none |
| ColumnMapper.FindLooseFirst | app/api/export/route.ts:160-163 | the second scan returns the first entry whose key contains an alias, and nothing when there is none |
| ColumnMapper.PickTiers | app/api/export/route.ts:151-165 | the first tier wins; the second is used only when no key passes the first; undefined exactly when no key passes either |
| ColumnMapper.PickIgnoresAliasOrder | app/api/export/route.ts:151-165 | the order of aliases in a list does not affect the pick |
| ColumnMapper.SuffixHitBeatsLaterExactHit | app/api/export/route.ts:154-158 | `account.code` before `code` is picked for the code column |
| ColumnMapper.StripSeparators | app/api/export/route.ts:146 | no comma or space remains, and every other character of the input does |
| ColumnMapper.StripOne | app/api/export/route.ts:146 | a comma or a space is removed, any other character is kept |
| ColumnMapper.StripDistributes | app/api/export/route.ts:146 | stripping a concatenation strips each part, so the kept characters keep their order and their count |
| ColumnMapper.ToNumber | app/api/export/route.ts:143-149 | absent, null and "" read as absent, never 0; numbers pass through exactly when finite; every result is finite |
| ColumnMapper.SeparatorsIgnored | app/api/export/route.ts:146 | strings that differ only in commas and spaces read the same |
| ColumnMapper.SeparatorsOnlyIsZero | app/api/export/route.ts:146-148 | a non-empty string of commas and spaces reads as 0 |
| ColumnMapper.MapRowToFourCols | app/api/export/route.ts:167-174 | flattens once, picks the four fields, and both amounts are finite when present |
| ColumnMapper.MapFlattenedRow | app/api/export/route.ts:168 | mapping an already flattened table row gives what mapping the original element gives |
| ColumnMapper.CodeAloneAlsoNames | app/api/export/route.ts:169-170 | a record with only `account_code` fills both the name and the code column |
| ColumnMapper.Keep | app/api/export/route.ts:309 | `(r.name ?? r.account_code) != null`: the name, or failing that the code, is present and not null |
| ColumnMapper.KeptRows | app/api/export/route.ts:309 | a mapped row is kept exactly when its name or its code is not nullish |
| ColumnMapper.KeptOne | app/api/export/route.ts:309 | one row is kept exactly when `Keep` holds of it |
| ColumnMapper.KeptDistributes | app/api/export/route.ts:309 | filtering a concatenation filters each part, so kept rows keep their input order and their duplicates |
| ColumnMapper.RenderRowShape | app/api/export/route.ts:315 | four cells, none null, a blank amount exactly where the amount is missing |
| ColumnMapper.CanonicalSheetShape | app/api/export/route.ts:313-316 | the fixed header and then one line per kept row, in order |
| ColumnMapper.CanonicalSheetEmpty | app/api/export/route.ts:313-316 | no rows give the header alone |
| ColumnMapper.CanonicalSheetGrows | app/api/export/route.ts:309-316 | appending an input row appends its rendered line exactly when the row is kept, so the lines follow the input order, duplicates included |
| Handler.LooksJson | app/api/export/route.ts:243-246 | the payload is taken for JSON when the sniffer says json, the Content-Type mentions json, or the head opens an object or array |
| Handler.HeadOpensJsonIff | app/api/export/route.ts:246 | the head test holds exactly when a '{' or '[' is preceded by whitespace only |
| Handler.IsUpstreamError | app/api/export/route.ts:294 | a truthy code and message, and neither a truthy trial balance nor truthy data |
| Handler.ErrorEnvelopeByTruthiness | app/api/export/route.ts:294 | code 0, an empty message, a truthy trial balance or data member, or a non-object body is no error envelope |
| Handler.ErrorEnvelopeRecognised | app/api/export/route.ts:294 | a non-zero numeric code with a message is an error envelope |
| Handler.ConvertAsWritten | app/api/export/route.ts:272-369 | the conversion with the JSON guard as written (`!xlsxBuf` always false) |
| Handler.Convert | app/api/export/route.ts:272-369 | the conversion with the JSON guard as intended (nothing written yet) |
| Handler.ParsedJsonNeverMapped | app/api/export/route.ts:293 | as written, every parsed JSON body ends in the no-content Info sheet |
| Handler.ErrorEnvelopeLostAsWritten | app/api/export/route.ts:293-294 | an error envelope gets the Info sheet as written and the "Zoho Error" sheet as intended |
| Handler.JsonRouting | app/api/export/route.ts:293-321 | as intended: error envelope to "Zoho Error" with its code and message, other truthy bodies to the four-column sheet, falsy bodies to the no-content sheet |
| Handler.CorrectionOnlyTouchesParsedJson | app/api/export/route.ts:272-369 | the correction leaves every other path as written |
| Handler.JsonBranchNonEmpty | app/api/export/route.ts:276-321 | every sheet the JSON branch writes has a name and a non-empty first row |
| Handler.AlwaysOneSheet | app/api/export/route.ts:272-369 | once the format is sniffed and, for a spreadsheet, its rows are read, the conversion builds one named sheet with a non-empty first row, with the JSON guard as written or as intended |
| Handler.SpreadsheetRouting | app/api/export/route.ts:323-356 | a payload not taken for JSON: xlsx, xls and csv go through the mapper, pdf and the rest get the explanatory Info sheet |
| Handler.Answer | app/api/export/route.ts:237-399 | from the fetched payload to the answer, for a given value of the JSON guard: a throwing sniffer or spreadsheet reader reaches the outer catch (500, no converted upload); otherwise the converted sheet is uploaded |
| Handler.Export | app/api/export/route.ts:237-399 | the handler as written: the answer with the JSON guard `!xlsxBuf`, always false |
| Handler.ExportIntended | app/api/export/route.ts:237-399 | the handler with the JSON guard as intended (nothing written yet) |
| Handler.ExportOutcome | app/api/export/route.ts:237-399 | for either guard, the answer is an error exactly when the file name holds a '%' escape that cannot be decoded, or when a payload read as a spreadsheet cannot be read; otherwise the uploaded sheet is the conversion of the payload as sniffed (taken for JSON by `LooksJson`), named and with a non-empty first row |
| Handler.JsonIgnoresReader | app/api/export/route.ts:272-333 | a payload taken for JSON never reaches the spreadsheet reader, so its answer does not depend on whether reading would throw |
| Handler.ExportCorrectionOnlyTouchesParsedJson | app/api/export/route.ts:237-399 | the handler as written and as intended answer alike except for a payload taken for JSON whose body parses to a truthy value |

## Left out

- Network, database and file-store I/O in the handler: the token refresh, the database query, the loop over request URLs, and the two Drive uploads. The model starts from the fetched bytes and headers.
- The spreadsheet library: reading an incoming workbook is the parameter `read` of `Handler.Answer` (its rows, `None` when `XLSX.read` or `sheet_to_json` throws), and writing sheets and workbooks is not modelled. A sheet is modelled as its name and the matrix of cells handed to the writer.
- Handler.Answer: only the two throws that depend on the payload are modelled (the sniffer's URIError and the reader's failure). The missing Drive parent folder, a failing Drive upload and a throwing sheet writer also end in the error answer and are outside the model, as is the raw-file upload that precedes the conversion.
- Sniffer.GuessExtMime: `decodeURIComponent` is the identity on a string without '%'. For any other string it is the parameter `decode`, whose `None` stands for the URIError it throws.
- ColumnMapper.ToNumber: `Number(s)` is the parameter `parse`, except that the empty string reads as 0. Finiteness is tested on the rendering, so "Infinity", "-Infinity" and "NaN" are not finite.
- The UTF-8 decoding of the first 128 bytes and of the whole body, and `JSON.parse` itself. The model takes the decoded head and the parse outcome as inputs.
- Lower-casing (`toLowerCase`, the `/i` flag) is modelled for ASCII letters only.
- Lengths are counted in Dafny characters, not UTF-16 code units. This affects the 32000-character cell guard, the 64-character name slice and the 31-character sheet-name cut for text outside the Basic Multilingual Plane.
- Object members keep insertion order. JavaScript's enumeration of integer-like keys first is not modelled.
- Flatten.Assign: a member named `__proto__`, which `JSON.parse` creates as an ordinary member, is flattened like any other key. In JavaScript, `out['__proto__'] = v` with a scalar `v` runs the `Object.prototype` setter and adds no entry, so the source drops that member. `Flatten.FlatRecord.Set` has the same gap. The model treats the record as a plain dictionary.
- Tables.ExtractTablesFromZohoDeep: the in-place `Array.prototype.sort` belongs to the engine. It is modelled on values by a stable insertion sort (`SortByScore`) and specified by its permutation, order and stability lemmas.
- Sheet-name de-duplication and workbooks with several tables do not exist in the code: only the first-ranked table is used.
- Encryption helpers, Zoho and database configuration, the Drive wrapper, the UI and the debug endpoints are not part of this model.

## Findings

| source | as written | input that shows it | evidently intended | confidence | as-written member | corrected member |
|---|---|---|---|---|---|---|
| app/api/export/route.ts:293 | `!xlsxBuf && jsonBody` tests the truthiness of the buffer initialised by `Buffer.alloc(0)`. A Buffer is an object, so the test is always false, and a parsed JSON body never reaches the mapper or the error sheet. The final guard then produces the "No XLSX content" Info sheet | any JSON body that parses, e.g. `{"code":57,"message":"Invalid scope"}` or a trial-balance document | `xlsxBuf.length === 0 && jsonBody` | high; not executed | Handler.ParsedJsonNeverMapped | Handler.JsonRouting |
