# qr-reader-sheets: the normalise-then-serialise core, in Dafny

The QR reader turns the text decoded from a QR code into a row of a spreadsheet. This
model covers the four functions of `qr-reader-sheets/src/sheets.js` that do the work:

- `isJSONLike` tests whether the trimmed text is delimited by `{…}` or `[…]`.
- `normalizeQRContent` trims its input and returns `{}` for empty text. Otherwise it runs
  a rule chain where the first match wins, numbered as in the source's comments:
  1. JSON-shaped text is returned as the trimmed string;
  2. an `http(s)://` URL gives its query parameters, or `{url}` when it has none;
  3. `k=v&k2=v2` text is split and percent-decoded;
  4. `k:v, k2:v2` (or `k=v, k2=v2`) text is split into a list of pairs;
  5. anything else becomes `{value: text}`.
- `toJSON` parses a string, keeps an object, and wraps anything else as `{value}`.
- `toCSVLine` writes a quoted header line and a quoted value line.

Modules:

- `JsStrings` (`js_strings.dfy`) models the JavaScript string built-ins the code relies on:
  - `trim` with the ECMAScript whitespace set;
  - `split` on one character or on a one-character class;
  - `startsWith`, `endsWith` and `join`.
- `JsValues` (`js_values.dfy`) models the values involved:
  - JavaScript values, truthiness and `String()`;
  - plain objects as ordered key/value records, with the two ways sheets.js fills them: `obj[k] = v` (`Put`, `PutAll`) and `Object.fromEntries` (`FromEntries`);
  - the host built-ins (`new URL`, `JSON.parse`, `decodeURIComponent`) as partial functions in a `Host` value, where `None` stands for "throws".
- `Sheets` (`sheets.dfy`) holds the four functions of sheets.js:
  - `IsJSONLike`, `ToJSON` and `ToCSVLine` as functions;
  - `Normalize`, a function that specifies normalizeQRContent's rule chain, one function per rule;
  - `NormalizeQRContent`, normalizeQRContent as the source writes it: a method with early returns and two loops that build the object by assignment, one per `forEach`. It is proved to compute `Normalize`.
- `CsvReader` (`csv_reader.dfy`) is an independent reader for the CSV text, quoted as in RFC 4180, section 2, items 5 to 7. `ToCSVLine` is proved against it: reading what it wrote gives back the keys and the cell texts.
- `SheetsProperties` (`sheets_properties.dfy`) proves the promises of the rule chain and of `toJSON`.
- `SheetsExamples` (`sheets_examples.dfy`) works through rules 3 to 5 and toCSVLine, stated for any characters that play no part in the rules.

Where a caller might expect something other than what the code does, the model follows the code:

- **Bad percent-escapes throw.** A caller might expect normalizeQRContent never to throw, since the URL rule sits in a `try`. But line 36 calls `decodeURIComponent` outside the `try`, so a malformed percent-escape in rule 3 throws a URIError to the caller. `Normalize` returns `Throw(URIError)`; see `SheetsProperties.NormalizeThrows` and `SheetsExamples.BadEscapeExample`.
- **The non-object CSV fallback is one line.** Every other CSV toCSVLine writes is a header line and a value line. Line 69 writes the single line `"value","<String(obj)>"`; see `CsvReader.CsvFallbackSingleRow`.
- **Only the first two pieces of a split are used:**
  - in rule 3, the value is only the text between the first and second `=`;
  - in rule 4, only the first two pieces of the `/[:=]/` split are used.

## Model

| member | source | states |
|---|---|---|
| JsStrings.Trim | qr-reader-sheets/src/sheets.js:7 | the result has no whitespace at either end and is no longer than the input |
| JsStrings.TrimEmptyIffAllWhitespace | qr-reader-sheets/src/sheets.js:13-14 | the trim is empty exactly when every character is whitespace |
| JsStrings.TrimIsInfix | qr-reader-sheets/src/sheets.js:13 | the trim is a slice of the text with only whitespace before and after it |
| JsStrings.TrimOfTrimmed | qr-reader-sheets/src/sheets.js:13 | text without whitespace at either end is unchanged by trim |
| JsStrings.TrimIdempotent | qr-reader-sheets/src/sheets.js:7 | trimming the already trimmed text (isJSONLike trims again) changes nothing |
| JsStrings.Split | qr-reader-sheets/src/sheets.js:34-35 | split always gives at least one piece |
| JsStrings.SplitPieces | qr-reader-sheets/src/sheets.js:44-45 | there is one piece more than separators, and no piece holds a separator |
| JsStrings.SplitWhole | qr-reader-sheets/src/sheets.js:44 | text without a separator splits into itself alone |
| JsStrings.SplitFirst | qr-reader-sheets/src/sheets.js:35 | the first piece is the text before the first separator, the rest is the split of what follows |
| JsStrings.SplitJoin | qr-reader-sheets/src/sheets.js:34 | splitting on a character and joining with it gives the text back |
| JsStrings.Decimal | qr-reader-sheets/src/sheets.js:70 | an array index key is a non-empty digit string, without a leading zero, that reads back (`DigitsValue`) as the index itself |
| JsStrings.DecimalInjective | qr-reader-sheets/src/sheets.js:70 | different indices give different keys |
| JsStrings.StartsWith | qr-reader-sheets/src/sheets.js:8-9 | definition of startsWith; `Sheets.BracketedByOne` states what it means for one character |
| JsStrings.EndsWith | qr-reader-sheets/src/sheets.js:8-9 | definition of endsWith; `Sheets.BracketedByOne` states what it means for one character |
| JsStrings.Join | qr-reader-sheets/src/sheets.js:71-72 | definition of join; `JsStrings.SplitJoin` proves it inverts split |
| JsValues.Truthy | qr-reader-sheets/src/sheets.js:13 | definition of ToBoolean: false, 0, NaN, "", null and undefined are falsy; `SheetsProperties.NormalizeEmptyIff` and `CsvReader.CsvFallbackSingleRow` state its effect |
| JsValues.ToStr | qr-reader-sheets/src/sheets.js:69 | definition of `String(v)`; `CsvReader.CsvFallbackSingleRow` states where it appears |
| JsValues.IsObject | qr-reader-sheets/src/sheets.js:61 | definition of `typeof x === 'object'` (null included); `Sheets.ToJSON` and `CsvReader.CsvFallbackSingleRow` state its effect |
| JsValues.CellText | qr-reader-sheets/src/sheets.js:72 | `String(v ?? '')`: null and undefined give empty text, a string gives itself |
| JsValues.Assign | qr-reader-sheets/src/sheets.js:36 | an existing key keeps its place, a new key goes last, and the key then holds the new value |
| JsValues.AssignLeavesOtherKeys | qr-reader-sheets/src/sheets.js:46 | assigning one key leaves every other key's value unchanged |
| JsValues.AssignKeepsKeysDistinct | qr-reader-sheets/src/sheets.js:46 | assignment never duplicates a key |
| JsValues.AssignKeepsStringValued | qr-reader-sheets/src/sheets.js:36 | assigning a string keeps every value a string |
| JsValues.Put | qr-reader-sheets/src/sheets.js:36 | definition of `obj[k] = v`: `Assign`, except that `__proto__` changes nothing; `SheetsProperties.PutAllLastWins` states its effect |
| JsValues.PutAll | qr-reader-sheets/src/sheets.js:33-37 | definition of `{}` followed by one assignment per pair, as both forEach loops do; `SheetsProperties.PutAllLastWins` and `PutAllKeys` state what it builds |
| JsValues.FromEntries | qr-reader-sheets/src/sheets.js:24-25 | Object.fromEntries gives an empty object exactly for no entries |
| JsValues.FromEntriesWellFormed | qr-reader-sheets/src/sheets.js:24 | Object.fromEntries gives distinct keys and string values |
| JsValues.PutAllWellFormed | qr-reader-sheets/src/sheets.js:33-37 | the assignments give distinct keys, string values and never an own `__proto__` |
| JsValues.Entries | qr-reader-sheets/src/sheets.js:70 | definition of Object.entries: an object's properties in order, or an array's (decimal index, element) pairs; `JsValues.EntriesDistinctKeys` and `CsvReader.CsvRoundTrip` state its effect |
| JsValues.EntriesDistinctKeys | qr-reader-sheets/src/sheets.js:70-71 | Object.entries never repeats a key for an array, or for an object with distinct keys, so no header field is repeated |
| Sheets.JsonShaped | qr-reader-sheets/src/sheets.js:7-9 | true exactly when the trimmed text is at least two characters delimited by `{}` or `[]` |
| Sheets.IsJSONLike | qr-reader-sheets/src/sheets.js:5-10 | false for every non-string; for a string, true exactly when its trim is delimited by `{}` or `[]` |
| Sheets.BracketedByOne | qr-reader-sheets/src/sheets.js:8-9 | startsWith and endsWith of one character test the first and last character, with a lone `{` or `[` excluded |
| Sheets.AmpPairsStep | qr-reader-sheets/src/sheets.js:34-37 | one more `&`-piece extends the assignments by exactly that piece's effect |
| Sheets.AmpPairsFailurePersists | qr-reader-sheets/src/sheets.js:36 | once a decode throws, the whole query-string rule throws |
| Sheets.ToJSON | qr-reader-sheets/src/sheets.js:55-65 | a string JSON.parse accepts comes back as exactly its parse; an object or array is returned unchanged; the result is an object, an array, or what JSON.parse made of the string |
| Sheets.HasHttpScheme | qr-reader-sheets/src/sheets.js:22 | definition of `/^https?:\/\//i`; `SheetsProperties.UrlParsed` and `PlainTextFallback` state its effect |
| Sheets.UrlRule | qr-reader-sheets/src/sheets.js:20-29 | definition of rule 2; `SheetsProperties.UrlParsed`, `UrlParseFailureFallsThrough` and `UrlRuleWellFormed` carry its contract |
| Sheets.AmpStepOf | qr-reader-sheets/src/sheets.js:35-36 | definition of one `&`-piece's step; `SheetsExamples.ExtraEqualsExample`, `EmptyKeysExample` and `BadEscapeExample` show each outcome |
| Sheets.AmpPairs | qr-reader-sheets/src/sheets.js:34-37 | definition of the assignments rule 3 makes; `SheetsProperties.AmpPairsNoneIff` characterises its failure |
| Sheets.AmpRule | qr-reader-sheets/src/sheets.js:32-39 | definition of rule 3; `SheetsProperties.KeyValueRulesThrow` and `KeyValueRulesWellFormed` carry its contract |
| Sheets.PartPair | qr-reader-sheets/src/sheets.js:45-46 | definition of one `,`-part's pair; `SheetsExamples.ColonPair` and `ListExtraPiecesExample` show it |
| Sheets.PartPairs | qr-reader-sheets/src/sheets.js:44-47 | definition of the assignments rule 4 makes; `Sheets.AssignListParts` is proved to compute it |
| Sheets.PairRule | qr-reader-sheets/src/sheets.js:42-49 | definition of rule 4; `SheetsProperties.KeyValueRulesWellFormed` and `SheetsExamples.KeyValueListExample` carry its contract |
| Sheets.KeyValueRules | qr-reader-sheets/src/sheets.js:32-52 | definition of rules 3 to 5 in order; `SheetsProperties.KeyValueRulesThrow` and `PlainTextFallback` carry its contract |
| Sheets.NormalizeText | qr-reader-sheets/src/sheets.js:14-52 | definition of the chain on the trimmed text; `SheetsProperties.RulesGiveNonEmpty` and `NormalizeTextThrows` carry its contract |
| Sheets.Normalize | qr-reader-sheets/src/sheets.js:12-53 | definition of normalizeQRContent's result; the `SheetsProperties` lemmas `NormalizeEmptyIff`, `NormalizeStringIff`, `NormalizeThrows` and `NormalizeWellFormed` carry its contract |
| Sheets.Escape | qr-reader-sheets/src/sheets.js:71-72 | definition of `replaceAll('"','""')`; `CsvReader.ReadQuotedEscape` proves un-doubling inverts it |
| Sheets.Quote | qr-reader-sheets/src/sheets.js:71-72 | definition of one quoted field; `CsvReader.ReadFieldsQuoted` proves it reads back |
| Sheets.QuotedRow | qr-reader-sheets/src/sheets.js:71-72 | definition of the quoted fields joined with commas; `CsvReader.ReadRowQuotedRow` proves it reads back |
| Sheets.CellsOf | qr-reader-sheets/src/sheets.js:72 | definition of the `String(v ?? '')` cells; `CsvReader.CsvRoundTrip` states where they appear |
| Sheets.ToCSVLine | qr-reader-sheets/src/sheets.js:67-74 | definition of toCSVLine; `CsvReader.CsvRoundTrip`, `CsvFallbackSingleRow` and `CsvEmptyRecord` carry its contract |
| Sheets.AssignQueryPieces | qr-reader-sheets/src/sheets.js:33-37 | the first forEach computes the assignments of all `&`-pieces, or reports the throwing decode |
| Sheets.AssignListParts | qr-reader-sheets/src/sheets.js:43-47 | the second forEach computes the assignments of all qualifying `,`-parts |
| Sheets.NormalizeQRContent | qr-reader-sheets/src/sheets.js:12-53 | the method's early returns compute exactly the rule chain `Normalize` |
| CsvReader.ReadQuotedEscape | qr-reader-sheets/src/sheets.js:71-72 | a field with quotes doubled reads back as the original text: un-doubling inverts the escape |
| CsvReader.EscapeAppend | qr-reader-sheets/src/sheets.js:72 | replaceAll works character by character: the escape of a concatenation is the concatenation of escapes |
| CsvReader.EscapeNoQuotes | qr-reader-sheets/src/sheets.js:71 | text without double quotes is written as it is |
| CsvReader.EscapeDoublesQuote | qr-reader-sheets/src/sheets.js:69 | each inner double quote is written twice |
| CsvReader.QuotedRowCons | qr-reader-sheets/src/sheets.js:71 | a row of quoted fields is the first quoted field, a comma, and the rest of the row |
| CsvReader.ReadFieldsQuoted | qr-reader-sheets/src/sheets.js:71-72 | a quoted field reads back and reading continues after it |
| CsvReader.ReadFieldsQuotedRow | qr-reader-sheets/src/sheets.js:71-72 | a non-empty row reads back as its fields, stopping at the end of the line |
| CsvReader.ReadRowQuotedRow | qr-reader-sheets/src/sheets.js:71-73 | any row, including an empty one, reads back as its fields |
| CsvReader.ReadTwoRows | qr-reader-sheets/src/sheets.js:73 | header, line feed and values read back as two rows |
| CsvReader.CsvRoundTrip | qr-reader-sheets/src/sheets.js:70-73 | for an object or array, the CSV is two rows, the keys and the `String(v ?? '')` cells, one field per entry in entry order |
| CsvReader.CsvFallbackSingleRow | qr-reader-sheets/src/sheets.js:69 | for a falsy value or non-object, the CSV is the single row `value`, `String(obj)` |
| CsvReader.CsvEmptyRecord | qr-reader-sheets/src/sheets.js:70-73 | `{}` gives `"\n"`, two empty rows |
| SheetsProperties.RulesGiveNonEmpty | qr-reader-sheets/src/sheets.js:17-52 | no rule after the first returns `{}` |
| SheetsProperties.NormalizeEmptyIff | qr-reader-sheets/src/sheets.js:13-14 | the result is `{}` exactly for a falsy input or whitespace-only text |
| SheetsProperties.NormalizeStringIff | qr-reader-sheets/src/sheets.js:13-17 | a string comes back exactly for text whose trim is JSON-shaped, and it is that trim, unparsed |
| SheetsProperties.UrlParsed | qr-reader-sheets/src/sheets.js:22-27 | a URL that parses gives Object.fromEntries of its parameters, or `{url: s}` when there are none |
| SheetsProperties.UrlParseFailureFallsThrough | qr-reader-sheets/src/sheets.js:20-29 | a URL the parser rejects goes on to the later rules instead of throwing |
| SheetsProperties.PlainTextFallback | qr-reader-sheets/src/sheets.js:13-52 | any input whose trim no earlier rule takes, holding neither `:` nor `=`, becomes `{value: <the trim>}` |
| SheetsProperties.AmpPairsNoneIff | qr-reader-sheets/src/sheets.js:34-37 | the query-string loop fails exactly when some piece's decode throws |
| SheetsProperties.NormalizeThrows | qr-reader-sheets/src/sheets.js:13-39 | a TypeError exactly for a truthy non-string; a URIError exactly when rule 3 is reached and a piece has a bad escape |
| SheetsProperties.NormalizeTextThrows | qr-reader-sheets/src/sheets.js:17-39 | on trimmed text only the query-string rule throws, and only a URIError |
| SheetsProperties.KeyValueRulesThrow | qr-reader-sheets/src/sheets.js:32-52 | the rules after the URL rule throw exactly when rule 3 applies and a decode fails |
| SheetsProperties.LookupFindsKeys | qr-reader-sheets/src/sheets.js:36 | a property is found exactly when its key is among the object's keys |
| SheetsProperties.PutAllKeys | qr-reader-sheets/src/sheets.js:33-38 | the keys `Object.keys` counts are exactly those some pair assigns, `__proto__` excepted |
| SheetsProperties.PutAllLastWins | qr-reader-sheets/src/sheets.js:33-37 | each key holds the value of its last assignment; `__proto__` never becomes a property |
| SheetsProperties.FromEntriesLastWins | qr-reader-sheets/src/sheets.js:24 | Object.fromEntries keeps the last value given for a repeated key |
| SheetsProperties.UrlRuleWellFormed | qr-reader-sheets/src/sheets.js:24-27 | the URL rule's object has distinct keys and string values |
| SheetsProperties.KeyValueRulesWellFormed | qr-reader-sheets/src/sheets.js:32-52 | the key/value rules return objects with distinct keys and string values |
| SheetsProperties.NormalizeWellFormed | qr-reader-sheets/src/sheets.js:12-53 | a normal result is the JSON-shaped string or an object with distinct keys and string values |
| SheetsProperties.JsonRoundTrip | qr-reader-sheets/src/sheets.js:57-58 | JSON text comes out of normalizeQRContent as its trim (line 17), and toJSON then returns exactly JSON.parse of it |
| SheetsProperties.ToJSONIdempotent | qr-reader-sheets/src/sheets.js:61 | toJSON of an object or array it returned changes nothing |
| SheetsProperties.ToJSONWrapsScalars | qr-reader-sheets/src/sheets.js:64 | an unparsed non-object becomes `{value: String(x ?? '')}`, so null gives `{value: ""}` |
| SheetsProperties.PipelineYieldsObject | qr-reader-sheets/src/sheets.js:55-65 | toJSON of any normal result of normalizeQRContent is an object or array |
| SheetsExamples.ReachesKeyValueRules | qr-reader-sheets/src/sheets.js:13-29 | trimmed text that is neither JSON-shaped nor a URL reaches the key/value rules |
| SheetsExamples.QueryStringExample | qr-reader-sheets/src/sheets.js:32-38 | `k1=v1&k2=v2` gives both properties in order, or only the later one when the keys agree |
| SheetsExamples.ExtraEqualsExample | qr-reader-sheets/src/sheets.js:35 | in `k=a=b` the value is only `a` |
| SheetsExamples.BadEscapeExample | qr-reader-sheets/src/sheets.js:36 | `k=%&b` throws a URIError out of normalizeQRContent |
| SheetsExamples.EmptyKeysExample | qr-reader-sheets/src/sheets.js:36-52 | `=a&=b` assigns nothing in either rule and becomes `{value: s}` |
| SheetsExamples.ColonPair | qr-reader-sheets/src/sheets.js:45-46 | `k:v` and ` k:v` both give the trimmed pair (k, v) |
| SheetsExamples.KeyValueListExample | qr-reader-sheets/src/sheets.js:42-48 | `k1:v1, k2:v2` gives both trimmed properties in order, or only the later one when the keys agree |
| SheetsExamples.ListExtraPiecesExample | qr-reader-sheets/src/sheets.js:45-46 | in `k:a=b` only the second piece `a` is the value |
| SheetsExamples.CsvScalarExample | qr-reader-sheets/src/sheets.js:69 | a scalar without quotes gives the single line `"value","<String(v)>"` |
| SheetsExamples.CsvTwoFieldsExample | qr-reader-sheets/src/sheets.js:70-73 | `{k1: x, k2: null}` gives the quoted keys, a line feed, the escaped `x` and an empty field |

## Left out

- `qr-reader-sheets/src/main.js` is not part of this model. It holds the DOM, canvas drawing, the camera lifecycle and the `fetch` to the spreadsheet endpoint, which are I/O with no logic of their own beyond calling sheets.js.
- `new URL` and `searchParams`, `JSON.parse` and `decodeURIComponent` are not modelled. They are the `Host` parameter's partial functions, and `None` means the call throws. `parseUrl` returns the already decoded parameter entries in order.
- Lemmas that need host behaviour assume it through two named predicates:
  - `DecodeKeepsPlainText`: decoding text without `%` returns it unchanged;
  - `JsonKeepsShape`: JSON.parse of text starting with `{` or `[` can only give an object or an array.
- SheetsProperties.PipelineYieldsObject: holds only for a JSON parser satisfying `JsonKeepsShape`. The model does not include the JSON grammar that makes this true of JSON.parse.
- Integer-like keys are not reordered. JavaScript lists integer-like keys of an object first, in ascending order; the model keeps every key in insertion order.
- Numbers are carried by their `String()` text (`Num`). Number formatting and arithmetic are not modelled.
- JsValues.ToStr: gives `[object Object]` for every object, but `String()` of an object with an own `toString` property that is not a function throws a TypeError. JSON.parse builds such an object from QR text like `{"a":{"toString":1}}`, and toCSVLine then throws at line 72, where it calls `String(v ?? '')` on it; the same happens to such an object inside an array, through `Array.prototype.join`. For that input `CsvReader.CsvRoundTrip` describes an output toCSVLine never writes, since it throws instead.
- Functions, symbols and bigints are not in `Value`: JSON.parse and the normaliser never produce them.
- A truthy non-string input is modelled only as the TypeError that `.trim()` raises. Which host objects might have a `trim` method of their own is not modelled.
- `Join` models `Array.prototype.join` only on strings. Array cells go through `String(v ?? '')` first, as `Array.prototype.toString` does.
