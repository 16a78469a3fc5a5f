/** The normalise-then-serialise core of the QR reader: decoded QR text becomes a key/value
    record (normalizeQRContent), then a definite object (toJSON), then a header line and a
    value line of CSV (toCSVLine). */
module Sheets {
  import opened JsStrings
  import opened JsValues

  datatype ErrorKind = TypeError | URIError

  /** How a call ends: with a value, or with an exception that escapes it. */
  datatype Completion = Normal(value: Value) | Throw(error: ErrorKind)

  /** Text delimited by braces or by brackets. */
  predicate Delimited(t: string)
  {
    |t| >= 2 && ((t[0] == '{' && t[|t| - 1] == '}') || (t[0] == '[' && t[|t| - 1] == ']'))
  }

  /** The string case of isJSONLike: the trimmed text starts with `{` and ends with `}`, or
      starts with `[` and ends with `]`; a lone `{` or `[` does not qualify. */
  function JsonShaped(s: string): (r: bool)
    ensures r <==> Delimited(Trim(s))
  {
    var t := Trim(s);
    BracketedByOne(t, '{', '}');
    BracketedByOne(t, '[', ']');
    (StartsWith(t, "{") && EndsWith(t, "}")) || (StartsWith(t, "[") && EndsWith(t, "]"))
  }

  /** startsWith and endsWith of one character look at the first and the last character. */
  lemma BracketedByOne(t: string, open: char, close: char)
    requires open != close
    ensures StartsWith(t, [open]) && EndsWith(t, [close])
      <==> |t| >= 2 && t[0] == open && t[|t| - 1] == close
  {
    if |t| >= 1 {
      assert t[..1] == [t[0]] && t[|t| - 1..] == [t[|t| - 1]];
    }
  }

  /** isJSONLike: false for anything but a string, otherwise a check of the trimmed text's
      delimiters only; nothing is parsed. */
  function IsJSONLike(v: Value): (r: bool)
    ensures r <==> v.Str? && Delimited(Trim(v.s))
  {
    match v
    case Str(s) => JsonShaped(s)
    case _ => false
  }

  /** The regular expression /^https?:\/\//i: "http://" or "https://" at the start,
      the letters in either case. */
  predicate HasHttpScheme(s: string)
  {
    |s| >= 7 && Letter(s[0], 'h') && Letter(s[1], 't') && Letter(s[2], 't') && Letter(s[3], 'p')
    && (s[4..7] == "://" || (|s| >= 8 && Letter(s[4], 's') && s[5..8] == "://"))
  }

  /** `c` is the lower-case ASCII letter `lower`, or its upper case. */
  predicate Letter(c: char, lower: char)
  {
    c == lower || c as int == lower as int - 32
  }

  /** The URL rule: a text with an http(s) scheme that the URL parser accepts gives its query
      parameters, or the single field `url` when there are none. A rejected URL gives None,
      so the chain goes on. */
  function UrlRule(s: string, host: Host): Option<Record>
  {
    if !HasHttpScheme(s) then None
    else
      match host.parseUrl(s)
      case None => None
      case Some(params) =>
        var obj := FromEntries(params);
        Some(if |obj| > 0 then obj else [("url", Str(s))])
  }

  /** What one `&`-piece does in the query-string rule. */
  datatype AmpStep = Skipped | Assigns(key: string, val: string) | Throws

  /** A piece with an empty raw key does nothing; otherwise its key (the text before the first
      `=`) and its value (the text between the first and second `=`, or nothing) are trimmed
      and percent-decoded, and a malformed escape throws. */
  function AmpStepOf(piece: string, host: Host): AmpStep
  {
    var kv := Split(piece, {'='});
    var k := kv[0];
    var v := if |kv| > 1 then kv[1] else "";
    if k == "" then Skipped
    else
      match (host.decodeComponent(Trim(k)), host.decodeComponent(Trim(v)))
      case (Some(dk), Some(dv)) => Assigns(dk, dv)
      case _ => Throws
  }

  /** The assignments the given pieces make, in order; None once one of them throws. */
  function AmpPairs(pieces: seq<string>, host: Host): Option<seq<(string, string)>>
  {
    if |pieces| == 0 then Some([])
    else
      match AmpPairs(pieces[..|pieces| - 1], host)
      case None => None
      case Some(pairs) =>
        match AmpStepOf(pieces[|pieces| - 1], host)
        case Skipped => Some(pairs)
        case Assigns(k, v) => Some(pairs + [(k, v)])
        case Throws => None
  }

  /** The query-string rule, for text holding both `=` and `&`: None when it does not apply
      or yields no property, so the chain goes on. */
  function AmpRule(s: string, host: Host): Option<Completion>
  {
    if !('=' in s && '&' in s) then None
    else
      match AmpPairs(Split(s, {'&'}), host)
      case None => Some(Throw(URIError))
      case Some(pairs) =>
        var obj := PutAll(pairs);
        if |obj| > 0 then Some(Normal(Obj(obj))) else None
  }

  /** What one `,`-part contributes in the key/value-list rule: when its raw key (the text
      before the first `:` or `=`) is non-empty and a second piece exists, the trimmed key
      and the trimmed second piece. Any further pieces are dropped. */
  function PartPair(part: string): Option<(string, string)>
  {
    var kv := Split(part, {':', '='});
    if kv[0] != "" && |kv| > 1 then Some((Trim(kv[0]), Trim(kv[1]))) else None
  }

  /** The assignments the given parts make, in order. */
  function PartPairs(parts: seq<string>): seq<(string, string)>
  {
    if |parts| == 0 then []
    else
      var pairs := PartPairs(parts[..|parts| - 1]);
      match PartPair(parts[|parts| - 1])
      case None => pairs
      case Some(p) => pairs + [p]
  }

  /** The key/value-list rule, for text holding `:` or `=`: None when it does not apply or
      yields no property. */
  function PairRule(s: string): Option<Record>
  {
    if !(':' in s || '=' in s) then None
    else
      var obj := PutAll(PartPairs(Split(s, {','})));
      if |obj| > 0 then Some(obj) else None
  }

  /** The rule chain on the trimmed text, first match wins. */
  function NormalizeText(s: string, host: Host): Completion
  {
    if s == "" then Normal(Obj([]))
    else if IsJSONLike(Str(s)) then Normal(Str(s))
    else
      match UrlRule(s, host)
      case Some(obj) => Normal(Obj(obj))
      case None => KeyValueRules(s, host)
  }

  /** The rules after the URL rule: query string, key/value list, then plain text. */
  function KeyValueRules(s: string, host: Host): Completion
  {
    match AmpRule(s, host)
    case Some(c) => c
    case None =>
      match PairRule(s)
      case Some(obj) => Normal(Obj(obj))
      case None => Normal(Obj([("value", Str(s))]))
  }

  /** normalizeQRContent as a whole: `(raw || '')` turns a falsy input into empty text, and
      a truthy input that is not a string has no trim() to call. */
  function Normalize(raw: Value, host: Host): Completion
  {
    if !Truthy(raw) then Normal(Obj([]))
    else if !raw.Str? then Throw(TypeError)
    else NormalizeText(Trim(raw.s), host)
  }

  /** One more piece extends the assignments by that piece's step. */
  lemma AmpPairsStep(pieces: seq<string>, i: nat, host: Host)
    requires i < |pieces|
    ensures AmpPairs(pieces[..i + 1], host) ==
      match AmpPairs(pieces[..i], host)
      case None => None
      case Some(pairs) =>
        match AmpStepOf(pieces[i], host)
        case Skipped => Some(pairs)
        case Assigns(k, v) => Some(pairs + [(k, v)])
        case Throws => None
  {
    assert pieces[..i + 1][..i] == pieces[..i];
  }

  /** A failed piece stops the query-string rule for good. */
  lemma {:induction false} AmpPairsFailurePersists(pieces: seq<string>, n: nat, host: Host)
    requires n <= |pieces| && AmpPairs(pieces[..n], host).None?
    ensures AmpPairs(pieces, host).None?
    decreases |pieces| - n
  {
    if n < |pieces| {
      assert pieces[..n + 1][..n] == pieces[..n];
      AmpPairsFailurePersists(pieces, n + 1, host);
    } else {
      assert pieces[..n] == pieces;
    }
  }

  /** toJSON: text that parses comes back as its parse; an object or array is kept as it is;
      anything else is wrapped as the single field `value`. The result is an object or an
      array unless it is what the parser made of the text. */
  function ToJSON(normalized: Value, host: Host): (r: Value)
    ensures normalized.Str? && host.parseJson(normalized.s).Some? ==>
      r == host.parseJson(normalized.s).value
    ensures normalized.Obj? || normalized.Arr? ==> r == normalized
    ensures r.Obj? || r.Arr? || (normalized.Str? && host.parseJson(normalized.s) == Some(r))
  {
    if normalized.Str? && host.parseJson(normalized.s).Some? then host.parseJson(normalized.s).value
    else if Truthy(normalized) && IsObject(normalized) then normalized
    else Obj([("value", Str(CellText(normalized)))])
  }

  /** replaceAll('"', '""'): every double quote doubled. */
  function Escape(s: string): string
  {
    if |s| == 0 then ""
    else (if s[0] == '"' then "\"\"" else [s[0]]) + Escape(s[1..])
  }

  /** A field wrapped in double quotes, inner quotes doubled. */
  function Quote(s: string): string
  {
    "\"" + Escape(s) + "\""
  }

  /** The fields quoted and separated by commas. */
  function QuotedRow(fields: seq<string>): string
  {
    Join(seq(|fields|, i requires 0 <= i < |fields| => Quote(fields[i])), ",")
  }

  /** toCSVLine: for an object or array, the quoted keys, a newline, and the quoted
      `String(v ?? '')` of the values, in entry order; for anything else, the single line
      `"value","<String(obj)>"`. */
  function ToCSVLine(obj: Value): string
  {
    if !Truthy(obj) || !IsObject(obj) then QuotedRow(["value", ToStr(obj)])
    else
      var entries := Entries(obj);
      QuotedRow(KeysOf(entries)) + "\n" + QuotedRow(CellsOf(entries))
  }

  /** The CSV text of each value of a record. */
  function CellsOf(rec: Record): seq<string>
  {
    seq(|rec|, i requires 0 <= i < |rec| => CellText(rec[i].1))
  }

  // ----- normalizeQRContent as the source writes it -----

  /** The first forEach of normalizeQRContent: starting from an empty object, each `&`-piece
      in turn assigns its decoded key and value; None when a decode throws. */
  method AssignQueryPieces(pieces: seq<string>, host: Host) returns (res: Option<Record>)
    ensures res == match AmpPairs(pieces, host)
                   case None => None
                   case Some(pairs) => Some(PutAll(pairs))
  {
    var obj: Record := [];
    ghost var pairs: seq<(string, string)> := [];
    var i := 0;
    assert pieces[..0] == [];
    while i < |pieces|
      invariant 0 <= i <= |pieces|
      invariant AmpPairs(pieces[..i], host) == Some(pairs)
      invariant obj == PutAll(pairs)
    {
      AmpPairsStep(pieces, i, host);
      var step := AmpStepOf(pieces[i], host);
      match step {
        case Throws =>
          AmpPairsFailurePersists(pieces, i + 1, host);
          return None;
        case Skipped =>
        case Assigns(k, v) =>
          assert (pairs + [(k, v)])[..|pairs|] == pairs;
          obj := Put(obj, k, Str(v));
          pairs := pairs + [(k, v)];
      }
      i := i + 1;
    }
    assert pieces[..i] == pieces;
    return Some(obj);
  }

  /** The second forEach of normalizeQRContent: starting from an empty object, each
      qualifying `,`-part in turn assigns its trimmed key and value. */
  method AssignListParts(parts: seq<string>) returns (obj: Record)
    ensures obj == PutAll(PartPairs(parts))
  {
    obj := [];
    ghost var pairs: seq<(string, string)> := [];
    var i := 0;
    assert parts[..0] == [];
    while i < |parts|
      invariant 0 <= i <= |parts|
      invariant PartPairs(parts[..i]) == pairs
      invariant obj == PutAll(pairs)
    {
      assert parts[..i + 1][..i] == parts[..i];
      match PartPair(parts[i]) {
        case None =>
        case Some(p) =>
          assert (pairs + [p])[..|pairs|] == pairs;
          obj := Put(obj, p.0, Str(p.1));
          pairs := pairs + [p];
      }
      i := i + 1;
    }
    assert parts[..i] == parts;
  }

  /** normalizeQRContent: the rule chain with early returns, building each record by
      assignment inside a loop over the pieces. */
  method NormalizeQRContent(raw: Value, host: Host) returns (r: Completion)
    ensures r == Normalize(raw, host)
  {
    if !Truthy(raw) {
      return Normal(Obj([]));
    }
    if !raw.Str? {
      return Throw(TypeError);
    }
    var s := Trim(raw.s);
    if s == "" {
      return Normal(Obj([]));
    }
    if IsJSONLike(Str(s)) {
      return Normal(Str(s));
    }
    if HasHttpScheme(s) {
      var params := host.parseUrl(s);
      if params.Some? {
        var obj := FromEntries(params.value);
        if |obj| > 0 {
          return Normal(Obj(obj));
        }
        return Normal(Obj([("url", Str(s))]));
      }
    }
    if '=' in s && '&' in s {
      var queryObj := AssignQueryPieces(Split(s, {'&'}), host);
      if queryObj.None? {
        return Throw(URIError);
      }
      if |queryObj.value| > 0 {
        return Normal(Obj(queryObj.value));
      }
    }
    if ':' in s || '=' in s {
      var obj := AssignListParts(Split(s, {','}));
      if |obj| > 0 {
        return Normal(Obj(obj));
      }
    }
    return Normal(Obj([("value", Str(s))]));
  }
}
