/** Worked inputs for each rule of normalizeQRContent and for toCSVLine, the cases the
    comments at the top of sheets.js name: `a=1&b=2`, `a:1,b:2` and plain text. Each is
    stated for any characters that play no part in the rules, written k, v, a, b below. */
module SheetsExamples {
  import opened JsStrings
  import opened JsValues
  import opened Sheets
  import opened CsvReader

  /** A character with no role in any rule: not whitespace, not a separator, not a percent
      sign, not an opening bracket, not a double quote. */
  predicate Plain(c: char)
  {
    !IsWhitespace(c) && c !in {'=', '&', ':', ',', '%', '{', '[', '"'}
  }

  /** Trimmed text that is neither JSON-shaped nor a URL reaches the key/value rules. */
  lemma {:induction false} ReachesKeyValueRules(s: string, host: Host)
    requires s != "" && Trim(s) == s && !JsonShaped(s) && !HasHttpScheme(s)
    ensures Normalize(Str(s), host) == KeyValueRules(s, host)
  {
  }

  /** Text without `&` goes straight to the key/value-list rule. */
  lemma KeyValueRulesWithoutAmp(s: string, host: Host)
    requires '&' !in s && PairRule(s).Some?
    ensures KeyValueRules(s, host) == Normal(Obj(PairRule(s).value))
  {
  }

  // ----- the query-string rule -----

  /** `k=v` with one-character parts that need no decoding assigns `v` to `k`. */
  lemma KeyValueStep(k: string, v: string, host: Host)
    requires DecodeKeepsPlainText(host)
    requires |k| == 1 && |v| == 1 && !IsWhitespace(k[0]) && !IsWhitespace(v[0])
    requires k[0] !in {'=', '%'} && v[0] !in {'=', '%'}
    ensures AmpStepOf(k + "=" + v, host) == Assigns(k, v)
  {
    SplitFirst(k, '=', v, {'='});
    SplitWhole(v, {'='});
    assert Split(k + "=" + v, {'='}) == [k, v];
    TrimOfTrimmed(k);
    TrimOfTrimmed(v);
    assert '%' !in k && '%' !in v;
  }

  lemma PlainStep(k: char, v: char, host: Host)
    requires DecodeKeepsPlainText(host) && Plain(k) && Plain(v)
    ensures AmpStepOf([k, '=', v], host) == Assigns([k], [v])
  {
    assert [k, '=', v] == [k] + ['='] + [v];
    KeyValueStep([k], [v], host);
  }

  /** Two assigning pieces give their two assignments, in order. */
  lemma AmpPairsOfTwo(p: string, q: string, host: Host, a: (string, string), b: (string, string))
    requires AmpStepOf(p, host) == Assigns(a.0, a.1) && AmpStepOf(q, host) == Assigns(b.0, b.1)
    ensures AmpPairs([p, q], host) == Some([a, b])
  {
    var pieces := [p, q];
    assert pieces[..0] == [] && pieces[..2] == pieces;
    assert AmpPairs([], host) == Some([]);
    AmpPairsStep(pieces, 0, host);
    assert pieces[0] == p && pieces[1] == q;
    assert [] + [a] == [a] && [a] + [b] == [a, b];
    assert AmpPairs(pieces[..1], host) == Some([a]);
    AmpPairsStep(pieces, 1, host);
  }

  /** Two assignments: one property when the keys agree (the second value wins), two otherwise. */
  lemma PutAllOfTwo(a: (string, string), b: (string, string))
    requires a.0 != ProtoKey && b.0 != ProtoKey
    ensures PutAll([a, b]) ==
      if a.0 == b.0 then [(a.0, Str(b.1))] else [(a.0, Str(a.1)), (b.0, Str(b.1))]
  {
    assert [a][..0] == [] && [a, b][..1] == [a];
    var r1 := Assign([], a.0, Str(a.1));
    assert r1 == [(a.0, Str(a.1))];
    assert PutAll([a]) == r1;
    assert PutAll([a, b]) == Assign(r1, b.0, Str(b.1));
    if a.0 != b.0 {
      assert r1[1..] == [];
      assert Assign(r1, b.0, Str(b.1)) == [r1[0]] + Assign([], b.0, Str(b.1));
    }
  }

  lemma QueryRuleOfTwo(s: string, p: string, q: string, host: Host, a: (string, string), b: (string, string))
    requires '=' in s && '&' in s && Split(s, {'&'}) == [p, q]
    requires AmpStepOf(p, host) == Assigns(a.0, a.1) && AmpStepOf(q, host) == Assigns(b.0, b.1)
    requires a.0 != ProtoKey && b.0 != ProtoKey
    ensures KeyValueRules(s, host) == Normal(Obj(PutAll([a, b])))
  {
    AmpPairsOfTwo(p, q, host, a, b);
    PutAllOfTwo(a, b);
  }

  /** `k1=v1&k2=v2` gives both properties in order, or only the later value when the keys
      agree. */
  lemma QueryStringExample(k1: char, v1: char, k2: char, v2: char, host: Host)
    requires DecodeKeepsPlainText(host) && Plain(k1) && Plain(v1) && Plain(k2) && Plain(v2)
    ensures Normalize(Str([k1, '=', v1, '&', k2, '=', v2]), host) ==
      Normal(Obj(if k1 == k2 then [([k1], Str([v2]))] else [([k1], Str([v1])), ([k2], Str([v2]))]))
  {
    var s := [k1, '=', v1, '&', k2, '=', v2];
    TrimOfTrimmed(s);
    BracketedByOne(s, '{', '}');
    BracketedByOne(s, '[', ']');
    ReachesKeyValueRules(s, host);
    QueryStringRule(k1, v1, k2, v2, host);
    PutAllOfTwo(([k1], [v1]), ([k2], [v2]));
  }

  lemma QueryStringRule(k1: char, v1: char, k2: char, v2: char, host: Host)
    requires DecodeKeepsPlainText(host) && Plain(k1) && Plain(v1) && Plain(k2) && Plain(v2)
    ensures KeyValueRules([k1, '=', v1, '&', k2, '=', v2], host) ==
      Normal(Obj(PutAll([([k1], [v1]), ([k2], [v2])])))
  {
    var s := [k1, '=', v1, '&', k2, '=', v2];
    assert s == [k1, '=', v1] + ['&'] + [k2, '=', v2];
    SplitFirst([k1, '=', v1], '&', [k2, '=', v2], {'&'});
    SplitWhole([k2, '=', v2], {'&'});
    PlainStep(k1, v1, host);
    PlainStep(k2, v2, host);
    assert s[1] == '=' && s[3] == '&';
    QueryRuleOfTwo(s, [k1, '=', v1], [k2, '=', v2], host, ([k1], [v1]), ([k2], [v2]));
  }

  /** In `k=a=b` the value is only the text between the first and the second `=`. */
  lemma ExtraEqualsExample(k: char, a: char, b: char, host: Host)
    requires DecodeKeepsPlainText(host) && Plain(k) && Plain(a) && Plain(b)
    ensures AmpStepOf([k, '=', a, '=', b], host) == Assigns([k], [a])
  {
    assert [k, '=', a, '=', b] == [k] + ['='] + ([a] + ['='] + [b]);
    SplitFirst([k], '=', [a] + ['='] + [b], {'='});
    SplitFirst([a], '=', [b], {'='});
    SplitWhole([b], {'='});
    TrimOfTrimmed([k]);
    TrimOfTrimmed([a]);
    assert '%' !in [k] && '%' !in [a];
  }

  lemma QueryRuleThrowsOnFirst(s: string, p: string, q: string, host: Host)
    requires '=' in s && '&' in s && Split(s, {'&'}) == [p, q] && AmpStepOf(p, host) == Throws
    ensures KeyValueRules(s, host) == Throw(URIError)
  {
    var pieces := [p, q];
    assert pieces[..0] == [];
    assert AmpPairs([], host) == Some([]);
    AmpPairsStep(pieces, 0, host);
    AmpPairsFailurePersists(pieces, 1, host);
  }

  lemma EscapeThrows(k: char, host: Host)
    requires Plain(k) && host.decodeComponent("%") == None
    ensures AmpStepOf([k, '=', '%'], host) == Throws
  {
    assert [k, '=', '%'] == [k] + ['='] + ['%'];
    SplitFirst([k], '=', ['%'], {'='});
    SplitWhole(['%'], {'='});
    TrimOfTrimmed(['%']);
  }

  /** `k=%&b`: the lone `%` is a malformed escape, and the URIError escapes
      normalizeQRContent. */
  lemma BadEscapeExample(k: char, b: char, host: Host)
    requires Plain(k) && Plain(b) && host.decodeComponent("%") == None
    ensures Normalize(Str([k, '=', '%', '&', b]), host) == Throw(URIError)
  {
    var s := [k, '=', '%', '&', b];
    TrimOfTrimmed(s);
    BracketedByOne(s, '{', '}');
    BracketedByOne(s, '[', ']');
    ReachesKeyValueRules(s, host);
    assert s == [k, '=', '%'] + ['&'] + [b];
    SplitFirst([k, '=', '%'], '&', [b], {'&'});
    SplitWhole([b], {'&'});
    EscapeThrows(k, host);
    assert s[1] == '=' && s[3] == '&';
    QueryRuleThrowsOnFirst(s, [k, '=', '%'], [b], host);
  }

  lemma QueryRuleEmpty(s: string, p: string, q: string, host: Host)
    requires Split(s, {'&'}) == [p, q] && AmpStepOf(p, host) == Skipped && AmpStepOf(q, host) == Skipped
    ensures AmpRule(s, host) == None
  {
    var pieces := [p, q];
    assert pieces[..0] == [] && pieces[..2] == pieces;
    assert AmpPairs([], host) == Some([]);
    AmpPairsStep(pieces, 0, host);
    AmpPairsStep(pieces, 1, host);
  }

  lemma EmptyKeySkipped(v: char, host: Host)
    ensures AmpStepOf(['=', v], host) == Skipped
  {
    assert ['=', v] == [] + ['='] + [v];
    SplitFirst([], '=', [v], {'='});
  }

  lemma PairRuleEmptyKey(s: string)
    requires |s| > 0 && s[0] == '=' && ',' !in s
    ensures PairRule(s) == None
  {
    SplitWhole(s, {','});
    assert s == [] + ['='] + s[1..];
    SplitFirst([], '=', s[1..], {':', '='});
    assert [s][..0] == [];
    assert PartPairs([s]) == [];
  }

  /** `=a&=b`: every piece has an empty key, so both key/value rules yield nothing and the
      text is kept as plain text. */
  lemma EmptyKeysExample(a: char, b: char, host: Host)
    requires Plain(a) && Plain(b)
    ensures Normalize(Str(['=', a, '&', '=', b]), host) ==
      Normal(Obj([("value", Str(['=', a, '&', '=', b]))]))
  {
    var s := ['=', a, '&', '=', b];
    TrimOfTrimmed(s);
    BracketedByOne(s, '{', '}');
    BracketedByOne(s, '[', ']');
    ReachesKeyValueRules(s, host);
    EmptyKeysRules(a, b, host);
  }

  /** Both key/value rules skip the pieces of `=a&=b`. */
  lemma EmptyKeysRules(a: char, b: char, host: Host)
    requires Plain(a) && Plain(b)
    ensures KeyValueRules(['=', a, '&', '=', b], host) ==
      Normal(Obj([("value", Str(['=', a, '&', '=', b]))]))
  {
    var s := ['=', a, '&', '=', b];
    assert s == ['=', a] + ['&'] + ['=', b];
    SplitFirst(['=', a], '&', ['=', b], {'&'});
    SplitWhole(['=', b], {'&'});
    EmptyKeySkipped(a, host);
    EmptyKeySkipped(b, host);
    QueryRuleEmpty(s, ['=', a], ['=', b], host);
    PairRuleEmptyKey(s);
  }

  // ----- the key/value-list rule -----

  lemma PairRuleOfTwo(s: string, p: string, q: string, a: (string, string), b: (string, string))
    requires ':' in s && Split(s, {','}) == [p, q] && PartPair(p) == Some(a) && PartPair(q) == Some(b)
    requires a.0 != ProtoKey && b.0 != ProtoKey
    ensures PairRule(s) == Some(PutAll([a, b]))
  {
    var parts := [p, q];
    assert parts[..1] == [p] && parts[..1][..0] == [] && parts[..2] == parts;
    assert PartPairs(parts[..1]) == [a];
    assert [a] + [b] == [a, b];
    PutAllOfTwo(a, b);
  }

  /** `k:v` and ` k:v` both give the pair (k, v): the key is trimmed. */
  lemma ColonPair(k: char, v: char)
    requires Plain(k) && Plain(v)
    ensures PartPair([k, ':', v]) == Some(([k], [v]))
    ensures PartPair([' ', k, ':', v]) == Some(([k], [v]))
  {
    assert [k, ':', v] == [k] + [':'] + [v];
    SplitFirst([k], ':', [v], {':', '='});
    SplitWhole([v], {':', '='});
    assert [' ', k, ':', v] == [' ', k] + [':'] + [v];
    SplitFirst([' ', k], ':', [v], {':', '='});
    TrimOfTrimmed([k]);
    TrimOfTrimmed([v]);
    assert [' ', k][1..] == [k];
    assert Trim([' ', k]) == [k];
  }

  lemma KeyValueListRule(k1: char, v1: char, k2: char, v2: char)
    requires Plain(k1) && Plain(v1) && Plain(k2) && Plain(v2)
    ensures PairRule([k1, ':', v1, ',', ' ', k2, ':', v2]) == Some(PutAll([([k1], [v1]), ([k2], [v2])]))
  {
    var s := [k1, ':', v1, ',', ' ', k2, ':', v2];
    assert s[1] == ':';
    assert s == [k1, ':', v1] + [','] + [' ', k2, ':', v2];
    SplitFirst([k1, ':', v1], ',', [' ', k2, ':', v2], {','});
    SplitWhole([' ', k2, ':', v2], {','});
    ColonPair(k1, v1);
    ColonPair(k2, v2);
    PairRuleOfTwo(s, [k1, ':', v1], [' ', k2, ':', v2], ([k1], [v1]), ([k2], [v2]));
  }

  /** `k1:v1, k2:v2` gives both trimmed properties in order, or only the later value when
      the keys agree. */
  lemma KeyValueListExample(k1: char, v1: char, k2: char, v2: char, host: Host)
    requires Plain(k1) && Plain(v1) && Plain(k2) && Plain(v2)
    ensures Normalize(Str([k1, ':', v1, ',', ' ', k2, ':', v2]), host) ==
      Normal(Obj(if k1 == k2 then [([k1], Str([v2]))] else [([k1], Str([v1])), ([k2], Str([v2]))]))
  {
    var s := [k1, ':', v1, ',', ' ', k2, ':', v2];
    TrimOfTrimmed(s);
    BracketedByOne(s, '{', '}');
    BracketedByOne(s, '[', ']');
    ReachesKeyValueRules(s, host);
    assert '&' !in s;
    KeyValueListRule(k1, v1, k2, v2);
    PutAllOfTwo(([k1], [v1]), ([k2], [v2]));
    KeyValueRulesWithoutAmp(s, host);
  }

  /** In `k:a=b` the part splits into three pieces and only the second is the value. */
  lemma ListExtraPiecesExample(k: char, a: char, b: char, host: Host)
    requires Plain(k) && Plain(a) && Plain(b)
    ensures Normalize(Str([k, ':', a, '=', b]), host) == Normal(Obj([([k], Str([a]))]))
  {
    var s := [k, ':', a, '=', b];
    TrimOfTrimmed(s);
    BracketedByOne(s, '{', '}');
    BracketedByOne(s, '[', ']');
    ReachesKeyValueRules(s, host);
    assert '&' !in s;
    ListExtraPiecesRule(k, a, b);
    KeyValueRulesWithoutAmp(s, host);
  }

  lemma ListExtraPiecesRule(k: char, a: char, b: char)
    requires Plain(k) && Plain(a) && Plain(b)
    ensures PairRule([k, ':', a, '=', b]) == Some([([k], Str([a]))])
  {
    var s := [k, ':', a, '=', b];
    assert s[1] == ':';
    SplitWhole(s, {','});
    assert s == [k] + [':'] + ([a] + ['='] + [b]);
    SplitFirst([k], ':', [a] + ['='] + [b], {':', '='});
    SplitFirst([a], '=', [b], {':', '='});
    SplitWhole([b], {':', '='});
    TrimOfTrimmed([k]);
    TrimOfTrimmed([a]);
    assert PartPair(s) == Some(([k], [a]));
    assert [s][..0] == [];
    assert PartPairs([s]) == [([k], [a])];
    assert [([k], [a])][..0] == [];
    assert PutAll([([k], [a])]) == [([k], Str([a]))];
  }

  // ----- toCSVLine -----

  lemma QuotedRowTwo(a: string, b: string)
    ensures QuotedRow([a, b]) == Quote(a) + "," + Quote(b)
  {
    QuotedRowCons([a, b]);
    assert [a, b][1..] == [b];
    var qs := seq(1, i requires 0 <= i < 1 => Quote([b][i]));
    assert qs == [Quote(b)];
  }

  lemma ScalarRow(v: Value)
    requires !Truthy(v) || !IsObject(v)
    ensures ToCSVLine(v) == QuotedRow(["value", ToStr(v)])
  {
  }

  lemma ValueHeader()
    ensures Quote("value") == "\"value\""
  {
    EscapeNoQuotes("value");
  }

  /** A scalar without double quotes gives the single line `"value","<String(v)>"`. */
  lemma CsvScalarExample(v: Value)
    requires !Truthy(v) || !IsObject(v)
    requires '"' !in ToStr(v)
    ensures ToCSVLine(v) == "\"value\",\"" + ToStr(v) + "\""
  {
    var t := ToStr(v);
    var line := "\"value\"" + "," + ("\"" + t + "\"");
    assert line == "\"value\",\"" + t + "\"" by {
      assert |line| == |"\"value\",\"" + t + "\""|;
    }
    ScalarRow(v);
    QuotedRowTwo("value", t);
    ValueHeader();
    EscapeNoQuotes(t);
  }

  lemma TwoFieldRows(k1: string, k2: string, x: string)
    ensures ToCSVLine(Obj([(k1, Str(x)), (k2, Null)])) == QuotedRow([k1, k2]) + "\n" + QuotedRow([x, ""])
  {
    var rec := [(k1, Str(x)), (k2, Null)];
    assert KeysOf(rec) == [k1, k2];
    assert CellsOf(rec) == [x, ""];
  }

  lemma HeaderRow(k1: string, k2: string)
    requires '"' !in k1 && '"' !in k2
    ensures QuotedRow([k1, k2]) == "\"" + k1 + "\",\"" + k2 + "\""
  {
    QuotedRowTwo(k1, k2);
    EscapeNoQuotes(k1);
    EscapeNoQuotes(k2);
  }

  lemma ValueRow(x: string)
    ensures QuotedRow([x, ""]) == "\"" + Escape(x) + "\",\"\""
  {
    QuotedRowTwo(x, "");
    assert Escape("") == "";
  }

  /** `{k1: x, k2: null}` gives the quoted keys in order, a line feed, the escaped `x` and an
      empty field for the null. */
  lemma CsvTwoFieldsExample(k1: string, k2: string, x: string)
    requires '"' !in k1 && '"' !in k2
    ensures ToCSVLine(Obj([(k1, Str(x)), (k2, Null)]))
      == "\"" + k1 + "\",\"" + k2 + "\"\n\"" + Escape(x) + "\",\"\""
  {
    TwoFieldRows(k1, k2, x);
    HeaderRow(k1, k2);
    ValueRow(x);
  }
}
