/** A reader for the CSV text toCSVLine writes: rows separated by a line feed, fields
    separated by commas, every field in double quotes with an inner quote doubled
    (RFC 4180, section 2, items 5 to 7). It is the reference the writer is proved against:
    reading what toCSVLine wrote gives back the header fields and the value fields. */
module CsvReader {
  import opened JsValues
  import opened Sheets

  /** The inside of a quoted field, read up to and past its closing quote: the field's text
      with each doubled quote read as one, and what follows the closing quote. */
  function ReadQuotedBody(s: string): (r: Option<(string, string)>)
    ensures r.Some? ==> |r.value.1| < |s|
  {
    if |s| == 0 then None
    else if s[0] == '"' then
      if |s| >= 2 && s[1] == '"' then
        match ReadQuotedBody(s[2..])
        case None => None
        case Some(fr) => Some(("\"" + fr.0, fr.1))
      else Some(("", s[1..]))
    else
      match ReadQuotedBody(s[1..])
      case None => None
      case Some(fr) => Some(([s[0]] + fr.0, fr.1))
  }

  /** One or more quoted fields separated by commas, and the text after the last one. */
  function ReadFields(s: string): (r: Option<(seq<string>, string)>)
    ensures r.Some? ==> |r.value.1| < |s|
    decreases |s|
  {
    if |s| == 0 || s[0] != '"' then None
    else
      match ReadQuotedBody(s[1..])
      case None => None
      case Some(fr) =>
        if |fr.1| > 0 && fr.1[0] == ',' then
          match ReadFields(fr.1[1..])
          case None => None
          case Some(more) => Some(([fr.0] + more.0, more.1))
        else Some(([fr.0], fr.1))
  }

  /** One row: no fields when the line is empty, otherwise the fields on it. */
  function ReadRow(s: string): Option<(seq<string>, string)>
  {
    if |s| == 0 || s[0] == '\n' then Some(([], s)) else ReadFields(s)
  }

  /** The whole text as one row, or as two rows separated by a line feed. */
  function ReadCsv(s: string): Option<seq<seq<string>>>
  {
    match ReadRow(s)
    case None => None
    case Some(first) =>
      if |first.1| == 0 then Some([first.0])
      else if first.1[0] != '\n' then None
      else
        match ReadRow(first.1[1..])
        case None => None
        case Some(second) => if |second.1| == 0 then Some([first.0, second.0]) else None
  }

  /** A doubled-quote field followed by its closing quote reads back as the original text,
      provided what follows cannot be taken for another quote. */
  lemma {:induction false} ReadQuotedEscape(x: string, rest: string)
    requires |rest| == 0 || rest[0] != '"'
    ensures ReadQuotedBody(Escape(x) + "\"" + rest) == Some((x, rest))
  {
    var s := Escape(x) + "\"" + rest;
    if |x| == 0 {
      assert s == "\"" + rest;
      assert s[1..] == rest;
    } else {
      ReadQuotedEscape(x[1..], rest);
      var tail := Escape(x[1..]) + "\"" + rest;
      if x[0] == '"' {
        assert s == "\"\"" + tail;
        assert s[2..] == tail;
        assert "\"" + x[1..] == x;
      } else {
        assert s == [x[0]] + tail;
        assert s[1..] == tail;
        assert [x[0]] + x[1..] == x;
      }
    }
  }

  /** Escaping works character by character. */
  lemma {:induction false} EscapeAppend(a: string, b: string)
    ensures Escape(a + b) == Escape(a) + Escape(b)
  {
    if |a| > 0 {
      assert (a + b)[1..] == a[1..] + b;
      EscapeAppend(a[1..], b);
    } else {
      assert a + b == b;
    }
  }

  /** Text without double quotes is its own escape. */
  lemma {:induction false} EscapeNoQuotes(s: string)
    requires '"' !in s
    ensures Escape(s) == s
  {
    if |s| > 0 {
      EscapeNoQuotes(s[1..]);
      assert [s[0]] + s[1..] == s;
    }
  }

  /** A double quote inside a field is written twice. */
  lemma EscapeDoublesQuote(a: string, b: string)
    ensures Escape(a + "\"" + b) == Escape(a) + "\"\"" + Escape(b)
  {
    EscapeAppend(a + "\"", b);
    EscapeAppend(a, "\"");
    assert Escape("\"") == "\"\"" by { assert "\""[1..] == ""; }
  }

  /** A quoted row of at least two fields is the first quoted field, a comma, and the rest. */
  lemma QuotedRowCons(fields: seq<string>)
    requires |fields| >= 2
    ensures QuotedRow(fields) == Quote(fields[0]) + "," + QuotedRow(fields[1..])
  {
    var qs := seq(|fields|, i requires 0 <= i < |fields| => Quote(fields[i]));
    assert qs[1..] == seq(|fields| - 1, i requires 0 <= i < |fields| - 1 => Quote(fields[1..][i]));
  }

  /** Reading one quoted field, then what follows it. */
  lemma {:induction false} ReadFieldsQuoted(x: string, rest: string)
    requires |rest| == 0 || rest[0] != '"'
    ensures ReadFields(Quote(x) + rest) ==
      if |rest| > 0 && rest[0] == ',' then
        match ReadFields(rest[1..])
        case None => None
        case Some(more) => Some(([x] + more.0, more.1))
      else Some(([x], rest))
  {
    var body := Escape(x) + "\"" + rest;
    var s := Quote(x) + rest;
    assert s == "\"" + body;
    assert s[0] == '"' && s[1..] == body;
    ReadQuotedEscape(x, rest);
    assert ReadQuotedBody(s[1..]) == Some((x, rest));
  }

  /** Reading a non-empty quoted row gives its fields back, and stops where the row ends. */
  lemma {:induction false} ReadFieldsQuotedRow(fields: seq<string>, tail: string)
    requires |fields| >= 1
    requires |tail| == 0 || tail[0] == '\n'
    ensures ReadFields(QuotedRow(fields) + tail) == Some((fields, tail))
  {
    if |fields| == 1 {
      assert QuotedRow(fields) == Quote(fields[0]);
      ReadFieldsQuoted(fields[0], tail);
      assert fields == [fields[0]];
    } else {
      QuotedRowCons(fields);
      var more := "," + QuotedRow(fields[1..]) + tail;
      assert QuotedRow(fields) + tail == Quote(fields[0]) + more;
      ReadFieldsQuoted(fields[0], more);
      assert more[1..] == QuotedRow(fields[1..]) + tail;
      ReadFieldsQuotedRow(fields[1..], tail);
      assert [fields[0]] + fields[1..] == fields;
    }
  }

  /** Reading any quoted row gives its fields back; no fields is an empty line. */
  lemma ReadRowQuotedRow(fields: seq<string>, tail: string)
    requires |tail| == 0 || tail[0] == '\n'
    ensures ReadRow(QuotedRow(fields) + tail) == Some((fields, tail))
  {
    if |fields| == 0 {
      assert QuotedRow(fields) + tail == tail;
    } else {
      ReadFieldsQuotedRow(fields, tail);
      assert QuotedRow(fields)[0] == '"' by {
        if |fields| >= 2 { QuotedRowCons(fields); }
      }
    }
  }

  /** Two quoted rows joined by a line feed read back as those two rows. */
  lemma ReadTwoRows(a: seq<string>, b: seq<string>)
    ensures ReadCsv(QuotedRow(a) + "\n" + QuotedRow(b)) == Some([a, b])
  {
    var s := QuotedRow(a) + "\n" + QuotedRow(b);
    ReadRowQuotedRow(a, "\n" + QuotedRow(b));
    assert s == QuotedRow(a) + ("\n" + QuotedRow(b));
    ReadRowQuotedRow(b, "");
    assert QuotedRow(b) + "" == QuotedRow(b);
    assert ("\n" + QuotedRow(b))[1..] == QuotedRow(b);
  }

  /** The CSV of an object or array is two rows: the keys of its entries, then their values
      as String(v ?? ''), one field per entry, in entry order. */
  lemma CsvRoundTrip(v: Value)
    requires v.Obj? || v.Arr?
    ensures ReadCsv(ToCSVLine(v)) == Some([KeysOf(Entries(v)), CellsOf(Entries(v))])
  {
    ReadTwoRows(KeysOf(Entries(v)), CellsOf(Entries(v)));
  }

  /** The CSV of a falsy value or a non-object is the single row `value`, String(v). */
  lemma CsvFallbackSingleRow(v: Value)
    requires !Truthy(v) || !IsObject(v)
    ensures ReadCsv(ToCSVLine(v)) == Some([["value", ToStr(v)]])
  {
    var fields := ["value", ToStr(v)];
    ReadRowQuotedRow(fields, "");
    assert QuotedRow(fields) + "" == QuotedRow(fields);
  }

  /** The empty object gives an empty header line and an empty value line. */
  lemma CsvEmptyRecord()
    ensures ToCSVLine(Obj([])) == "\n"
    ensures ReadCsv(ToCSVLine(Obj([]))) == Some([[], []])
  {
    assert KeysOf([]) == [] && CellsOf([]) == [];
    CsvRoundTrip(Obj([]));
  }
}
