/** Models of the JavaScript string built-ins that sheets.js relies on:
    String.prototype.trim, split, startsWith, endsWith and Array.prototype.join. */
module JsStrings {

  /** The WhiteSpace and LineTerminator code points of ECMAScript, which trim() strips:
      tab, line feed, vertical tab, form feed, carriage return, the Unicode space separators,
      the line and paragraph separators, and the byte order mark. */
  const Whitespace: set<char> := {
    '\t', '\n', '\U{B}', '\U{C}', '\r', ' ', '\U{A0}', '\U{1680}',
    '\U{2000}', '\U{2001}', '\U{2002}', '\U{2003}', '\U{2004}', '\U{2005}', '\U{2006}',
    '\U{2007}', '\U{2008}', '\U{2009}', '\U{200A}',
    '\U{2028}', '\U{2029}', '\U{202F}', '\U{205F}', '\U{3000}', '\U{FEFF}'}

  predicate IsWhitespace(c: char)
  {
    c in Whitespace
  }

  predicate AllWhitespace(s: string)
  {
    forall i :: 0 <= i < |s| ==> IsWhitespace(s[i])
  }

  /** String.prototype.trim: the text without its leading and trailing whitespace. */
  function Trim(s: string): (r: string)
    ensures |r| <= |s|
    ensures r == [] || (!IsWhitespace(r[0]) && !IsWhitespace(r[|r| - 1]))
  {
    if |s| > 0 && IsWhitespace(s[0]) then Trim(s[1..])
    else if |s| > 0 && IsWhitespace(s[|s| - 1]) then Trim(s[..|s| - 1])
    else s
  }

  /** Trimming leaves nothing exactly when the text is all whitespace. */
  lemma {:induction false} TrimEmptyIffAllWhitespace(s: string)
    ensures Trim(s) == [] <==> AllWhitespace(s)
  {
    if |s| > 0 && IsWhitespace(s[0]) {
      TrimEmptyIffAllWhitespace(s[1..]);
      assert AllWhitespace(s) <==> AllWhitespace(s[1..]) by {
        if AllWhitespace(s[1..]) {
          forall i | 0 < i < |s| ensures IsWhitespace(s[i]) { assert s[i] == s[1..][i - 1]; }
        }
      }
    } else if |s| > 0 && IsWhitespace(s[|s| - 1]) {
      TrimEmptyIffAllWhitespace(s[..|s| - 1]);
      assert s[..|s| - 1][0] == s[0];
    }
  }

  /** `t` is `s[a..b]` with only whitespace before `a` and after `b`. */
  predicate PaddedBy(s: string, t: string, a: int, b: int)
  {
    0 <= a <= b <= |s| && t == s[a..b] && AllWhitespace(s[..a]) && AllWhitespace(s[b..])
  }

  /** The trim is the text between a whitespace prefix and a whitespace suffix. */
  lemma {:induction false} TrimIsInfix(s: string)
    ensures exists a, b :: PaddedBy(s, Trim(s), a, b)
  {
    if |s| > 0 && IsWhitespace(s[0]) {
      TrimIsInfix(s[1..]);
      var a, b :| PaddedBy(s[1..], Trim(s[1..]), a, b);
      PaddedShift(s, Trim(s[1..]), a, b);
      assert PaddedBy(s, Trim(s), a + 1, b + 1);
    } else if |s| > 0 && IsWhitespace(s[|s| - 1]) {
      TrimIsInfix(s[..|s| - 1]);
      var a, b :| PaddedBy(s[..|s| - 1], Trim(s[..|s| - 1]), a, b);
      PaddedExtend(s, Trim(s[..|s| - 1]), a, b);
      assert PaddedBy(s, Trim(s), a, b);
    } else {
      assert s[0..|s|] == s && s[..0] == [] && s[|s|..] == [];
      assert PaddedBy(s, Trim(s), 0, |s|);
    }
  }

  /** A leading whitespace character widens the prefix. */
  lemma PaddedShift(s: string, t: string, a: int, b: int)
    requires |s| > 0 && IsWhitespace(s[0]) && PaddedBy(s[1..], t, a, b)
    ensures PaddedBy(s, t, a + 1, b + 1)
  {
    assert |s[1..]| == |s| - 1;
    assert s[a + 1..b + 1] == s[1..][a..b] by {
      forall i | 0 <= i < b - a ensures s[a + 1..b + 1][i] == s[1..][a..b][i] {
        assert s[1..][a + i] == s[a + 1 + i];
      }
    }
    assert s[b + 1..] == s[1..][b..];
    assert s[..a + 1] == [s[0]] + s[1..][..a] by {
      forall i | 0 <= i < a ensures s[1..][..a][i] == s[i + 1] {}
    }
  }

  /** A trailing whitespace character widens the suffix. */
  lemma PaddedExtend(s: string, t: string, a: int, b: int)
    requires |s| > 0 && IsWhitespace(s[|s| - 1]) && PaddedBy(s[..|s| - 1], t, a, b)
    ensures PaddedBy(s, t, a, b)
  {
    var n := |s| - 1;
    assert s[a..b] == s[..n][a..b];
    assert s[..a] == s[..n][..a];
    assert s[b..] == s[..n][b..] + [s[n]];
  }

  /** Text with no whitespace at either end is its own trim. */
  lemma TrimOfTrimmed(s: string)
    requires s == [] || (!IsWhitespace(s[0]) && !IsWhitespace(s[|s| - 1]))
    ensures Trim(s) == s
  {
  }

  /** Trimming twice is trimming once. */
  lemma TrimIdempotent(s: string)
    ensures Trim(Trim(s)) == Trim(s)
  {
    TrimOfTrimmed(Trim(s));
  }

  /** String.prototype.startsWith. */
  predicate StartsWith(s: string, prefix: string)
  {
    |prefix| <= |s| && s[..|prefix|] == prefix
  }

  /** String.prototype.endsWith. */
  predicate EndsWith(s: string, suffix: string)
  {
    |suffix| <= |s| && s[|s| - |suffix|..] == suffix
  }

  /** String.prototype.split with a separator that matches exactly one character from `seps`:
      a one-character string such as '&', or a one-character class such as /[:=]/.
      It always gives at least one piece. */
  function Split(s: string, seps: set<char>): (r: seq<string>)
    ensures |r| >= 1
  {
    if |s| == 0 then [""]
    else
      var rest := Split(s[1..], seps);
      if s[0] in seps then [""] + rest
      else [[s[0]] + rest[0]] + rest[1..]
  }

  /** There is one more piece than there are separators, and no piece holds a separator. */
  lemma {:induction false} SplitPieces(s: string, seps: set<char>)
    ensures |Split(s, seps)| == 1 + CountIn(s, seps)
    ensures forall i, j :: 0 <= i < |Split(s, seps)| && 0 <= j < |Split(s, seps)[i]| ==>
      Split(s, seps)[i][j] !in seps
  {
    if |s| > 0 {
      SplitPieces(s[1..], seps);
      var rest := Split(s[1..], seps);
      if s[0] !in seps {
        var r := Split(s, seps);
        assert r[0] == [s[0]] + rest[0];
        assert forall i :: 1 <= i < |r| ==> r[i] == rest[i];
      }
    }
  }

  /** No character of the text belongs to `seps`. */
  predicate NoneIn(s: string, seps: set<char>)
  {
    forall i :: 0 <= i < |s| ==> s[i] !in seps
  }

  /** Text without a separator is one piece. */
  lemma {:induction false} SplitWhole(s: string, seps: set<char>)
    requires NoneIn(s, seps)
    ensures Split(s, seps) == [s]
  {
    if |s| > 0 {
      SplitWhole(s[1..], seps);
      assert [s[0]] + s[1..] == s;
    }
  }

  /** The first piece ends at the first separator. */
  lemma {:induction false} SplitFirst(x: string, c: char, y: string, seps: set<char>)
    requires c in seps && NoneIn(x, seps)
    ensures Split(x + [c] + y, seps) == [x] + Split(y, seps)
  {
    var s := x + [c] + y;
    if |x| == 0 {
      assert s[1..] == y;
    } else {
      assert s[1..] == x[1..] + [c] + y;
      SplitFirst(x[1..], c, y, seps);
      assert [x[0]] + x[1..] == x;
    }
  }

  /** How many characters of the text belong to `seps`. */
  function CountIn(s: string, seps: set<char>): nat
  {
    if |s| == 0 then 0 else (if s[0] in seps then 1 else 0) + CountIn(s[1..], seps)
  }

  /** Array.prototype.join over strings. */
  function Join(parts: seq<string>, sep: string): string
  {
    if |parts| == 0 then ""
    else if |parts| == 1 then parts[0]
    else parts[0] + sep + Join(parts[1..], sep)
  }

  /** Splitting on one character and joining back with it gives the text back. */
  lemma {:induction false} SplitJoin(s: string, c: char)
    ensures Join(Split(s, {c}), [c]) == s
  {
    if |s| > 0 {
      var rest := Split(s[1..], {c});
      SplitJoin(s[1..], c);
      if s[0] == c {
        assert Split(s, {c}) == [""] + rest;
        assert ([""] + rest)[1..] == rest;
        assert s == [c] + s[1..];
      } else {
        var r := Split(s, {c});
        assert r == [[s[0]] + rest[0]] + rest[1..];
        if |rest| == 1 {
          assert Join(rest, [c]) == rest[0];
        } else {
          assert r[1..] == rest[1..];
          assert Join(rest, [c]) == rest[0] + [c] + Join(rest[1..], [c]);
        }
        assert s == [s[0]] + s[1..];
      }
    }
  }

  /** The decimal numeral of a natural number, as used for array indices: it reads back as
      the number, and only zero is written with a leading zero. */
  function Decimal(n: nat): (r: string)
    ensures |r| >= 1
    ensures forall i :: 0 <= i < |r| ==> '0' <= r[i] <= '9'
    ensures r[0] == '0' ==> n == 0
    ensures DigitsValue(r) == n
  {
    if n < 10 then
      var r := [Digit(n)];
      assert r[..0] == [];
      r
    else
      var init := Decimal(n / 10);
      var r := init + [Digit(n % 10)];
      assert r[..|r| - 1] == init;
      r
  }

  function Digit(d: nat): char
    requires d < 10
  {
    ('0' as int + d) as char
  }

  /** The number a string of decimal digits denotes, read most significant digit first. */
  function DigitsValue(s: string): int
  {
    if |s| == 0 then 0
    else 10 * DigitsValue(s[..|s| - 1]) + (s[|s| - 1] as int - '0' as int)
  }

  /** Different numbers have different numerals, so array index keys never collide. */
  lemma DecimalInjective(m: nat, n: nat)
    requires Decimal(m) == Decimal(n)
    ensures m == n
  {
  }
}
