/** What normalizeQRContent and toJSON promise, proved about the rule chain that
    Sheets.Normalize specifies (and that Sheets.NormalizeQRContent computes). */
module SheetsProperties {
  import opened JsStrings
  import opened JsValues
  import opened Sheets

  /** Which record a rule can return. */
  predicate WellFormed(rec: Record)
  {
    DistinctKeys(rec) && StringValued(rec)
  }

  // ----- the empty record and the unparsed string -----

  /** Every rule after the first returns a record with at least one property. */
  lemma {:induction false} RulesGiveNonEmpty(s: string, host: Host)
    requires s != ""
    ensures NormalizeText(s, host) != Normal(Obj([]))
  {
  }

  /** `{}` comes back exactly for a falsy input or whitespace-only text. */
  lemma NormalizeEmptyIff(raw: Value, host: Host)
    ensures Normalize(raw, host) == Normal(Obj([]))
      <==> !Truthy(raw) || (raw.Str? && AllWhitespace(raw.s))
  {
    if raw.Str? {
      TrimEmptyIffAllWhitespace(raw.s);
      if Trim(raw.s) != "" {
        RulesGiveNonEmpty(Trim(raw.s), host);
      }
    }
  }

  /** A string comes back exactly when the input is text whose trim is JSON-shaped, and it is
      that trimmed text, unparsed. */
  lemma NormalizeStringIff(raw: Value, host: Host)
    ensures (Normalize(raw, host).Normal? && Normalize(raw, host).value.Str?)
      <==> raw.Str? && JsonShaped(raw.s)
    ensures raw.Str? && JsonShaped(raw.s) ==> Normalize(raw, host) == Normal(Str(Trim(raw.s)))
  {
    if raw.Str? {
      TrimIdempotent(raw.s);
    }
  }

  // ----- the URL rule -----

  /** A URL that parses gives its query parameters when there are any, else the field `url`. */
  lemma UrlParsed(s: string, host: Host, params: seq<(string, string)>)
    requires s != "" && !JsonShaped(s)
    requires HasHttpScheme(s) && host.parseUrl(s) == Some(params)
    ensures |params| > 0 ==> NormalizeText(s, host) == Normal(Obj(FromEntries(params)))
    ensures |params| == 0 ==> NormalizeText(s, host) == Normal(Obj([("url", Str(s))]))
  {
  }

  /** A URL the parser rejects does not escape: the text goes on to the query-string rule. */
  lemma UrlParseFailureFallsThrough(s: string, host: Host)
    requires s != "" && !JsonShaped(s)
    requires HasHttpScheme(s) && host.parseUrl(s).None?
    ensures NormalizeText(s, host) == KeyValueRules(s, host)
  {
  }

  // ----- the last rule -----

  /** Text whose trim no earlier rule takes and holds neither `:` nor `=` is kept, trimmed,
      as the single field `value`. */
  lemma PlainTextFallback(raw: string, host: Host)
    requires Trim(raw) != "" && !JsonShaped(Trim(raw)) && !HasHttpScheme(Trim(raw))
    requires ':' !in Trim(raw) && '=' !in Trim(raw)
    ensures Normalize(Str(raw), host) == Normal(Obj([("value", Str(Trim(raw)))]))
  {
    TrimIdempotent(raw);
  }

  // ----- the query-string rule -----

  /** The query-string pieces fail exactly when one of them throws. */
  lemma {:induction false} AmpPairsNoneIff(pieces: seq<string>, host: Host)
    ensures AmpPairs(pieces, host).None?
      <==> exists i :: 0 <= i < |pieces| && AmpStepOf(pieces[i], host).Throws?
  {
    if |pieces| > 0 {
      var n := |pieces| - 1;
      AmpPairsNoneIff(pieces[..n], host);
      AmpPairsStep(pieces, n, host);
      assert pieces[..n + 1] == pieces;
      if AmpPairs(pieces, host).None? {
        if AmpPairs(pieces[..n], host).None? {
          var i :| 0 <= i < n && AmpStepOf(pieces[..n][i], host).Throws?;
          assert pieces[i] == pieces[..n][i];
        } else {
          assert AmpStepOf(pieces[n], host).Throws?;
        }
      } else {
        forall i | 0 <= i < |pieces| ensures !AmpStepOf(pieces[i], host).Throws? {
          if i < n {
            assert pieces[..n][i] == pieces[i];
          }
        }
      }
    }
  }

  /** normalizeQRContent throws a TypeError exactly for a truthy input that is not text, and
      a URIError exactly when the query-string rule is reached and one of its pieces holds a
      malformed escape. */
  lemma NormalizeThrows(raw: Value, host: Host)
    ensures Normalize(raw, host) == Throw(TypeError) <==> Truthy(raw) && !raw.Str?
    ensures Normalize(raw, host) == Throw(URIError) <==>
      raw.Str? && ReachesQueryRule(Trim(raw.s), host) &&
      exists i :: 0 <= i < |Split(Trim(raw.s), {'&'})| &&
        AmpStepOf(Split(Trim(raw.s), {'&'})[i], host).Throws?
  {
    if raw.Str? {
      var s := Trim(raw.s);
      AmpPairsNoneIff(Split(s, {'&'}), host);
      NormalizeTextThrows(s, host);
      assert s != "" ==> raw.s != "";
    }
  }

  /** On the trimmed text, the rule chain throws only from the query-string rule. */
  lemma NormalizeTextThrows(s: string, host: Host)
    ensures NormalizeText(s, host).Throw? <==>
      ReachesQueryRule(s, host) && AmpPairs(Split(s, {'&'}), host).None?
    ensures NormalizeText(s, host).Throw? ==> NormalizeText(s, host) == Throw(URIError)
  {
    KeyValueRulesThrow(s, host);
  }

  /** The rules after the URL rule throw only when the query-string rule applies and its
      pieces fail. */
  lemma KeyValueRulesThrow(s: string, host: Host)
    ensures KeyValueRules(s, host).Throw? <==>
      '=' in s && '&' in s && AmpPairs(Split(s, {'&'}), host).None?
    ensures KeyValueRules(s, host).Throw? ==> KeyValueRules(s, host) == Throw(URIError)
  {
  }

  /** The trimmed text gets as far as the query-string rule, and that rule applies. */
  predicate ReachesQueryRule(s: string, host: Host)
  {
    s != "" && !JsonShaped(s) && UrlRule(s, host).None? && '=' in s && '&' in s
  }

  /** Property lookup finds exactly the keys of the record. */
  lemma {:induction false} LookupFindsKeys(rec: Record, k: string)
    ensures Lookup(rec, k).Some? <==> k in KeysOf(rec)
  {
    if |rec| > 0 {
      LookupFindsKeys(rec[1..], k);
      assert KeysOf(rec) == [rec[0].0] + KeysOf(rec[1..]);
    }
  }

  /** After the assignments, each key holds the value of its last assignment; `__proto__`
      never becomes a property. */
  lemma {:induction false} PutAllLastWins(pairs: seq<(string, string)>, k: string)
    ensures Lookup(PutAll(pairs), k) == if k == ProtoKey then None else LastValue(pairs, k)
  {
    if |pairs| == 0 {
    } else {
      var last := pairs[|pairs| - 1];
      var init := PutAll(pairs[..|pairs| - 1]);
      PutAllLastWins(pairs[..|pairs| - 1], k);
      if last.0 != ProtoKey && last.0 != k {
        AssignLeavesOtherKeys(init, last.0, Str(last.1), k);
      }
    }
  }

  /** The keys of the object the assignments build are exactly the keys some pair assigns,
      `__proto__` excepted; so `Object.keys(obj).length` is zero exactly when no pair has
      another key. */
  lemma PutAllKeys(pairs: seq<(string, string)>, k: string)
    ensures k in KeysOf(PutAll(pairs)) <==> k != ProtoKey && LastValue(pairs, k).Some?
  {
    LookupFindsKeys(PutAll(pairs), k);
    PutAllLastWins(pairs, k);
  }

  /** Object.fromEntries keeps the last value given for each key. */
  lemma {:induction false} FromEntriesLastWins(pairs: seq<(string, string)>, k: string)
    ensures Lookup(FromEntries(pairs), k) == LastValue(pairs, k)
  {
    if |pairs| > 0 {
      var last := pairs[|pairs| - 1];
      FromEntriesLastWins(pairs[..|pairs| - 1], k);
      if last.0 != k {
        AssignLeavesOtherKeys(FromEntries(pairs[..|pairs| - 1]), last.0, Str(last.1), k);
      }
    }
  }

  // ----- the shape of every result -----

  /** The URL rule's records are well formed. */
  lemma UrlRuleWellFormed(s: string, host: Host)
    ensures UrlRule(s, host).Some? ==> WellFormed(UrlRule(s, host).value)
  {
    if HasHttpScheme(s) && host.parseUrl(s).Some? {
      FromEntriesWellFormed(host.parseUrl(s).value);
    }
  }

  /** The rules after the URL rule return well-formed records. */
  lemma KeyValueRulesWellFormed(s: string, host: Host)
    ensures KeyValueRules(s, host).Normal? ==>
      KeyValueRules(s, host).value.Obj? && WellFormed(KeyValueRules(s, host).value.fields)
  {
    match AmpPairs(Split(s, {'&'}), host) {
      case None =>
      case Some(pairs) => PutAllWellFormed(pairs);
    }
    PutAllWellFormed(PartPairs(Split(s, {','})));
  }

  /** Every object normalizeQRContent returns has distinct keys and only string values,
      and a normal result is an object or the JSON-shaped string. */
  lemma NormalizeWellFormed(raw: Value, host: Host)
    ensures Normalize(raw, host).Normal? ==>
      Normalize(raw, host).value.Str? || Normalize(raw, host).value.Obj?
    ensures Normalize(raw, host).Normal? && Normalize(raw, host).value.Obj? ==>
      WellFormed(Normalize(raw, host).value.fields)
  {
    if raw.Str? {
      var s := Trim(raw.s);
      UrlRuleWellFormed(s, host);
      KeyValueRulesWellFormed(s, host);
    }
  }

  // ----- toJSON -----

  /** toJSON returns an object or array unchanged, so applying it again changes nothing. */
  lemma ToJSONIdempotent(v: Value, host: Host)
    requires ToJSON(v, host).Obj? || ToJSON(v, host).Arr?
    ensures ToJSON(ToJSON(v, host), host) == ToJSON(v, host)
  {
  }

  /** JSON text survives normalizeQRContent as its trim, and toJSON then returns exactly what
      JSON.parse makes of it. */
  lemma JsonRoundTrip(raw: Value, host: Host)
    requires raw.Str? && JsonShaped(raw.s) && host.parseJson(Trim(raw.s)).Some?
    ensures Normalize(raw, host).Normal?
    ensures ToJSON(Normalize(raw, host).value, host) == host.parseJson(Trim(raw.s)).value
  {
    NormalizeStringIff(raw, host);
  }

  /** A value that is neither parsed nor an object becomes the single field `value`,
      holding String(v ?? ''). */
  lemma ToJSONWrapsScalars(v: Value, host: Host)
    requires !(v.Str? && host.parseJson(v.s).Some?) && !v.Obj? && !v.Arr?
    ensures ToJSON(v, host) == Obj([("value", Str(CellText(v)))])
    ensures v.Null? || v.Undefined? ==> ToJSON(v, host) == Obj([("value", Str(""))])
  {
  }

  /** With a JSON parser that keeps the shape of its text, toJSON of anything
      normalizeQRContent returns is an object or an array. */
  lemma PipelineYieldsObject(raw: Value, host: Host)
    requires JsonKeepsShape(host)
    requires Normalize(raw, host).Normal?
    ensures ToJSON(Normalize(raw, host).value, host).Obj?
      || ToJSON(Normalize(raw, host).value, host).Arr?
  {
    var n := Normalize(raw, host).value;
    NormalizeWellFormed(raw, host);
    if n.Str? {
      NormalizeStringIff(raw, host);
      var t := Trim(raw.s);
      assert n.s == t && Delimited(t);
      if host.parseJson(t).Some? {
        assert t[0] == '{' || t[0] == '[';
      }
    }
  }
}
