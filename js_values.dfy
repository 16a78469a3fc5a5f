/** The JavaScript values the core handles, String() coercion, truthiness, and plain objects
    as ordered key/value records, with the two ways sheets.js fills them. */
module JsValues {
  import opened JsStrings

  datatype Option<+T> = None | Some(value: T)

  /** A JavaScript value. A number is carried by the text Number.prototype.toString gives it,
      which is the only thing the core ever does with a number. */
  datatype Value =
    | Undefined
    | Null
    | Bool(b: bool)
    | Num(text: string)
    | Str(s: string)
    | Arr(items: seq<Value>)
    | Obj(fields: seq<(string, Value)>)

  /** The own enumerable properties of a plain object, in enumeration order. */
  type Record = seq<(string, Value)>

  /** ToBoolean: false, 0, -0, NaN, "", null and undefined are falsy. */
  predicate Truthy(v: Value)
  {
    match v
    case Undefined => false
    case Null => false
    case Bool(b) => b
    case Num(t) => t != "0" && t != "NaN"
    case Str(s) => s != ""
    case _ => true
  }

  /** `typeof v === 'object'`. */
  predicate IsObject(v: Value)
  {
    v.Null? || v.Arr? || v.Obj?
  }

  /** String(v). An array joins its elements with "," (null and undefined elements
      give empty text); a plain object gives "[object Object]". */
  function ToStr(v: Value): string
    decreases v, 0
  {
    match v
    case Undefined => "undefined"
    case Null => "null"
    case Bool(b) => if b then "true" else "false"
    case Num(t) => t
    case Str(s) => s
    case Arr(items) => Join(seq(|items|, i requires 0 <= i < |items| => CellText(items[i])), ",")
    case Obj(_) => "[object Object]"
  }

  /** String(v ?? ''): null and undefined become empty text. */
  function CellText(v: Value): (r: string)
    decreases v, 1
    ensures v.Undefined? || v.Null? ==> r == ""
    ensures v.Str? ==> r == v.s
  {
    if v.Undefined? || v.Null? then "" else ToStr(v)
  }

  function KeysOf(rec: Record): seq<string>
  {
    seq(|rec|, i requires 0 <= i < |rec| => rec[i].0)
  }

  predicate DistinctKeys(rec: Record)
  {
    var ks := KeysOf(rec);
    forall i, j :: 0 <= i < j < |ks| ==> ks[i] != ks[j]
  }

  /** Every property holds a string, as in every object the normaliser builds. */
  predicate StringValued(rec: Record)
  {
    forall i :: 0 <= i < |rec| ==> rec[i].1.Str?
  }

  /** Property lookup: the value stored under `k`, if any. */
  function Lookup(rec: Record, k: string): Option<Value>
  {
    if |rec| == 0 then None
    else if rec[0].0 == k then Some(rec[0].1)
    else Lookup(rec[1..], k)
  }

  /** Defining property `k` of a plain object: an existing key keeps its position and takes
      the new value; a new key goes at the end. No other property changes. */
  function Assign(rec: Record, k: string, v: Value): (r: Record)
    ensures KeysOf(r) == if k in KeysOf(rec) then KeysOf(rec) else KeysOf(rec) + [k]
    ensures Lookup(r, k) == Some(v)
  {
    if |rec| == 0 then [(k, v)]
    else if rec[0].0 == k then
      var r := [(k, v)] + rec[1..];
      assert KeysOf(r) == KeysOf(rec) && KeysOf(rec)[0] == k;
      r
    else
      var tail := Assign(rec[1..], k, v);
      var r := [rec[0]] + tail;
      assert KeysOf(rec) == [rec[0].0] + KeysOf(rec[1..]);
      assert KeysOf(r) == [rec[0].0] + KeysOf(tail);
      r
  }

  /** Assigning one key leaves every other key's value as it was. */
  lemma {:induction false} AssignLeavesOtherKeys(rec: Record, k: string, v: Value, other: string)
    requires other != k
    ensures Lookup(Assign(rec, k, v), other) == Lookup(rec, other)
  {
    if |rec| > 0 && rec[0].0 != k {
      AssignLeavesOtherKeys(rec[1..], k, v, other);
      assert ([rec[0]] + Assign(rec[1..], k, v))[1..] == Assign(rec[1..], k, v);
    }
  }

  /** Assigning keeps the keys distinct. */
  lemma AssignKeepsKeysDistinct(rec: Record, k: string, v: Value)
    requires DistinctKeys(rec)
    ensures DistinctKeys(Assign(rec, k, v))
  {
    var ks := KeysOf(rec);
    if k !in ks {
      assert forall i :: 0 <= i < |ks| ==> (ks + [k])[i] == ks[i];
    }
  }

  /** Assigning a string keeps every property a string. */
  lemma {:induction false} AssignKeepsStringValued(rec: Record, k: string, v: Value)
    requires StringValued(rec) && v.Str?
    ensures StringValued(Assign(rec, k, v))
  {
    if |rec| > 0 && rec[0].0 != k {
      AssignKeepsStringValued(rec[1..], k, v);
    }
  }

  /** The key a plain object inherits an accessor for: assigning a string through it
      changes nothing and creates no own property. */
  const ProtoKey := "__proto__"

  /** `obj[k] = v` on a plain object. */
  function Put(rec: Record, k: string, v: Value): (r: Record)
  {
    if k == ProtoKey then rec else Assign(rec, k, v)
  }

  /** Object.fromEntries over string pairs, which defines each property in turn. */
  function FromEntries(pairs: seq<(string, string)>): (r: Record)
    ensures |r| == 0 <==> |pairs| == 0
  {
    if |pairs| == 0 then []
    else
      var last := pairs[|pairs| - 1];
      var r := Assign(FromEntries(pairs[..|pairs| - 1]), last.0, Str(last.1));
      assert Lookup(r, last.0).Some?;
      r
  }

  /** `const obj = {}` followed by `obj[k] = v` for each pair in turn. */
  function PutAll(pairs: seq<(string, string)>): (r: Record)
  {
    if |pairs| == 0 then []
    else
      var last := pairs[|pairs| - 1];
      Put(PutAll(pairs[..|pairs| - 1]), last.0, Str(last.1))
  }

  /** Object.fromEntries builds an object with distinct keys and string values. */
  lemma {:induction false} FromEntriesWellFormed(pairs: seq<(string, string)>)
    ensures DistinctKeys(FromEntries(pairs)) && StringValued(FromEntries(pairs))
  {
    if |pairs| > 0 {
      var last := pairs[|pairs| - 1];
      FromEntriesWellFormed(pairs[..|pairs| - 1]);
      AssignKeepsKeysDistinct(FromEntries(pairs[..|pairs| - 1]), last.0, Str(last.1));
      AssignKeepsStringValued(FromEntries(pairs[..|pairs| - 1]), last.0, Str(last.1));
    }
  }

  /** Assignments through `obj[k] = v` build an object with distinct keys and string values,
      and never an own `__proto__` property. */
  lemma {:induction false} PutAllWellFormed(pairs: seq<(string, string)>)
    ensures DistinctKeys(PutAll(pairs)) && StringValued(PutAll(pairs))
    ensures ProtoKey !in KeysOf(PutAll(pairs))
  {
    if |pairs| > 0 {
      var last := pairs[|pairs| - 1];
      var init := PutAll(pairs[..|pairs| - 1]);
      PutAllWellFormed(pairs[..|pairs| - 1]);
      AssignKeepsKeysDistinct(init, last.0, Str(last.1));
      AssignKeepsStringValued(init, last.0, Str(last.1));
    }
  }

  /** The value the last pair with key `k` gives, if any pair has that key. */
  function LastValue(pairs: seq<(string, string)>, k: string): Option<Value>
  {
    if |pairs| == 0 then None
    else if pairs[|pairs| - 1].0 == k then Some(Str(pairs[|pairs| - 1].1))
    else LastValue(pairs[..|pairs| - 1], k)
  }

  /** Object.entries: the properties of a plain object, or the index/element pairs of an array. */
  function Entries(v: Value): Record
    requires v.Obj? || v.Arr?
  {
    if v.Obj? then v.fields
    else seq(|v.items|, i requires 0 <= i < |v.items| => (Decimal(i), v.items[i]))
  }

  /** The entries of an array, and of an object whose keys are distinct, never repeat a key:
      an array's keys are the numerals of distinct indices. */
  lemma EntriesDistinctKeys(v: Value)
    requires v.Arr? || (v.Obj? && DistinctKeys(v.fields))
    ensures DistinctKeys(Entries(v))
  {
    if v.Arr? {
      var ks := KeysOf(Entries(v));
      forall i, j | 0 <= i < j < |ks| ensures ks[i] != ks[j] {
        if ks[i] == ks[j] {
          DecimalInjective(i, j);
        }
      }
    }
  }

  /** The host built-ins the core calls but does not define. Each is partial:
      None stands for the exception the call throws. */
  datatype Host = Host(
    // new URL(s), then the entries of its searchParams, in order, already percent-decoded
    parseUrl: string -> Option<seq<(string, string)>>,
    // JSON.parse
    parseJson: string -> Option<Value>,
    // decodeURIComponent
    decodeComponent: string -> Option<string>)

  /** decodeURIComponent only rewrites `%` escapes, so text without `%` comes back as it is. */
  ghost predicate DecodeKeepsPlainText(h: Host)
  {
    forall t :: '%' !in t ==> h.decodeComponent(t) == Some(t)
  }

  /** JSON.parse of text that begins with `{` can only give an object, and of text that
      begins with `[` only an array. */
  ghost predicate JsonKeepsShape(h: Host)
  {
    forall t :: |t| > 0 && h.parseJson(t).Some? ==>
      (t[0] == '{' ==> h.parseJson(t).value.Obj?) && (t[0] == '[' ==> h.parseJson(t).value.Arr?)
  }
}
