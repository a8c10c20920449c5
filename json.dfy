/** Decoded JSON values and the Python operators the message handler applies to them
    (`in`, subscription and `dict.get`). */
module Json {
  import opened Wrappers

  /** A Python float produced by the JSON decoder. The handler only tests its type and
      copies it into a point, so it is carried as its IEEE-754 bit pattern. */
  datatype Float = Float(bits: bv64)

  /** A decoded JSON document as Python sees it: `null`, `bool`, `int`, `float`, `str`,
      `list` and `dict`. Integers and floats are different types, and a `bool` is not a
      `float`. A `dict` keeps its items in the order its keys appear in the text. The type
      also admits an object with a repeated key, which no decoded `dict` has (`json.loads`
      keeps one item per key); `DistinctKeys` states when an object is a real `dict`. */
  datatype JsonValue =
    | JNull
    | JBool(b: bool)
    | JInt(i: int)
    | JFloat(f: Float)
    | JString(s: string)
    | JArray(items: seq<JsonValue>)
    | JObject(fields: Fields)

  /** The items of a decoded JSON object, in iteration order. */
  type Fields = seq<(string, JsonValue)>

  /** The keys of a decoded object are pairwise distinct. */
  predicate DistinctKeys(fields: Fields) {
    forall i, j :: 0 <= i < j < |fields| ==> fields[i].0 != fields[j].0
  }

  /** The value stored under `key`, if any: `d[key]` when `key in d`, as `d.get(key)`. */
  function Lookup(fields: Fields, key: string): (r: Option<JsonValue>)
    ensures r.Some? <==> exists i :: 0 <= i < |fields| && fields[i].0 == key
    ensures r.Some? ==> (key, r.value) in fields
  {
    if fields == [] then None
    else if fields[0].0 == key then Some(fields[0].1)
    else Lookup(fields[1..], key)
  }

  /** `sub` occurs in `s` starting at position `i`. */
  predicate OccursAt(sub: string, s: string, i: int)
  {
    0 <= i && i + |sub| <= |s| && s[i..i + |sub|] == sub
  }

  /** Occurrences in `s[1..]` are the occurrences in `s` one position further on. */
  lemma OccursShift(sub: string, s: string)
    requires s != []
    ensures forall i :: 0 <= i ==> (OccursAt(sub, s[1..], i) <==> OccursAt(sub, s, i + 1))
  {
    forall i | 0 <= i
      ensures OccursAt(sub, s[1..], i) <==> OccursAt(sub, s, i + 1)
    {
      if i + |sub| <= |s| - 1 {
        assert s[1..][i..i + |sub|] == s[i + 1..i + 1 + |sub|];
      }
    }
  }

  /** Python's `sub in s` on two strings: it holds exactly when `sub` occurs in `s` at some
      position. */
  predicate IsSubstring(sub: string, s: string)
    ensures IsSubstring(sub, s) <==> exists i :: OccursAt(sub, s, i)
    decreases |s|
  {
    if |sub| > |s| then
      assert forall i :: !OccursAt(sub, s, i);
      false
    else if s[..|sub|] == sub then
      assert OccursAt(sub, s, 0);
      true
    else
      OccursShift(sub, s);
      assert !OccursAt(sub, s, 0);
      assert (exists i :: OccursAt(sub, s, i)) ==> exists i :: OccursAt(sub, s[1..], i) by {
        if exists i :: OccursAt(sub, s, i) {
          var i :| OccursAt(sub, s, i);
          assert OccursAt(sub, s[1..], i - 1);
        }
      }
      IsSubstring(sub, s[1..])
  }

  /** Python's `key in v` for a string `key`. On a dict it tests the keys, on a str it
      searches for a substring, on a list it compares the elements with `==`; on a number,
      a bool or `None` it raises `TypeError`, which is `None` here. */
  function Contains(v: JsonValue, key: string): (r: Option<bool>)
    ensures r.None? <==> (v.JNull? || v.JBool? || v.JInt? || v.JFloat?)
    ensures v.JObject? ==> r == Some(Lookup(v.fields, key).Some?)
    ensures v.JString? ==> r == Some(IsSubstring(key, v.s))
    ensures v.JArray? ==> r == Some(JString(key) in v.items)
  {
    match v
    case JObject(fields) => Some(Lookup(fields, key).Some?)
    case JString(s) => Some(IsSubstring(key, s))
    case JArray(items) => Some(JString(key) in items)
    case _ => None
  }
}
