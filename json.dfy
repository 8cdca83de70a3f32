// Parsed JSON values as the browser hands them to the controllers
// (`Response.json()` and `JSON.parse`), and the few JavaScript operations
// the controllers apply to them: truthiness, property access,
// `Object.entries` and `String(value)`.

module Json {
  import opened Text

  datatype Option<T> = None | Some(value: T)

  /** A parsed JSON value. Numbers are integers in this model. An object
      lists its members in JavaScript property order (integer-like keys
      first, in ascending order, then the others as first written) with
      distinct keys, a repeated key holding its last value: that is the
      object `JSON.parse` builds, and the parse functions this model takes
      as inputs are expected to deliver it (see `DistinctKeys`). */
  datatype Json =
    | JNull
    | JBool(b: bool)
    | JNumber(n: int)
    | JString(s: string)
    | JArray(elems: seq<Json>)
    | JObject(members: seq<(string, Json)>)

  /** JavaScript truthiness: `null`, `false`, `0` and `""` are falsy,
      every array and object is truthy. */
  predicate Truthy(v: Json) {
    match v
    case JNull => false
    case JBool(b) => b
    case JNumber(n) => n != 0
    case JString(s) => s != ""
    case JArray(_) => true
    case JObject(_) => true
  }

  /** The value of the first member named `key`, if any. */
  function Lookup(members: seq<(string, Json)>, key: string): (r: Option<Json>)
    ensures r.None? <==> forall i :: 0 <= i < |members| ==> members[i].0 != key
    ensures r.Some? ==>
      exists i :: 0 <= i < |members| && members[i] == (key, r.value) &&
        forall j :: 0 <= j < i ==> members[j].0 != key
  {
    if members == [] then None
    else if members[0].0 == key then Some(members[0].1)
    else
      var r := Lookup(members[1..], key);
      if r.Some? then
        var i :| 0 <= i < |members[1..]| && members[1..][i] == (key, r.value) &&
          forall j :: 0 <= j < i ==> members[1..][j].0 != key;
        assert members[i + 1] == (key, r.value);
        r
      else r
  }

  /** No two members of an object share a key, as in every object
      `JSON.parse` builds. */
  predicate DistinctKeys(members: seq<(string, Json)>) {
    forall i, j :: 0 <= i < j < |members| ==> members[i].0 != members[j].0
  }

  /** `v.key` on a non-null value: a member of an object, `undefined`
      (here `None`) on everything else. Reading a property of `null`
      throws, so callers deal with `JNull` themselves. */
  function Property(v: Json, key: string): Option<Json>
  {
    if v.JObject? then Lookup(v.members, key) else None
  }

  /** On an object with distinct keys, reading a property gives a value
      exactly when the object has that member, and nothing when no member
      has the key. */
  lemma PropertyMember(v: Json, key: string, x: Json)
    requires v.JObject? && DistinctKeys(v.members)
    ensures Property(v, key) == Some(x) <==> (key, x) in v.members
    ensures Property(v, key).None? <==> forall m :: m in v.members ==> m.0 != key
  {
    var ms := v.members;
    if (key, x) in ms {
      var i :| 0 <= i < |ms| && ms[i] == (key, x);
      var r := Lookup(ms, key);
      var j :| 0 <= j < |ms| && ms[j] == (key, r.value) &&
        forall k :: 0 <= k < j ==> ms[k].0 != key;
      assert i == j;
    }
  }

  /** `Object.entries(v)`: the members of an object, the indexed
      elements of an array, the indexed characters of a string, and
      nothing for the other primitives. */
  function Entries(v: Json): (r: seq<(string, Json)>)
    ensures v.JObject? ==> r == v.members
    ensures v.JArray? ==>
      |r| == |v.elems| && forall i :: 0 <= i < |r| ==> r[i] == (NatToString(i), v.elems[i])
    ensures v.JString? ==>
      |r| == |v.s| && forall i :: 0 <= i < |r| ==> r[i] == (NatToString(i), JString([v.s[i]]))
    ensures !(v.JObject? || v.JArray? || v.JString?) ==> r == []
  {
    match v
    case JObject(ms) => ms
    case JArray(es) => seq(|es|, i requires 0 <= i < |es| => (NatToString(i), es[i]))
    case JString(s) => seq(|s|, i requires 0 <= i < |s| => (NatToString(i), JString([s[i]])))
    case _ => []
  }

  /** The entries of an object with distinct keys are exactly its
      properties: each entry's value is what reading its key gives, and
      every property that can be read is an entry. */
  lemma EntriesAreProperties(v: Json)
    requires v.JObject? && DistinctKeys(v.members)
    ensures forall i :: 0 <= i < |Entries(v)| ==> Property(v, Entries(v)[i].0) == Some(Entries(v)[i].1)
    ensures forall key, x :: Property(v, key) == Some(x) ==> (key, x) in Entries(v)
  {
    forall i | 0 <= i < |Entries(v)|
      ensures Property(v, Entries(v)[i].0) == Some(Entries(v)[i].1)
    {
      PropertyMember(v, Entries(v)[i].0, Entries(v)[i].1);
    }
    forall key, x | Property(v, key) == Some(x)
      ensures (key, x) in Entries(v)
    {
      PropertyMember(v, key, x);
    }
  }

  /** The keys `Object.entries` gives an array or a string are pairwise
      distinct, so the rows keyed by them never collide. */
  lemma EntryKeysDistinct(v: Json, i: nat, j: nat)
    requires v.JArray? || v.JString?
    requires i < j < |Entries(v)|
    ensures Entries(v)[i].0 != Entries(v)[j].0
  {
    if Entries(v)[i].0 == Entries(v)[j].0 {
      NatToStringInjective(i, j);
    }
  }

  /** `String(v)`: how a parsed value is shown as text. An array shows its
      elements' texts joined by commas, with `null` elements empty. */
  function Display(v: Json): (r: string)
    ensures v.JNull? ==> r == "null"
    ensures v.JBool? ==> r == if v.b then "true" else "false"
    ensures v.JNumber? && v.n >= 0 ==> AllDigits(r) && DecimalValue(r) == v.n
    ensures v.JNumber? && v.n < 0 ==> |r| >= 1 && r[0] == '-' && AllDigits(r[1..]) && DecimalValue(r[1..]) == -v.n
    ensures v.JString? ==> r == v.s
    ensures v.JArray? && v.elems == [] ==> r == ""
    ensures v.JObject? ==> r == "[object Object]"
    decreases v
  {
    match v
    case JNull => "null"
    case JBool(b) => if b then "true" else "false"
    case JNumber(n) => IntToString(n)
    case JString(s) => s
    case JArray(es) => Join(DisplayElements(v, es), ",")
    case JObject(_) => "[object Object]"
  }

  /** The texts of the elements of the array `whole`, `null` shown empty. */
  function DisplayElements(whole: Json, es: seq<Json>): (r: seq<string>)
    requires whole.JArray? && forall e :: e in es ==> e in whole.elems
    ensures |r| == |es|
    ensures forall i :: 0 <= i < |es| ==> r[i] == if es[i].JNull? then "" else (assert es[i] in es; Display(es[i]))
    decreases whole, |es|
  {
    if es == [] then []
    else
      assert es[0] in whole.elems;
      [if es[0].JNull? then "" else Display(es[0])] + DisplayElements(whole, es[1..])
  }

  /** The text of a non-empty array of strings without commas splits on
      `,` back into those strings. */
  lemma DisplayArraySplits(v: Json)
    requires v.JArray? && |v.elems| >= 1
    requires forall i :: 0 <= i < |v.elems| ==> v.elems[i].JString? && ',' !in v.elems[i].s
    ensures Split(Display(v), ',') == seq(|v.elems|, i requires 0 <= i < |v.elems| => v.elems[i].s)
  {
    var parts := DisplayElements(v, v.elems);
    assert parts == seq(|v.elems|, i requires 0 <= i < |v.elems| => v.elems[i].s);
    assert "," == [','];
    SplitJoin(parts, ',');
  }
}
