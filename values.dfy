/** JavaScript values as they travel between the third-party APIs, the routes and the
    database: JSON plus `undefined`. Numbers are integers. An object is the list of its
    own properties in insertion order, which is the order `Object.keys` reports for the
    non-numeric keys the program uses. */
module Values {
  import opened Wrappers

  datatype Json =
    | JNull
    | JUndefined
    | JBool(b: bool)
    | JNum(n: int)
    | JStr(s: string)
    | JArr(items: seq<Json>)
    | JObj(fields: seq<Field>)

  datatype Field = Field(key: string, value: Json)

  /** The answers `typeof` gives; `null` and arrays both answer "object". */
  datatype Kind = KUndefined | KBoolean | KNumber | KString | KObject

  function TypeOf(j: Json): (k: Kind)
    ensures k == KObject <==> j.JNull? || j.JArr? || j.JObj?
  {
    match j
    case JUndefined => KUndefined
    case JBool(_) => KBoolean
    case JNum(_) => KNumber
    case JStr(_) => KString
    case _ => KObject
  }

  /** `v == null`: true of both `null` and `undefined`. */
  predicate IsNullish(j: Json) {
    j.JNull? || j.JUndefined?
  }

  /** `Boolean(v)`: `null`, `undefined`, `false`, `0` and `""` are the falsy values. */
  predicate Truthy(j: Json) {
    match j
    case JNull => false
    case JUndefined => false
    case JBool(b) => b
    case JNum(n) => n != 0
    case JStr(s) => s != ""
    case _ => true
  }

  predicate DistinctKeys(fs: seq<Field>) {
    forall i, j :: 0 <= i < j < |fs| ==> fs[i].key != fs[j].key
  }

  predicate HasKey(fs: seq<Field>, k: string) {
    exists i :: 0 <= i < |fs| && fs[i].key == k
  }

  /** `o[k]` on an object: the first property named `k`, or `undefined`. */
  function Lookup(fs: seq<Field>, k: string): Json {
    if fs == [] then JUndefined
    else if fs[0].key == k then fs[0].value
    else Lookup(fs[1..], k)
  }

  /** `v[k]` on any value: only objects have properties here. */
  function Get(j: Json, k: string): Json {
    if j.JObj? then Lookup(j.fields, k) else JUndefined
  }

  /** The property chain `j.k1.k2...`: reading a property of `null` or `undefined` throws a
      `TypeError`, reading a missing one gives `undefined`. */
  function Path(j: Json, keys: seq<string>): (r: Result<Json>)
    ensures keys == [] ==> r == Ok(j)
    ensures keys != [] && IsNullish(j) ==> r.Err?
    ensures |keys| == 1 && !IsNullish(j) ==> r == Ok(Get(j, keys[0]))
    decreases |keys|
  {
    if keys == [] then Ok(j)
    else if IsNullish(j) then Err("TypeError: Cannot read properties of " + (if j.JNull? then "null" else "undefined"))
    else Path(Get(j, keys[0]), keys[1..])
  }

  /** The property names of an object, in order (`Object.keys`). */
  function Keys(fs: seq<Field>): (ks: seq<string>)
    ensures |ks| == |fs|
    ensures forall i :: 0 <= i < |fs| ==> ks[i] == fs[i].key
  {
    if fs == [] then [] else [fs[0].key] + Keys(fs[1..])
  }

  /** A value a JavaScript engine can hold: an object never has two properties of one name. */
  predicate WellFormed(j: Json)
    decreases j
  {
    match j
    case JArr(items) => forall i :: 0 <= i < |items| ==> WellFormed(items[i])
    case JObj(fields) => DistinctKeys(fields) && forall i :: 0 <= i < |fields| ==> WellFormed(fields[i].value)
    case _ => true
  }

  /** A value that came out of `JSON.parse` or the database: no `undefined` anywhere. */
  predicate Plain(j: Json)
    decreases j
  {
    match j
    case JUndefined => false
    case JArr(items) => forall i :: 0 <= i < |items| ==> Plain(items[i])
    case JObj(fields) => forall i :: 0 <= i < |fields| ==> Plain(fields[i].value)
    case _ => true
  }

  /** The properties `JSON.stringify` writes out: those whose value is not `undefined`. */
  function Defined(fs: seq<Field>): (r: seq<Field>)
    ensures |r| <= |fs|
    ensures forall i :: 0 <= i < |r| ==> r[i] in fs && !r[i].value.JUndefined?
    ensures forall i :: 0 <= i < |fs| && !fs[i].value.JUndefined? ==> fs[i] in r
  {
    if fs == [] then []
    else (if fs[0].value.JUndefined? then [] else [fs[0]]) + Defined(fs[1..])
  }

  /** `JSON.parse(JSON.stringify(v))` for a value inside an object or an array, which is what
      a request body carries to the database and a later select reads back: an `undefined`
      array element becomes `null`, an `undefined` property is left out. */
  function Serialized(j: Json): (r: Json)
    ensures j.JObj? <==> r.JObj?
    decreases j
  {
    match j
    case JUndefined => JNull
    case JArr(items) => JArr(seq(|items|, i requires 0 <= i < |items| => Serialized(items[i])))
    case JObj(fields) =>
      var kept := Defined(fields);
      JObj(seq(|kept|, i requires 0 <= i < |kept| =>
        assert kept[i] in fields; Field(kept[i].key, Serialized(kept[i].value))))
    case _ => j
  }

  /** What comes back from the wire holds no `undefined`. */
  lemma {:induction false} SerializedPlain(j: Json)
    ensures Plain(Serialized(j))
    decreases j
  {
    match j
    case JArr(items) =>
      forall i | 0 <= i < |items| ensures Plain(Serialized(items[i])) {
        SerializedPlain(items[i]);
      }
    case JObj(fields) =>
      var kept := Defined(fields);
      forall i | 0 <= i < |kept| ensures Plain(Serialized(kept[i].value)) {
        assert kept[i] in fields;
        SerializedPlain(kept[i].value);
      }
    case _ =>
  }

  /** An `undefined` property of an object with distinct keys is not on the wire at all. */
  lemma SerializedDropsUndefined(fs: seq<Field>, i: nat)
    requires DistinctKeys(fs) && i < |fs| && fs[i].value.JUndefined?
    ensures !HasKey(Serialized(JObj(fs)).fields, fs[i].key)
  {
    var kept := Defined(fs);
    var r := Serialized(JObj(fs)).fields;
    forall j | 0 <= j < |r| ensures r[j].key != fs[i].key {
      assert r[j].key == kept[j].key;
      assert kept[j] in fs && kept[j] != fs[i];
      var m :| 0 <= m < |fs| && fs[m] == kept[j];
      assert m != i;
    }
  }

  lemma {:induction false} DefinedPlain(fs: seq<Field>)
    requires forall i :: 0 <= i < |fs| ==> !fs[i].value.JUndefined?
    ensures Defined(fs) == fs
  {
    if fs != [] {
      DefinedPlain(fs[1..]);
    }
  }

  /** A value without `undefined` travels the wire unchanged. */
  lemma {:induction false} SerializedIdentity(j: Json)
    requires Plain(j)
    ensures Serialized(j) == j
    decreases j
  {
    match j
    case JArr(items) =>
      forall i | 0 <= i < |items| ensures Serialized(items[i]) == items[i] {
        SerializedIdentity(items[i]);
      }
    case JObj(fields) =>
      DefinedPlain(fields);
      forall i | 0 <= i < |fields| ensures Serialized(fields[i].value) == fields[i].value {
        SerializedIdentity(fields[i].value);
      }
    case _ =>
  }

  lemma {:induction false} LookupAt(fs: seq<Field>, i: nat)
    requires DistinctKeys(fs)
    requires i < |fs|
    ensures Lookup(fs, fs[i].key) == fs[i].value
  {
    if i > 0 {
      assert fs[0].key != fs[i].key;
      LookupAt(fs[1..], i - 1);
    }
  }

  lemma {:induction false} LookupMissing(fs: seq<Field>, k: string)
    requires !HasKey(fs, k)
    ensures Lookup(fs, k) == JUndefined
  {
    if fs != [] {
      assert fs[0].key != k;
      assert forall i :: 0 <= i < |fs[1..]| ==> fs[1..][i] == fs[i + 1];
      LookupMissing(fs[1..], k);
    }
  }

  /** A present key is found at one of its positions. */
  lemma {:induction false} LookupFound(fs: seq<Field>, k: string) returns (i: nat)
    requires HasKey(fs, k)
    ensures i < |fs| && fs[i].key == k && Lookup(fs, k) == fs[i].value
  {
    if fs[0].key == k {
      i := 0;
    } else {
      var w :| 0 <= w < |fs| && fs[w].key == k;
      assert fs[1..][w - 1].key == k;
      var i' := LookupFound(fs[1..], k);
      i := i' + 1;
    }
  }

  lemma {:induction false} HasKeyCons(fs: seq<Field>)
    requires fs != []
    ensures forall k :: HasKey(fs, k) <==> fs[0].key == k || HasKey(fs[1..], k)
  {
    assert forall i :: 0 <= i < |fs[1..]| ==> fs[1..][i] == fs[i + 1];
    forall k | HasKey(fs, k) && fs[0].key != k ensures HasKey(fs[1..], k) {
      var i :| 0 <= i < |fs| && fs[i].key == k;
      assert fs[1..][i - 1].key == k;
    }
  }

  /** The set of property names of an object. */
  function KeySet(fs: seq<Field>): set<string> {
    if fs == [] then {} else {fs[0].key} + KeySet(fs[1..])
  }

  lemma {:induction false} KeySetHasKey(fs: seq<Field>, k: string)
    ensures k in KeySet(fs) <==> HasKey(fs, k)
  {
    if fs != [] {
      KeySetHasKey(fs[1..], k);
      assert forall i :: 0 <= i < |fs[1..]| ==> fs[1..][i] == fs[i + 1];
      if HasKey(fs, k) && fs[0].key != k {
        var i :| 0 <= i < |fs| && fs[i].key == k;
        assert fs[1..][i - 1].key == k;
      }
    }
  }

  lemma {:induction false} KeySetSize(fs: seq<Field>)
    requires DistinctKeys(fs)
    ensures |KeySet(fs)| == |fs|
  {
    if fs != [] {
      KeySetSize(fs[1..]);
      KeySetHasKey(fs[1..], fs[0].key);
      assert forall i :: 0 <= i < |fs[1..]| ==> fs[1..][i].key == fs[i + 1].key != fs[0].key;
    }
  }

  /** Two objects with distinct keys, as many of them, where every key of the first is a key
      of the second: then every key of the second is a key of the first. */
  lemma KeysCovered(fa: seq<Field>, fb: seq<Field>)
    requires DistinctKeys(fa) && DistinctKeys(fb) && |fa| == |fb|
    requires forall i :: 0 <= i < |fa| ==> HasKey(fb, fa[i].key)
    ensures forall j :: 0 <= j < |fb| ==> HasKey(fa, fb[j].key)
  {
    var A, B := KeySet(fa), KeySet(fb);
    KeySetSize(fa);
    KeySetSize(fb);
    forall k | k in A ensures k in B {
      KeySetHasKey(fa, k);
      var i :| 0 <= i < |fa| && fa[i].key == k;
      KeySetHasKey(fb, k);
    }
    assert |B - A| == |B| - |A|;
    assert B == A;
    forall j | 0 <= j < |fb| ensures HasKey(fa, fb[j].key) {
      KeySetHasKey(fb, fb[j].key);
      KeySetHasKey(fa, fb[j].key);
    }
  }
}
