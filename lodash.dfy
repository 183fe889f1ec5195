/** The lodash helpers the site uses: the hand-written replacements of
    `utils/lodash-replacements.ts` (`isEqual`, `compact`, `times`, `padStart`) and the
    library `isEqual` that the cron routes import. */
module Lodash {
  import opened Values

  /** `a === b` on values that are not objects; two objects fetched or read separately are
      never the same reference. */
  predicate Identical(a: Json, b: Json) {
    a == b && !a.JArr? && !a.JObj?
  }

  /** The replacement `isEqual`, as written. */
  function IsEqual(a: Json, b: Json): bool
    decreases a
  {
    if Identical(a, b) then true
    else if IsNullish(a) || IsNullish(b) then false
    else if TypeOf(a) != TypeOf(b) then false
    else if TypeOf(a) == KObject then
      if a.JArr? != b.JArr? then false
      else if a.JArr? then
        |a.items| == |b.items| && forall i :: 0 <= i < |a.items| ==> IsEqual(a.items[i], b.items[i])
      else
        |a.fields| == |b.fields|
        && forall i :: 0 <= i < |a.fields| ==> IsEqual(a.fields[i].value, Lookup(b.fields, a.fields[i].key))
    else false
  }

  /** Every value without NaN equals itself. */
  lemma {:induction false} IsEqualReflexive(a: Json)
    requires WellFormed(a)
    ensures IsEqual(a, a)
    decreases a
  {
    match a
    case JArr(items) =>
      forall i | 0 <= i < |items| ensures IsEqual(items[i], items[i]) {
        IsEqualReflexive(items[i]);
      }
    case JObj(fields) =>
      forall i | 0 <= i < |fields| ensures IsEqual(fields[i].value, Lookup(fields, fields[i].key)) {
        LookupAt(fields, i);
        IsEqualReflexive(fields[i].value);
      }
    case _ =>
  }

  /** `null` or `undefined` equals only itself, and values of different `typeof` differ. */
  lemma IsEqualGuards(a: Json, b: Json)
    ensures IsNullish(a) ==> (IsEqual(a, b) <==> a == b)
    ensures IsNullish(b) ==> (IsEqual(a, b) <==> a == b)
    ensures TypeOf(a) != TypeOf(b) ==> !IsEqual(a, b)
    ensures a.JArr? && b.JObj? ==> !IsEqual(a, b) && !IsEqual(b, a)
  {
  }

  /** Two arrays are equal iff they are as long and equal position by position. */
  lemma IsEqualArrays(xs: seq<Json>, ys: seq<Json>)
    ensures IsEqual(JArr(xs), JArr(ys)) <==>
      |xs| == |ys| && forall i :: 0 <= i < |xs| ==> IsEqual(xs[i], ys[i])
  {
  }

  /** Two objects are equal iff they have as many keys and every key of the first holds an
      equal value in the second, where a missing key reads as `undefined`. */
  lemma IsEqualObjects(fa: seq<Field>, fb: seq<Field>)
    ensures IsEqual(JObj(fa), JObj(fb)) <==>
      |fa| == |fb| && forall i :: 0 <= i < |fa| ==> IsEqual(fa[i].value, Lookup(fb, fa[i].key))
  {
  }

  /** Key sets are never compared: `{x: undefined}` equals `{y: undefined}`. */
  lemma IsEqualIgnoresKeyNames()
    ensures IsEqual(JObj([Field("x", JUndefined)]), JObj([Field("y", JUndefined)]))
  {
    assert Lookup([Field("y", JUndefined)], "x") == JUndefined;
  }

  /** The replacement is not symmetric: `{x: undefined}` equals `{y: 1}`, yet `{y: 1}` does
      not equal `{x: undefined}`. */
  lemma IsEqualNotSymmetric()
    ensures var a, b := JObj([Field("x", JUndefined)]), JObj([Field("y", JNum(1))]);
      IsEqual(a, b) && !IsEqual(b, a)
  {
    assert Lookup([Field("y", JNum(1))], "x") == JUndefined;
    assert Lookup([Field("x", JUndefined)], "y") == JUndefined;
    assert !IsEqual(JNum(1), JUndefined);
  }

  /** lodash's `isEqual` on these values: same shape, arrays position by position, objects
      with as many own keys, each key of the first present in the second with an equal value. */
  function DeepEqual(a: Json, b: Json): bool
    decreases a
  {
    match a
    case JArr(xs) =>
      b.JArr? && |xs| == |b.items| && forall i :: 0 <= i < |xs| ==> DeepEqual(xs[i], b.items[i])
    case JObj(fs) =>
      b.JObj? && |fs| == |b.fields|
      && forall i :: 0 <= i < |fs| ==>
           HasKey(b.fields, fs[i].key) && DeepEqual(fs[i].value, Lookup(b.fields, fs[i].key))
    case _ => a == b
  }

  lemma {:induction false} DeepEqualReflexive(a: Json)
    requires WellFormed(a)
    ensures DeepEqual(a, a)
    decreases a
  {
    match a
    case JArr(items) =>
      forall i | 0 <= i < |items| ensures DeepEqual(items[i], items[i]) {
        DeepEqualReflexive(items[i]);
      }
    case JObj(fields) =>
      forall i | 0 <= i < |fields|
        ensures HasKey(fields, fields[i].key) && DeepEqual(fields[i].value, Lookup(fields, fields[i].key))
      {
        LookupAt(fields, i);
        DeepEqualReflexive(fields[i].value);
      }
    case _ =>
  }

  /** lodash's equality is symmetric on every value an engine can hold. */
  lemma {:induction false} DeepEqualSymmetric(a: Json, b: Json)
    requires WellFormed(a) && WellFormed(b)
    requires DeepEqual(a, b)
    ensures DeepEqual(b, a)
    decreases a
  {
    match a
    case JArr(xs) =>
      forall i | 0 <= i < |xs| ensures DeepEqual(b.items[i], xs[i]) {
        DeepEqualSymmetric(xs[i], b.items[i]);
      }
    case JObj(fa) =>
      var fb := b.fields;
      KeysCovered(fa, fb);
      forall j | 0 <= j < |fb|
        ensures HasKey(fa, fb[j].key) && DeepEqual(fb[j].value, Lookup(fa, fb[j].key))
      {
        var i := LookupFound(fa, fb[j].key);
        LookupAt(fb, j);
        DeepEqualSymmetric(fa[i].value, fb[j].value);
      }
    case _ =>
  }

  /** On values without `undefined` the replacement and lodash agree, so the difference only
      shows once a property holds `undefined`. */
  lemma {:induction false} IsEqualAgreesOnPlain(a: Json, b: Json)
    requires Plain(a) && Plain(b)
    ensures IsEqual(a, b) == DeepEqual(a, b)
    decreases a
  {
    match a
    case JArr(xs) =>
      if b.JArr? && |xs| == |b.items| {
        forall i | 0 <= i < |xs| ensures IsEqual(xs[i], b.items[i]) == DeepEqual(xs[i], b.items[i]) {
          IsEqualAgreesOnPlain(xs[i], b.items[i]);
        }
      }
    case JObj(fa) =>
      if b.JObj? && |fa| == |b.fields| {
        var fb := b.fields;
        forall i | 0 <= i < |fa|
          ensures IsEqual(fa[i].value, Lookup(fb, fa[i].key)) ==
                  (HasKey(fb, fa[i].key) && DeepEqual(fa[i].value, Lookup(fb, fa[i].key)))
        {
          if HasKey(fb, fa[i].key) {
            var j := LookupFound(fb, fa[i].key);
            IsEqualAgreesOnPlain(fa[i].value, fb[j].value);
          } else {
            LookupMissing(fb, fa[i].key);
          }
        }
      }
    case _ =>
  }

  /** The replacement is symmetric on values without `undefined`. */
  lemma IsEqualSymmetricOnPlain(a: Json, b: Json)
    requires Plain(a) && Plain(b) && WellFormed(a) && WellFormed(b)
    ensures IsEqual(a, b) == IsEqual(b, a)
  {
    IsEqualAgreesOnPlain(a, b);
    IsEqualAgreesOnPlain(b, a);
    if DeepEqual(a, b) { DeepEqualSymmetric(a, b); }
    if DeepEqual(b, a) { DeepEqualSymmetric(b, a); }
  }

  /** `array.filter(Boolean)`: the truthy elements, in order. */
  function Compact(xs: seq<Json>): (r: seq<Json>)
    ensures |r| <= |xs|
    ensures forall i :: 0 <= i < |r| ==> Truthy(r[i])
    ensures forall x :: x in r <==> x in xs && Truthy(x)
  {
    if xs == [] then []
    else if Truthy(xs[0]) then [xs[0]] + Compact(xs[1..])
    else Compact(xs[1..])
  }

  /** Compaction keeps the order: it distributes over concatenation. */
  lemma {:induction false} CompactAppend(xs: seq<Json>, ys: seq<Json>)
    ensures Compact(xs + ys) == Compact(xs) + Compact(ys)
  {
    if xs == [] {
      assert xs + ys == ys;
    } else {
      assert (xs + ys)[1..] == xs[1..] + ys;
      CompactAppend(xs[1..], ys);
    }
  }

  /** A sequence of truthy values is its own compaction. */
  lemma {:induction false} CompactTruthy(xs: seq<Json>)
    requires forall i :: 0 <= i < |xs| ==> Truthy(xs[i])
    ensures Compact(xs) == xs
  {
    if xs != [] {
      CompactTruthy(xs[1..]);
    }
  }

  /** `Array.from({length: n}, (_, i) => f(i))`. */
  function Times<T>(n: nat, f: nat -> T): (r: seq<T>)
    ensures |r| == n
    ensures forall i :: 0 <= i < n ==> r[i] == f(i)
  {
    if n == 0 then [] else Times(n - 1, f) + [f(n - 1)]
  }

  /** `n` copies of `fill` laid end to end and cut at `n` characters. */
  function Repeat(fill: string, n: nat): (r: string)
    requires fill != []
    ensures |r| == n
    ensures forall i :: 0 <= i < n ==> r[i] == fill[i % |fill|]
  {
    if n == 0 then [] else Repeat(fill, n - 1) + [fill[(n - 1) % |fill|]]
  }

  /** `String.prototype.padStart(length, chars)`; an empty `chars` pads with nothing. */
  function PadStart(s: string, length: nat, chars: string := " "): (r: string)
    ensures |s| >= length || chars == [] ==> r == s
    ensures |s| < length && chars != [] ==>
      |r| == length && r[length - |s|..] == s
      && forall i :: 0 <= i < length - |s| ==> r[i] == chars[i % |chars|]
  {
    if |s| >= length || chars == [] then s else Repeat(chars, length - |s|) + s
  }
}
