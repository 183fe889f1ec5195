/** Column-name translation between the application's camelCase and the database's
    snake_case: the runtime `toSnakeCase` and key transformers of `utils/supabase.ts`, and the
    type-level `SnakeToCamelCase` of `types/camel-case.ts`, which the runtime mirrors. */
module Casing {
  import opened Text
  import opened Values

  predicate IsUpper(c: char) { 'A' <= c <= 'Z' }
  predicate IsLower(c: char) { 'a' <= c <= 'z' }

  function ToLower(c: char): (d: char)
    ensures IsUpper(c) ==> IsLower(d)
    ensures !IsUpper(c) ==> d == c
  {
    if IsUpper(c) then (c as int + 32) as char else c
  }

  /** The ASCII part of `Capitalize`'s upper-casing. */
  function ToUpper(c: char): (d: char)
    ensures IsLower(c) ==> IsUpper(d) && ToLower(d) == c
    ensures !IsLower(c) ==> d == c
  {
    if IsLower(c) then (c as int - 32) as char else c
  }

  /** Number of ASCII upper-case letters in `s`. */
  function Uppers(s: string): nat {
    if s == [] then 0 else (if IsUpper(s[0]) then 1 else 0) + Uppers(s[1..])
  }

  /** What `toSnakeCase` writes for one character. */
  function SnakeChar(c: char): string {
    if IsUpper(c) then ['_', ToLower(c)] else [c]
  }

  /** `str.replace(/[A-Z]/g, l => "_" + l.toLowerCase())`: digits are never split off. */
  function ToSnakeCase(s: string): string {
    if s == [] then [] else SnakeChar(s[0]) + ToSnakeCase(s[1..])
  }

  /** The result is longer by one `_` per upper-case letter and has no upper-case letter. */
  lemma {:induction false} ToSnakeCaseShape(s: string)
    ensures |ToSnakeCase(s)| == |s| + Uppers(s)
    ensures forall i :: 0 <= i < |ToSnakeCase(s)| ==> !IsUpper(ToSnakeCase(s)[i])
  {
    if s != [] {
      ToSnakeCaseShape(s[1..]);
    }
  }

  lemma {:induction false} ToSnakeCaseAppend(a: string, b: string)
    ensures ToSnakeCase(a + b) == ToSnakeCase(a) + ToSnakeCase(b)
  {
    if a == [] {
      assert a + b == b;
    } else {
      assert (a + b)[1..] == a[1..] + b;
      ToSnakeCaseAppend(a[1..], b);
    }
  }

  /** A string without upper-case letters is left as it is. */
  lemma {:induction false} ToSnakeCaseIdentity(s: string)
    requires forall i :: 0 <= i < |s| ==> !IsUpper(s[i])
    ensures ToSnakeCase(s) == s
  {
    if s != [] {
      ToSnakeCaseIdentity(s[1..]);
    }
  }

  lemma {:induction false} ToSnakeCaseIdempotent(s: string)
    ensures ToSnakeCase(ToSnakeCase(s)) == ToSnakeCase(s)
  {
    ToSnakeCaseShape(s);
    ToSnakeCaseIdentity(ToSnakeCase(s));
  }

  /** Each upper-case letter becomes `_` and its lower-case letter; every other character is kept:
      a character that is not `_`, not a lower-case letter and not in `s` is not in the result. */
  lemma {:induction false} ToSnakeCaseAvoids(s: string, c: char)
    requires c !in s && c != '_' && !IsLower(c)
    ensures c !in ToSnakeCase(s)
  {
    if s != [] {
      ToSnakeCaseAvoids(s[1..], c);
    }
  }

  /** A digit is never split off: it stays in place between the translations of what comes
      before and after it, so `vo2MaxValue` keeps `vo2` whole. */
  lemma ToSnakeCaseKeepsDigits(a: string, d: char, b: string)
    requires '0' <= d <= '9'
    ensures ToSnakeCase(a + [d] + b) == ToSnakeCase(a) + [d] + ToSnakeCase(b)
  {
    var one := [d];
    assert one[1..] == [] && SnakeChar(d) == one;
    assert ToSnakeCase(one) == one;
    ToSnakeCaseAppend(a + one, b);
    ToSnakeCaseAppend(a, one);
  }

  /** `Capitalize<S>`: the first character upper-cased. */
  function Capitalize(s: string): string {
    seq(|s|, i requires 0 <= i < |s| => if i == 0 then ToUpper(s[0]) else s[i])
  }

  /** `SnakeToCamelCase<S>`: split at the first `_`, keep the head, and capitalise the
      converted remainder. */
  function SnakeToCamelCase(s: string): string
    decreases |s|
  {
    var i := IndexOf(s, '_');
    if i == |s| then s else s[..i] + Capitalize(SnakeToCamelCase(s[i + 1..]))
  }

  /** The result holds no `_` and is shorter by exactly the number of `_` in the input. */
  lemma {:induction false} SnakeToCamelCaseShape(s: string)
    ensures '_' !in SnakeToCamelCase(s)
    ensures |SnakeToCamelCase(s)| == |s| - Count(s, '_')
    decreases |s|
  {
    var i := IndexOf(s, '_');
    if i == |s| {
      IndexOfFirst(s, '_');
      assert s[..i] == s;
      CountZero(s, '_');
    } else {
      var head, rest := s[..i], SnakeToCamelCase(s[i + 1..]);
      assert SnakeToCamelCase(s) == head + Capitalize(rest);
      SplitAtFirst(s, i);
      SnakeToCamelCaseShape(s[i + 1..]);
      CapitalizeAvoids(rest);
      NotInAppend(head, Capitalize(rest), '_');
    }
  }

  lemma NotInAppend(a: string, b: string, c: char)
    requires c !in a && c !in b
    ensures c !in a + b
  {
  }

  /** Capitalising keeps the length and adds no `_`. */
  lemma CapitalizeAvoids(t: string)
    requires '_' !in t
    ensures |Capitalize(t)| == |t| && '_' !in Capitalize(t)
  {
    forall k | 0 <= k < |t| ensures Capitalize(t)[k] != '_' {
      assert t[k] != '_';
    }
  }

  /** Counting the separators around the first one. */
  lemma {:induction false} SplitAtFirst(s: string, i: nat)
    requires i < |s| && i == IndexOf(s, '_')
    ensures '_' !in s[..i]
    ensures Count(s, '_') == 1 + Count(s[i + 1..], '_')
  {
    IndexOfFirst(s, '_');
    assert s == s[..i] + ([s[i]] + s[i + 1..]);
    CountAppend(s[..i], [s[i]] + s[i + 1..], '_');
    CountAppend([s[i]], s[i + 1..], '_');
    CountZero(s[..i], '_');
  }

  /** A string without `_` is unchanged. */
  lemma {:induction false} SnakeToCamelCaseIdentity(s: string)
    requires '_' !in s
    ensures SnakeToCamelCase(s) == s
  {
    IndexOfAbsent(s, '_');
  }

  /** A leading character other than `_` is carried over as it is. */
  lemma {:induction false} SnakeToCamelCaseCons(c: char, t: string)
    requires c != '_'
    ensures SnakeToCamelCase([c] + t) == [c] + SnakeToCamelCase(t)
  {
    var s := [c] + t;
    var j := IndexOf(t, '_');
    IndexOfCons(c, t, '_');
    if j < |t| {
      assert s[..j + 1] == [c] + t[..j];
      assert s[j + 2..] == t[j + 1..];
      var tail := Capitalize(SnakeToCamelCase(t[j + 1..]));
      SnakeToCamelCaseAt(s, j + 1);
      SnakeToCamelCaseAt(t, j);
      assert [c] + t[..j] + tail == [c] + (t[..j] + tail);
    } else {
      assert SnakeToCamelCase(s) == s;
      assert SnakeToCamelCase(t) == t;
    }
  }

  lemma IndexOfCons(c: char, t: string, x: char)
    requires c != x
    ensures IndexOf([c] + t, x) == 1 + IndexOf(t, x)
  {
    assert ([c] + t)[1..] == t;
  }

  lemma IndexOfHead(s: string, x: char)
    requires s != [] && s[0] == x
    ensures IndexOf(s, x) == 0
  {
  }

  /** One unfolding at the first `_`. */
  lemma SnakeToCamelCaseAt(s: string, i: nat)
    requires i == IndexOf(s, '_') < |s|
    ensures SnakeToCamelCase(s) == s[..i] + Capitalize(SnakeToCamelCase(s[i + 1..]))
  {
  }

  /** The head before the first `_` is kept; the rest is converted and capitalised. */
  lemma {:induction false} SnakeToCamelCaseSplit(a: string, b: string)
    requires '_' !in a
    ensures SnakeToCamelCase(a + ['_'] + b) == a + Capitalize(SnakeToCamelCase(b))
  {
    var s := a + ['_'] + b;
    IndexOfPrefix(a, b, '_');
    assert s[..|a|] == a;
    assert s[|a| + 1..] == b;
  }

  /** An identifier as the database spells it: lower-case letters, digits and `_`, and every
      `_` is followed by a lower-case letter. */
  predicate SnakeIdentifier(s: string) {
    forall i :: 0 <= i < |s| ==> SnakeCharAt(s, i)
  }

  predicate SnakeCharAt(s: string, i: nat)
    requires i < |s|
  {
    (IsLower(s[i]) || '0' <= s[i] <= '9' || s[i] == '_')
    && (s[i] == '_' ==> i + 1 < |s| && IsLower(s[i + 1]))
  }

  lemma {:induction false} SnakeIdentifierTail(s: string)
    requires SnakeIdentifier(s) && s != []
    ensures SnakeIdentifier(s[1..])
  {
    var t := s[1..];
    forall i | 0 <= i < |t| ensures SnakeCharAt(t, i) {
      assert SnakeCharAt(s, i + 1);
      assert t[i] == s[i + 1];
      if i + 1 < |t| { assert t[i + 1] == s[i + 2]; }
    }
  }

  lemma {:induction false} ToSnakeCaseCons(c: char, t: string)
    ensures ToSnakeCase([c] + t) == SnakeChar(c) + ToSnakeCase(t)
  {
    assert ([c] + t)[1..] == t;
  }

  lemma {:induction false} CapitalizeCons(c: char, t: string)
    ensures Capitalize([c] + t) == [ToUpper(c)] + t
  {
  }

  /** Converting a database identifier to camelCase and back gives it again. */
  lemma {:induction false} SnakeCamelRoundTrip(s: string)
    requires SnakeIdentifier(s)
    ensures ToSnakeCase(SnakeToCamelCase(s)) == s
    decreases |s|
  {
    if s != [] {
      var c, t := s[0], s[1..];
      assert s == [c] + t;
      SnakeIdentifierTail(s);
      if c == '_' {
        assert SnakeCharAt(s, 0);
        var d, u := t[0], t[1..];
        assert d == s[1] && IsLower(d);
        SnakeIdentifierTail(t);
        var x := SnakeToCamelCase(u);
        assert s[..0] == [] && s[1..] == t && t == [d] + u;
        IndexOfHead(s, '_');
        SnakeToCamelCaseAt(s, 0);
        SnakeToCamelCaseCons(d, u);
        CapitalizeCons(d, x);
        ToSnakeCaseCons(ToUpper(d), x);
        assert SnakeChar(ToUpper(d)) == ['_', d];
        SnakeCamelRoundTrip(u);
        assert SnakeToCamelCase(t) == [d] + x;
        assert SnakeToCamelCase(s) == [ToUpper(d)] + x;
        assert ToSnakeCase(SnakeToCamelCase(s)) == ['_', d] + ToSnakeCase(x);
        assert s == ['_', d] + u;
      } else {
        assert SnakeCharAt(s, 0);
        assert SnakeChar(c) == [c];
        SnakeToCamelCaseCons(c, t);
        ToSnakeCaseCons(c, SnakeToCamelCase(t));
        SnakeCamelRoundTrip(t);
        assert ToSnakeCase(SnakeToCamelCase(s)) == [c] + ToSnakeCase(SnakeToCamelCase(t));
      }
    }
  }

  /** Converting a camelCase name without `_` to snake_case and back gives it again. */
  lemma {:induction false} CamelSnakeRoundTrip(s: string)
    requires '_' !in s
    ensures SnakeToCamelCase(ToSnakeCase(s)) == s
  {
    if s != [] {
      var c, t := s[0], s[1..];
      assert s == [c] + t;
      assert '_' !in t;
      CamelSnakeRoundTrip(t);
      var y := ToSnakeCase(t);
      ToSnakeCaseCons(c, t);
      if IsUpper(c) {
        var d := ToLower(c);
        var r := ['_', d] + y;
        assert ToSnakeCase(s) == r;
        assert r[..0] == [] && r[1..] == [d] + y;
        SnakeToCamelCaseAt(r, 0);
        SnakeToCamelCaseCons(d, y);
        CapitalizeCons(d, SnakeToCamelCase(y));
        assert ToUpper(d) == c;
      } else {
        assert ToSnakeCase(s) == [c] + y;
        SnakeToCamelCaseCons(c, y);
      }
    }
  }

  /** `Object.fromEntries`: a repeated key keeps its first position and takes the last value. */
  function FromEntries(entries: seq<Field>): (fs: seq<Field>)
    ensures DistinctKeys(fs)
    ensures forall k :: HasKey(fs, k) <==> HasKey(entries, k)
    decreases |entries|
  {
    if entries == [] then []
    else
      var init := entries[..|entries| - 1];
      var last := entries[|entries| - 1];
      assert entries == init + [last];
      SetField(FromEntries(init), last.key, last.value)
  }

  /** `o[k] = v` on an object: overwrite in place, or add at the end. */
  function SetField(fs: seq<Field>, k: string, v: Json): (r: seq<Field>)
    requires DistinctKeys(fs)
    ensures DistinctKeys(r)
    ensures forall k' :: HasKey(r, k') <==> HasKey(fs, k') || k' == k
    ensures Lookup(r, k) == v
    ensures forall k' :: k' != k ==> Lookup(r, k') == Lookup(fs, k')
    decreases |fs|
  {
    if fs == [] then
      HasKeyCons([Field(k, v)]);
      [Field(k, v)]
    else if fs[0].key == k then
      var r := [Field(k, v)] + fs[1..];
      HasKeyCons(fs);
      HasKeyCons(r);
      assert r[1..] == fs[1..];
      assert DistinctKeys(r) by {
        assert forall i :: 0 < i < |r| ==> r[i] == fs[i];
      }
      r
    else
      var rest := SetField(fs[1..], k, v);
      var r := [fs[0]] + rest;
      HasKeyCons(fs);
      HasKeyCons(r);
      assert r[1..] == rest;
      assert !HasKey(fs[1..], fs[0].key) by {
        assert forall i :: 0 <= i < |fs[1..]| ==> fs[1..][i] == fs[i + 1];
      }
      assert DistinctKeys(r) by {
        forall i, j | 0 <= i < j < |r| ensures r[i].key != r[j].key {
          assert r[j] == rest[j - 1];
          if i > 0 {
            assert r[i] == rest[i - 1];
          }
        }
      }
      r
  }

  /** When the new keys are distinct, `fromEntries` keeps every entry in place. */
  lemma {:induction false} FromEntriesDistinct(entries: seq<Field>)
    requires DistinctKeys(entries)
    ensures FromEntries(entries) == entries
    decreases |entries|
  {
    if entries != [] {
      var init := entries[..|entries| - 1];
      var last := entries[|entries| - 1];
      FromEntriesDistinct(init);
      assert !HasKey(init, last.key);
      SetFieldAppends(init, last.key, last.value);
      assert entries == init + [last];
    }
  }

  lemma {:induction false} SetFieldAppends(fs: seq<Field>, k: string, v: Json)
    requires DistinctKeys(fs) && !HasKey(fs, k)
    ensures SetField(fs, k, v) == fs + [Field(k, v)]
  {
    if fs != [] {
      assert fs[0].key != k;
      assert !HasKey(fs[1..], k) by {
        assert forall i :: 0 <= i < |fs[1..]| ==> fs[1..][i] == fs[i + 1];
      }
      assert DistinctKeys(fs[1..]);
      SetFieldAppends(fs[1..], k, v);
      assert fs == [fs[0]] + fs[1..];
    }
  }

  /** Every key renamed by `rename`, every value untouched. */
  function RenameKeys(rename: string -> string, fs: seq<Field>): (r: seq<Field>)
    ensures |r| == |fs|
    ensures forall i :: 0 <= i < |fs| ==> r[i] == Field(rename(fs[i].key), fs[i].value)
  {
    if fs == [] then [] else [Field(rename(fs[0].key), fs[0].value)] + RenameKeys(rename, fs[1..])
  }

  /** The shallow key transformer: arrays element by element, objects by renaming their own
      keys through `Object.fromEntries`, every other value unchanged. */
  function KeysTo(rename: string -> string, j: Json): (r: Json)
    decreases j
  {
    match j
    case JArr(items) => JArr(seq(|items|, i requires 0 <= i < |items| => KeysTo(rename, items[i])))
    case JObj(fields) => JObj(FromEntries(RenameKeys(rename, fields)))
    case _ => j
  }

  /** Arrays keep their length and order, primitives and `null` come back unchanged. */
  lemma {:induction false} KeysToShape(rename: string -> string, j: Json)
    ensures !j.JArr? && !j.JObj? ==> KeysTo(rename, j) == j
    ensures j.JArr? ==>
      KeysTo(rename, j).JArr? && |KeysTo(rename, j).items| == |j.items|
      && forall i :: 0 <= i < |j.items| ==> KeysTo(rename, j).items[i] == KeysTo(rename, j.items[i])
    ensures j.JObj? ==> KeysTo(rename, j).JObj?
  {
  }

  /** Shallow: only top-level keys change. The value under a renamed key is the value of the
      last source key renamed to it, nested payloads included, untouched. */
  lemma {:induction false} KeysToShallow(rename: string -> string, fs: seq<Field>)
    requires DistinctKeys(RenameKeys(rename, fs))
    ensures KeysTo(rename, JObj(fs)) == JObj(RenameKeys(rename, fs))
  {
    FromEntriesDistinct(RenameKeys(rename, fs));
  }

  /** `keysToSnakeCase`, applied to the data of `insert`, `upsert` and `update`. */
  function KeysToSnakeCase(j: Json): Json {
    KeysTo(ToSnakeCase, j)
  }

  /** `keysToCamelCase`, applied to the data of every result. It calls lodash's `camelCase`,
      which on the database's snake_case identifiers agrees with `SnakeToCamelCase`. */
  function KeysToCamelCase(j: Json): Json {
    KeysTo(SnakeToCamelCase, j)
  }

  /** Renaming an object's keys to snake_case and back restores it, when its keys hold no `_`. */
  lemma {:induction false} KeysRoundTrip(fs: seq<Field>)
    requires DistinctKeys(fs)
    requires forall i :: 0 <= i < |fs| ==> '_' !in fs[i].key
    ensures KeysToCamelCase(KeysToSnakeCase(JObj(fs))) == JObj(fs)
  {
    var snake := RenameKeys(ToSnakeCase, fs);
    assert DistinctKeys(snake) by {
      forall i, j | 0 <= i < j < |fs| ensures snake[i].key != snake[j].key {
        CamelSnakeRoundTrip(fs[i].key);
        CamelSnakeRoundTrip(fs[j].key);
      }
    }
    FromEntriesDistinct(snake);
    var back := RenameKeys(SnakeToCamelCase, snake);
    forall i | 0 <= i < |fs| ensures back[i] == fs[i] {
      CamelSnakeRoundTrip(fs[i].key);
    }
    assert back == fs;
    FromEntriesDistinct(fs);
  }

  /** `transformSelectString`: split on `,`, trim and snake-case each column, join with `,`. */
  function TransformSelectString(s: string): string {
    Join(SelectColumns(s), [','])
  }

  function SelectColumns(s: string): (cols: seq<string>)
    ensures |cols| == |Split(s, ',')|
    ensures forall i :: 0 <= i < |cols| ==> cols[i] == ToSnakeCase(Trim(Split(s, ',')[i]))
  {
    var parts := Split(s, ',');
    seq(|parts|, i requires 0 <= i < |parts| => ToSnakeCase(Trim(parts[i])))
  }

  /** The rewritten select list has the same columns in the same order, each trimmed and
      snake-cased. */
  lemma {:induction false} TransformSelectStringColumns(s: string)
    ensures Split(TransformSelectString(s), ',') == SelectColumns(s)
  {
    var parts := Split(s, ',');
    var cols := SelectColumns(s);
    SplitParts(s, ',');
    forall k | 0 <= k < |cols| ensures ',' !in cols[k] {
      assert ',' !in Trim(parts[k]);
      ToSnakeCaseAvoids(Trim(parts[k]), ',');
    }
    SplitJoin(cols, ',');
  }

  /** A select list written as columns joined by `,` yields those columns, trimmed and
      snake-cased. */
  lemma {:induction false} SelectColumnsJoin(cols: seq<string>)
    requires |cols| >= 1
    requires forall k :: 0 <= k < |cols| ==> ',' !in cols[k]
    ensures SelectColumns(Join(cols, [','])) == seq(|cols|, i requires 0 <= i < |cols| => ToSnakeCase(Trim(cols[i])))
  {
    SplitJoin(cols, ',');
  }

  /** A string with no whitespace at either end is its own trim. */
  lemma TrimClean(s: string)
    requires s != [] ==> !IsSpace(s[0]) && !IsSpace(s[|s| - 1])
    ensures Trim(s) == s
  {
  }

  /** A leading space in front of a clean column is trimmed away. */
  lemma TrimLeadingSpace(c: char, rest: string)
    requires IsSpace(c) && rest != [] && !IsSpace(rest[0]) && !IsSpace(rest[|rest| - 1])
    ensures Trim([c] + rest) == rest
  {
    var s := [c] + rest;
    assert s != [] && s[0] == c && s[1..] == rest;
    assert TrimStart(s) == TrimStart(rest);
    assert TrimStart(rest) == rest;
    assert Trim(s) == TrimEnd(rest);
    TrimClean(rest);
  }

  /** The runtime table name handed to `from`; for a name without `_` it is the database
      table whose type-level name is the given one. */
  function FromTableName(name: string): (r: string)
    ensures '_' !in name ==> SnakeToCamelCase(r) == name
    ensures forall i :: 0 <= i < |r| ==> !IsUpper(r[i])
  {
    ToSnakeCaseShape(name);
    if '_' !in name then
      CamelSnakeRoundTrip(name);
      ToSnakeCase(name)
    else
      ToSnakeCase(name)
  }

  const SelectMethod := "select"

  /** Builder methods whose first argument is a column name. */
  const ColumnMethods: set<string> := {
    "order", "eq", "neq", "gt", "gte", "lt", "lte", "filter", "not", "like", "ilike",
    "is", "in", "contains", "containedBy", "match", "textSearch"
  }

  /** Builder methods whose first argument is the data written. */
  const DataMethods: set<string> := {"insert", "upsert", "update"}

  /** The argument rewriting of a wrapped query-builder call. */
  method RewriteArgs(prop: string, args: seq<Json>) returns (out: seq<Json>)
    ensures |out| == |args|
    ensures args != [] ==> out[1..] == args[1..]
    ensures args != [] && prop == SelectMethod && args[0].JStr? ==>
      out[0] == JStr(TransformSelectString(args[0].s))
    ensures args != [] && prop != SelectMethod && prop in ColumnMethods && args[0].JStr? ==>
      out[0] == JStr(ToSnakeCase(args[0].s))
    ensures args != [] && !(prop == SelectMethod && args[0].JStr?) && !(prop in ColumnMethods && args[0].JStr?)
      ==> out[0] == (if prop in DataMethods && Truthy(args[0]) then KeysToSnakeCase(args[0]) else args[0])
  {
    out := args;
    if prop == SelectMethod && args != [] && args[0].JStr? {
      out := [JStr(TransformSelectString(args[0].s))] + args[1..];
    } else if prop in ColumnMethods && args != [] && args[0].JStr? {
      out := [JStr(ToSnakeCase(args[0].s))] + args[1..];
    } else if prop in DataMethods && args != [] && Truthy(args[0]) {
      out := [KeysToSnakeCase(args[0])] + args[1..];
    }
  }
}
