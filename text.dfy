/** String helpers that the JavaScript runtime provides: `Number.prototype.toString(radix)`,
    `Array.prototype.join`, `String.prototype.split` on one character, `trim` and
    `startsWith`. Strings are sequences of characters; only ASCII behaviour is modelled. */
module Text {

  /** The digit `Number.prototype.toString` writes for `d` (lower-case beyond 9). */
  function DigitChar(d: nat): (c: char)
    requires d < 16
    ensures IsDigitChar(c)
  {
    if d < 10 then ('0' as int + d) as char else ('a' as int + d - 10) as char
  }

  predicate IsDigitChar(c: char) {
    '0' <= c <= '9' || 'a' <= c <= 'f'
  }

  /** Value of a digit character or of an upper-case hex letter, as `parseInt(_, 16)` reads it. */
  function HexValue(c: char): (v: nat)
    ensures v < 16
  {
    if '0' <= c <= '9' then c as int - '0' as int
    else if 'a' <= c <= 'f' then c as int - 'a' as int + 10
    else if 'A' <= c <= 'F' then c as int - 'A' as int + 10
    else 0
  }

  predicate IsHexChar(c: char) {
    '0' <= c <= '9' || 'a' <= c <= 'f' || 'A' <= c <= 'F'
  }

  lemma {:induction false} DigitRoundTrip(d: nat)
    requires d < 16
    ensures HexValue(DigitChar(d)) == d
  {
  }

  /** `n.toString(radix)` for a non-negative integer `n`. */
  function NatToString(n: nat, radix: nat): (r: string)
    requires 2 <= radix <= 16
    decreases n
  {
    if n < radix then [DigitChar(n)] else NatToString(n / radix, radix) + [DigitChar(n % radix)]
  }

  /** `n.toString()` (decimal). */
  function Decimal(n: nat): string {
    NatToString(n, 10)
  }

  /** The rendering is never empty, has only digit characters, and starts with `0` only for zero. */
  lemma {:induction false} NatToStringShape(n: nat, radix: nat)
    requires 2 <= radix <= 16
    ensures |NatToString(n, radix)| >= 1
    ensures forall i :: 0 <= i < |NatToString(n, radix)| ==> IsDigitChar(NatToString(n, radix)[i])
    ensures NatToString(n, radix)[0] == '0' <==> n == 0
    decreases n
  {
    if n >= radix {
      var q, d := DivMod(n, radix);
      NatToStringShape(q, radix);
      var p, c := NatToString(q, radix), DigitChar(d);
      NatToStringStep(n, radix, q, d);
      assert NatToString(n, radix) == p + [c];
      forall i | 0 <= i < |p| + 1 ensures IsDigitChar((p + [c])[i]) {
        if i < |p| {
          assert (p + [c])[i] == p[i];
        }
      }
      assert (p + [c])[0] == p[0];
    }
  }

  /** One step of the rendering: the quotient's rendering, then the remainder's digit. */
  lemma NatToStringStep(n: nat, radix: nat, q: nat, d: nat)
    requires 2 <= radix <= 16 && radix <= n && q == n / radix && d == n % radix
    ensures d < radix && NatToString(n, radix) == NatToString(q, radix) + [DigitChar(d)]
  {
  }

  /** A rendering has a single character exactly for a single digit. */
  lemma {:induction false} NatToStringSingle(n: nat, radix: nat)
    requires 2 <= radix <= 16
    ensures |NatToString(n, radix)| == 1 <==> n < radix
  {
    if n >= radix {
      var q, d := DivMod(n, radix);
      NatToStringShape(q, radix);
      NatToStringStep(n, radix, q, d);
    }
  }

  /** Different numbers have different renderings. */
  lemma {:induction false} NatToStringInjective(n: nat, m: nat, radix: nat)
    requires 2 <= radix <= 16
    requires NatToString(n, radix) == NatToString(m, radix)
    ensures n == m
    decreases n
  {
    NatToStringSingle(n, radix);
    NatToStringSingle(m, radix);
    if n < radix {
      DigitRoundTrip(n);
      DigitRoundTrip(m);
    } else {
      var s := NatToString(n, radix);
      var qn, dn := DivMod(n, radix);
      var qm, dm := DivMod(m, radix);
      NatToStringStep(n, radix, qn, dn);
      NatToStringStep(m, radix, qm, dm);
      var p, q := NatToString(qn, radix), NatToString(qm, radix);
      assert s == p + [DigitChar(dn)] && s == q + [DigitChar(dm)];
      assert p == s[..|s| - 1] == q;
      assert DigitChar(dn) == s[|s| - 1] == DigitChar(dm);
      NatToStringInjective(qn, qm, radix);
      DigitRoundTrip(dn);
      DigitRoundTrip(dm);
    }
  }

  /** Quotient and remainder of a division by a radix. */
  lemma DivMod(n: nat, d: nat) returns (q: nat, r: nat)
    requires 2 <= d <= 16
    ensures q == n / d && r == n % d
    ensures n == d * q + r && r < d
    ensures d <= n ==> q < n
  {
    q, r := n / d, n % d;
  }

  /** A hex rendering is one character below 16 and two characters from 16 to 255. */
  lemma HexLength(n: nat)
    requires n < 256
    ensures |NatToString(n, 16)| == if n < 16 then 1 else 2
  {
    if n >= 16 {
      assert n / 16 < 16;
    }
  }

  /** `s1 + sep + s2 + sep + ...`, the `Array.prototype.join` of strings. */
  function Join(xs: seq<string>, sep: string): string {
    if |xs| == 0 then ""
    else if |xs| == 1 then xs[0]
    else xs[0] + sep + Join(xs[1..], sep)
  }

  /** Position of the first occurrence of `c` in `s`, or `|s|` when there is none. */
  function IndexOf(s: string, c: char): (i: nat)
    ensures i <= |s|
  {
    if s == [] then 0 else if s[0] == c then 0 else 1 + IndexOf(s[1..], c)
  }

  /** The position found holds `c`, and no earlier one does. */
  lemma {:induction false} IndexOfFirst(s: string, c: char)
    ensures IndexOf(s, c) < |s| ==> s[IndexOf(s, c)] == c
    ensures c !in s[..IndexOf(s, c)]
  {
    if s != [] && s[0] != c {
      IndexOfFirst(s[1..], c);
      assert s[..IndexOf(s, c)] == [s[0]] + s[1..][..IndexOf(s[1..], c)];
    }
  }

  /** `s.split(c)` for a one-character separator: always at least one part. */
  function Split(s: string, c: char): (parts: seq<string>)
    ensures |parts| >= 1
    decreases |s|
  {
    var i := IndexOf(s, c);
    if i == |s| then [s] else [s[..i]] + Split(s[i + 1..], c)
  }

  /** Number of characters of `s` equal to `c`. */
  function Count(s: string, c: char): nat {
    if s == [] then 0 else (if s[0] == c then 1 else 0) + Count(s[1..], c)
  }

  lemma {:induction false} CountAppend(a: string, b: string, c: char)
    ensures Count(a + b, c) == Count(a, c) + Count(b, c)
  {
    if a == [] {
      assert a + b == b;
    } else {
      assert (a + b)[1..] == a[1..] + b;
      CountAppend(a[1..], b, c);
    }
  }

  lemma {:induction false} CountZero(s: string, c: char)
    ensures Count(s, c) == 0 <==> c !in s
  {
    if s != [] {
      CountZero(s[1..], c);
      assert s == [s[0]] + s[1..];
    }
  }

  /** Splitting yields one more part than there are separators, and no part holds a separator. */
  lemma {:induction false} SplitParts(s: string, c: char)
    ensures |Split(s, c)| == Count(s, c) + 1
    ensures forall k :: 0 <= k < |Split(s, c)| ==> c !in Split(s, c)[k]
    decreases |s|
  {
    var i := IndexOf(s, c);
    IndexOfFirst(s, c);
    CountZero(s[..i], c);
    if i < |s| {
      var head, tail := s[..i], s[i + 1..];
      assert s == head + ([c] + tail);
      CountAppend(head, [c] + tail, c);
      CountAppend([c], tail, c);
      assert Count([c], c) == 1 + Count([], c) by { assert [c][1..] == []; }
      SplitParts(tail, c);
      SplitAt(s, c, i);
      var rest := Split(tail, c);
      forall k | 0 <= k < |rest| + 1 ensures c !in ([head] + rest)[k] {
        if k > 0 { assert ([head] + rest)[k] == rest[k - 1]; }
      }
    } else {
      assert s[..i] == s;
    }
  }

  /** One unfolding of `Split` at the first separator. */
  lemma SplitAt(s: string, c: char, i: nat)
    requires i == IndexOf(s, c) < |s|
    ensures Split(s, c) == [s[..i]] + Split(s[i + 1..], c)
  {
  }

  lemma {:induction false} IndexOfPrefix(a: string, b: string, c: char)
    requires c !in a
    ensures IndexOf(a + [c] + b, c) == |a|
  {
    if a != [] {
      assert (a + [c] + b)[1..] == a[1..] + [c] + b;
      IndexOfPrefix(a[1..], b, c);
    }
  }

  lemma {:induction false} IndexOfAbsent(a: string, c: char)
    requires c !in a
    ensures IndexOf(a, c) == |a|
  {
    if a != [] {
      IndexOfAbsent(a[1..], c);
    }
  }

  /** Joining parts that hold no separator and splitting again gives the parts back. */
  lemma {:induction false} SplitJoin(xs: seq<string>, c: char)
    requires |xs| >= 1
    requires forall k :: 0 <= k < |xs| ==> c !in xs[k]
    ensures Split(Join(xs, [c]), c) == xs
  {
    if |xs| == 1 {
      IndexOfAbsent(xs[0], c);
    } else {
      var rest := Join(xs[1..], [c]);
      assert Join(xs, [c]) == xs[0] + [c] + rest;
      IndexOfPrefix(xs[0], rest, c);
      var s := Join(xs, [c]);
      assert s[..|xs[0]|] == xs[0];
      assert s[|xs[0]| + 1..] == rest;
      SplitJoin(xs[1..], c);
      assert xs == [xs[0]] + xs[1..];
    }
  }

  /** Join of parts free of a character is free of it when the separator is too. */
  lemma {:induction false} JoinAvoids(xs: seq<string>, sep: string, c: char)
    requires c !in sep
    requires forall k :: 0 <= k < |xs| ==> c !in xs[k]
    ensures c !in Join(xs, sep)
  {
    if |xs| > 1 {
      JoinAvoids(xs[1..], sep, c);
    }
  }

  /** The whitespace `String.prototype.trim` removes (ASCII part). */
  predicate IsSpace(c: char) {
    c == ' ' || c == '\t' || c == '\n' || c == '\r' || c == '\U{000B}' || c == '\U{000C}'
  }

  function TrimStart(s: string): (r: string)
    ensures |r| <= |s| && r == s[|s| - |r|..]
    ensures r == [] || !IsSpace(r[0])
    ensures forall c :: c in r ==> c in s
  {
    if s != [] && IsSpace(s[0]) then TrimStart(s[1..]) else s
  }

  function TrimEnd(s: string): (r: string)
    ensures |r| <= |s| && r == s[..|r|]
    ensures r == [] || !IsSpace(r[|r| - 1])
    ensures forall c :: c in r ==> c in s
  {
    if s != [] && IsSpace(s[|s| - 1]) then TrimEnd(s[..|s| - 1]) else s
  }

  /** `s.trim()`: the longest infix without leading or trailing whitespace. */
  function Trim(s: string): (r: string)
    ensures r == [] || !IsSpace(r[|r| - 1])
    ensures forall c :: c in r ==> c in s
  {
    TrimEnd(TrimStart(s))
  }

  predicate StartsWith(s: string, prefix: string) {
    |prefix| <= |s| && s[..|prefix|] == prefix
  }
}
