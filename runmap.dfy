/** The map card of the older Strava component: the runs in start order, the colour ramp the
    routes are painted with, the runs near New York it zooms to, and its own time string. */
module RunMap {
  import opened Wrappers
  import opened Text
  import RunStats

  type Activity = RunStats.Activity

  // ---------------------------------------------------------------------------------------
  // Runs in start order

  /** `filter(activities, ({type}) => type === 'Run')`. */
  function OnlyRuns(activities: seq<Activity>): (r: seq<Activity>)
    ensures |r| <= |activities|
    ensures forall a :: a in r <==> a in activities && a.kind == "Run"
  {
    if activities == [] then []
    else (if activities[0].kind == "Run" then [activities[0]] else []) + OnlyRuns(activities[1..])
  }

  predicate SortedByStart(s: seq<Activity>) {
    forall i, j :: 0 <= i < j < |s| ==> s[i].startTime <= s[j].startTime
  }

  /** Places `a`, which came before every element of `s`, ahead of the first element that
      does not start earlier. */
  function InsertByStart(a: Activity, s: seq<Activity>): seq<Activity> {
    if s == [] then [a]
    else if a.startTime <= s[0].startTime then [a] + s
    else [s[0]] + InsertByStart(a, s[1..])
  }

  /** `sortBy(runs, run => startTime)`: lodash's sort is stable. */
  function SortByStart(s: seq<Activity>): seq<Activity> {
    if s == [] then [] else InsertByStart(s[0], SortByStart(s[1..]))
  }

  /** The elements with a given start time, in order. */
  function StartingAt(s: seq<Activity>, t: int): seq<Activity> {
    if s == [] then []
    else (if s[0].startTime == t then [s[0]] else []) + StartingAt(s[1..], t)
  }

  /** Insertion adds `a` and nothing else. */
  lemma {:induction false} InsertByStartElements(a: Activity, s: seq<Activity>)
    ensures multiset(InsertByStart(a, s)) == multiset(s) + multiset{a}
    ensures forall x :: x in InsertByStart(a, s) <==> x == a || x in s
  {
    if s != [] && a.startTime > s[0].startTime {
      InsertByStartElements(a, s[1..]);
      assert s == [s[0]] + s[1..];
    }
  }

  lemma {:induction false} InsertByStartSorted(a: Activity, s: seq<Activity>)
    requires SortedByStart(s)
    ensures SortedByStart(InsertByStart(a, s))
  {
    if s != [] && a.startTime > s[0].startTime {
      var rest := InsertByStart(a, s[1..]);
      InsertByStartSorted(a, s[1..]);
      InsertByStartElements(a, s[1..]);
      var r := [s[0]] + rest;
      forall j | 0 < j < |r| ensures s[0].startTime <= r[j].startTime {
        assert r[j] in rest;
        if r[j] != a {
          var k :| 0 <= k < |s[1..]| && s[1..][k] == r[j];
          assert s[k + 1] == r[j];
        }
      }
    }
  }

  /** `StartingAt` of a sequence with a given first element. */
  lemma StartingAtCons(x: Activity, s: seq<Activity>, t: int)
    ensures StartingAt([x] + s, t) == (if x.startTime == t then [x] else []) + StartingAt(s, t)
  {
    assert ([x] + s)[1..] == s;
  }

  /** Runs starting at `t` keep their order, with `a`, which came first, in front of them:
      insertion only passes elements that start strictly earlier than `a`. */
  lemma {:induction false} InsertByStartStable(a: Activity, s: seq<Activity>, t: int)
    ensures StartingAt(InsertByStart(a, s), t) == (if a.startTime == t then [a] else []) + StartingAt(s, t)
  {
    if s == [] {
    } else if a.startTime <= s[0].startTime {
      StartingAtCons(a, s, t);
    } else {
      InsertByStartStable(a, s[1..], t);
      StartingAtCons(s[0], InsertByStart(a, s[1..]), t);
    }
  }

  lemma InsertByStartSpec(a: Activity, s: seq<Activity>, t: int)
    requires SortedByStart(s)
    ensures var r := InsertByStart(a, s);
      SortedByStart(r) && multiset(r) == multiset(s) + multiset{a}
      && StartingAt(r, t) == (if a.startTime == t then [a] else []) + StartingAt(s, t)
  {
    InsertByStartElements(a, s);
    InsertByStartSorted(a, s);
    InsertByStartStable(a, s, t);
  }

  /** Sorting orders by start time, keeps every run exactly once, and keeps runs with equal
      start times in their original order. */
  lemma {:induction false} SortByStartSpec(s: seq<Activity>, t: int)
    ensures var r := SortByStart(s);
      SortedByStart(r) && multiset(r) == multiset(s) && StartingAt(r, t) == StartingAt(s, t)
  {
    if s != [] {
      SortByStartSpec(s[1..], t);
      InsertByStartSpec(s[0], SortByStart(s[1..]), t);
      assert s == [s[0]] + s[1..];
    }
  }

  /** The runs the card draws. */
  function Runs(activities: seq<Activity>): seq<Activity> {
    SortByStart(OnlyRuns(activities))
  }

  /** The drawn runs are exactly the activities of type `Run`, each once, in start order, with
      ties in input order. */
  lemma RunsSpec(activities: seq<Activity>, t: int)
    ensures var r := Runs(activities);
      SortedByStart(r) && multiset(r) == multiset(OnlyRuns(activities))
      && (forall a :: a in r <==> a in activities && a.kind == "Run")
      && StartingAt(r, t) == StartingAt(OnlyRuns(activities), t)
  {
    SortByStartSpec(OnlyRuns(activities), t);
    var r := Runs(activities);
    forall a ensures a in r <==> a in OnlyRuns(activities) {
      assert a in r <==> a in multiset(r);
    }
  }

  // ---------------------------------------------------------------------------------------
  // The runs to zoom to

  /** A `start_latlng` with exactly two coordinates. */
  predicate HasStart(a: Activity) {
    a.startLatLng.Some? && |a.startLatLng.value| == 2
  }

  /** The runs with a start point that `near` (the within-ten-miles-of-New-York test, computed
      by a geometry library) accepts. */
  function NewYorkRuns(runs: seq<Activity>, near: Activity -> bool): (r: seq<Activity>)
    ensures forall a :: a in r <==> a in runs && HasStart(a) && near(a)
  {
    if runs == [] then []
    else (if HasStart(runs[0]) && near(runs[0]) then [runs[0]] else []) + NewYorkRuns(runs[1..], near)
  }

  /** `newYorkRuns.length === 0 ? runs : newYorkRuns`: every run when none is near New York,
      otherwise only runs with a start point near it. */
  function RunsToShow(runs: seq<Activity>, near: Activity -> bool): (r: seq<Activity>)
    ensures (forall a :: a in runs ==> !HasStart(a) || !near(a)) ==> r == runs
    ensures (exists a :: a in runs && HasStart(a) && near(a)) ==>
      r != [] && forall a :: a in r <==> a in runs && HasStart(a) && near(a)
  {
    var nyc := NewYorkRuns(runs, near);
    if |nyc| == 0 then runs else assert nyc[0] in nyc; nyc
  }

  // ---------------------------------------------------------------------------------------
  // The time string

  /** `days ? "{days}d {hours}h" : "{hours}h {minutes}m"`: hours are shown even when zero. */
  function TimeString(seconds: nat): string {
    var t := RunStats.GetComponents(seconds);
    if t.days != 0 then Decimal(t.days) + "d " + Decimal(t.hours) + "h"
    else Decimal(t.hours) + "h " + Decimal(t.minutes) + "m"
  }

  /** The two components' time strings agree exactly when the hours are not zero: the newer
      one drops a zero-hour part that this one shows. */
  lemma TimeStringsAgree(seconds: nat)
    ensures TimeString(seconds) == RunStats.TimeString(seconds) <==> RunStats.GetComponents(seconds).hours > 0
  {
    var t := RunStats.GetComponents(seconds);
    RunStats.TimeStringForms(seconds);
    var d, h, m := Decimal(t.days) + "d", Decimal(t.hours) + "h", Decimal(t.minutes) + "m";
    if t.hours == 0 {
      if t.days != 0 {
        assert TimeString(seconds)[|TimeString(seconds)| - 1] == 'h';
        assert RunStats.TimeString(seconds) == d + " " + m;
        assert RunStats.TimeString(seconds)[|RunStats.TimeString(seconds)| - 1] == 'm';
      } else {
        assert |TimeString(seconds)| == |h| + 1 + |m|;
      }
    }
  }

  // ---------------------------------------------------------------------------------------
  // Colours

  /** `#` and six hex digits. */
  predicate IsColor(c: string) {
    |c| == 7 && c[0] == '#' && forall i :: 1 <= i < 7 ==> IsHexChar(c[i])
  }

  /** `parseInt(color.substring(i, i + 2), 16)`. */
  function Channel(color: string, i: nat): (v: nat)
    requires IsColor(color) && i in {1, 3, 5}
    ensures v < 256
  {
    16 * HexValue(color[i]) + HexValue(color[i + 1])
  }

  /** `Math.round(a + factor * (b - a))`, rounding halves up. */
  function Mix(a: nat, b: nat, factor: real): (r: int)
    requires 0.0 <= factor <= 1.0
    ensures a <= b ==> a <= r <= b
    ensures b <= a ==> b <= r <= a
    ensures factor == 0.0 ==> r == a
    ensures factor == 1.0 ==> r == b
  {
    MixBounds(a, b, factor);
    (a as real + factor * (b - a) as real + 0.5).Floor
  }

  lemma MixBounds(a: nat, b: nat, factor: real)
    requires 0.0 <= factor <= 1.0
    ensures a <= b ==> a as real <= a as real + factor * (b - a) as real <= b as real
    ensures b <= a ==> b as real <= a as real + factor * (b - a) as real <= a as real
  {
    var d := (b - a) as real;
    if a <= b {
      assert 0.0 <= factor * d;
      assert (1.0 - factor) * d >= 0.0;
    } else {
      assert factor * d <= 0.0;
      assert (1.0 - factor) * d <= 0.0;
    }
  }

  /** Two lower-case hex digits for a channel. */
  function Hex2(v: nat): string
    requires v < 256
  {
    RunStats.Padded(v, 16)
  }

  /** The two digits of a channel, which read back as the channel. */
  lemma Hex2Digits(v: nat)
    requires v < 256
    ensures Hex2(v) == [DigitChar(v / 16), DigitChar(v % 16)]
    ensures 16 * HexValue(Hex2(v)[0]) + HexValue(Hex2(v)[1]) == v
  {
    RunStats.PaddedShape(v, 16);
    if v >= 16 {
      assert NatToString(v / 16, 16) == [DigitChar(v / 16)];
    }
    DigitRoundTrip(v / 16);
    DigitRoundTrip(v % 16);
  }

  /** Writing a parsed pair of hex digits gives them back in lower case. */
  lemma Hex2Parsed(hi: char, lo: char)
    ensures Hex2(16 * HexValue(hi) + HexValue(lo)) == [LowerHex(hi), LowerHex(lo)]
  {
    var v := 16 * HexValue(hi) + HexValue(lo);
    Hex2Digits(v);
    assert v / 16 == HexValue(hi) && v % 16 == HexValue(lo);
  }

  /** `interpolateColor`. The factor is a position between two ramp stops, so it lies in
      `[0, 1]`. */
  function InterpolateColor(color1: string, color2: string, factor: real): string
    requires IsColor(color1) && IsColor(color2) && 0.0 <= factor <= 1.0
  {
    "#" + MixPair(color1, color2, 1, factor) + MixPair(color1, color2, 3, factor) + MixPair(color1, color2, 5, factor)
  }

  /** One channel of the result. */
  function MixPair(color1: string, color2: string, i: nat, factor: real): string
    requires IsColor(color1) && IsColor(color2) && i in {1, 3, 5} && 0.0 <= factor <= 1.0
  {
    Hex2(Mix(Channel(color1, i), Channel(color2, i), factor))
  }

  /** The lower-case form of a hex digit. */
  function LowerHex(c: char): char {
    DigitChar(HexValue(c))
  }

  /** One channel's two digits are hex, read back as the mix of the inputs' channels, and at
      the factor's ends are the input's digits in lower case. */
  lemma MixPairSpec(color1: string, color2: string, i: nat, factor: real)
    requires IsColor(color1) && IsColor(color2) && i in {1, 3, 5} && 0.0 <= factor <= 1.0
    ensures var p := MixPair(color1, color2, i, factor);
      |p| == 2 && IsHexChar(p[0]) && IsHexChar(p[1])
      && 16 * HexValue(p[0]) + HexValue(p[1]) == Mix(Channel(color1, i), Channel(color2, i), factor)
      && (factor == 0.0 ==> p == [LowerHex(color1[i]), LowerHex(color1[i + 1])])
      && (factor == 1.0 ==> p == [LowerHex(color2[i]), LowerHex(color2[i + 1])])
  {
    Hex2Digits(Mix(Channel(color1, i), Channel(color2, i), factor));
    if factor == 0.0 {
      Hex2Parsed(color1[i], color1[i + 1]);
    }
    if factor == 1.0 {
      Hex2Parsed(color2[i], color2[i + 1]);
    }
  }

  /** Three pairs of hex digits after `#` make a colour. */
  lemma ColorOfPairs(r: string, g: string, b: string)
    requires |r| == 2 && |g| == 2 && |b| == 2
    requires IsHexChar(r[0]) && IsHexChar(r[1]) && IsHexChar(g[0]) && IsHexChar(g[1]) && IsHexChar(b[0]) && IsHexChar(b[1])
    ensures var c := "#" + r + g + b;
      IsColor(c) && c[1..3] == r && c[3..5] == g && c[5..7] == b
  {
    var c := "#" + r + g + b;
    assert c[1..3] == r && c[3..5] == g && c[5..7] == b;
    forall i | 1 <= i < 7 ensures IsHexChar(c[i]) {
      if i < 3 { assert c[i] == r[i - 1]; }
      else if i < 5 { assert c[i] == g[i - 3]; }
      else { assert c[i] == b[i - 5]; }
    }
  }

  lemma MixPairHex(color1: string, color2: string, i: nat, factor: real)
    requires IsColor(color1) && IsColor(color2) && i in {1, 3, 5} && 0.0 <= factor <= 1.0
    ensures var p := MixPair(color1, color2, i, factor);
      |p| == 2 && IsHexChar(p[0]) && IsHexChar(p[1])
  {
    Hex2Digits(Mix(Channel(color1, i), Channel(color2, i), factor));
  }

  /** The result is a colour whose digits are those of the mixed channels. */
  lemma InterpolateColorDigits(color1: string, color2: string, factor: real)
    requires IsColor(color1) && IsColor(color2) && 0.0 <= factor <= 1.0
    ensures var c := InterpolateColor(color1, color2, factor);
      IsColor(c)
      && c[1..3] == MixPair(color1, color2, 1, factor)
      && c[3..5] == MixPair(color1, color2, 3, factor)
      && c[5..7] == MixPair(color1, color2, 5, factor)
  {
    MixPairHex(color1, color2, 1, factor);
    MixPairHex(color1, color2, 3, factor);
    MixPairHex(color1, color2, 5, factor);
    ColorOfPairs(MixPair(color1, color2, 1, factor), MixPair(color1, color2, 3, factor), MixPair(color1, color2, 5, factor));
  }

  /** The result is a colour, each of its channels is the rounded mix of the inputs'
      channels, and factor 0 writes the first colour and factor 1 the second, in lower case. */
  lemma InterpolateColorSpec(color1: string, color2: string, factor: real)
    requires IsColor(color1) && IsColor(color2) && 0.0 <= factor <= 1.0
    ensures var c := InterpolateColor(color1, color2, factor);
      IsColor(c)
      && Channel(c, 1) == Mix(Channel(color1, 1), Channel(color2, 1), factor)
      && Channel(c, 3) == Mix(Channel(color1, 3), Channel(color2, 3), factor)
      && Channel(c, 5) == Mix(Channel(color1, 5), Channel(color2, 5), factor)
      && (factor == 0.0 ==> forall i :: 1 <= i < 7 ==> c[i] == LowerHex(color1[i]))
      && (factor == 1.0 ==> forall i :: 1 <= i < 7 ==> c[i] == LowerHex(color2[i]))
  {
    InterpolateColorDigits(color1, color2, factor);
    var c := InterpolateColor(color1, color2, factor);
    forall i | i in {1, 3, 5}
      ensures Channel(c, i) == Mix(Channel(color1, i), Channel(color2, i), factor)
      ensures factor == 0.0 ==> c[i] == LowerHex(color1[i]) && c[i + 1] == LowerHex(color1[i + 1])
      ensures factor == 1.0 ==> c[i] == LowerHex(color2[i]) && c[i + 1] == LowerHex(color2[i + 1])
    {
      MixPairSpec(color1, color2, i, factor);
      assert c[i] == c[i..i + 2][0] && c[i + 1] == c[i..i + 2][1];
    }
  }

  /** The ramp, blue through yellow. */
  const Palette: seq<string> := ["#0000FF", "#8000FF", "#FF00FF", "#FF0080", "#FF0000", "#FF8000", "#FFFF00"]

  lemma PaletteColors()
    ensures forall i :: 0 <= i < |Palette| ==> IsColor(Palette[i])
  {
  }

  datatype Stop = Stop(color: string, position: real, index: nat)

  /** `index / (array.length - 1)`. */
  function Position(index: nat, n: nat): real
    requires n >= 2
  {
    index as real / (n - 1) as real
  }

  /** `colorScale`: each colour at its position. */
  function ColorScale(colors: seq<string>): (r: seq<Stop>)
    requires |colors| >= 2
    ensures |r| == |colors| && forall i :: 0 <= i < |r| ==> r[i] == Stop(colors[i], Position(i, |colors|), i)
  {
    seq(|colors|, i requires 0 <= i < |colors| => Stop(colors[i], Position(i, |colors|), i))
  }

  /** Positions start at 0, end at 1 and strictly rise. */
  lemma PositionRange(i: nat, j: nat, n: nat)
    requires n >= 2 && i < j
    ensures Position(0, n) == 0.0 && Position(n - 1, n) == 1.0 && Position(i, n) < Position(j, n)
  {
    var d := (n - 1) as real;
    assert Position(j, n) - Position(i, n) == (j - i) as real / d;
  }

  /** The ramp starts at 0, ends at 1, and its positions strictly rise. */
  lemma ColorScalePositions(colors: seq<string>)
    requires |colors| >= 2
    ensures var s := ColorScale(colors);
      s[0].position == 0.0 && s[|s| - 1].position == 1.0
      && forall i, j :: 0 <= i < j < |s| ==> s[i].position < s[j].position
  {
    PositionRange(0, 1, |colors|);
    forall i: nat, j: nat | i < j < |colors| ensures Position(i, |colors|) < Position(j, |colors|) {
      PositionRange(i, j, |colors|);
    }
  }
}
