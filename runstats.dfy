/** The Strava card's statistics: the public runs among the activities, their total moving
    time, and that time written as days, hours and minutes. */
module RunStats {
  import opened Wrappers
  import opened Text
  import opened Lodash
  import opened Cycling

  /** The fields of a stored activity the cards read. `startTime` is `start_date` as
      milliseconds since the epoch; `startLatLng` is `start_latlng`, absent when missing. */
  datatype Activity = Activity(
    visibility: string,
    kind: string,
    movingTime: nat,
    startTime: int,
    startLatLng: Option<seq<real>>)

  // ---------------------------------------------------------------------------------------
  // Numbers

  /** `padStart(value.toString(radix), 2, "0")`. */
  function Padded(value: nat, radix: nat := 10): string
    requires 2 <= radix <= 16
  {
    PadStart(NatToString(value, radix), 2, "0")
  }

  /** A single digit gains a leading `0`; longer renderings are left alone. */
  lemma PaddedShape(value: nat, radix: nat)
    requires 2 <= radix <= 16
    ensures value < radix ==> Padded(value, radix) == ['0', DigitChar(value)]
    ensures value >= radix ==> Padded(value, radix) == NatToString(value, radix) && |Padded(value, radix)| >= 2
  {
    NatToStringSingle(value, radix);
    NatToStringShape(value, radix);
    if value < radix {
      assert NatToString(value, radix) == [DigitChar(value)];
    }
  }

  datatype Components = Components(days: nat, hours: nat, minutes: nat)

  /** `getComponents`: whole days, the hours left over, the minutes left over. */
  function GetComponents(seconds: nat): Components {
    Components(seconds / 86400, (seconds % 86400) / 3600, (seconds % 3600) / 60)
  }

  /** The components are bounded like a clock and account for every whole minute. */
  lemma ComponentsBounds(seconds: nat)
    ensures var c := GetComponents(seconds);
      c.hours < 24 && c.minutes < 60
      && 86400 * c.days + 3600 * c.hours + 60 * c.minutes <= seconds < 86400 * c.days + 3600 * c.hours + 60 * c.minutes + 60
  {
    var d, r := seconds / 86400, seconds % 86400;
    assert seconds == 86400 * d + r && r < 86400;
    var h, q := r / 3600, r % 3600;
    assert r == 3600 * h + q && q < 3600;
    ModUnique(seconds, 3600, 24 * d + h, q);
    var m := q / 60;
    assert q == 60 * m + q % 60 && q % 60 < 60;
  }

  // ---------------------------------------------------------------------------------------
  // The time string

  /** `filter(parts, c => !startsWith(c, "0"))`. */
  function WithoutZero(parts: seq<string>): (r: seq<string>)
    ensures |r| <= |parts|
  {
    if parts == [] then []
    else (if StartsWith(parts[0], "0") then [] else [parts[0]]) + WithoutZero(parts[1..])
  }

  /** `join(slice([...nonZero, minutes], 0, 2), " ")`. */
  function TimeString(seconds: nat): string {
    var t := GetComponents(seconds);
    var leading := [Decimal(t.days) + "d", Decimal(t.hours) + "h"];
    var parts := WithoutZero(leading) + [Decimal(t.minutes) + "m"];
    Join(parts[..if |parts| < 2 then |parts| else 2], " ")
  }

  /** A rendered count with a unit starts with `0` exactly when the count is zero. */
  lemma ZeroPrefix(n: nat, unit: string)
    ensures StartsWith(Decimal(n) + unit, "0") <==> n == 0
  {
    NatToStringShape(n, 10);
    assert (Decimal(n) + unit)[0] == Decimal(n)[0];
  }

  /** At most two parts: zero days and zero hours are dropped, minutes come last, and only
      the first two parts are kept. */
  lemma TimeStringForms(seconds: nat)
    ensures var t := GetComponents(seconds);
      var d, h, m := Decimal(t.days) + "d", Decimal(t.hours) + "h", Decimal(t.minutes) + "m";
      TimeString(seconds) == (
        if t.days > 0 && t.hours > 0 then d + " " + h
        else if t.days > 0 then d + " " + m
        else if t.hours > 0 then h + " " + m
        else m)
  {
    var t := GetComponents(seconds);
    var d, h, m := Decimal(t.days) + "d", Decimal(t.hours) + "h", Decimal(t.minutes) + "m";
    ZeroPrefix(t.days, "d");
    ZeroPrefix(t.hours, "h");
    assert WithoutZero([d, h]) == (if t.days > 0 then [d] else []) + WithoutZero([h]);
    assert WithoutZero([h]) == (if t.hours > 0 then [h] else []) + WithoutZero([]);
    var parts := WithoutZero([d, h]) + [m];
    var shown := parts[..if |parts| < 2 then |parts| else 2];
    assert TimeString(seconds) == Join(shown, " ");
    if t.days > 0 && t.hours > 0 {
      assert shown == [d, h];
      assert Join([d, h], " ") == d + " " + Join([h], " ");
    } else if t.days > 0 {
      assert shown == [d, m];
      assert Join([d, m], " ") == d + " " + Join([m], " ");
    } else if t.hours > 0 {
      assert shown == [h, m];
      assert Join([h, m], " ") == h + " " + Join([m], " ");
    } else {
      assert shown == [m];
    }
  }

  /** The heading's noun: singular for exactly one run. */
  function RunNoun(totalRuns: nat): (r: string)
    ensures r == "Run" <==> totalRuns == 1
  {
    if totalRuns == 1 then "Run" else "Runs"
  }

  // ---------------------------------------------------------------------------------------
  // Public runs and their totals

  /** `filter(activities, ({visibility}) => visibility === "everyone")`. */
  function Visible(activities: seq<Activity>): (r: seq<Activity>)
    ensures |r| <= |activities|
    ensures forall i :: 0 <= i < |r| ==> r[i].visibility == "everyone"
    ensures forall a :: a in r <==> a in activities && a.visibility == "everyone"
  {
    if activities == [] then []
    else (if activities[0].visibility == "everyone" then [activities[0]] else []) + Visible(activities[1..])
  }

  /** The filter keeps order: it distributes over concatenation. */
  lemma {:induction false} VisibleAppend(xs: seq<Activity>, ys: seq<Activity>)
    ensures Visible(xs + ys) == Visible(xs) + Visible(ys)
  {
    if xs == [] {
      assert xs + ys == ys;
    } else {
      assert (xs + ys)[1..] == xs[1..] + ys;
      VisibleAppend(xs[1..], ys);
    }
  }

  /** `reduce(runs, (acc, run) => acc + run.moving_time, 0)`. */
  function TotalMovingTime(runs: seq<Activity>): nat {
    if runs == [] then 0 else runs[0].movingTime + TotalMovingTime(runs[1..])
  }

  lemma {:induction false} TotalAppend(xs: seq<Activity>, ys: seq<Activity>)
    ensures TotalMovingTime(xs + ys) == TotalMovingTime(xs) + TotalMovingTime(ys)
  {
    if xs == [] {
      assert xs + ys == ys;
    } else {
      assert (xs + ys)[1..] == xs[1..] + ys;
      TotalAppend(xs[1..], ys);
    }
  }

  /** The card's totals: the number of public runs and the time string of their moving time. */
  datatype Totals = Totals(totalRuns: nat, movingTime: nat, time: string)

  function Summarize(activities: seq<Activity>): Totals {
    var runs := Visible(activities);
    Totals(|runs|, TotalMovingTime(runs), TimeString(TotalMovingTime(runs)))
  }

  /** Only public activities count: appending an activity adds one run and its moving time
      when it is public, and nothing otherwise. */
  lemma SummarizeSnoc(activities: seq<Activity>, a: Activity)
    ensures var before, after := Summarize(activities), Summarize(activities + [a]);
      if a.visibility == "everyone" then
        after.totalRuns == before.totalRuns + 1 && after.movingTime == before.movingTime + a.movingTime
      else after == before
  {
    VisibleAppend(activities, [a]);
    TotalAppend(Visible(activities), Visible([a]));
    assert Visible([a]) == (if a.visibility == "everyone" then [a] else []) + Visible([]);
  }
}
