/** The GitHub card: the contribution days regrouped into one row per weekday, the month
    header above the first row, and the colour class of each contribution level. */
module ContributionGrid {

  /** A contribution day. `month` is the month `parseISO(date).getMonth()` reads from the date. */
  datatype Day = Day(date: string, weekday: int, month: int, level: string)

  datatype Week = Week(days: seq<Day>)

  // ---------------------------------------------------------------------------------------
  // Rows by weekday

  /** Every day of every week, in order. */
  function AllDays(weeks: seq<Week>): seq<Day> {
    if weeks == [] then [] else weeks[0].days + AllDays(weeks[1..])
  }

  lemma {:induction false} AllDaysSnoc(weeks: seq<Week>, w: Week)
    ensures AllDays(weeks + [w]) == AllDays(weeks) + w.days
  {
    if weeks == [] {
      assert weeks + [w] == [w];
      assert AllDays([w]) == w.days + AllDays([]);
    } else {
      assert (weeks + [w])[1..] == weeks[1..] + [w];
      AllDaysSnoc(weeks[1..], w);
    }
  }

  /** The days with a given weekday, in order. */
  function OnWeekday(days: seq<Day>, w: int): (r: seq<Day>)
    ensures |r| <= |days|
    ensures forall d :: d in r <==> d in days && d.weekday == w
  {
    if days == [] then []
    else (if days[0].weekday == w then [days[0]] else []) + OnWeekday(days[1..], w)
  }

  lemma {:induction false} OnWeekdaySnoc(days: seq<Day>, d: Day, w: int)
    ensures OnWeekday(days + [d], w) == OnWeekday(days, w) + (if d.weekday == w then [d] else [])
  {
    if days == [] {
      assert days + [d] == [d];
      assert OnWeekday([d], w) == (if d.weekday == w then [d] else []) + OnWeekday([], w);
    } else {
      assert (days + [d])[1..] == days[1..] + [d];
      OnWeekdaySnoc(days[1..], d, w);
    }
  }

  /** The seven rows: row `w` holds the days with weekday `w`. */
  function Rows(days: seq<Day>): (r: seq<seq<Day>>)
    ensures |r| == 7
    ensures forall w :: 0 <= w < 7 ==> r[w] == OnWeekday(days, w)
  {
    seq(7, w requires 0 <= w < 7 => OnWeekday(days, w))
  }

  /** Pushing a day onto its weekday's row is filtering the longer list. */
  lemma RowsSnoc(days: seq<Day>, d: Day)
    requires 0 <= d.weekday < 7
    ensures Rows(days + [d]) == Rows(days)[d.weekday := Rows(days)[d.weekday] + [d]]
  {
    var pushed := Rows(days)[d.weekday := Rows(days)[d.weekday] + [d]];
    forall w | 0 <= w < 7 ensures Rows(days + [d])[w] == pushed[w] {
      OnWeekdaySnoc(days, d, w);
    }
  }

  predicate WeekdaysInRange(weeks: seq<Week>) {
    forall i, j :: 0 <= i < |weeks| && 0 <= j < |weeks[i].days| ==> 0 <= weeks[i].days[j].weekday < 7
  }

  /** `weeks`: seven empty rows, then each day of each week pushed onto its weekday's row. A
      weekday outside 0..6 would push onto a missing row, so callers supply 0..6. */
  method WeekRows(contributions: seq<Week>) returns (rows: seq<seq<Day>>)
    requires WeekdaysInRange(contributions)
    ensures rows == Rows(AllDays(contributions))
  {
    rows := [[], [], [], [], [], [], []];
    var i := 0;
    while i < |contributions|
      invariant 0 <= i <= |contributions|
      invariant rows == Rows(AllDays(contributions[..i]))
    {
      var week := contributions[i];
      ghost var before := AllDays(contributions[..i]);
      var j := 0;
      assert before + week.days[..j] == before;
      while j < |week.days|
        invariant 0 <= j <= |week.days|
        invariant rows == Rows(before + week.days[..j])
      {
        var day := week.days[j];
        assert 0 <= day.weekday < 7;
        assert before + week.days[..j + 1] == (before + week.days[..j]) + [day];
        RowsSnoc(before + week.days[..j], day);
        rows := rows[day.weekday := rows[day.weekday] + [day]];
        j := j + 1;
      }
      AllDaysSnoc(contributions[..i], week);
      assert contributions[..i + 1] == contributions[..i] + [week];
      assert week.days[..j] == week.days;
      i := i + 1;
    }
    assert contributions[..i] == contributions;
  }

  /** The total length of a list of rows. */
  function TotalLength(rows: seq<seq<Day>>): nat {
    if rows == [] then 0 else |rows[0]| + TotalLength(rows[1..])
  }

  lemma {:induction false} TotalLengthPush(rows: seq<seq<Day>>, w: nat, d: Day)
    requires w < |rows|
    ensures TotalLength(rows[w := rows[w] + [d]]) == TotalLength(rows) + 1
  {
    var r := rows[w := rows[w] + [d]];
    if w > 0 {
      assert r[1..] == rows[1..][w - 1 := rows[w] + [d]];
      TotalLengthPush(rows[1..], w - 1, d);
    } else {
      assert r[1..] == rows[1..];
    }
  }

  lemma {:induction false} TotalLengthEmpty(rows: seq<seq<Day>>)
    requires forall w :: 0 <= w < |rows| ==> rows[w] == []
    ensures TotalLength(rows) == 0
  {
    if rows != [] {
      TotalLengthEmpty(rows[1..]);
    }
  }

  /** No day is lost or duplicated: the rows together hold exactly as many days as the
      weeks did. */
  lemma {:induction false} RowsKeepEveryDay(days: seq<Day>)
    requires forall i :: 0 <= i < |days| ==> 0 <= days[i].weekday < 7
    ensures TotalLength(Rows(days)) == |days|
  {
    if days == [] {
      TotalLengthEmpty(Rows(days));
    } else {
      var init, d := days[..|days| - 1], days[|days| - 1];
      assert days == init + [d];
      RowsKeepEveryDay(init);
      RowsSnoc(init, d);
      TotalLengthPush(Rows(init), d.weekday, d);
    }
  }

  // ---------------------------------------------------------------------------------------
  // The month header

  /** Cell `k` of the header shows its month's name: it is not the first or the last cell, and
      its month differs from the previous cell's. */
  predicate StartsMonth(months: seq<int>, k: int) {
    0 < k < |months| - 1 && months[k] != months[k - 1]
  }

  /** The header over the first row: `monthCursor` starts at the first day's month, and a
      cell is labelled when its month differs from the cursor and another cell follows it;
      a labelled cell moves the cursor to its month. The first row must not be empty, since
      its first day is read unguarded. */
  method MonthHeader(months: seq<int>) returns (labelled: seq<bool>)
    requires |months| > 0
    ensures |labelled| == |months|
    ensures forall k :: 0 <= k < |months| ==> (labelled[k] <==> StartsMonth(months, k))
  {
    var cursor := months[0];
    labelled := [];
    var i := 0;
    while i < |months|
      invariant 0 <= i <= |months| && |labelled| == i
      invariant cursor == months[if i == 0 then 0 else i - 1] || i == |months|
      invariant forall k :: 0 <= k < i ==> (labelled[k] <==> StartsMonth(months, k))
    {
      var month := months[i];
      assert i > 0 ==> cursor == months[i - 1];
      ghost var prev := labelled;
      if month != cursor && i + 1 < |months| {
        cursor := month;
        labelled := labelled + [true];
      } else {
        labelled := labelled + [false];
      }
      assert labelled[i] <==> StartsMonth(months, i);
      assert forall k :: 0 <= k < i ==> labelled[k] == prev[k];
      i := i + 1;
    }
  }

  // ---------------------------------------------------------------------------------------
  // Levels

  const Neutral := "bg-black/5 dark:bg-white/5"

  /** The background class of a day. Any level other than the four quartiles, `NONE`
      included, gets the neutral class. */
  function LevelClass(level: string): string {
    if level == "FOURTH_QUARTILE" then "bg-green-700 dark:bg-green-400"
    else if level == "THIRD_QUARTILE" then "bg-green-600 dark:bg-green-600"
    else if level == "SECOND_QUARTILE" then "bg-green-500 dark:bg-green-700"
    else if level == "FIRST_QUARTILE" then "bg-green-300 dark:bg-green-800"
    else Neutral
  }

  /** The quartile a level names, `0` for any other level. */
  function Quartile(level: string): (r: nat)
    ensures r <= 4
    ensures r == 1 ==> level == "FIRST_QUARTILE"
    ensures r == 2 ==> level == "SECOND_QUARTILE"
    ensures r == 3 ==> level == "THIRD_QUARTILE"
    ensures r == 4 ==> level == "FOURTH_QUARTILE"
  {
    if level == "FOURTH_QUARTILE" then 4
    else if level == "THIRD_QUARTILE" then 3
    else if level == "SECOND_QUARTILE" then 2
    else if level == "FIRST_QUARTILE" then 1
    else 0
  }

  /** The class of each quartile. */
  function QuartileClass(q: nat): string {
    if q == 4 then "bg-green-700 dark:bg-green-400"
    else if q == 3 then "bg-green-600 dark:bg-green-600"
    else if q == 2 then "bg-green-500 dark:bg-green-700"
    else if q == 1 then "bg-green-300 dark:bg-green-800"
    else Neutral
  }

  /** Two characters of each class tell the classes apart. */
  lemma QuartileClassKey(q: nat)
    requires q <= 4
    ensures QuartileClass(q)[3] == (if q == 0 then 'b' else 'g')
    ensures q > 0 ==> QuartileClass(q)[9] == (if q == 1 then '3' else if q == 2 then '5' else if q == 3 then '6' else '7')
  {
  }

  lemma QuartileClassInjective(p: nat, q: nat)
    requires p <= 4 && q <= 4 && QuartileClass(p) == QuartileClass(q)
    ensures p == q
  {
    QuartileClassKey(p);
    QuartileClassKey(q);
  }

  /** The four quartiles get four different classes, none of them neutral, and every other
      level, `NONE` included, is neutral: two days look the same exactly when their levels
      agree or neither is a quartile. */
  lemma LevelClassesDistinct(a: string, b: string)
    ensures LevelClass(a) == Neutral <==> Quartile(a) == 0
    ensures LevelClass(a) == LevelClass(b) <==> a == b || (Quartile(a) == 0 && Quartile(b) == 0)
  {
    assert LevelClass(a) == QuartileClass(Quartile(a));
    assert LevelClass(b) == QuartileClass(Quartile(b));
    assert Neutral == QuartileClass(0);
    if LevelClass(a) == Neutral {
      QuartileClassInjective(Quartile(a), 0);
    }
    if LevelClass(a) == LevelClass(b) {
      QuartileClassInjective(Quartile(a), Quartile(b));
    }
  }
}
