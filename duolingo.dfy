/** `POST /api/duolingo`: snapshot the streak and the course list when either changed. */
module DuolingoRoute {
  import opened Wrappers
  import opened Values
  import opened Text
  import opened Casing
  import opened Lodash
  import opened Auth
  import opened Store
  import opened Snapshot

  const DuolingoSelect := "streak,courses"

  /** The record compared and inserted: exactly `{streak, courses}`. */
  function Candidate(streak: Json, courses: Json): (r: seq<Field>)
    ensures Keys(r) == ["streak", "courses"]
    ensures Lookup(r, "streak") == streak && Lookup(r, "courses") == courses
  {
    [Field("streak", streak), Field("courses", courses)]
  }

  /** The select list is the two clean columns of the record joined by `,`, so it reads
      back the record (`CandidateSelected`), and a second run with an unchanged streak and
      course list appends nothing (`SecondRunWritesNothing`). */
  lemma DuolingoColumns(s: string)
    requires s == DuolingoSelect
    ensures s == "streak" + [','] + "courses"
  {
  }

  lemma StreakClean(c: string)
    requires c == "streak"
    ensures CleanColumn(c)
  {
    StreakChars(c);
    StreakTrimmed(c);
  }

  lemma StreakChars(c: string)
    requires c == "streak"
    ensures ',' !in c && '_' !in c
  {
  }

  lemma StreakTrimmed(c: string)
    requires c == "streak"
    ensures Trim(c) == c
  {
    TrimClean(c);
  }

  lemma CoursesClean(c: string)
    requires c == "courses"
    ensures CleanColumn(c)
  {
    CoursesChars(c);
    CoursesTrimmed(c);
  }

  lemma CoursesChars(c: string)
    requires c == "courses"
    ensures ',' !in c && '_' !in c
  {
  }

  lemma CoursesTrimmed(c: string)
    requires c == "courses"
    ensures Trim(c) == c
  {
    TrimClean(c);
  }

  /** The select list reads back the candidate record. */
  lemma CandidateSelected(streak: Json, courses: Json)
    ensures Selects(DuolingoSelect, Candidate(streak, courses))
  {
    DuolingoColumns(DuolingoSelect);
    StreakClean("streak");
    CoursesClean("courses");
    PairSelects("streak", "courses", Field("streak", streak), Field("courses", courses));
  }

  /** For a streak and courses parsed from Duolingo's replies, and so free of `undefined`:
      after a run that ingests them the newest row deep-equals the candidate, and a second
      run with the same streak and courses, whatever its id and time, writes nothing. */
  lemma SecondRunWritesNothing(rows: seq<Row>, id: nat, id': nat, streak: Json, courses: Json,
                               now: string, now': string)
    requires WellFormed(streak) && Plain(streak) && WellFormed(courses) && Plain(courses)
    ensures var once := Ingest(rows, id, DuolingoSelect, Candidate(streak, courses), now);
      DeepEqual(LatestOf(once, DuolingoSelect), JObj(Candidate(streak, courses)))
      && Ingest(once, id', DuolingoSelect, Candidate(streak, courses), now') == once
  {
    CandidateSelected(streak, courses);
    CandidatePlain(streak, courses);
    IngestSettles(rows, id, id', DuolingoSelect, Candidate(streak, courses), now, now');
  }

  /** The candidate of parsed values is a well-formed value without `undefined`. */
  lemma CandidatePlain(streak: Json, courses: Json)
    requires WellFormed(streak) && Plain(streak) && WellFormed(courses) && Plain(courses)
    ensures WellFormed(JObj(Candidate(streak, courses))) && Plain(JObj(Candidate(streak, courses)))
  {
    var candidate := Candidate(streak, courses);
    assert candidate[0].value == streak && candidate[1].value == courses;
    assert candidate[0].key != candidate[1].key;
  }

  /** The route. The 401 of the key check is discarded. The streak is fetched before the
      courses; each is what its retried request finally produced, and a failing streak
      request ends the run before the courses are asked for. */
  method Post(keys: Secrets, authorization: Option<string>, streak: Result<Json>, courses: Result<Json>,
              table: AppendTable, now: string, selectFault: Option<string>, insertFault: Option<string>)
    returns (out: Outcome)
    modifies table
    ensures out != Unauthorized
    ensures streak.Err? ==> out == Failed(streak.msg) && table.rows == old(table.rows)
    ensures streak.Ok? && courses.Err? ==> out == Failed(courses.msg) && table.rows == old(table.rows)
    ensures streak.Ok? && courses.Ok? ==>
      var candidate := Candidate(streak.value, courses.value);
      (selectFault.Some? ==> out == Failed(selectFault.value) && table.rows == old(table.rows))
      && (selectFault.None? && insertFault.None? ==>
            out == NoContent && table.rows == Ingest(old(table.rows), old(table.nextId), DuolingoSelect, candidate, now))
      && (selectFault.None? && insertFault.Some? ==>
            table.rows == old(table.rows)
            && (out == NoContent <==> DeepEqual(old(table.Latest(DuolingoSelect)), JObj(candidate))))
  {
    var _ := ValidatePresharedKey(keys, Cron, authorization);
    if streak.Err? {
      return Failed(streak.msg);
    }
    if courses.Err? {
      return Failed(courses.msg);
    }
    out := ChangeGatedInsert(table, DuolingoSelect, Candidate(streak.value, courses.value), now, selectFault, insertFault);
  }
}
