/** `POST /api/github`: snapshot the contribution calendar when it changed. */
module GitHubRoute {
  import opened Wrappers
  import opened Values
  import opened Text
  import opened Casing
  import opened Lodash
  import opened Auth
  import opened Store
  import opened Snapshot

  const WeeksPath := ["viewer", "contributionsCollection", "contributionCalendar", "weeks"]
  const GitHubSelect := "contributions"

  /** The record compared and inserted: exactly `{contributions: weeks}`. */
  function Candidate(weeks: Json): (r: seq<Field>)
    ensures |r| == 1 && r[0].key == GitHubSelect && Lookup(r, "contributions") == weeks
  {
    [Field("contributions", weeks)]
  }

  /** The select list is one clean column, so it reads back the record (`CandidateSelected`),
      and a second run with an unchanged calendar appends nothing (`SecondRunWritesNothing`). */
  lemma ContributionsClean(c: string)
    requires c == GitHubSelect
    ensures CleanColumn(c)
  {
    ContributionsChars(c);
    ContributionsTrimmed(c);
  }

  lemma ContributionsChars(c: string)
    requires c == GitHubSelect
    ensures ',' !in c && '_' !in c
  {
  }

  lemma ContributionsTrimmed(c: string)
    requires c == GitHubSelect
    ensures Trim(c) == c
  {
    TrimClean(c);
  }

  /** The select list reads back the candidate record. */
  lemma CandidateSelected(weeks: Json)
    ensures Selects(GitHubSelect, Candidate(weeks))
  {
    ContributionsClean(GitHubSelect);
    SingleSelects(GitHubSelect, weeks);
  }

  /** For weeks parsed from the GraphQL reply, and so free of `undefined`: after a run that
      ingests them the newest row deep-equals the candidate, and a second run with the same
      calendar, whatever its id and time, writes nothing. */
  lemma SecondRunWritesNothing(rows: seq<Row>, id: nat, id': nat, weeks: Json, now: string, now': string)
    requires WellFormed(weeks) && Plain(weeks)
    ensures var once := Ingest(rows, id, GitHubSelect, Candidate(weeks), now);
      DeepEqual(LatestOf(once, GitHubSelect), JObj(Candidate(weeks)))
      && Ingest(once, id', GitHubSelect, Candidate(weeks), now') == once
  {
    CandidateSelected(weeks);
    CandidatePlain(weeks);
    IngestSettles(rows, id, id', GitHubSelect, Candidate(weeks), now, now');
  }

  /** The candidate of parsed weeks is a well-formed value without `undefined`. */
  lemma CandidatePlain(weeks: Json)
    requires WellFormed(weeks) && Plain(weeks)
    ensures WellFormed(JObj(Candidate(weeks))) && Plain(JObj(Candidate(weeks)))
  {
    assert Candidate(weeks)[0].value == weeks;
  }

  /** The route. The preshared-key check runs but its 401 is discarded, so whatever the
      header says the fetch and the write go ahead. `response` is what the retried GraphQL
      request finally produced. */
  method Post(keys: Secrets, authorization: Option<string>, response: Result<Json>, table: AppendTable,
              now: string, selectFault: Option<string>, insertFault: Option<string>)
    returns (out: Outcome)
    modifies table
    ensures out != Unauthorized
    ensures response.Err? ==> out == Failed(response.msg) && table.rows == old(table.rows)
    ensures response.Ok? && Path(response.value, WeeksPath).Err? ==>
      out.Failed? && table.rows == old(table.rows)
    ensures response.Ok? && Path(response.value, WeeksPath).Ok? ==>
      var candidate := Candidate(Path(response.value, WeeksPath).value);
      (selectFault.Some? ==> out == Failed(selectFault.value) && table.rows == old(table.rows))
      && (selectFault.None? && insertFault.None? ==>
            out == NoContent && table.rows == Ingest(old(table.rows), old(table.nextId), GitHubSelect, candidate, now))
      && (selectFault.None? && insertFault.Some? ==>
            table.rows == old(table.rows)
            && (out == NoContent <==> DeepEqual(old(table.Latest(GitHubSelect)), JObj(candidate))))
  {
    var _ := ValidatePresharedKey(keys, Cron, authorization);
    if response.Err? {
      return Failed(response.msg);
    }
    var weeks := Path(response.value, WeeksPath);
    if weeks.Err? {
      return Failed(weeks.msg);
    }
    out := ChangeGatedInsert(table, GitHubSelect, Candidate(weeks.value), now, selectFault, insertFault);
  }
}
