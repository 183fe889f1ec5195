/** The change-gated snapshot writer shared by the GitHub and Duolingo routes: read the newest
    row through a select list, compare it with the freshly built record using lodash's deep
    equality, and insert the record only when they differ. */
module Snapshot {
  import opened Wrappers
  import opened Values
  import opened Casing
  import opened Lodash
  import opened Store

  /** The rows after a run in which neither the select nor the insert fails. */
  function Ingest(rows: seq<Row>, id: nat, select: string, candidate: seq<Field>, now: string): seq<Row> {
    if DeepEqual(LatestOf(rows, select), JObj(candidate)) then rows
    else rows + [Stored(candidate, id, now)]
  }

  /** A run keeps every earlier row and adds at most one; it adds one exactly when the newest
      row differs from the record, which an empty table always does. */
  lemma IngestGrowth(rows: seq<Row>, id: nat, select: string, candidate: seq<Field>, now: string)
    ensures var r := Ingest(rows, id, select, candidate, now);
      |rows| <= |r| <= |rows| + 1 && r[..|rows|] == rows
      && (|r| == |rows| + 1 <==> !DeepEqual(LatestOf(rows, select), JObj(candidate)))
    ensures rows == [] ==> Ingest(rows, id, select, candidate, now) == [Stored(candidate, id, now)]
  {
  }

  /** After a run the newest row, read back through the select list, equals the record. */
  lemma IngestLatest(rows: seq<Row>, id: nat, select: string, candidate: seq<Field>, now: string)
    requires Selects(select, candidate) && WellFormed(JObj(candidate)) && Plain(JObj(candidate))
    ensures DeepEqual(LatestOf(Ingest(rows, id, select, candidate, now), select), JObj(candidate))
  {
    var r := Ingest(rows, id, select, candidate, now);
    if r != rows {
      ReadBackStored(candidate, id, now, select);
      assert LatestOf(r, select) == JObj(candidate);
      DeepEqualReflexive(JObj(candidate));
    }
  }

  /** Idempotence of unchanged input, for a record without `undefined`: a second run with the same record, whatever its id and
      timestamp, appends nothing. */
  lemma IngestIdempotent(rows: seq<Row>, id: nat, id': nat, select: string, candidate: seq<Field>, now: string, now': string)
    requires Selects(select, candidate) && WellFormed(JObj(candidate)) && Plain(JObj(candidate))
    ensures var once := Ingest(rows, id, select, candidate, now);
      Ingest(once, id', select, candidate, now') == once
  {
    IngestLatest(rows, id, select, candidate, now);
  }

  /** After a run that ingests a record without `undefined`, the newest row deep-equals it and
      a second run with the same record appends nothing. */
  lemma IngestSettles(rows: seq<Row>, id: nat, id': nat, select: string, candidate: seq<Field>, now: string, now': string)
    requires Selects(select, candidate) && WellFormed(JObj(candidate)) && Plain(JObj(candidate))
    ensures var once := Ingest(rows, id, select, candidate, now);
      DeepEqual(LatestOf(once, select), JObj(candidate)) && Ingest(once, id', select, candidate, now') == once
  {
    IngestLatest(rows, id, select, candidate, now);
    IngestIdempotent(rows, id, id', select, candidate, now, now');
  }

  /** A newest row holding the record, whatever its id and timestamp, suppresses the insert. */
  lemma IngestAfterStored(rows: seq<Row>, id: nat, id': nat, select: string, candidate: seq<Field>,
                          now: string, now': string)
    requires Selects(select, candidate) && WellFormed(JObj(candidate)) && Plain(JObj(candidate))
    ensures var r := rows + [Stored(candidate, id, now)];
      Ingest(r, id', select, candidate, now') == r
  {
    ReadBackStored(candidate, id, now, select);
    DeepEqualReflexive(JObj(candidate));
  }

  /** A record with an `undefined` property is never judged unchanged: its column reads back
      as `null`, which lodash does not equate with `undefined`, so every run inserts again. */
  lemma {:induction false} IngestRepeatsUndefined(rows: seq<Row>, id: nat, id': nat, select: string,
                                                  candidate: seq<Field>, i: nat, now: string, now': string)
    requires Selects(select, candidate) && i < |candidate| && candidate[i].value.JUndefined?
    requires ToSnakeCase(candidate[i].key) != "id" && ToSnakeCase(candidate[i].key) != "created_at"
    ensures var r := rows + [Stored(candidate, id, now)];
      Ingest(r, id', select, candidate, now') == r + [Stored(candidate, id', now')]
  {
    var r := rows + [Stored(candidate, id, now)];
    ReadBackUndefined(candidate, id, now, select, i);
    var back := LatestOf(r, select);
    assert back == View(Stored(candidate, id, now), select);
    LookupAt(candidate, i);
    assert !DeepEqual(back.fields[i].value, Lookup(candidate, back.fields[i].key));
  }

  /** No two consecutive snapshots read the same through the select list. */
  predicate NoAdjacentDuplicates(rows: seq<Row>, select: string) {
    forall i :: 0 < i < |rows| ==> !DeepEqual(View(rows[i - 1], select), View(rows[i], select))
  }

  /** The writer keeps the history free of consecutive duplicates. */
  lemma IngestKeepsHistory(rows: seq<Row>, id: nat, select: string, candidate: seq<Field>, now: string)
    requires NoAdjacentDuplicates(rows, select)
    requires Selects(select, candidate) && Plain(JObj(candidate))
    ensures NoAdjacentDuplicates(Ingest(rows, id, select, candidate, now), select)
  {
    var r := Ingest(rows, id, select, candidate, now);
    if r != rows {
      ReadBackStored(candidate, id, now, select);
      forall i | 0 < i < |r| ensures !DeepEqual(View(r[i - 1], select), View(r[i], select)) {
        if i < |rows| {
          assert r[i - 1] == rows[i - 1] && r[i] == rows[i];
        } else {
          assert r[i - 1] == rows[|rows| - 1];
        }
      }
    }
  }

  /** One run of the writer against `table`. */
  method ChangeGatedInsert(table: AppendTable, select: string, candidate: seq<Field>, now: string,
                           selectFault: Option<string>, insertFault: Option<string>)
    returns (out: Outcome)
    modifies table
    ensures selectFault.Some? ==> out == Failed(selectFault.value) && table.rows == old(table.rows)
    ensures selectFault.None? && insertFault.None? ==>
      out == NoContent && table.rows == Ingest(old(table.rows), old(table.nextId), select, candidate, now)
    ensures selectFault.None? && insertFault.Some? ==>
      table.rows == old(table.rows)
      && (out == NoContent <==> DeepEqual(old(table.Latest(select)), JObj(candidate)))
      && (out != NoContent ==> out == Failed(insertFault.value))
  {
    var latest := table.SelectLatest(select, selectFault);
    if latest.Err? {
      return Failed(latest.msg);
    }
    if !DeepEqual(latest.value, JObj(candidate)) {
      var inserted := table.Insert(candidate, now, insertFault);
      if inserted.Err? {
        return Failed(inserted.msg);
      }
    }
    out := NoContent;
  }
}
