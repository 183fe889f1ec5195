/** `POST /api/strava`: upsert every fetched activity, keyed by its id. */
module StravaRoute {
  import opened Wrappers
  import opened Values
  import opened Casing
  import opened Auth
  import opened Store
  import opened OAuth

  const NoToken := "No Strava access token"
  const ApiError := "Strava API error"

  /** What lodash's `map` walks: an array's items, an object's property values, nothing for
      `null` or `undefined`. */
  function Activities(j: Json): (r: seq<Json>)
    ensures j.JArr? ==> r == j.items
    ensures IsNullish(j) ==> r == []
  {
    match j
    case JArr(items) => items
    case JObj(fields) => seq(|fields|, i requires 0 <= i < |fields| => fields[i].value)
    case _ => []
  }

  /** One `strava` row per activity; the activity itself is the untransformed payload. */
  function ActivityRow(activity: Json): (r: seq<Field>)
    ensures |r| == 4 && r[0] == Field("id", Get(activity, "id"))
    ensures r[1].value == Get(activity, "type") && r[2].value == Get(activity, "start_date") && r[3].value == activity
  {
    [ Field("id", Get(activity, "id")),
      Field("type", Get(activity, "type")),
      Field("startDate", Get(activity, "start_date")),
      Field("payload", activity) ]
  }

  /** Exactly one row per fetched activity, in order, whatever its type. */
  function ActivityRows(activities: seq<Json>): (r: seq<seq<Field>>)
    ensures |r| == |activities| && forall i :: 0 <= i < |activities| ==> r[i] == ActivityRow(activities[i])
  {
    seq(|activities|, i requires 0 <= i < |activities| => ActivityRow(activities[i]))
  }

  lemma ActivityKeys(activity: Json)
    ensures Keys(ActivityRow(activity)) == ["id", "type", "startDate", "payload"]
  {
  }

  lemma ActivityKeysClean(activity: Json)
    ensures DistinctKeys(ActivityRow(activity))
    ensures forall j :: 0 <= j < 4 ==> '_' !in ActivityRow(activity)[j].key
  {
    ActivityKeys(activity);
  }

  /** A stored activity row's `id` column is the activity's id. */
  lemma ActivityIdColumn(activity: Json)
    ensures Column(KeysToSnakeCase(JObj(ActivityRow(activity))).fields, "id") == Get(activity, "id")
  {
    var record := ActivityRow(activity);
    ActivityKeysClean(activity);
    SnakeColumn(record, 0);
    IdSnake(record[0].key);
  }

  /** The batch names each key once exactly when the activities' ids are distinct. */
  lemma ActivityRowsDistinct(activities: seq<Json>)
    ensures KeysDistinct(SnakeRows(ActivityRows(activities)), "id") <==>
      forall i, j :: 0 <= i < j < |activities| ==> Get(activities[i], "id") != Get(activities[j], "id")
  {
    var rows := SnakeRows(ActivityRows(activities));
    forall i | 0 <= i < |activities| ensures Column(rows[i], "id") == Get(activities[i], "id") {
      ActivityIdColumn(activities[i]);
    }
  }

  /** An ingest of activities with distinct ids stores each one's row under its id, leaves
      every other id's row untouched, and re-ingesting the same list changes nothing. */
  lemma Ingest(table: map<Json, Row>, activities: seq<Json>)
    requires forall i, j :: 0 <= i < j < |activities| ==> Get(activities[i], "id") != Get(activities[j], "id")
    ensures var rows := SnakeRows(ActivityRows(activities));
      var after := UpsertAll(table, rows, "id");
      (forall i :: 0 <= i < |activities| ==>
         Get(activities[i], "id") in after && after[Get(activities[i], "id")] == rows[i])
      && (forall k :: k in table && (forall i :: 0 <= i < |activities| ==> Get(activities[i], "id") != k) ==>
            k in after && after[k] == table[k])
      && UpsertAll(after, rows, "id") == after
  {
    var rows := SnakeRows(ActivityRows(activities));
    forall i | 0 <= i < |activities| ensures Column(rows[i], "id") == Get(activities[i], "id") {
      ActivityIdColumn(activities[i]);
    }
    UpsertAllSpec(table, rows, "id");
    UpsertAllIdempotent(table, rows, "id");
  }

  /** The route. The 401 of the key check is discarded. `tokenReply` and `activities` are the
      parsed bodies of the retried requests, or their failure. */
  method Post(keys: Secrets, authorization: Option<string>, tokenReply: Result<Json>, activities: Result<Json>,
              table: KeyedTable, upsertFault: Option<string>)
    returns (out: Outcome)
    requires table.pk == "id"
    modifies table
    ensures out != Unauthorized
    ensures AccessToken(tokenReply, NoToken).Err? ==>
      out == Failed(AccessToken(tokenReply, NoToken).msg) && table.rows == old(table.rows)
    ensures AccessToken(tokenReply, NoToken).Ok? && activities.Err? ==> out == Failed(activities.msg) && table.rows == old(table.rows)
    ensures AccessToken(tokenReply, NoToken).Ok? && activities.Ok? && IsNullish(activities.value) ==>
      out.Failed? && table.rows == old(table.rows)
    ensures AccessToken(tokenReply, NoToken).Ok? && activities.Ok? && !IsNullish(activities.value) ==>
      var reply := activities.value;
      (Truthy(Get(reply, "errors")) ==> out == Failed(ApiError) && table.rows == old(table.rows))
      && (!Truthy(Get(reply, "errors")) && upsertFault.Some? ==>
            out == Failed(upsertFault.value) && table.rows == old(table.rows))
      && (!Truthy(Get(reply, "errors")) && upsertFault.None?
          && !KeysDistinct(SnakeRows(ActivityRows(Activities(reply))), "id") ==>
            out == Failed(ConflictTwice) && table.rows == old(table.rows))
      && (!Truthy(Get(reply, "errors")) && upsertFault.None?
          && KeysDistinct(SnakeRows(ActivityRows(Activities(reply))), "id") ==>
            out == NoContent && table.rows == UpsertAll(old(table.rows), SnakeRows(ActivityRows(Activities(reply))), "id"))
  {
    var _ := ValidatePresharedKey(keys, Cron, authorization);
    var token := AccessToken(tokenReply, NoToken);
    if token.Err? {
      return Failed(token.msg);
    }
    if activities.Err? {
      return Failed(activities.msg);
    }
    var errors := Path(activities.value, ["errors"]);
    if errors.Err? {
      return Failed(errors.msg);
    }
    if Truthy(errors.value) {
      return Failed(ApiError);
    }
    var upserted := table.Upsert(ActivityRows(Activities(activities.value)), upsertFault);
    if upserted.Err? {
      return Failed(upserted.msg);
    }
    out := NoContent;
  }
}
