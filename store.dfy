/** The database tables the cron routes write, seen through the case-translating client of
    `utils/supabase.ts`: routes speak camelCase, rows hold snake_case columns. A store fault
    (a select, insert or upsert error) is a parameter: `Some(message)` when the database
    answers with an error. */
module Store {
  import opened Wrappers
  import opened Values
  import opened Text
  import opened Casing
  import opened Lodash

  /** A stored row: snake_case column names and their values. */
  type Row = seq<Field>

  /** The value of a column in a row; a column the row was never given reads as SQL NULL. */
  function Column(row: Row, c: string): (v: Json)
    ensures !HasKey(row, c) ==> v == JNull
  {
    if HasKey(row, c) then Lookup(row, c) else JNull
  }

  /** `select(cols)` applied to one row: the listed columns in the listed order. */
  function Project(row: Row, cols: seq<string>): (r: seq<Field>)
    ensures |r| == |cols|
    ensures forall i :: 0 <= i < |cols| ==> r[i] == Field(cols[i], Column(row, cols[i]))
  {
    seq(|cols|, i requires 0 <= i < |cols| => Field(cols[i], Column(row, cols[i])))
  }

  /** A column default: the database fills `k` only when the row does not supply it. */
  function WithDefault(row: Row, k: string, v: Json): (r: Row)
    ensures HasKey(row, k) ==> r == row
    ensures !HasKey(row, k) ==> r == row + [Field(k, v)]
  {
    if HasKey(row, k) then row else row + [Field(k, v)]
  }

  /** Adding a defaulted column keeps every column the row already had. */
  lemma {:induction false} WithDefaultKeeps(row: Row, k: string, v: Json, c: string)
    requires HasKey(row, c)
    ensures HasKey(WithDefault(row, k, v), c)
    ensures Lookup(WithDefault(row, k, v), c) == Lookup(row, c)
  {
    if !HasKey(row, k) {
      var i := LookupFound(row, c);
      LookupAppend(row, [Field(k, v)], c);
      assert (row + [Field(k, v)])[i] == row[i];
    }
  }

  lemma {:induction false} LookupAppend(a: seq<Field>, b: seq<Field>, c: string)
    requires HasKey(a, c)
    ensures Lookup(a + b, c) == Lookup(a, c)
  {
    if a[0].key != c {
      HasKeyCons(a);
      assert (a + b)[1..] == a[1..] + b;
      LookupAppend(a[1..], b, c);
    }
  }

  /** The columns the database fills itself: the identity `id` and the `created_at` timestamp. */
  function Defaults(row: Row, id: nat, now: string): Row {
    WithDefault(WithDefault(row, "id", JNum(id)), "created_at", JStr(now))
  }

  /** The row an insert of the camelCase object `record` stores: the client snake-cases its
      keys, the request body is `JSON.stringify`'d (an `undefined` property is not sent, so
      its column stays NULL), then the database assigns the identity and the timestamp. */
  function Stored(record: seq<Field>, id: nat, now: string): Row {
    Defaults(Serialized(KeysToSnakeCase(JObj(record))).fields, id, now)
  }

  /** What `select(s).order("createdAt", {ascending: false}).limit(1).maybeSingle()` hands a
      route: `null` for an empty table, else the newest row's selected columns with their
      names camel-cased. Rows are appended in `created_at` order, so the newest is the last. */
  function LatestOf(rows: seq<Row>, select: string): Json {
    if rows == [] then JNull else View(rows[|rows| - 1], select)
  }

  /** One row as a route reads it through a select list. */
  function View(row: Row, select: string): Json {
    KeysToCamelCase(JObj(Project(row, SelectColumns(select))))
  }

  /** A select list that names exactly the keys of `record`, in order, and a record whose keys
      survive the round trip to snake_case and back. */
  predicate Selects(select: string, record: seq<Field>) {
    DistinctKeys(record)
    && (forall i :: 0 <= i < |record| ==> '_' !in record[i].key)
    && SelectColumns(select) == Keys(RenameKeys(ToSnakeCase, record))
  }

  /** A select list `"p1,p2,..."` whose trimmed parts are the record's keys, in order,
      reads back exactly that record. */
  lemma {:induction false} JoinSelects(parts: seq<string>, record: seq<Field>)
    requires |parts| == |record| >= 1 && DistinctKeys(record)
    requires forall i :: 0 <= i < |record| ==>
      ',' !in parts[i] && Trim(parts[i]) == record[i].key && '_' !in record[i].key
    ensures Selects(Join(parts, [',']), record)
  {
    SelectColumnsJoin(parts);
  }

  /** A column name that a select list carries through unchanged and that survives the
      round trip to snake_case and back. */
  predicate CleanColumn(c: string) {
    ',' !in c && '_' !in c && Trim(c) == c
  }

  /** A one-column select list reads back a one-key record. */
  lemma {:induction false} SingleSelects(c: string, v: Json)
    requires CleanColumn(c)
    ensures Selects(c, [Field(c, v)])
  {
    var parts, record := [c], [Field(c, v)];
    assert Join(parts, [',']) == c;
    forall i | 0 <= i < |record|
      ensures ',' !in parts[i] && Trim(parts[i]) == record[i].key && '_' !in record[i].key
    {
      assert i == 0 && parts[i] == c && record[i].key == c;
    }
    JoinSelects(parts, record);
  }

  /** A two-column select list `p + "," + q` reads back a two-key record whose keys are the
      trimmed parts. */
  lemma {:induction false} PairSelects(p: string, q: string, a: Field, b: Field)
    requires ',' !in p && ',' !in q && Trim(p) == a.key && Trim(q) == b.key
    requires '_' !in a.key && '_' !in b.key && a.key != b.key
    ensures Selects(p + [','] + q, [a, b])
  {
    PairJoinSelects(p, q, a, b);
    JoinPair(p, q);
  }

  lemma {:induction false} PairJoinSelects(p: string, q: string, a: Field, b: Field)
    requires ',' !in p && ',' !in q && Trim(p) == a.key && Trim(q) == b.key
    requires '_' !in a.key && '_' !in b.key && a.key != b.key
    ensures Selects(Join([p, q], [',']), [a, b])
  {
    JoinSelects([p, q], [a, b]);
  }

  lemma JoinPair(p: string, q: string)
    ensures Join([p, q], [',']) == p + [','] + q
  {
    assert [p, q][1..] == [q];
  }

  /** Snake-casing a record whose keys survive the round trip keeps the keys apart. */
  lemma {:induction false} SnakeDistinct(record: seq<Field>)
    requires DistinctKeys(record)
    requires forall i :: 0 <= i < |record| ==> '_' !in record[i].key
    ensures DistinctKeys(RenameKeys(ToSnakeCase, record))
    ensures KeysToSnakeCase(JObj(record)) == JObj(RenameKeys(ToSnakeCase, record))
  {
    var snake := RenameKeys(ToSnakeCase, record);
    forall i, j | 0 <= i < j < |record| ensures snake[i].key != snake[j].key {
      CamelSnakeRoundTrip(record[i].key);
      CamelSnakeRoundTrip(record[j].key);
    }
    KeysToShallow(ToSnakeCase, record);
  }

  /** A row read through a select list of two keys is its two columns under those keys. */
  lemma ViewPair(row: Row, select: string, k1: string, k2: string, a: Json, b: Json)
    requires Selects(select, [Field(k1, a), Field(k2, b)])
    requires Column(row, ToSnakeCase(k1)) == a && Column(row, ToSnakeCase(k2)) == b
    ensures View(row, select) == JObj([Field(k1, a), Field(k2, b)])
  {
    var pair := [Field(k1, a), Field(k2, b)];
    ViewAt(row, select, pair);
    var v := View(row, select);
    assert v.fields[0] == pair[0];
    assert v.fields[1] == pair[1];
    TwoFields(v.fields, pair[0], pair[1]);
  }

  lemma TwoFields(s: seq<Field>, x: Field, y: Field)
    requires |s| == 2 && s[0] == x && s[1] == y
    ensures s == [x, y]
  {
  }

  /** Any row read through a select list naming the record's keys: the result has the
      record's keys, in order, each holding the value of its snake_case column. */
  lemma {:induction false} ViewAt(row: Row, select: string, record: seq<Field>)
    requires Selects(select, record)
    ensures View(row, select).JObj? && |View(row, select).fields| == |record|
    ensures forall j :: 0 <= j < |record| ==>
      View(row, select).fields[j] == Field(record[j].key, Column(row, ToSnakeCase(record[j].key)))
  {
    var p := Project(row, SelectColumns(select));
    var camel := RenameKeys(SnakeToCamelCase, p);
    assert forall j :: 0 <= j < |record| ==>
      camel[j] == Field(record[j].key, Column(row, ToSnakeCase(record[j].key))) by {
      forall j | 0 <= j < |record| ensures camel[j] == Field(record[j].key, Column(row, ToSnakeCase(record[j].key))) {
        CamelSnakeRoundTrip(record[j].key);
      }
    }
    assert DistinctKeys(camel);
    KeysToShallow(SnakeToCamelCase, p);
  }

  /** Reading back the row just inserted, through a select list naming the record's keys,
      gives the record itself when it holds no `undefined`: the id and timestamp columns are
      not selected, and the snake_case translation is undone by the camelCase one. */
  lemma {:induction false} ReadBackStored(record: seq<Field>, id: nat, now: string, select: string)
    requires Selects(select, record) && Plain(JObj(record))
    ensures View(Stored(record, id, now), select) == JObj(record)
  {
    var snake := RenameKeys(ToSnakeCase, record);
    StoredPlain(record, id, now);
    assert Project(Defaults(snake, id, now), SelectColumns(select)) == snake by {
      SnakeDistinct(record);
      ProjectDefaults(snake, id, now);
    }
    assert KeysToCamelCase(JObj(snake)) == JObj(record) by {
      SnakeDistinct(record);
      KeysRoundTrip(record);
    }
  }

  /** A record without `undefined` is stored with every one of its snake_case columns. */
  lemma {:induction false} StoredPlain(record: seq<Field>, id: nat, now: string)
    requires DistinctKeys(record) && Plain(JObj(record))
    requires forall i :: 0 <= i < |record| ==> '_' !in record[i].key
    ensures Stored(record, id, now) == Defaults(RenameKeys(ToSnakeCase, record), id, now)
  {
    var snake := RenameKeys(ToSnakeCase, record);
    SnakeDistinct(record);
    assert Plain(JObj(snake)) by {
      assert forall i :: 0 <= i < |snake| ==> snake[i].value == record[i].value;
    }
    SerializedIdentity(JObj(snake));
  }

  /** A property the route left `undefined` reads back as `null`: the stored row has no such
      column, so the select yields SQL NULL in its place. */
  lemma {:induction false} ReadBackUndefined(record: seq<Field>, id: nat, now: string, select: string, i: nat)
    requires Selects(select, record) && i < |record| && record[i].value.JUndefined?
    requires ToSnakeCase(record[i].key) != "id" && ToSnakeCase(record[i].key) != "created_at"
    ensures View(Stored(record, id, now), select).JObj?
    ensures |View(Stored(record, id, now), select).fields| == |record|
    ensures View(Stored(record, id, now), select).fields[i] == Field(record[i].key, JNull)
  {
    var snake := RenameKeys(ToSnakeCase, record);
    SnakeDistinct(record);
    SerializedDropsUndefined(snake, i);
    DefaultsMissing(Serialized(JObj(snake)).fields, snake[i].key, id, now);
    ViewAt(Stored(record, id, now), select, record);
  }

  /** The database defaults add no column other than `id` and `created_at`. */
  lemma {:induction false} DefaultsMissing(row: Row, k: string, id: nat, now: string)
    requires !HasKey(row, k) && k != "id" && k != "created_at"
    ensures !HasKey(Defaults(row, id, now), k)
  {
    var row1 := WithDefault(row, "id", JNum(id));
    assert !HasKey(row1, k) by {
      if !HasKey(row, "id") {
        assert forall j :: 0 <= j < |row1| ==> row1[j].key == k ==> j < |row|;
      }
    }
    var row2 := WithDefault(row1, "created_at", JStr(now));
    if !HasKey(row1, "created_at") {
      assert forall j :: 0 <= j < |row2| ==> row2[j].key == k ==> j < |row1|;
    }
  }

  /** Selecting exactly the supplied columns of a row with defaults gives the row back. */
  lemma {:induction false} ProjectDefaults(row: Row, id: nat, now: string)
    requires DistinctKeys(row)
    ensures Project(Defaults(row, id, now), Keys(row)) == row
  {
    var row1 := WithDefault(row, "id", JNum(id));
    var row2 := Defaults(row, id, now);
    var p := Project(row2, Keys(row));
    forall i | 0 <= i < |row| ensures p[i] == row[i] {
      var c := row[i].key;
      assert HasKey(row, c);
      LookupAt(row, i);
      WithDefaultKeeps(row, "id", JNum(id), c);
      WithDefaultKeeps(row1, "created_at", JStr(now), c);
    }
  }

  /** An append-only snapshot table. `nextId` is the identity the next insert receives. */
  class AppendTable {
    var rows: seq<Row>
    var nextId: nat

    constructor ()
      ensures rows == [] && nextId == 1
    {
      rows := [];
      nextId := 1;
    }

    function Latest(select: string): Json
      reads this
    {
      LatestOf(rows, select)
    }

    /** The newest row through a select list, or the select error. */
    method SelectLatest(select: string, fault: Option<string>) returns (r: Result<Json>)
      ensures fault.Some? ==> r == Err(fault.value)
      ensures fault.None? ==> r == Ok(LatestOf(rows, select))
    {
      if fault.Some? {
        r := Err(fault.value);
      } else {
        r := Ok(LatestOf(rows, select));
      }
    }

    /** `insert(record)`: one new row, or the insert error and no change. */
    method Insert(record: seq<Field>, now: string, fault: Option<string>) returns (r: Result<()>)
      modifies this
      ensures fault.Some? ==> r == Err(fault.value) && rows == old(rows) && nextId == old(nextId)
      ensures fault.None? ==> r == Ok(()) && rows == old(rows) + [Stored(record, old(nextId), now)]
                              && nextId == old(nextId) + 1
    {
      if fault.Some? {
        r := Err(fault.value);
      } else {
        rows := rows + [Stored(record, nextId, now)];
        nextId := nextId + 1;
        r := Ok(());
      }
    }
  }

  /** The rows in a batch upsert, keyed by their primary-key column. A later row would win,
      but `KeyedTable.Upsert` refuses a batch that repeats a key before it gets here. */
  function Batch(rows: seq<Row>, pk: string): (m: map<Json, Row>)
    ensures forall k :: k in m <==> exists i :: 0 <= i < |rows| && Column(rows[i], pk) == k
  {
    if rows == [] then map[]
    else
      var init := rows[..|rows| - 1];
      var last := rows[|rows| - 1];
      var m := Batch(init, pk)[Column(last, pk) := last];
      assert forall k :: k in m ==> exists i :: 0 <= i < |rows| && Column(rows[i], pk) == k by {
        forall k | k in m ensures exists i :: 0 <= i < |rows| && Column(rows[i], pk) == k {
          if k != Column(last, pk) {
            var i :| 0 <= i < |init| && Column(init[i], pk) == k;
            assert rows[i] == init[i];
          } else {
            assert Column(rows[|rows| - 1], pk) == k;
          }
        }
      }
      assert forall i :: 0 <= i < |init| ==> init[i] == rows[i];
      m
  }

  /** No two rows of a batch share a primary key. */
  predicate KeysDistinct(rows: seq<Row>, pk: string) {
    forall i, j :: 0 <= i < j < |rows| ==> Column(rows[i], pk) != Column(rows[j], pk)
  }

  /** What PostgreSQL answers an `INSERT … ON CONFLICT DO UPDATE` whose batch names one key
      twice; the statement then writes nothing. */
  const ConflictTwice := "ON CONFLICT DO UPDATE command cannot affect row a second time"

  /** `upsert(rows)` against the primary key `pk`, for a batch whose keys are distinct: each
      row replaces the stored row with its key, or is added. */
  function UpsertAll(table: map<Json, Row>, rows: seq<Row>, pk: string): map<Json, Row> {
    table + Batch(rows, pk)
  }

  /** The row stored under a key is the last row of the batch with that key. */
  lemma {:induction false} BatchLast(rows: seq<Row>, pk: string, i: nat)
    requires i < |rows|
    requires forall j :: i < j < |rows| ==> Column(rows[j], pk) != Column(rows[i], pk)
    ensures Batch(rows, pk)[Column(rows[i], pk)] == rows[i]
  {
    if i < |rows| - 1 {
      var init := rows[..|rows| - 1];
      assert forall j :: i < j < |init| ==> init[j] == rows[j];
      BatchLast(init, pk, i);
    }
  }

  /** Upserting touches only the keys of the batch, and stores each row of a batch with
      distinct keys under its own key. */
  lemma UpsertAllSpec(table: map<Json, Row>, rows: seq<Row>, pk: string)
    requires KeysDistinct(rows, pk)
    ensures forall i :: 0 <= i < |rows| ==> UpsertAll(table, rows, pk)[Column(rows[i], pk)] == rows[i]
    ensures forall k :: k in table && (forall i :: 0 <= i < |rows| ==> Column(rows[i], pk) != k) ==>
      k in UpsertAll(table, rows, pk) && UpsertAll(table, rows, pk)[k] == table[k]
    ensures UpsertAll(table, rows, pk).Keys ==
      table.Keys + set i | 0 <= i < |rows| :: Column(rows[i], pk)
  {
    forall i | 0 <= i < |rows| ensures UpsertAll(table, rows, pk)[Column(rows[i], pk)] == rows[i] {
      BatchLast(rows, pk, i);
    }
  }

  /** Re-ingesting the same batch leaves the table unchanged. */
  lemma UpsertAllIdempotent(table: map<Json, Row>, rows: seq<Row>, pk: string)
    ensures UpsertAll(UpsertAll(table, rows, pk), rows, pk) == UpsertAll(table, rows, pk)
  {
  }

  /** A table keyed by the primary-key column `pk`. */
  class KeyedTable {
    const pk: string
    var rows: map<Json, Row>

    constructor (pk: string)
      ensures this.pk == pk && rows == map[]
    {
      this.pk := pk;
      rows := map[];
    }

    /** `upsert(records)`: the client snake-cases each record's keys and sends the batch as one
        statement; the database replaces or adds one row per key, and refuses a batch that
        names a key twice. On error nothing changes. */
    method Upsert(records: seq<seq<Field>>, fault: Option<string>) returns (r: Result<()>)
      modifies this
      ensures fault.Some? ==> r == Err(fault.value) && rows == old(rows)
      ensures fault.None? && !KeysDistinct(SnakeRows(records), pk) ==> r == Err(ConflictTwice) && rows == old(rows)
      ensures fault.None? && KeysDistinct(SnakeRows(records), pk) ==>
        r == Ok(()) && rows == UpsertAll(old(rows), SnakeRows(records), pk)
    {
      if fault.Some? {
        r := Err(fault.value);
      } else if !KeysDistinct(SnakeRows(records), pk) {
        r := Err(ConflictTwice);
      } else {
        rows := UpsertAll(rows, SnakeRows(records), pk);
        r := Ok(());
      }
    }
  }

  /** The stored form of each camelCase record of a batch. */
  function SnakeRows(records: seq<seq<Field>>): (r: seq<Row>)
    ensures |r| == |records|
  {
    seq(|records|, i requires 0 <= i < |records| => KeysToSnakeCase(JObj(records[i])).fields)
  }

  /** A record whose keys are distinct and hold no `_` is stored with each value under the
      snake_case form of its key. */
  lemma SnakeColumn(record: seq<Field>, i: nat)
    requires DistinctKeys(record) && forall j :: 0 <= j < |record| ==> '_' !in record[j].key
    requires i < |record|
    ensures Column(KeysToSnakeCase(JObj(record)).fields, ToSnakeCase(record[i].key)) == record[i].value
  {
    var snake := RenameKeys(ToSnakeCase, record);
    assert DistinctKeys(snake) by {
      forall a, b | 0 <= a < b < |record| ensures snake[a].key != snake[b].key {
        CamelSnakeRoundTrip(record[a].key);
        CamelSnakeRoundTrip(record[b].key);
      }
    }
    KeysToShallow(ToSnakeCase, record);
    LookupAt(snake, i);
  }

  /** The primary-key column keeps its name. */
  lemma IdSnake(k: string)
    requires k == "id"
    ensures ToSnakeCase(k) == k
  {
    ToSnakeCaseIdentity(k);
  }

  /** Upserting one row stores it under its key and changes nothing else. */
  lemma UpsertSingle(table: map<Json, Row>, row: Row, pk: string)
    ensures UpsertAll(table, [row], pk) == table[Column(row, pk) := row]
  {
    assert [row][..0] == [];
  }

  /** Upserting one row whose key is the table's only possible key leaves exactly that key. */
  lemma UpsertOne(table: map<Json, Row>, rows: seq<Row>, pk: string, k: Json)
    requires table.Keys <= {k} && |rows| == 1 && Column(rows[0], pk) == k
    ensures UpsertAll(table, rows, pk).Keys == {k} && UpsertAll(table, rows, pk)[k] == rows[0]
  {
    BatchLast(rows, pk, 0);
    assert Batch(rows, pk).Keys == {k};
  }
}
