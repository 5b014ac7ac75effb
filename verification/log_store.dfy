/**
 * The `logs` table of the backend's SQLite database: its schema, the
 * idempotent `CREATE TABLE IF NOT EXISTS`, and the two primitive writes the
 * handlers and the seeding script issue (`INSERT` and `DELETE FROM logs`).
 *
 * The table is a sequence of immutable rows in rowid order, together with the
 * AUTOINCREMENT high-water mark that SQLite keeps in `sqlite_sequence`. That
 * mark survives deletes, which is why an id is never handed out twice.
 */
module LogStore {
  import opened Wrappers
  import opened Calendar

  /** The largest rowid SQLite can assign, 2^63 - 1. */
  const MaxRowId: int := 0x7FFF_FFFF_FFFF_FFFF

  /**
   * One row. `event_type` is `NOT NULL`, so it is a plain string here;
   * `description` and `camera_id` are nullable columns.
   */
  datatype LogRow = LogRow(
    id: nat,
    eventType: string,
    description: Option<string>,
    timestamp: Timestamp,
    cameraId: Option<string>)

  /** The rows in rowid order, and the AUTOINCREMENT sequence value. */
  datatype Table = Table(rows: seq<LogRow>, sequence: nat)

  /** The database file as far as this model is concerned: the `logs` table, if created. */
  datatype Database = Database(logs: Option<Table>)

  datatype DbError =
    | NotNullViolation(column: string)
    | Full
    | Io(message: string)

  /** The message the sqlite3 driver puts into `err.message`. */
  function ErrorMessage(e: DbError): string
  {
    match e
    case NotNullViolation(c) => "SQLITE_CONSTRAINT: NOT NULL constraint failed: logs." + c
    case Full => "SQLITE_FULL: database or disk is full"
    case Io(m) => m
  }

  /** Ids strictly increase along the rows; every id is positive and at most the sequence value. */
  ghost predicate Valid(t: Table)
  {
    && (forall i, j :: 0 <= i < j < |t.rows| ==> t.rows[i].id < t.rows[j].id)
    && (forall i :: 0 <= i < |t.rows| ==> 0 < t.rows[i].id <= t.sequence)
  }

  function Max(a: int, b: int): int
  {
    if a < b then b else a
  }

  /** The largest rowid present in the table, 0 when it is empty. */
  function MaxId(rows: seq<LogRow>): (m: nat)
    ensures forall i :: 0 <= i < |rows| ==> rows[i].id <= m
    ensures |rows| > 0 ==> exists i :: 0 <= i < |rows| && rows[i].id == m
    ensures |rows| == 0 ==> m == 0
  {
    if |rows| == 0 then 0 else Max(MaxId(rows[..|rows| - 1]), rows[|rows| - 1].id)
  }

  /** AUTOINCREMENT: one more than the largest rowid that ever existed in the table. */
  function NextRowId(t: Table): (id: nat)
    ensures id > t.sequence
    ensures forall i :: 0 <= i < |t.rows| ==> t.rows[i].id < id
  {
    Max(t.sequence, MaxId(t.rows)) + 1
  }

  /** On a valid table the next id is exactly one past the sequence value. */
  lemma NextRowIdOfValid(t: Table)
    requires Valid(t)
    ensures NextRowId(t) == t.sequence + 1
  {
    if |t.rows| > 0 {
      var i :| 0 <= i < |t.rows| && t.rows[i].id == MaxId(t.rows);
    }
  }

  /** `CREATE TABLE IF NOT EXISTS logs (…)`: creates an empty table only when there is none. */
  function InitTable(db: Database): (r: Database)
    ensures r.logs.Some?
    ensures db.logs.Some? ==> r == db
    ensures db.logs.None? ==> r.logs.value.rows == [] && Valid(r.logs.value)
  {
    match db.logs
    case Some(_) => db
    case None => Database(Some(Table([], 0)))
  }

  /** Running the table initialisation a second time changes nothing. */
  lemma InitTableIdempotent(db: Database)
    ensures InitTable(InitTable(db)) == InitTable(db)
  {
  }

  /**
   * `INSERT INTO logs (…) VALUES (…)`. A missing `event_type` violates the
   * `NOT NULL` constraint; a missing timestamp takes the column default
   * `CURRENT_TIMESTAMP`, here the clock reading `now`; the new row gets the
   * next AUTOINCREMENT id, and the insert fails with `SQLITE_FULL` once the
   * largest rowid has been used.
   */
  function InsertRow(
    t: Table,
    eventType: Option<string>,
    description: Option<string>,
    cameraId: Option<string>,
    timestamp: Option<Timestamp>,
    now: Timestamp): (r: Result<(Table, nat), DbError>)
    ensures eventType.None? ==> r == Err(NotNullViolation("event_type"))
    ensures r.Ok? <==> eventType.Some? && NextRowId(t) <= MaxRowId
    ensures r.Err? ==> !r.error.Io?
    ensures r.Ok? ==>
      var (t', id) := r.value;
      && t'.rows == t.rows + [LogRow(id, eventType.value, description, timestamp.GetOr(now), cameraId)]
      && t'.sequence == id
      && id > t.sequence
      && (forall i :: 0 <= i < |t.rows| ==> t.rows[i].id < id)
    ensures r.Ok? && timestamp.None? ==> r.value.0.rows[|t.rows|].timestamp == now
    ensures r.Ok? && Valid(t) ==> Valid(r.value.0) && r.value.1 == t.sequence + 1
  {
    if eventType.None? then
      Err(NotNullViolation("event_type"))
    else
      var id := NextRowId(t);
      if id > MaxRowId then
        Err(Full)
      else
        var row := LogRow(id, eventType.value, description, timestamp.GetOr(now), cameraId);
        var t' := Table(t.rows + [row], id);
        assert Valid(t) ==> Valid(t') && id == t.sequence + 1 by {
          if Valid(t) {
            NextRowIdOfValid(t);
          }
        }
        Ok((t', id))
  }

  /** `DELETE FROM logs`: every row goes, the sequence value stays; answers the number of rows deleted. */
  function ClearAll(t: Table): (r: (Table, nat))
    ensures r.0.rows == [] && r.1 == |t.rows|
    ensures r.0.sequence == t.sequence
    ensures Valid(t) ==> Valid(r.0)
  {
    (Table([], t.sequence), |t.rows|)
  }

  /** A write to the table, for reasoning about runs of inserts and clears. */
  datatype Write =
    | Insert(eventType: string, description: Option<string>, cameraId: Option<string>, timestamp: Option<Timestamp>)
    | Clear

  /**
   * One write: the table afterwards and the id it handed out, if any. A
   * failing insert leaves the table as it was, as SQLite does.
   */
  function ApplyOne(t: Table, w: Write, now: Timestamp): (r: (Table, seq<nat>))
    ensures Valid(t) ==> Valid(r.0)
    ensures t.sequence <= r.0.sequence
    ensures |r.1| <= 1
    ensures forall i :: 0 <= i < |r.1| ==> t.sequence < r.1[i] == r.0.sequence
  {
    match w
    case Clear => (ClearAll(t).0, [])
    case Insert(e, d, c, ts) =>
      match InsertRow(t, Some(e), d, c, ts, now)
      case Ok((t', id)) => (t', [id])
      case Err(_) => (t, [])
  }

  /** Applies the writes in order and collects the ids of the successful inserts. */
  function Apply(t: Table, writes: seq<Write>, now: Timestamp): (r: (Table, seq<nat>))
    decreases |writes|
  {
    if |writes| == 0 then (t, [])
    else
      var (t1, id1) := ApplyOne(t, writes[0], now);
      var rest := Apply(t1, writes[1..], now);
      (rest.0, id1 + rest.1)
  }

  /**
   * Ids handed out by any run of inserts and clears strictly increase, all lie
   * above the starting sequence value and never exceed the final one: a
   * cleared table never gives an id out again.
   */
  lemma {:induction false} ApplyIssuesFreshIds(t: Table, writes: seq<Write>, now: Timestamp)
    requires Valid(t)
    ensures var (t', ids) := Apply(t, writes, now);
      && Valid(t')
      && t.sequence <= t'.sequence
      && (forall i, j :: 0 <= i < j < |ids| ==> ids[i] < ids[j])
      && (forall i :: 0 <= i < |ids| ==> t.sequence < ids[i] <= t'.sequence)
    decreases |writes|
  {
    if |writes| > 0 {
      var (t1, id1) := ApplyOne(t, writes[0], now);
      ApplyIssuesFreshIds(t1, writes[1..], now);
    }
  }
}
