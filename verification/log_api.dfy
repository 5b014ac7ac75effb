/**
 * The Express handlers of the backend over the `logs` table:
 * `POST /api/log` (validate, default, insert), `GET /api/logs` (the 100 most
 * recent rows by timestamp) and `GET /api/stats` (a Monday..Sunday histogram
 * of the last seven days).
 *
 * Every handler is a pure function of the table. A failure of the database
 * driver itself (disk, lock, I/O) is the explicit input `fault`: when it is
 * `Some(message)` the statement fails with that message.
 */
module LogApi {
  import opened Wrappers
  import opened Calendar
  import opened LogStore

  // ---------------------------------------------------------------------
  // POST /api/log
  // ---------------------------------------------------------------------

  /**
   * The JSON body fields the handler destructures. `None` is a field that is
   * absent or `null`; the model considers string-valued fields only.
   */
  datatype LogRequest = LogRequest(eventType: Option<string>, description: Option<string>, cameraId: Option<string>)

  /** JavaScript truthiness of a string-or-missing value. */
  predicate Truthy(v: Option<string>)
  {
    v.Some? && v.value != ""
  }

  /** `v || d` for a string-or-missing value. */
  function OrElse(v: Option<string>, d: string): (r: string)
    ensures Truthy(v) ==> r == v.value
    ensures !Truthy(v) ==> r == d
  {
    if Truthy(v) then v.value else d
  }

  /** The three answers: 200 with the new id and the echoed body, 400, or 500. */
  datatype PostResponse =
    | Created(message: string, id: nat, data: LogRequest)
    | BadRequest(error: string)
    | ServerError(error: string)

  function PostStatus(r: PostResponse): int
  {
    match r
    case Created(_, _, _) => 200
    case BadRequest(_) => 400
    case ServerError(_) => 500
  }

  /**
   * `POST /api/log`. A falsy `event_type` is refused with 400 before the
   * database is touched; otherwise a falsy description is stored as `''`,
   * a falsy camera id as `'default'`, the timestamp takes the column default,
   * and the answer carries the new id and the body fields as sent.
   */
  function PostLog(t: Table, req: LogRequest, now: Timestamp, fault: Option<string>): (r: (Table, PostResponse))
    ensures !Truthy(req.eventType) ==> r == (t, BadRequest("event_type is required"))
    ensures r.1.Created? <==> Truthy(req.eventType) && fault.None? && NextRowId(t) <= MaxRowId
    ensures !r.1.Created? ==> r.0 == t
    ensures Truthy(req.eventType) && fault.Some? ==> r.1 == ServerError(fault.value)
    ensures r.1.Created? ==>
      && |r.0.rows| == |t.rows| + 1
      && r.0.rows[..|t.rows|] == t.rows
      && r.0.rows[|t.rows|] == LogRow(r.1.id, req.eventType.value,
                                      Some(OrElse(req.description, "")), now,
                                      Some(OrElse(req.cameraId, "default")))
      && r.1.data == req
      && r.1.message == "Log entry created"
      && (forall i :: 0 <= i < |t.rows| ==> t.rows[i].id < r.1.id)
    ensures Valid(t) ==> Valid(r.0)
  {
    if !Truthy(req.eventType) then
      (t, BadRequest("event_type is required"))
    else if fault.Some? then
      (t, ServerError(fault.value))
    else
      var description := OrElse(req.description, "");
      var cameraId := OrElse(req.cameraId, "default");
      match InsertRow(t, req.eventType, Some(description), Some(cameraId), None, now)
      case Ok((t', id)) =>
        assert t'.rows[..|t.rows|] == t.rows;
        (t', Created("Log entry created", id, req))
      case Err(e) => (t, ServerError(ErrorMessage(e)))
  }

  /** A stored row never carries an empty or null event type when it came through `POST /api/log`. */
  lemma PostedRowHasEventType(t: Table, req: LogRequest, now: Timestamp, fault: Option<string>)
    requires PostLog(t, req, now, fault).1.Created?
    ensures var t' := PostLog(t, req, now, fault).0;
      && t'.rows[|t'.rows| - 1].eventType != ""
      && t'.rows[|t'.rows| - 1].description.Some?
      && t'.rows[|t'.rows| - 1].cameraId.Some?
      && t'.rows[|t'.rows| - 1].cameraId.value != ""
  {
  }

  // ---------------------------------------------------------------------
  // GET /api/logs
  // ---------------------------------------------------------------------

  const PageLimit: nat := 100

  /** Non-increasing timestamps: the `ORDER BY timestamp DESC` order. */
  ghost predicate SortedDesc(s: seq<LogRow>)
  {
    forall i, j :: 0 <= i < j < |s| ==> s[i].timestamp >= s[j].timestamp
  }

  /** Places `x` into a list already in descending timestamp order. */
  function InsertDesc(x: LogRow, s: seq<LogRow>): (r: seq<LogRow>)
    requires SortedDesc(s)
    ensures multiset(r) == multiset(s) + multiset{x}
    ensures forall y :: y in r <==> y in s || y == x
    ensures SortedDesc(r)
    ensures |r| == |s| + 1
  {
    if |s| == 0 then [x]
    else if x.timestamp >= s[0].timestamp then [x] + s
    else
      var tail := InsertDesc(x, s[1..]);
      assert s == [s[0]] + s[1..];
      ConsSortedDesc(s[0], tail);
      [s[0]] + tail
  }

  /** Putting a row no older than any of a descending list in front keeps it descending. */
  lemma ConsSortedDesc(h: LogRow, tail: seq<LogRow>)
    requires SortedDesc(tail)
    requires forall y :: y in tail ==> y.timestamp <= h.timestamp
    ensures SortedDesc([h] + tail)
  {
    var s := [h] + tail;
    forall i, j | 0 <= i < j < |s|
      ensures s[i].timestamp >= s[j].timestamp
    {
      assert s[j] == tail[j - 1];
      if i > 0 {
        assert s[i] == tail[i - 1];
      }
    }
  }

  /** The rows sorted by descending timestamp (rows with equal timestamps in no promised order). */
  function SortDesc(rows: seq<LogRow>): (r: seq<LogRow>)
    ensures multiset(r) == multiset(rows)
    ensures SortedDesc(r)
    ensures |r| == |rows|
  {
    if |rows| == 0 then []
    else
      assert rows == [rows[0]] + rows[1..];
      InsertDesc(rows[0], SortDesc(rows[1..]))
  }

  function Min(a: int, b: int): int
  {
    if a < b then a else b
  }

  /** In a descending list, every element after position `k` is no newer than any before it. */
  lemma PrefixIsNewest(sorted: seq<LogRow>, k: nat)
    requires SortedDesc(sorted)
    requires k <= |sorted|
    ensures forall x, y :: x in multiset(sorted) - multiset(sorted[..k]) && y in sorted[..k] ==> x.timestamp <= y.timestamp
  {
    assert sorted == sorted[..k] + sorted[k..];
    assert multiset(sorted) - multiset(sorted[..k]) == multiset(sorted[k..]);
    forall x, y | x in multiset(sorted[k..]) && y in sorted[..k]
      ensures x.timestamp <= y.timestamp
    {
      var j :| 0 <= j < |sorted[k..]| && sorted[k..][j] == x;
      var i :| 0 <= i < k && sorted[..k][i] == y;
      assert sorted[k + j] == x && sorted[i] == y;
    }
  }

  /**
   * `SELECT * FROM logs ORDER BY timestamp DESC LIMIT 100`: at most 100 rows
   * of the table, newest first, and no row left out is newer than one
   * returned.
   */
  function ListLogs(t: Table, fault: Option<string>): (r: Result<seq<LogRow>, string>)
    ensures fault.Some? ==> r == Err(fault.value)
    ensures fault.None? ==> r.Ok?
    ensures r.Ok? ==>
      && |r.value| == Min(|t.rows|, PageLimit)
      && SortedDesc(r.value)
      && multiset(r.value) <= multiset(t.rows)
      && (forall x, y :: x in multiset(t.rows) - multiset(r.value) && y in r.value ==> x.timestamp <= y.timestamp)
  {
    if fault.Some? then Err(fault.value)
    else
      var sorted := SortDesc(t.rows);
      var k := Min(|sorted|, PageLimit);
      PrefixIsNewest(sorted, k);
      assert sorted == sorted[..k] + sorted[k..];
      Ok(sorted[..k])
  }

  /** A row strictly newer than every other row of the table heads any listing of the table. */
  lemma NewestRowHeadsListing(rows: seq<LogRow>, listed: seq<LogRow>, row: LogRow)
    requires row in rows
    requires forall x :: x in rows && x != row ==> x.timestamp < row.timestamp
    requires 0 < |listed| && SortedDesc(listed) && multiset(listed) <= multiset(rows)
    requires forall x, y :: x in multiset(rows) - multiset(listed) && y in listed ==> x.timestamp <= y.timestamp
    ensures listed[0] == row
  {
    assert row in multiset(rows);
    assert row in listed || row in multiset(rows) - multiset(listed);
    assert listed[0].timestamp >= row.timestamp;
    assert listed[0] in multiset(rows);
  }

  /**
   * A row posted at a time strictly later than every stored timestamp is
   * the first row `GET /api/logs` returns afterwards.
   */
  lemma PostedRowListedFirst(t: Table, req: LogRequest, now: Timestamp)
    requires PostLog(t, req, now, None).1.Created?
    requires forall i :: 0 <= i < |t.rows| ==> t.rows[i].timestamp < now
    ensures var t' := PostLog(t, req, now, None).0;
      var listed := ListLogs(t', None).value;
      |listed| > 0 && listed[0] == t'.rows[|t.rows|]
  {
    var t' := PostLog(t, req, now, None).0;
    var row := t'.rows[|t.rows|];
    assert t'.rows == t.rows + [row] && row.timestamp == now by {
      assert t'.rows == t'.rows[..|t.rows|] + [row];
    }
    AppendedRowIsNewest(t.rows, row);
    NewestRowHeadsListing(t'.rows, ListLogs(t', None).value, row);
  }

  lemma AppendedRowIsNewest(rows: seq<LogRow>, row: LogRow)
    requires forall i :: 0 <= i < |rows| ==> rows[i].timestamp < row.timestamp
    ensures row in rows + [row]
    ensures forall x :: x in rows + [row] && x != row ==> x.timestamp < row.timestamp
  {
    assert forall x :: x in rows + [row] && x != row ==> x in rows;
  }

  // ---------------------------------------------------------------------
  // GET /api/stats
  // ---------------------------------------------------------------------

  /** `days` in the handler: index 0..6 as `strftime('%w')` numbers them, Sunday first. */
  const DayNames: seq<string> := ["Sunday", "Monday", "Tuesday", "Wednesday", "Thursday", "Friday", "Saturday"]

  const Week: int := 7 * SecondsPerDay

  /** The `stats` object before any group is applied: the seven day names, each at 0. */
  const EmptyStats: map<string, nat> := map k | k in DayNames :: 0

  /** `WHERE timestamp >= datetime('now', '-7 days')`, keeping table order. */
  function InWindow(rows: seq<LogRow>, now: Timestamp): (r: seq<LogRow>)
    ensures forall x :: x in r <==> x in rows && x.timestamp >= now - Week
    ensures forall x :: multiset(r)[x] == if x.timestamp >= now - Week then multiset(rows)[x] else 0
    ensures |r| <= |rows|
  {
    if |rows| == 0 then []
    else
      var rest := InWindow(rows[1..], now);
      assert rows == [rows[0]] + rows[1..];
      assert multiset(rows) == multiset([rows[0]]) + multiset(rows[1..]);
      assert forall x :: x in rows <==> x == rows[0] || x in rows[1..];
      if rows[0].timestamp >= now - Week then [rows[0]] + rest else rest
  }

  /**
   * The window keeps table order: filtering a table made of two parts gives
   * the filtered first part followed by the filtered second part.
   */
  lemma {:induction false} InWindowKeepsOrder(a: seq<LogRow>, b: seq<LogRow>, now: Timestamp)
    ensures InWindow(a + b, now) == InWindow(a, now) + InWindow(b, now)
    decreases |a|
  {
    if |a| > 0 {
      assert (a + b)[1..] == a[1..] + b;
      InWindowKeepsOrder(a[1..], b, now);
    } else {
      assert a + b == b;
    }
  }

  /** The number of rows whose timestamp falls on weekday `d`. */
  function CountOn(rows: seq<LogRow>, d: int): (n: nat)
    ensures n <= |rows|
  {
    if |rows| == 0 then 0
    else (if Weekday(rows[0].timestamp) == d then 1 else 0) + CountOn(rows[1..], d)
  }

  /** One result row of the `GROUP BY day_index` query. */
  datatype GroupRow = GroupRow(dayIndex: int, count: nat)

  /** The groups for weekdays `d..6` that hold at least one row, in weekday order. */
  function GroupsFrom(rows: seq<LogRow>, d: nat): (g: seq<GroupRow>)
    requires d <= 7
    ensures forall i :: 0 <= i < |g| ==> d <= g[i].dayIndex < 7 && g[i].count == CountOn(rows, g[i].dayIndex) > 0
    ensures forall i, j :: 0 <= i < j < |g| ==> g[i].dayIndex < g[j].dayIndex
    ensures forall e :: d <= e < 7 && CountOn(rows, e) > 0 ==> GroupRow(e, CountOn(rows, e)) in g
    decreases 7 - d
  {
    if d == 7 then []
    else
      var rest := GroupsFrom(rows, d + 1);
      if CountOn(rows, d) > 0 then [GroupRow(d, CountOn(rows, d))] + rest else rest
  }

  /** `rows.forEach(row => { … stats[dayName] = row.count })`, ignoring names the object lacks. */
  function ApplyGroups(stats: map<string, nat>, groups: seq<GroupRow>): (r: map<string, nat>)
    ensures r.Keys == stats.Keys
  {
    if |groups| == 0 then stats
    else
      var g := groups[0];
      var next :=
        if 0 <= g.dayIndex < 7 && DayNames[g.dayIndex] in stats
        then stats[DayNames[g.dayIndex] := g.count]
        else stats;
      ApplyGroups(next, groups[1..])
  }

  /**
   * `GET /api/stats`: the count of last-seven-days rows per weekday name,
   * with every one of the seven names present.
   */
  function WeeklyStats(t: Table, now: Timestamp, fault: Option<string>): (r: Result<map<string, nat>, string>)
    ensures fault.Some? ==> r == Err(fault.value)
    ensures fault.None? ==> r.Ok?
  {
    if fault.Some? then Err(fault.value)
    else
      var window := InWindow(t.rows, now);
      Ok(ApplyGroups(EmptyStats, GroupsFrom(window, 0)))
  }

  /** The sum of the seven histogram values. */
  function Total(stats: map<string, nat>): nat
    requires stats.Keys == EmptyStats.Keys
  {
    stats["Monday"] + stats["Tuesday"] + stats["Wednesday"] + stats["Thursday"]
      + stats["Friday"] + stats["Saturday"] + stats["Sunday"]
  }

  /** The day names are pairwise distinct and exactly the keys of the initial `stats` object. */
  lemma DayNamesAreKeys()
    ensures forall i, j :: 0 <= i < j < 7 ==> DayNames[i] != DayNames[j]
    ensures forall i :: 0 <= i < 7 ==> DayNames[i] in EmptyStats
    ensures forall k :: k in EmptyStats ==> exists i :: 0 <= i < 7 && DayNames[i] == k
  {
    assert DayNames[0] == "Sunday" && DayNames[1] == "Monday" && DayNames[2] == "Tuesday";
    assert DayNames[3] == "Wednesday" && DayNames[4] == "Thursday" && DayNames[5] == "Friday";
    assert DayNames[6] == "Saturday";
  }

  /** The initial object has exactly the keys Monday..Sunday. */
  lemma EmptyStatsKeys()
    ensures EmptyStats.Keys == {"Monday", "Tuesday", "Wednesday", "Thursday", "Friday", "Saturday", "Sunday"}
  {
    assert DayNames == ["Sunday", "Monday", "Tuesday", "Wednesday", "Thursday", "Friday", "Saturday"];
    assert forall k :: k in DayNames <==> k in {"Monday", "Tuesday", "Wednesday", "Thursday", "Friday", "Saturday", "Sunday"};
  }

  /**
   * Applying groups with distinct weekday indices sets the name of weekday
   * `d` to the count of its group, and leaves it alone when no group has it.
   */
  lemma {:induction false} ApplyGroupsAt(stats: map<string, nat>, groups: seq<GroupRow>, d: int)
    requires EmptyStats.Keys <= stats.Keys
    requires 0 <= d < 7
    requires forall i :: 0 <= i < |groups| ==> 0 <= groups[i].dayIndex < 7
    requires forall i, j :: 0 <= i < j < |groups| ==> groups[i].dayIndex < groups[j].dayIndex
    ensures forall c :: GroupRow(d, c) in groups ==> ApplyGroups(stats, groups)[DayNames[d]] == c
    ensures (forall i :: 0 <= i < |groups| ==> groups[i].dayIndex != d) ==>
      ApplyGroups(stats, groups)[DayNames[d]] == stats[DayNames[d]]
  {
    DayNamesAreKeys();
    if |groups| > 0 {
      var g := groups[0];
      var next := stats[DayNames[g.dayIndex] := g.count];
      assert ApplyGroups(stats, groups) == ApplyGroups(next, groups[1..]);
      ApplyGroupsAt(next, groups[1..], d);
      if g.dayIndex == d {
        assert forall i :: 0 <= i < |groups[1..]| ==> groups[1..][i].dayIndex != d by {
          forall i | 0 <= i < |groups[1..]| ensures groups[1..][i].dayIndex != d {
            assert groups[1..][i] == groups[i + 1];
          }
        }
      } else {
        assert forall c :: GroupRow(d, c) in groups ==> GroupRow(d, c) in groups[1..] by {
          assert groups == [g] + groups[1..];
        }
      }
    }
  }

  /** Every row falls on exactly one weekday, so the seven counts add up to the number of rows. */
  lemma {:induction false} CountsPartitionRows(rows: seq<LogRow>)
    ensures CountOn(rows, 0) + CountOn(rows, 1) + CountOn(rows, 2) + CountOn(rows, 3)
      + CountOn(rows, 4) + CountOn(rows, 5) + CountOn(rows, 6) == |rows|
  {
    if |rows| > 0 {
      CountsPartitionRows(rows[1..]);
    }
  }

  /** Folding the groups of a window into the initial object yields that window's count for weekday `d`. */
  lemma StatIsWeekdayCount(window: seq<LogRow>, d: int)
    requires 0 <= d < 7
    ensures ApplyGroups(EmptyStats, GroupsFrom(window, 0))[DayNames[d]] == CountOn(window, d)
  {
    var groups := GroupsFrom(window, 0);
    if CountOn(window, d) > 0 {
      assert GroupRow(d, CountOn(window, d)) in groups;
      ApplyGroupsAt(EmptyStats, groups, d);
    } else {
      AbsentDayStaysZero(groups, d);
    }
  }

  /** A weekday no group mentions keeps the initial 0. */
  lemma AbsentDayStaysZero(groups: seq<GroupRow>, d: int)
    requires 0 <= d < 7
    requires forall i :: 0 <= i < |groups| ==> 0 <= groups[i].dayIndex < 7 && groups[i].dayIndex != d
    requires forall i, j :: 0 <= i < j < |groups| ==> groups[i].dayIndex < groups[j].dayIndex
    ensures ApplyGroups(EmptyStats, groups)[DayNames[d]] == 0
  {
    ApplyGroupsAt(EmptyStats, groups, d);
    DayNamesAreKeys();
    assert EmptyStats[DayNames[d]] == 0;
  }

  /** The same for all seven weekdays at once. */
  lemma StatsAreWeekdayCounts(window: seq<LogRow>)
    ensures var stats := ApplyGroups(EmptyStats, GroupsFrom(window, 0));
      forall d :: 0 <= d < 7 ==> stats[DayNames[d]] == CountOn(window, d)
  {
    forall d | 0 <= d < 7
      ensures ApplyGroups(EmptyStats, GroupsFrom(window, 0))[DayNames[d]] == CountOn(window, d)
    {
      StatIsWeekdayCount(window, d);
    }
  }

  /**
   * The histogram has exactly the seven keys Monday..Sunday; each holds the
   * number of rows of the last seven days that fall on that weekday (0 when
   * there are none), and the values add up to the size of the window.
   */
  lemma WeeklyStatsCorrect(t: Table, now: Timestamp)
    ensures WeeklyStats(t, now, None).Ok?
    ensures var stats := WeeklyStats(t, now, None).value;
      var window := InWindow(t.rows, now);
      && stats.Keys == EmptyStats.Keys
      && stats.Keys == {"Monday", "Tuesday", "Wednesday", "Thursday", "Friday", "Saturday", "Sunday"}
      && (forall d :: 0 <= d < 7 ==> stats[DayNames[d]] == CountOn(window, d))
      && Total(stats) == |window|
  {
    var window := InWindow(t.rows, now);
    var stats := ApplyGroups(EmptyStats, GroupsFrom(window, 0));
    StatsAreWeekdayCounts(window);
    CountsPartitionRows(window);
    EmptyStatsKeys();
    assert DayNames[0] == "Sunday" && DayNames[1] == "Monday" && DayNames[2] == "Tuesday";
    assert DayNames[3] == "Wednesday" && DayNames[4] == "Thursday" && DayNames[5] == "Friday";
    assert DayNames[6] == "Saturday";
  }

}
