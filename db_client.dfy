/**
 * The write path of the database client: the `train_schedules` table as
 * state, the row each schedule record becomes, and the three operations
 * that change the table.
 *
 * Each operation is one transaction. Its effect is given by a function on
 * `TableState` whose result is `Failure` when the database raises; a failed
 * transaction is rolled back, so the table keeps its state.
 */
module DbClient {
  import opened Wrappers
  import opened IRailClient

  /** One row of `train_schedules`, without the surrogate `id` column. */
  datatype Row = Row(
    trainId: string,
    trainName: string,
    direction: string,
    departureStation: string,
    arrivalStation: string,
    platform: string,
    scheduledTime: Option<DateTime>,
    actualTime: Option<DateTime>,
    delayMinutes: int,
    canceled: int,
    currentStatus: string,
    lastUpdated: Option<DateTime>)

  /** Why the database raises. */
  datatype DbError =
    | MissingTable             // `train_schedules` has not been created
    | RowRejected(position: nat) // the row of the schedule at `position` breaks a column constraint

  /** Whether `train_schedules` exists, and its rows in insertion order. */
  datatype TableState = TableState(present: bool, rows: seq<Row>)

  // Column constraints of the CREATE TABLE statement.
  const IdWidth := 50        // train_id, train_name: NVARCHAR(50)
  const DirectionWidth := 10 // direction, platform, current_status: NVARCHAR(10)
  const StationWidth := 100  // departure_station, arrival_station: NVARCHAR(100)
  const IntMin := -0x8000_0000
  const IntMax := 0x7FFF_FFFF
  const TinyIntMax := 255

  /** A row the table accepts: no NULL in a NOT NULL column, every string within its width, every number within its type. */
  predicate Fits(r: Row)
  {
    && r.scheduledTime.Some? && r.actualTime.Some?
    && |r.trainId| <= IdWidth && |r.trainName| <= IdWidth
    && |r.direction| <= DirectionWidth && |r.platform| <= DirectionWidth && |r.currentStatus| <= DirectionWidth
    && |r.departureStation| <= StationWidth && |r.arrivalStation| <= StationWidth
    && IntMin <= r.delayMinutes <= IntMax
    && 0 <= r.canceled <= TinyIntMax
  }

  /**
   * The parameters `insert_schedules` binds for one record: the flag becomes
   * 0 or 1, the status its label, and an absent `last_updated` is bound as NULL.
   */
  function ToRow(s: Schedule): (r: Row)
    ensures r.canceled == 0 || r.canceled == 1
    ensures r.canceled == 1 <==> s.canceled
    ensures 0 < |r.currentStatus| <= DirectionWidth
    ensures s.lastUpdated.None? ==> r.lastUpdated.None?
  {
    Row(s.trainId, s.trainName, s.direction, s.departureStation, s.arrivalStation, s.platform,
        s.scheduledTime, s.actualTime, s.delayMinutes, if s.canceled then 1 else 0,
        s.currentStatus.Label(), s.lastUpdated)
  }

  /**
   * The columns that can make the table refuse a record's row: the two times
   * (NULL in a NOT NULL column), the text widths and the `INT` range of the
   * minutes. The `canceled` and `current_status` columns never do.
   */
  lemma RecordFits(s: Schedule)
    ensures Fits(ToRow(s)) <==>
      && s.scheduledTime.Some? && s.actualTime.Some?
      && |s.trainId| <= IdWidth && |s.trainName| <= IdWidth
      && |s.direction| <= DirectionWidth && |s.platform| <= DirectionWidth
      && |s.departureStation| <= StationWidth && |s.arrivalStation| <= StationWidth
      && IntMin <= s.delayMinutes <= IntMax
  {
  }

  /** The status whose stored text is `text`. */
  function StatusFromLabel(text: string): (r: Option<Status>)
    ensures r.Some? ==> r.value.Label() == text
  {
    if text == "On Time" then Some(OnTime)
    else if text == "Delayed" then Some(Delayed)
    else if text == "Canceled" then Some(Canceled)
    else None
  }

  /** Reads a stored row back as a schedule record; `None` for a row no record maps to. */
  function FromRow(r: Row): Option<Schedule>
  {
    match StatusFromLabel(r.currentStatus)
    case None => None
    case Some(status) =>
      if r.canceled == 0 || r.canceled == 1 then
        Some(Schedule(r.trainId, r.trainName, r.direction, r.departureStation, r.arrivalStation, r.platform,
                      r.scheduledTime, r.actualTime, r.delayMinutes, r.canceled == 1, status, r.lastUpdated))
      else None
  }

  /** The row mapping loses nothing: every record is read back from its row. */
  lemma RowRoundTrip(s: Schedule)
    ensures FromRow(ToRow(s)) == Some(s)
  {
    match s.currentStatus
    case OnTime =>
    case Delayed =>
    case Canceled =>
  }

  /** The rows of `schedules`, one per record, in order. */
  function RowsOf(schedules: seq<Schedule>): (rows: seq<Row>)
    ensures |rows| == |schedules|
    ensures forall i :: 0 <= i < |schedules| ==> rows[i] == ToRow(schedules[i])
  {
    Map(ToRow, schedules)
  }

  /** One more record adds its row at the end. */
  lemma RowsOfSnoc(schedules: seq<Schedule>, s: Schedule)
    ensures RowsOf(schedules + [s]) == RowsOf(schedules) + [ToRow(s)]
  {
    MapAppend(ToRow, schedules, [s]);
    assert Map(ToRow, [s]) == [ToRow(s)];
  }

  /** Every record of `schedules` gives a row the table accepts. */
  predicate Accepted(schedules: seq<Schedule>)
  {
    forall i :: 0 <= i < |schedules| ==> Fits(ToRow(schedules[i]))
  }

  /** The position of the first record whose row the table rejects. */
  function FirstRejected(schedules: seq<Schedule>): (r: Option<nat>)
    ensures r.None? <==> Accepted(schedules)
    ensures r.Some? ==> r.value < |schedules| && !Fits(ToRow(schedules[r.value]))
    ensures r.Some? ==> forall j :: 0 <= j < r.value ==> Fits(ToRow(schedules[j]))
  {
    if |schedules| == 0 then None
    else if !Fits(ToRow(schedules[0])) then Some(0)
    else match FirstRejected(schedules[1..])
      case None => None
      case Some(i) => Some(i + 1)
  }

  /** A record whose row fits extends an accepted run of records. */
  lemma AcceptedSnoc(schedules: seq<Schedule>, s: Schedule)
    requires Accepted(schedules) && Fits(ToRow(s))
    ensures Accepted(schedules + [s])
  {
    assert forall j :: 0 <= j < |schedules| ==> (schedules + [s])[j] == schedules[j];
  }

  /** A record whose row is rejected after rows that all fit is the first rejected one. */
  lemma FirstRejectedAt(schedules: seq<Schedule>, i: nat)
    requires i < |schedules| && !Fits(ToRow(schedules[i]))
    requires Accepted(schedules[..i])
    ensures FirstRejected(schedules) == Some(i)
  {
    assert forall j :: 0 <= j < i ==> schedules[..i][j] == schedules[j];
    var r := FirstRejected(schedules);
    assert r.Some? by {
      assert !Accepted(schedules);
    }
    assert !(r.value < i) && !(i < r.value);
  }

  /** `create_tables_if_not_exist`: `IF NOT EXISTS ... CREATE TABLE`. */
  function Created(s: TableState): (t: TableState)
    ensures t.present
    ensures s.present ==> t == s
    ensures !s.present ==> t.rows == []
  {
    if s.present then s else TableState(true, [])
  }

  /** Creating the table a second time changes nothing. */
  lemma CreatedIdempotent(s: TableState)
    ensures Created(Created(s)) == Created(s)
  {
  }

  /** `clear_old_data`: `DELETE FROM train_schedules`. */
  function Cleared(s: TableState): (r: Result<TableState, DbError>)
    ensures r.Success? <==> s.present
    ensures r.Success? ==> r.value == TableState(true, [])
    ensures r.Failure? ==> r.error == MissingTable
  {
    if s.present then Success(TableState(true, [])) else Failure(MissingTable)
  }

  /** Clearing an already cleared table changes nothing. */
  lemma ClearedIdempotent(s: TableState)
    requires s.present
    ensures Cleared(Cleared(s).value) == Cleared(s)
  {
  }

  /**
   * `insert_schedules`: delete every row when `clearOld`, then insert one row
   * per record in order. The table must exist unless nothing is executed;
   * the first rejected row aborts the whole transaction.
   */
  function Inserted(s: TableState, schedules: seq<Schedule>, clearOld: bool): (r: Result<TableState, DbError>)
    ensures r.Success? <==> (s.present && Accepted(schedules)) || (!s.present && !clearOld && schedules == [])
    ensures r.Success? ==> r.value.present == s.present
    ensures r.Success? ==> r.value.rows == (if clearOld then [] else s.rows) + RowsOf(schedules)
    ensures r.Failure? && !s.present ==> r.error == MissingTable
    ensures r.Failure? && s.present ==>
      r.error.RowRejected? && r.error.position < |schedules| && !Fits(ToRow(schedules[r.error.position]))
  {
    if !s.present && (clearOld || |schedules| > 0) then Failure(MissingTable)
    else match FirstRejected(schedules)
      case Some(i) => Failure(RowRejected(i))
      case None => Success(TableState(s.present, (if clearOld then [] else s.rows) + RowsOf(schedules)))
  }

  /** An insert into a table that can take it whose rows all fit commits them after the kept rows. */
  lemma InsertedAccepted(s: TableState, schedules: seq<Schedule>, clearOld: bool)
    requires s.present || (!clearOld && schedules == [])
    requires Accepted(schedules)
    ensures Inserted(s, schedules, clearOld) == Success(TableState(s.present, (if clearOld then [] else s.rows) + RowsOf(schedules)))
  {
  }

  /** An insert into a table that can take it fails at its first rejected row. */
  lemma InsertedRejected(s: TableState, schedules: seq<Schedule>, clearOld: bool, i: nat)
    requires s.present || (!clearOld && schedules == [])
    requires FirstRejected(schedules) == Some(i)
    ensures Inserted(s, schedules, clearOld) == Failure(RowRejected(i))
  {
  }

  /** With `clearOld`, the rows afterwards depend only on the records: no residual row of an earlier run survives. */
  lemma InsertedReplacesAll(s1: TableState, s2: TableState, schedules: seq<Schedule>)
    requires s1.present && s2.present
    ensures Inserted(s1, schedules, true) == Inserted(s2, schedules, true)
  {
  }

  /** Clearing the table before `insert_schedules(..., clearOld)` does not change the outcome. */
  lemma ClearBeforeInsertRedundant(s: TableState, schedules: seq<Schedule>)
    requires s.present
    ensures Inserted(Cleared(s).value, schedules, true) == Inserted(s, schedules, true)
  {
  }

  /** A record without a scheduled or an actual time makes the insert fail: both columns are NOT NULL. */
  lemma AbsentTimeRejected(s: TableState, schedules: seq<Schedule>, clearOld: bool, i: nat)
    requires i < |schedules|
    requires schedules[i].scheduledTime.None? || schedules[i].actualTime.None?
    ensures Inserted(s, schedules, clearOld).Failure?
  {
    assert !Fits(ToRow(schedules[i]));
  }

  /** The database, as far as the client writes it. */
  class Database {
    var present: bool
    var rows: seq<Row>

    /** The table as a value. */
    function State(): TableState
      reads this
    {
      TableState(present, rows)
    }

    /** A database in the given state. */
    constructor (initial: TableState)
      ensures State() == initial
    {
      present := initial.present;
      rows := initial.rows;
    }

    /** `create_tables_if_not_exist`. */
    method CreateTablesIfNotExist()
      modifies this
      ensures State() == Created(old(State()))
    {
      if !present {
        present, rows := true, [];
      }
    }

    /** `clear_old_data`. */
    method ClearOldData() returns (o: Outcome<DbError>)
      modifies this
      ensures Cleared(old(State())).Success? ==> o == Pass && State() == Cleared(old(State())).value
      ensures Cleared(old(State())).Failure? ==> o == Fail(Cleared(old(State())).error) && State() == old(State())
    {
      if !present {
        return Fail(MissingTable);
      }
      rows := [];
      o := Pass;
    }

    /**
     * `insert_schedules`. The transaction builds the new rows on a working
     * copy that is committed at the end; returning early is the rollback.
     */
    method InsertSchedules(schedules: seq<Schedule>, clearOldData: bool) returns (o: Outcome<DbError>)
      modifies this
      ensures Inserted(old(State()), schedules, clearOldData).Success? ==>
        o == Pass && State() == Inserted(old(State()), schedules, clearOldData).value
      ensures Inserted(old(State()), schedules, clearOldData).Failure? ==>
        o == Fail(Inserted(old(State()), schedules, clearOldData).error) && State() == old(State())
    {
      if !present && (clearOldData || |schedules| > 0) {
        return Fail(MissingTable);
      }
      var kept := if clearOldData then [] else rows;
      var pending := kept;
      for i := 0 to |schedules|
        invariant present == old(present) && rows == old(rows)
        invariant pending == kept + RowsOf(schedules[..i])
        invariant Accepted(schedules[..i])
      {
        var row := ToRow(schedules[i]);
        if !Fits(row) {
          FirstRejectedAt(schedules, i);
          InsertedRejected(State(), schedules, clearOldData, i);
          return Fail(RowRejected(i));
        }
        RowsOfSnoc(schedules[..i], schedules[i]);
        AcceptedSnoc(schedules[..i], schedules[i]);
        assert schedules[..i + 1] == schedules[..i] + [schedules[i]];
        pending := pending + [row];
      }
      assert schedules[..|schedules|] == schedules;
      InsertedAccepted(State(), schedules, clearOldData);
      rows := pending;
      o := Pass;
    }
  }
}
