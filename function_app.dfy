/**
 * The function app: the aggregation run over all stations and both
 * directions, the stamping of `last_updated`, the replacement of the stored
 * table, and how the HTTP trigger resolves its station list.
 *
 * The liveboard fetch is the collaborator `fetch`: `fetch(station, direction)`
 * is what `get_schedules` returns for that pair, `None` on failure. The
 * clock reading `datetime.now(...)` is the parameter `now`.
 */
module FunctionApp {
  import opened Wrappers
  import opened Text
  import opened IRailClient
  import opened DbClient

  /** The directions fetched per station, in fetch order. */
  const Directions: seq<string> := ["arrival", "departure"]

  /** The station list used when neither the query nor the environment gives one. */
  const DefaultStations := "Brussels-Central"

  /** `get_schedules(station, direction)` as seen by the aggregator. */
  type Fetcher = (string, string) -> Option<seq<Schedule>>

  /** What `update_schedules_logic` returns. */
  datatype Summary = Summary(
    stations: seq<string>,
    arrivalCounts: seq<nat>,
    departureCounts: seq<nat>,
    totalSchedules: nat,
    schedules: seq<Schedule>)

  /** What a fetch contributes: `if schedules:` treats `None` and `[]` alike. */
  function Fetched(result: Option<seq<Schedule>>): seq<Schedule>
  {
    match result
    case None => []
    case Some(records) => records
  }

  /** What one station contributes: its arrivals, then its departures. */
  function StationRecords(station: string, fetch: Fetcher): seq<Schedule>
  {
    Fetched(fetch(station, "arrival")) + Fetched(fetch(station, "departure"))
  }

  /** `StationRecords` for one fetcher, as a function of the station. */
  function Contribution(fetch: Fetcher): string -> seq<Schedule>
  {
    station => StationRecords(station, fetch)
  }

  /** The records a run collects: per station in order, arrivals before departures. */
  function Combined(stations: seq<string>, fetch: Fetcher): seq<Schedule>
  {
    Flatten(Map(Contribution(fetch), stations))
  }

  /** One more station appends its records. */
  lemma CombinedSnoc(stations: seq<string>, station: string, fetch: Fetcher)
    ensures Combined(stations + [station], fetch) == Combined(stations, fetch) + StationRecords(station, fetch)
  {
    var f := Contribution(fetch);
    MapAppend(f, stations, [station]);
    FlattenAppend(Map(f, stations), Map(f, [station]));
    assert Map(f, [station]) == [StationRecords(station, fetch)];
    assert Flatten([StationRecords(station, fetch)]) == StationRecords(station, fetch) by {
      assert [StationRecords(station, fetch)][..0] == [];
    }
  }

  /** The count recorded per station for one direction. */
  function Counts(stations: seq<string>, fetch: Fetcher, direction: string): seq<nat>
  {
    seq(|stations|, i requires 0 <= i < |stations| => |Fetched(fetch(stations[i], direction))|)
  }

  function Sum(xs: seq<nat>): nat
  {
    if |xs| == 0 then 0 else Sum(xs[..|xs| - 1]) + xs[|xs| - 1]
  }

  /** The arrival counts and the departure counts add up to the number of records collected. */
  lemma {:induction false} CountsAddUp(stations: seq<string>, fetch: Fetcher)
    ensures Sum(Counts(stations, fetch, "arrival")) + Sum(Counts(stations, fetch, "departure"))
         == |Combined(stations, fetch)|
  {
    if |stations| > 0 {
      var init := stations[..|stations| - 1];
      CountsAddUp(init, fetch);
      assert stations == init + [stations[|stations| - 1]];
      CombinedSnoc(init, stations[|stations| - 1], fetch);
      assert Counts(stations, fetch, "arrival")[..|stations| - 1] == Counts(init, fetch, "arrival");
      assert Counts(stations, fetch, "departure")[..|stations| - 1] == Counts(init, fetch, "departure");
    }
  }

  /** Collecting over two station lists one after the other is collecting over their concatenation. */
  lemma CombinedAppend(a: seq<string>, b: seq<string>, fetch: Fetcher)
    ensures Combined(a + b, fetch) == Combined(a, fetch) + Combined(b, fetch)
  {
    var f := Contribution(fetch);
    MapAppend(f, a, b);
    FlattenAppend(Map(f, a), Map(f, b));
  }

  /**
   * A station whose two fetches fail or come back empty contributes nothing
   * and does not disturb the records of the other stations.
   */
  lemma FailedStationContributesNothing(a: seq<string>, station: string, b: seq<string>, fetch: Fetcher)
    requires Fetched(fetch(station, "arrival")) == [] && Fetched(fetch(station, "departure")) == []
    ensures Combined(a + [station] + b, fetch) == Combined(a + b, fetch)
  {
    CombinedAppend(a + [station], b, fetch);
    CombinedSnoc(a, station, fetch);
    CombinedAppend(a, b, fetch);
  }

  /** `n` counts of 0, the counts of the stations not yet fetched. */
  function Zeros(n: nat): (zs: seq<nat>)
    ensures |zs| == n && forall i :: 0 <= i < n ==> zs[i] == 0
  {
    seq(n, _ => 0)
  }

  /** Setting the count at `idx` moves the boundary between counted and unfetched stations by one. */
  lemma CountsStep(stations: seq<string>, idx: nat, fetch: Fetcher, direction: string)
    requires idx < |stations|
    ensures (Counts(stations[..idx], fetch, direction) + Zeros(|stations| - idx))[idx := |Fetched(fetch(stations[idx], direction))|]
         == Counts(stations[..idx + 1], fetch, direction) + Zeros(|stations| - idx - 1)
  {
  }

  /**
   * The inner loop of `update_schedules_logic` for the station at `idx`: one
   * fetch per direction; a non-empty result sets that direction's count and
   * is appended, anything else leaves the count at 0.
   */
  method CollectStation(station: string, fetch: Fetcher, idx: nat, arrivals: array<nat>, departures: array<nat>)
    returns (records: seq<Schedule>)
    requires arrivals != departures
    requires idx < arrivals.Length && idx < departures.Length
    requires arrivals[idx] == 0 && departures[idx] == 0
    modifies arrivals, departures
    ensures records == StationRecords(station, fetch)
    ensures arrivals[..] == old(arrivals[..])[idx := |Fetched(fetch(station, "arrival"))|]
    ensures departures[..] == old(departures[..])[idx := |Fetched(fetch(station, "departure"))|]
  {
    records := [];
    for d := 0 to |Directions|
      invariant records == (if d > 0 then Fetched(fetch(station, "arrival")) else [])
        + (if d > 1 then Fetched(fetch(station, "departure")) else [])
      invariant arrivals[..] == old(arrivals[..])[idx := if d > 0 then |Fetched(fetch(station, "arrival"))| else 0]
      invariant departures[..] == old(departures[..])[idx := if d > 1 then |Fetched(fetch(station, "departure"))| else 0]
    {
      var direction := Directions[d];
      var schedules := fetch(station, direction);
      if schedules.Some? && |schedules.value| > 0 {
        if direction == "arrival" {
          arrivals[idx] := |schedules.value|;
        } else {
          departures[idx] := |schedules.value|;
        }
        records := records + schedules.value;
      }
    }
  }

  /**
   * The two loops of `update_schedules_logic`: per station in order, the
   * counts of its two fetches and their records appended to the combined list.
   */
  method CollectSchedules(stations: seq<string>, fetch: Fetcher)
    returns (arrivalCounts: seq<nat>, departureCounts: seq<nat>, all: seq<Schedule>)
    ensures arrivalCounts == Counts(stations, fetch, "arrival")
    ensures departureCounts == Counts(stations, fetch, "departure")
    ensures all == Combined(stations, fetch)
  {
    var arrivals := new nat[|stations|](_ => 0);
    var departures := new nat[|stations|](_ => 0);
    all := [];
    for idx := 0 to |stations|
      invariant all == Combined(stations[..idx], fetch)
      invariant arrivals[..] == Counts(stations[..idx], fetch, "arrival") + Zeros(|stations| - idx)
      invariant departures[..] == Counts(stations[..idx], fetch, "departure") + Zeros(|stations| - idx)
    {
      var records := CollectStation(stations[idx], fetch, idx, arrivals, departures);
      CountsStep(stations, idx, fetch, "arrival");
      CountsStep(stations, idx, fetch, "departure");
      assert stations[..idx + 1] == stations[..idx] + [stations[idx]];
      CombinedSnoc(stations[..idx], stations[idx], fetch);
      all := all + records;
    }
    assert stations[..|stations|] == stations;
    arrivalCounts := arrivals[..];
    departureCounts := departures[..];
  }

  /** The records with `last_updated` set to `now`: one value for all, nothing else changed. */
  function Stamped(records: seq<Schedule>, now: DateTime): (r: seq<Schedule>)
    ensures |r| == |records|
    ensures forall i :: 0 <= i < |r| ==> r[i].lastUpdated == Some(now)
    ensures forall i :: 0 <= i < |r| ==> r[i].(lastUpdated := records[i].lastUpdated) == records[i]
  {
    seq(|records|, i requires 0 <= i < |records| => records[i].(lastUpdated := Some(now)))
  }

  /** The loop that writes `last_updated` into every record. */
  method StampAll(records: seq<Schedule>, now: DateTime) returns (stamped: seq<Schedule>)
    ensures stamped == Stamped(records, now)
  {
    stamped := records;
    for i := 0 to |stamped|
      invariant |stamped| == |records|
      invariant forall k :: 0 <= k < i ==> stamped[k] == records[k].(lastUpdated := Some(now))
      invariant forall k :: i <= k < |stamped| ==> stamped[k] == records[k]
    {
      stamped := stamped[i := stamped[i].(lastUpdated := Some(now))];
    }
  }

  /**
   * Two runs over the same records differ only in `last_updated`: the same
   * records are accepted and the stored rows agree in every other column.
   */
  lemma RerunDiffersOnlyInStamp(records: seq<Schedule>, now1: DateTime, now2: DateTime)
    ensures Accepted(Stamped(records, now1)) == Accepted(Stamped(records, now2))
    ensures |RowsOf(Stamped(records, now1))| == |RowsOf(Stamped(records, now2))|
    ensures forall i :: 0 <= i < |records| ==>
      RowsOf(Stamped(records, now1))[i].(lastUpdated := None) == RowsOf(Stamped(records, now2))[i].(lastUpdated := None)
  {
    var s1, s2 := Stamped(records, now1), Stamped(records, now2);
    forall i | 0 <= i < |records|
      ensures Fits(ToRow(s1[i])) == Fits(ToRow(s2[i]))
    {
    }
  }

  /**
   * `update_schedules_logic`. The table is created if missing; when the run
   * collects records, the table is cleared in its own transaction, the records
   * are stamped and `insert_schedules` replaces the rows. An insert that fails
   * therefore leaves the table empty.
   */
  method UpdateSchedulesLogic(stations: seq<string>, fetch: Fetcher, now: DateTime, db: Database)
    returns (r: Result<Summary, DbError>)
    modifies db
    ensures db.present
    ensures Combined(stations, fetch) == [] ==>
      && r == Success(Summary(stations, Counts(stations, fetch, "arrival"), Counts(stations, fetch, "departure"), 0, []))
      && db.State() == Created(old(db.State()))
    ensures Combined(stations, fetch) != [] && Accepted(Stamped(Combined(stations, fetch), now)) ==>
      && r == Success(Summary(stations, Counts(stations, fetch, "arrival"), Counts(stations, fetch, "departure"),
                              |Combined(stations, fetch)|, Stamped(Combined(stations, fetch), now)))
      && db.rows == RowsOf(Stamped(Combined(stations, fetch), now))
    ensures Combined(stations, fetch) != [] && !Accepted(Stamped(Combined(stations, fetch), now)) ==>
      r.Failure? && r.error.RowRejected? && db.rows == []
  {
    db.CreateTablesIfNotExist();
    var arrivalCounts, departureCounts, all := CollectSchedules(stations, fetch);
    if |all| > 0 {
      var cleared := db.ClearOldData();
      assert cleared == Pass;
      all := StampAll(all, now);
      var inserted := db.InsertSchedules(all, true);
      if inserted.Fail? {
        return Failure(inserted.error);
      }
    }
    r := Success(Summary(stations, arrivalCounts, departureCounts, |all|, all));
  }

  /** A run that collects a record without a scheduled time fails to store anything. */
  lemma AbsentScheduledTimeFailsRun(stations: seq<string>, fetch: Fetcher, now: DateTime, i: nat)
    requires i < |Combined(stations, fetch)|
    requires Combined(stations, fetch)[i].scheduledTime.None?
    ensures !Accepted(Stamped(Combined(stations, fetch), now))
  {
    assert !Fits(ToRow(Stamped(Combined(stations, fetch), now)[i]));
  }

  /** The live fetcher: `get_schedules` over the upstream responses. */
  function LiveFetch(upstream: (string, string) -> Option<Liveboard>, toBrussels: int -> int): Fetcher
  {
    (station, direction) => GetSchedules(upstream(station, direction), station, direction, toBrussels)
  }

  /**
   * Every record a live run collects is well formed, carries one of the two
   * directions, names one of the queried stations on the side its direction
   * says, and has no `last_updated` before stamping.
   */
  lemma LiveRecordsWellFormed(stations: seq<string>, upstream: (string, string) -> Option<Liveboard>, toBrussels: int -> int)
    ensures forall x :: x in Combined(stations, LiveFetch(upstream, toBrussels)) ==>
      && WellFormed(x)
      && x.direction in Directions
      && x.lastUpdated.None?
      && exists i :: 0 <= i < |stations| && QueriedStation(x, stations[i])
  {
    var fetch := LiveFetch(upstream, toBrussels);
    var pieces := Map(Contribution(fetch), stations);
    forall x | x in Combined(stations, fetch)
      ensures WellFormed(x) && x.direction in Directions && x.lastUpdated.None?
      ensures exists i :: 0 <= i < |stations| && QueriedStation(x, stations[i])
    {
      FlattenMember(pieces, x);
      var i :| 0 <= i < |pieces| && x in pieces[i];
      assert x in StationRecords(stations[i], fetch);
      assert fetch(stations[i], "arrival") == GetSchedules(upstream(stations[i], "arrival"), stations[i], "arrival", toBrussels);
      assert fetch(stations[i], "departure") == GetSchedules(upstream(stations[i], "departure"), stations[i], "departure", toBrussels);
      if x in Fetched(fetch(stations[i], "arrival")) {
        LiveRecordWellFormed(stations[i], "arrival", upstream, toBrussels, x);
      } else {
        LiveRecordWellFormed(stations[i], "departure", upstream, toBrussels, x);
      }
    }
  }

  /** One record a live fetch returns is well formed and names the station and direction it was fetched for. */
  lemma LiveRecordWellFormed(station: string, direction: string, upstream: (string, string) -> Option<Liveboard>,
                             toBrussels: int -> int, x: Schedule)
    requires x in Fetched(GetSchedules(upstream(station, direction), station, direction, toBrussels))
    ensures WellFormed(x) && x.direction == direction && QueriedStation(x, station) && x.lastUpdated.None?
  {
    var response := upstream(station, direction);
    ParsedRecordsWellFormed(EntriesFor(response.value, direction), station, direction, toBrussels);
  }

  /**
   * The station list of the HTTP trigger: the `stations` query parameter if
   * non-empty, else the `TRAIN_STATIONS` setting, else the default, split on
   * commas. The split never yields an empty list.
   */
  function ResolveStations(query: Option<string>, env: Option<string>): (stations: seq<string>)
    ensures |stations| >= 1
    ensures forall i :: 0 <= i < |stations| ==> ',' !in stations[i]
    ensures query.Some? && query.value != "" ==> Join(stations, ',') == query.value
    ensures (query.None? || query == Some("")) && env.Some? ==> Join(stations, ',') == env.value
    ensures (query.None? || query == Some("")) && env.None? ==> stations == [DefaultStations]
  {
    var source := if query.Some? && query.value != "" then query.value else env.GetOr(DefaultStations);
    JoinSplit(source, ',');
    SplitJoin([DefaultStations], ',');
    Split(source, ',')
  }

  /**
   * The HTTP trigger `update_schedules`: the run of `UpdateSchedulesLogic` over
   * the resolved stations, answered with 200 when it completes and 500 when
   * it raises. The 400 answer for an empty station list is never given,
   * since the resolved list is never empty.
   */
  method UpdateSchedules(query: Option<string>, env: Option<string>, fetch: Fetcher, now: DateTime, db: Database)
    returns (status: int)
    modifies db
    ensures var all := Combined(ResolveStations(query, env), fetch);
      status == if all == [] || Accepted(Stamped(all, now)) then 200 else 500
    ensures db.present
    ensures var all := Combined(ResolveStations(query, env), fetch);
      all == [] ==> db.State() == Created(old(db.State()))
    ensures var all := Combined(ResolveStations(query, env), fetch);
      all != [] && Accepted(Stamped(all, now)) ==> db.rows == RowsOf(Stamped(all, now))
    ensures var all := Combined(ResolveStations(query, env), fetch);
      all != [] && !Accepted(Stamped(all, now)) ==> db.rows == []
  {
    var stations := ResolveStations(query, env);
    var result := UpdateSchedulesLogic(stations, fetch, now, db);
    status := if result.Success? then 200 else 500;
  }
}
