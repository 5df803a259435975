/**
 * The liveboard client: how one raw liveboard entry becomes a schedule
 * record, how the entries of one liveboard response are walked, and what
 * `get_schedules` hands back.
 *
 * Timestamps are Europe/Brussels wall-clock readings in seconds. The
 * conversion of a Unix epoch into that zone (DST included) is not computed
 * here: it is the parameter `toBrussels`. Adding a `timedelta` to an aware
 * Python `datetime` moves its wall-clock reading, which is what `AddSeconds`
 * does.
 */
module IRailClient {
  import opened Wrappers
  import opened Text

  /** A Europe/Brussels wall-clock reading, in seconds. */
  datatype DateTime = DateTime(wallSeconds: int)

  /** `t + timedelta(seconds=seconds)` on an aware datetime. */
  function AddSeconds(t: DateTime, seconds: int): DateTime
  {
    DateTime(t.wallSeconds + seconds)
  }

  /** The three values `current_status` can take. */
  datatype Status = OnTime | Delayed | Canceled {
    /** The text stored for the status. */
    function Label(): string
    {
      match this
      case OnTime => "On Time"
      case Delayed => "Delayed"
      case Canceled => "Canceled"
    }
  }

  /**
   * One raw entry of a liveboard, reduced to the keys the normaliser reads;
   * `None` is an absent key. `shortname` stands for `vehicleinfo.shortname`:
   * an absent `vehicleinfo` and a `vehicleinfo` without `shortname` read the
   * same.
   */
  datatype RawEntry = RawEntry(
    time: Option<string>,
    delay: Option<string>,
    vehicle: Option<string>,
    shortname: Option<string>,
    platform: Option<string>,
    station: Option<string>,
    canceled: Option<string>)

  /**
   * A decoded liveboard body: top-level key (`"departures"`, `"arrivals"`, ...)
   * to the keys of that section, one of which holds the entries.
   */
  type Liveboard = map<string, map<string, seq<RawEntry>>>

  /** One schedule record, the dictionary the client builds per entry. */
  datatype Schedule = Schedule(
    trainId: string,
    trainName: string,
    direction: string,
    departureStation: string,
    arrivalStation: string,
    platform: string,
    scheduledTime: Option<DateTime>,
    actualTime: Option<DateTime>,
    delayMinutes: int,
    canceled: bool,
    currentStatus: Status,
    lastUpdated: Option<DateTime>)

  /**
   * `_parse_timestamp`: the Brussels reading of the epoch second the text
   * holds, and `None` exactly when `int()` rejects the text.
   */
  function ParseTimestamp(raw: string, toBrussels: int -> int): (r: Option<DateTime>)
    ensures r.None? <==> ParseInt(raw).None?
    ensures r.Some? ==> r.value.wallSeconds == toBrussels(ParseInt(raw).value)
  {
    match ParseInt(raw)
    case None => None
    case Some(epoch) => Some(DateTime(toBrussels(epoch)))
  }

  /** An epoch written in decimal is read back as that instant's Brussels reading. */
  lemma ParseTimestampOfEpoch(epoch: int, toBrussels: int -> int)
    ensures ParseTimestamp(IntToString(epoch), toBrussels) == Some(DateTime(toBrussels(epoch)))
  {
    ParseIntRoundTrip(epoch);
  }

  /** `delay // 60 if delay > 0 else 0`: whole minutes of a positive delay. */
  function DelayMinutes(delay: int): (minutes: int)
    ensures minutes >= 0
    ensures delay > 0 ==> minutes * 60 <= delay < (minutes + 1) * 60
    ensures delay <= 0 ==> minutes == 0
  {
    if delay > 0 then delay / 60 else 0
  }

  /** The actual time: the scheduled time moved by a positive delay, else unchanged. */
  function ActualTime(scheduled: Option<DateTime>, delay: int): (actual: Option<DateTime>)
    ensures actual.None? <==> scheduled.None?
    ensures scheduled.Some? && delay > 0 ==> actual.value.wallSeconds - scheduled.value.wallSeconds == delay
    ensures delay <= 0 ==> actual == scheduled
  {
    if scheduled.Some? && delay > 0 then Some(AddSeconds(scheduled.value, delay)) else scheduled
  }

  /** `current_status`: cancellation wins, then any positive delay in seconds. */
  function StatusOf(canceled: bool, delay: int): (s: Status)
    ensures s == Canceled <==> canceled
    ensures s == Delayed <==> !canceled && delay > 0
    ensures s == OnTime <==> !canceled && delay <= 0
  {
    if canceled then Canceled else if delay > 0 then Delayed else OnTime
  }

  /** The platform column: `"?"` and an absent platform read as `""`. */
  function PlatformOf(platform: Option<string>): (r: string)
    ensures platform.None? || platform == Some("?") ==> r == ""
    ensures platform.Some? && platform.value != "?" ==> r == platform.value
  {
    var p := platform.GetOr("");
    if p == "?" then "" else p
  }

  /** What `direction` decides: the queried station is the departure station of a departure and the arrival station of anything else. */
  predicate QueriedStation(x: Schedule, station: string)
  {
    if x.direction == "departure" then x.departureStation == station else x.arrivalStation == station
  }

  /**
   * The consistency every normalised record has: the status follows the
   * cancellation flag and the shift between the two times, and the minutes
   * are the whole minutes of that shift.
   */
  predicate WellFormed(x: Schedule)
  {
    && x.delayMinutes >= 0
    && (x.currentStatus == Canceled <==> x.canceled)
    && (x.scheduledTime.None? <==> x.actualTime.None?)
    && (x.delayMinutes > 0 && !x.canceled ==> x.currentStatus == Delayed)
    && (x.scheduledTime.Some? ==>
          var shift := x.actualTime.value.wallSeconds - x.scheduledTime.value.wallSeconds;
          && shift >= 0
          && shift / 60 == x.delayMinutes
          && (!x.canceled ==> (x.currentStatus == Delayed <==> shift > 0)))
  }

  /**
   * The body of the per-entry `try` block. `None` is the exception that
   * makes the loop skip the entry: a `delay` that is not an integer, or a
   * missing `vehicle` (its `split` is evaluated even when `shortname` exists).
   */
  function NormaliseEntry(e: RawEntry, station: string, direction: string, toBrussels: int -> int): (r: Option<Schedule>)
    ensures r.Some? <==> ParseInt(e.delay.GetOr("0")).Some? && e.vehicle.Some?
    ensures r.Some? ==> WellFormed(r.value) && QueriedStation(r.value, station)
    ensures r.Some? ==> r.value.direction == direction && r.value.lastUpdated.None?
  {
    var scheduled := ParseTimestamp(e.time.GetOr("0"), toBrussels);
    match ParseInt(e.delay.GetOr("0"))
    case None => None
    case Some(delay) =>
      match e.vehicle
      case None => None
      case Some(vehicleId) =>
        var canceled := e.canceled.GetOr("0") == "1";
        var upstreamStation := e.station.GetOr("");
        Some(Schedule(
          trainId := vehicleId,
          trainName := e.shortname.GetOr(LastSegment(vehicleId)),
          direction := direction,
          departureStation := if direction == "departure" then station else upstreamStation,
          arrivalStation := if direction == "departure" then upstreamStation else station,
          platform := PlatformOf(e.platform),
          scheduledTime := scheduled,
          actualTime := ActualTime(scheduled, delay),
          delayMinutes := DelayMinutes(delay),
          canceled := canceled,
          currentStatus := StatusOf(canceled, delay),
          lastUpdated := None))
  }

  /** The identifying fields of a normalised record, in terms of the raw entry. */
  lemma NormalisedNames(e: RawEntry, station: string, direction: string, toBrussels: int -> int)
    requires NormaliseEntry(e, station, direction, toBrussels).Some?
    ensures
      var x := NormaliseEntry(e, station, direction, toBrussels).value;
      && x.trainId == e.vehicle.value
      && (e.shortname.Some? ==> x.trainName == e.shortname.value)
      && (e.shortname.None? ==>
            && '.' !in x.trainName
            && |x.trainName| <= |x.trainId|
            && x.trainName == x.trainId[|x.trainId| - |x.trainName|..]
            && (|x.trainName| < |x.trainId| ==> x.trainId[|x.trainId| - |x.trainName| - 1] == '.'))
      && (if direction == "departure" then x.arrivalStation else x.departureStation) == e.station.GetOr("")
      && (e.platform.None? || e.platform == Some("?") ==> x.platform == "")
      && (e.platform.Some? && e.platform.value != "?" ==> x.platform == e.platform.value)
      && (x.canceled <==> e.canceled == Some("1"))
  {
  }

  /** `int("0")` is 0: a missing `time` reads as the epoch. */
  lemma ParseZero()
    ensures ParseInt("0") == Some(0)
  {
    ParseIntRoundTrip(0);
    assert IntToString(0) == "0";
  }

  /** The time fields and the status of a normalised record, in terms of the raw entry. */
  lemma NormalisedTimes(e: RawEntry, station: string, direction: string, toBrussels: int -> int)
    requires NormaliseEntry(e, station, direction, toBrussels).Some?
    ensures
      var x := NormaliseEntry(e, station, direction, toBrussels).value;
      var delay := ParseInt(e.delay.GetOr("0")).value;
      && (e.time.None? ==> x.scheduledTime == Some(DateTime(toBrussels(0))))
      && (e.time.Some? && ParseInt(e.time.value).Some? ==> x.scheduledTime == Some(DateTime(toBrussels(ParseInt(e.time.value).value))))
      && (e.time.Some? && ParseInt(e.time.value).None? ==> x.scheduledTime.None? && x.actualTime.None?)
      && (x.scheduledTime.Some? ==> x.actualTime.value.wallSeconds == x.scheduledTime.value.wallSeconds + (if delay > 0 then delay else 0))
      && (delay > 0 ==> x.delayMinutes * 60 <= delay < (x.delayMinutes + 1) * 60)
      && (delay <= 0 ==> x.delayMinutes == 0)
      && (x.currentStatus == Delayed <==> !x.canceled && delay > 0)
  {
    if e.time.None? {
      ParseZero();
    }
  }

  /**
   * The entries `liveboard_data.get(direction + "s", {}).get(direction, [])`
   * finds; a falsy (empty) body gives none.
   */
  function EntriesFor(data: Liveboard, direction: string): (entries: seq<RawEntry>)
    ensures |data| == 0 || direction + "s" !in data ==> entries == []
    ensures direction + "s" in data && direction !in data[direction + "s"] ==> entries == []
    ensures direction + "s" in data && direction in data[direction + "s"] ==> entries == data[direction + "s"][direction]
  {
    if |data| == 0 then []
    else
      var section := if direction + "s" in data then data[direction + "s"] else map[];
      if direction in section then section[direction] else []
  }

  /** `NormaliseEntry` for one station, direction and time zone, as a function of the entry. */
  function Normaliser(station: string, direction: string, toBrussels: int -> int): RawEntry -> Option<Schedule>
  {
    e => NormaliseEntry(e, station, direction, toBrussels)
  }

  /** The normaliser's verdict on each entry, in order. */
  function Normalised(entries: seq<RawEntry>, station: string, direction: string, toBrussels: int -> int)
    : seq<Option<Schedule>>
  {
    Map(Normaliser(station, direction, toBrussels), entries)
  }

  /** The records the parse loop collects from `entries`: one per entry that normalises, in order. */
  function ParsedEntries(entries: seq<RawEntry>, station: string, direction: string, toBrussels: int -> int): seq<Schedule>
  {
    Present(Normalised(entries, station, direction, toBrussels))
  }

  /** The positions of the entries that normalise, in increasing order. */
  function KeptPositions(entries: seq<RawEntry>, station: string, direction: string, toBrussels: int -> int): seq<nat>
  {
    PresentPositions(Normalised(entries, station, direction, toBrussels))
  }

  /**
   * The output is an in-order subsequence of the normalised entries: the
   * k-th record is the normalisation of the entry at the k-th kept position,
   * the positions increase, and every entry that normalises is kept.
   */
  lemma ParsedIsSubsequence(entries: seq<RawEntry>, station: string, direction: string, toBrussels: int -> int)
    ensures
      var out := ParsedEntries(entries, station, direction, toBrussels);
      var pos := KeptPositions(entries, station, direction, toBrussels);
      && |pos| == |out| <= |entries|
      && (forall k :: 0 <= k < |pos| ==> pos[k] < |entries| && NormaliseEntry(entries[pos[k]], station, direction, toBrussels) == Some(out[k]))
      && (forall k, l :: 0 <= k < l < |pos| ==> pos[k] < pos[l])
      && (forall i :: 0 <= i < |entries| && NormaliseEntry(entries[i], station, direction, toBrussels).Some? ==> i in pos)
  {
    var results := Normalised(entries, station, direction, toBrussels);
    PresentIsSubsequence(results);
    PresentLength(results);
    var pos := KeptPositions(entries, station, direction, toBrussels);
    forall i | 0 <= i < |entries| && NormaliseEntry(entries[i], station, direction, toBrussels).Some?
      ensures i in pos
    {
      assert results[i].Some?;
    }
  }

  /** Parsing distributes over concatenation: each entry's fate is its own. */
  lemma ParsedAppend(a: seq<RawEntry>, b: seq<RawEntry>, station: string, direction: string, toBrussels: int -> int)
    ensures ParsedEntries(a + b, station, direction, toBrussels)
         == ParsedEntries(a, station, direction, toBrussels) + ParsedEntries(b, station, direction, toBrussels)
  {
    var f := Normaliser(station, direction, toBrussels);
    MapAppend(f, a, b);
    PresentAppend(Map(f, a), Map(f, b));
  }

  /** An entry that fails to normalise is dropped without affecting the entries around it. */
  lemma DroppedEntryIsIsolated(a: seq<RawEntry>, bad: RawEntry, b: seq<RawEntry>, station: string, direction: string, toBrussels: int -> int)
    requires NormaliseEntry(bad, station, direction, toBrussels).None?
    ensures ParsedEntries(a + [bad] + b, station, direction, toBrussels) == ParsedEntries(a + b, station, direction, toBrussels)
  {
    var f := Normaliser(station, direction, toBrussels);
    MapAppend(f, a + [bad], b);
    MapAppend(f, a, [bad]);
    MapAppend(f, a, b);
    assert Map(f, [bad]) == [None];
    PresentSkipsNone(Map(f, a), Map(f, b));
  }

  /** Every entry of `entries` normalises. */
  predicate AllNormalise(entries: seq<RawEntry>, station: string, direction: string, toBrussels: int -> int)
  {
    forall i :: 0 <= i < |entries| ==> NormaliseEntry(entries[i], station, direction, toBrussels).Some?
  }

  /** No entry is lost except those that fail: the output is as long as the input exactly when every entry normalises. */
  lemma ParsedLength(entries: seq<RawEntry>, station: string, direction: string, toBrussels: int -> int)
    ensures |ParsedEntries(entries, station, direction, toBrussels)| <= |entries|
    ensures |ParsedEntries(entries, station, direction, toBrussels)| == |entries| <==> AllNormalise(entries, station, direction, toBrussels)
  {
    var results := Normalised(entries, station, direction, toBrussels);
    PresentLength(results);
    assert AllNormalise(entries, station, direction, toBrussels) <==> forall i :: 0 <= i < |results| ==> results[i].Some?;
  }

  /** Every parsed record is well formed, carries the queried direction and station, and has no `last_updated` yet. */
  lemma ParsedRecordsWellFormed(entries: seq<RawEntry>, station: string, direction: string, toBrussels: int -> int)
    ensures forall x :: x in ParsedEntries(entries, station, direction, toBrussels) ==>
      WellFormed(x) && x.direction == direction && QueriedStation(x, station) && x.lastUpdated.None?
  {
    var results := Normalised(entries, station, direction, toBrussels);
    var out, pos := Present(results), PresentPositions(results);
    PresentIsSubsequence(results);
    forall x | x in out
      ensures WellFormed(x) && x.direction == direction && QueriedStation(x, station) && x.lastUpdated.None?
    {
      var k :| 0 <= k < |out| && out[k] == x;
      assert NormaliseEntry(entries[pos[k]], station, direction, toBrussels) == Some(x);
    }
  }

  /**
   * `__parse_liveboard_data`: walk the entries found for `direction`, keep
   * the record of each entry that normalises and skip the others.
   */
  method ParseLiveboardData(data: Liveboard, station: string, direction: string, toBrussels: int -> int)
    returns (parsed: seq<Schedule>)
    ensures parsed == ParsedEntries(EntriesFor(data, direction), station, direction, toBrussels)
  {
    if |data| == 0 {
      return [];
    }
    var section := if direction + "s" in data then data[direction + "s"] else map[];
    var schedules := if direction in section then section[direction] else [];
    var normalise := Normaliser(station, direction, toBrussels);
    parsed := [];
    for i := 0 to |schedules|
      invariant parsed == Present(Map(normalise, schedules[..i]))
    {
      PresentMapStep(normalise, schedules, i);
      var entry := normalise(schedules[i]);
      if entry.Some? {
        parsed := parsed + [entry.value];
      }
    }
    assert schedules[..|schedules|] == schedules;
  }

  /**
   * `get_schedules`: `response` is the decoded liveboard body, or `None`
   * when the request or the decoding failed; failure is passed on as `None`,
   * success as the parsed records.
   */
  function GetSchedules(response: Option<Liveboard>, station: string, direction: string, toBrussels: int -> int)
    : (r: Option<seq<Schedule>>)
    ensures r.None? <==> response.None?
    ensures r.Some? ==> r.value == ParsedEntries(EntriesFor(response.value, direction), station, direction, toBrussels)
  {
    match response
    case None => None
    case Some(data) => Some(ParsedEntries(EntriesFor(data, direction), station, direction, toBrussels))
  }
}
