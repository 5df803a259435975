# Belgian train schedules: ingest-and-normalise pipeline in Dafny

This project models the core of a small service that polls the iRail
liveboard API for a list of Belgian railway stations, turns every liveboard
entry into a schedule record, and replaces the contents of the
`train_schedules` table with the records of the latest run.

The model has five modules, one file each:

- `wrappers.dfy` (`Wrappers`): `Option`, `Result` and `Outcome`. These stand for
  Python's `None`, for exceptions, and for calls that return nothing. The module
  also has generic sequence helpers with their lemmas:
  - `Present` keeps the values of the present results;
  - `Map` and `Flatten` are the usual mapping and concatenation.
- `text.dfy` (`Text`): the Python string behaviour the pipeline relies on.
  This is `int(s)` on a string, `s.split(sep)` and `s.split(".")[-1]`. The
  function `Join` is not used by the pipeline: it is the reference against
  which the split is proved.
- `irail_client.dfy` (`IRailClient`): the liveboard client. It covers the
  per-entry normaliser, the loop that walks the entries of one liveboard
  response (`ParseLiveboardData`, a method proved against the function
  `ParsedEntries`), and `get_schedules` as "parsed records, or `None` when
  fetching failed".
- `db_client.dfy` (`DbClient`): the write path of the database client.
  - The table is the state of the class `Database` (`present`, `rows`).
  - The effect of each operation is a function on `TableState`: `Created`,
    `Cleared` and `Inserted`. Each class method is proved to follow its function.
  - A failed transaction (`Failure`) leaves the state unchanged, because it is
    rolled back.
- `function_app.dfy` (`FunctionApp`): the aggregation run.
  - `CollectSchedules` runs the nested station and direction loops over per-index
    count arrays.
  - `StampAll` writes `last_updated` into each record.
  - `UpdateSchedulesLogic` creates the table, clears it, stamps the records and
    inserts them.
  - It also covers station-list resolution and the status code of the HTTP trigger.

Timestamps are Europe/Brussels wall-clock readings in seconds (`DateTime`).
The conversion from a Unix epoch to that zone is the parameter
`toBrussels: int -> int`. Python adds a `timedelta` to an aware `datetime` on
its wall-clock reading, so `actual_time` is exactly the scheduled reading plus
the delay. The liveboard fetch is the parameter `fetch: (station, direction)
-> Option<seq<Schedule>>`, and `LiveFetch` builds it from upstream responses
and `GetSchedules`. The clock reading `datetime.now` is the parameter `now`.

Behaviour of the code that the model reproduces:

- For an entry that is not canceled, the status is `"Delayed"` whenever the
  delay in **seconds** is positive (`utils/irail_client.py:130-134`); a
  canceled entry is `"Canceled"` whatever its delay. A delay of 1–59 s on an
  entry that is not canceled therefore gives `"Delayed"` with
  `delay_minutes = 0`.
- `clear_old_data` commits on its own (`function_app.py:53`) before
  `insert_schedules` runs. When the insert then fails, the table is left
  empty (`UpdateSchedulesLogic`, third `ensures`).
- An entry whose `time` is not an integer is kept with no scheduled or actual
  time. Both columns are NOT NULL (`utils/db_client.py:17-18`), so such a
  record makes the whole insert fail (`AbsentTimeRejected`,
  `AbsentScheduledTimeFailsRun`).
- The HTTP trigger never answers 400 "No stations provided": splitting a
  string always yields at least one piece.

## Model

| member | source | states |
|---|---|---|
| `Text.ParseInt` | utils/irail_client.py:91 | a string that `int()` accepts contains at least one digit; a string without one raises (`None`) |
| `Text.ParseIntCharacters` | utils/irail_client.py:91 | a string holding any other ASCII character than a digit, whitespace, `+`, `-` or `_` raises `ValueError` |
| `Text.ParseIntRoundTrip` | utils/irail_client.py:158 | every integer written in decimal is read back by `int()` as itself |
| `Text.ParseIntPadded` | utils/irail_client.py:158 | whitespace before and after the decimal form of an integer does not change the value `int()` reads |
| `Text.ParseIntExplicitPlus` | utils/irail_client.py:158 | a `+` in front of the digits of a natural number is accepted and does not change its value |
| `Text.Split` | function_app.py:88 | `s.split(sep)` gives at least one piece, and no piece contains `sep` |
| `Text.JoinSplit` | function_app.py:85-88 | joining the pieces of `s.split(sep)` with `sep` gives `s` back |
| `Text.SplitJoin` | function_app.py:85-88 | splitting a join of separator-free pieces (at least one) gives exactly those pieces |
| `Text.LastSegment` | utils/irail_client.py:101 | `vehicle_id.split(".")[-1]` is a dot-free suffix of the id, preceded by a dot unless it is the whole id |
| `IRailClient.ParseTimestamp` | utils/irail_client.py:146-171 | `None` exactly when `int()` rejects the text; otherwise the Brussels reading of the epoch second it holds |
| `IRailClient.ParseTimestampOfEpoch` | utils/irail_client.py:156-165 | a decimal epoch string becomes that epoch's Brussels reading |
| `IRailClient.DelayMinutes` | utils/irail_client.py:126-128 | never negative; for a positive delay the whole minutes (`m*60 <= delay < (m+1)*60`), else 0 |
| `IRailClient.ActualTime` | utils/irail_client.py:92-96 | absent exactly when the scheduled time is absent; shifted by the delay when it is positive; equal to the scheduled time otherwise |
| `IRailClient.StatusOf` | utils/irail_client.py:130-134 | `Canceled` iff canceled; `Delayed` iff not canceled and delay seconds > 0; `On Time` iff neither |
| `IRailClient.PlatformOf` | utils/irail_client.py:123 | `"?"` and a missing platform become `""`; any other value passes through |
| `IRailClient.NormaliseEntry` | utils/irail_client.py:88-141 | an entry yields a record iff its `delay` parses as an integer and its `vehicle` is present (even when `shortname` exists); the record is well formed, carries the direction and names the queried station on the side the direction selects, with no `last_updated` |
| `IRailClient.NormalisedNames` | utils/irail_client.py:98-123 | train id from `vehicle`; train name from `shortname`, else the last dot segment of the id; the upstream station on the side opposite the queried one; platform with `"?"` blanked; `canceled` iff the raw field is `"1"` |
| `IRailClient.NormalisedTimes` | utils/irail_client.py:89-134 | a missing `time` reads as epoch 0, an integer `time` as that epoch's Brussels reading, a non-integer `time` gives no times; actual = scheduled + delay when positive; whole minutes of a positive delay, else 0; `Delayed` iff not canceled and delay > 0 |
| `IRailClient.EntriesFor` | utils/irail_client.py:79-83 | an empty body, a missing `"<direction>s"` key or a missing `"<direction>"` key gives no entries; otherwise the entries at that path |
| `IRailClient.ParsedIsSubsequence` | utils/irail_client.py:85-141 | the output is an in-order subsequence of the entries: the k-th record normalises the entry at the k-th kept position, the positions increase, and every entry that normalises is kept |
| `IRailClient.ParsedAppend` | utils/irail_client.py:87-141 | parsing two entry lists one after the other gives the concatenation of their results |
| `IRailClient.DroppedEntryIsIsolated` | utils/irail_client.py:137-141 | an entry that fails to normalise is dropped without changing what the surrounding entries yield |
| `IRailClient.ParsedLength` | utils/irail_client.py:85-144 | at most one record per entry; exactly one per entry iff every entry normalises |
| `IRailClient.ParsedRecordsWellFormed` | utils/irail_client.py:87-137 | every parsed record is well formed, has the queried direction and station and no `last_updated` |
| `IRailClient.ParseLiveboardData` | utils/irail_client.py:66-144 | the loop returns exactly `ParsedEntries` of the entries found at the direction's path |
| `IRailClient.GetSchedules` | utils/irail_client.py:47-64 | `None` exactly when the request or decoding failed; otherwise the parsed records |
| `DbClient.RowRoundTrip` | utils/db_client.py:116-133 | the row bound for a record loses nothing: reading it back gives the record |
| `DbClient.ToRow` | utils/db_client.py:117-132 | the cancel flag is bound as 0 or 1, and as 1 exactly for a canceled record; the status label is non-empty and fits `current_status` (`NVARCHAR(10)`); an absent `last_updated` is bound as NULL |
| `DbClient.RecordFits` | utils/db_client.py:9-23 | a record's row fits the schema iff both times are present, every text is within its column width and the minutes are within `INT`; `canceled` and `current_status` never make the table refuse a row |
| `DbClient.RowsOf` | utils/db_client.py:116-133 | one row per record, in order: the i-th row is the row bound for the i-th record |
| `DbClient.FirstRejected` | utils/db_client.py:116-139 | `None` iff every row fits the schema; otherwise the first position whose row does not |
| `DbClient.Created` | utils/db_client.py:7-24 | afterwards the table exists; an existing table is untouched, a new one is empty |
| `DbClient.CreatedIdempotent` | utils/db_client.py:75-83 | creating the table twice is the same as once |
| `DbClient.Cleared` | utils/db_client.py:89-102 | succeeds iff the table exists, leaving it empty; otherwise raises for the missing table |
| `DbClient.ClearedIdempotent` | utils/db_client.py:89-98 | clearing twice is the same as once |
| `DbClient.Inserted` | utils/db_client.py:104-139 | succeeds iff the table exists and every row fits, or nothing is executed at all; then the rows are the old rows (or none, with `clear_old_data`) followed by the mapped rows in order; a failure names the missing table or a rejected position |
| `DbClient.InsertedReplacesAll` | utils/db_client.py:112-133 | with `clear_old_data` the result does not depend on the previous rows |
| `DbClient.ClearBeforeInsertRedundant` | utils/db_client.py:112-113 | a `clear_old_data()` call before `insert_schedules` does not change its outcome |
| `DbClient.AbsentTimeRejected` | utils/db_client.py:17-18 | a record without a scheduled or an actual time makes the insert fail |
| `DbClient.Database.constructor` | utils/db_client.py:61-62 | a client over a database in a given state |
| `DbClient.Database.CreateTablesIfNotExist` | utils/db_client.py:75-87 | the new state is `Created` of the old |
| `DbClient.Database.ClearOldData` | utils/db_client.py:89-102 | the new state and the outcome are those of `Cleared`; on failure the state is unchanged |
| `DbClient.Database.InsertSchedules` | utils/db_client.py:104-139 | the per-record insert loop commits `Inserted`'s state or, on the first rejected row, rolls back and raises its error |
| `FunctionApp.CountsAddUp` | function_app.py:36-70 | the sum of the arrival counts plus the sum of the departure counts is the number of records collected (`total_schedules`) |
| `FunctionApp.CombinedAppend` | function_app.py:28-42 | collecting over two station lists in turn is collecting over their concatenation |
| `FunctionApp.FailedStationContributesNothing` | function_app.py:34-46 | a station whose fetches fail or are empty adds nothing and leaves the other stations' records as they are |
| `FunctionApp.CollectStation` | function_app.py:29-46 | the inner loop for one station appends its arrivals then its departures and sets exactly that station's two counts to the sizes of its non-empty results |
| `FunctionApp.CollectSchedules` | function_app.py:24-46 | count arrays as long as `stations`; each count is the size of that pair's non-empty result, else 0; the combined list is the results in station order, arrival before departure |
| `FunctionApp.Stamped` | function_app.py:55-58 | every record gets the same `last_updated`; nothing else in a record changes |
| `FunctionApp.StampAll` | function_app.py:56-58 | the in-place stamping loop yields `Stamped` |
| `FunctionApp.RerunDiffersOnlyInStamp` | function_app.py:48-64 | two runs over the same records are accepted alike and store rows that differ only in `last_updated` |
| `FunctionApp.UpdateSchedulesLogic` | function_app.py:13-72 | the table exists afterwards; no records: no clear, no insert, prior rows kept; records that fit: the table holds exactly their stamped rows and the summary returns `stations`, both counts, the total and the stamped list; a rejected record: the run raises and the table is empty |
| `FunctionApp.AbsentScheduledTimeFailsRun` | function_app.py:48-64 | one collected record without a scheduled time makes the run's insert fail |
| `FunctionApp.LiveRecordsWellFormed` | function_app.py:28-42 | every record a live run collects is well formed, has direction `arrival` or `departure`, names a queried station on its direction's side and has no `last_updated` before stamping |
| `FunctionApp.LiveRecordWellFormed` | utils/irail_client.py:47-144 | each record one live fetch returns is well formed and carries the station and direction it was fetched for |
| `FunctionApp.ResolveStations` | function_app.py:85-88 | the `stations` query parameter if non-empty, else `TRAIN_STATIONS` whenever it is set (even to the empty string), else `Brussels-Central`, split on `,`; the pieces rejoin to that source, the list is never empty and no piece holds a comma |
| `FunctionApp.UpdateSchedules` | function_app.py:77-116 | 200 when the run completes, 500 when it raises; never 400; afterwards the table exists, keeps its prior rows when nothing was collected (a table created by the run is empty), exactly the stamped rows of the collected records when they all fit, and nothing when one is rejected |

## Left out

- `get_schedules`'s HTTP transport is not modelled: the session, the 30 s timeout, `raise_for_status` and JSON decoding. Only the result counts: the decoded body, or `None` on failure.
- The Unix-epoch to Europe/Brussels conversion is the parameter `toBrussels`, because the time-zone database cannot be stated here. `datetime.now` is the parameter `now`.
- Python's datetime range limits are not modelled. These are the `OverflowError`/`ValueError` from `fromtimestamp` or from adding a huge `timedelta`. The model treats every integer timestamp and delay as representable.
- The raw entries are records of optional strings. JSON values of other types (numbers, `null`, objects where strings are expected) are not modelled. A falsy liveboard body (JSON `null`, `[]`, `""`, `0`, `false`) gives no entries, as an empty object does (`utils/irail_client.py:79-81`). Any other body that is not an object, or a `"<direction>s"` section that is not an object, is not modelled: there the `.get` raises an `AttributeError` outside the per-entry `try`, which neither handler of `get_schedules` catches (`utils/irail_client.py:56-64`), so the whole run raises and the trigger answers 500 instead of counting that station and direction as 0.
- Text.ParseInt: only ASCII whitespace and ASCII digits are modelled. Python's `int()` also accepts non-ASCII Unicode whitespace and decimal digits. Its limit of 4300 digits for a decimal string (`sys.int_info.default_max_str_digits`) is not modelled either: there Python raises `ValueError`, so `Text.ParseIntRoundTrip` holds for every integer only in the model.
- The insert defaults for missing keys (`""`, `0`) at `utils/db_client.py:120-130` are not modelled. Every normalised record carries every key, so only the `last_updated` default is ever taken. That default binds an explicit NULL, so the column's `DEFAULT GETDATE()` does not apply.
- Database connection failures, pyodbc and the SQL text are not modelled. Neither is the `id` identity column, nor the DATETIME range of the timestamp columns. NVARCHAR widths are measured in characters, not UTF-16 code units.
- `get_latest_schedules` is left out. It only reads, and its query names the columns `station_name` and `status`, which the table does not have.
- The timer trigger, the JSON shaping of HTTP responses, logging, and the placeholder `update_schedules/__init__.py` are left out.
- FunctionApp.CollectSchedules: the fetcher is a function, so a station listed twice gets the same answer both times. The live API may answer differently.
- DbClient.RecordFits: a text longer than its column always makes the row rejected. SQL Server follows the SQL-92 store-assignment rule instead: when only trailing spaces go past an NVARCHAR width, it trims them and stores the shortened value without an error. The model does not capture this, so for such a record the model fails the run with an empty table where SQL Server would store the record with its text shortened.
- Overlapping runs are not modelled. Neither is what external readers can see while a run is in progress.
