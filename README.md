# we-count data pipeline, modelled in Dafny

This project models the Python scripts behind the "Berlin zählt Mobilität"
(we-count) traffic-counting website.

The backend scripts (`src/we_count/backend/`) collect counts from five sources:
- the Telraam camera API;
- the Eco-Counter bicycle stations;
- the TEU traffic detectors;
- the toll-road (Maut) sections;
- the Berlin traffic volume map (Verkehrsmengenkarte).

They keep one GeoJSON file of counting locations per source, with the
OpenStreetMap edge each location lies on. They store the counts by segment
and date, then export them month by month. `update.py` turns the GeoJSON
files into line-delimited JSON for Kibana. The dashboard (`app.py`) clamps
the selected date range, builds its SQL query from the filter toggles, and
filters the map. The first generation of the scripts (`src/*.py`) is
modelled beside the backend, in modules named `Legacy*`.

There is one Dafny module per source file. A few shared modules hold the
Python semantics the scripts rely on:
- `PyDict`: an insertion-ordered dict;
- `Sorting`: a stable `sorted`, and `sorted(set(...))`;
- `Strings`: lexicographic comparison, `str(int)`, slicing;
- `Seqs`: list comprehensions;
- `Json`: JSON values.

Code that changes state step by step is written as methods with loops and
invariants, proved against functions that state the result. Examples are
the backup's count list, the paging loops, the export loops, and the
connection pool, which is a class. The calls the scripts make to the
outside world are parameters of the model:
- HTTP and WFS servers, and the Telraam, FROST and ArcGIS APIs;
- the database;
- the clock, and time-zone conversion;
- the file system.

## Model

Each row names a member whose contract states the property, the source lines it models, and what the contract states.

| member | source | states |
|---|---|---|
| App.ClampedWithin | src/we_count/frontend/app.py:286-305 | with a street range whose first date is not after its last, both returned dates lie within that range |
| App.ClampedUnchanged | src/we_count/frontend/app.py:286-305 | no message is raised exactly when both selected dates already lie in the range; then the dates are returned unchanged with message `none` |
| App.ClampedDisjoint | src/we_count/frontend/app.py:286-290 | `Dates out of range` exactly when the selection starts after the last date or ends before the first; then both dates are reset to the range |
| App.ClampedEndLate | src/we_count/frontend/app.py:291-294 | `End date out of range` exactly when the start is in range and the end is after the last date; only the end is reset |
| App.ClampedStartEarly | src/we_count/frontend/app.py:295-298 | `Start date out of range` exactly when the start is before the first date, the start is not after the last one and the end is in range; only the start is reset |
| App.ClampedNarrowed | src/we_count/frontend/app.py:299-303 | `Narrowed down range` exactly when the ranges overlap and the selection begins before and ends after the street's data; both dates are reset |
| App.FirstClause | src/we_count/frontend/app.py:654-655 | the first condition appended to the query is introduced by `WHERE` |
| App.NextClause | src/we_count/frontend/app.py:656-663 | every further condition appended is introduced by `AND` |
| App.FilterQuery | src/we_count/frontend/app.py:647-676 | the `+=` chain builds the query head followed by the toggled conditions as one WHERE/AND clause; the parameters are `[two_weeks_ago]` exactly when the active filter is on |
| App.AndHardware | src/we_count/frontend/app.py:663-666 | after a first condition, the hardware filter appends its conditions and the query is the WHERE/AND clause of all of them |
| App.SqlPlaceholders | src/we_count/frontend/app.py:658-675 | each condition's SQL text holds one `?` per value it binds |
| App.QueryCount | src/we_count/frontend/app.py:647-676 | the whole query holds one `?` for each value its conditions bind |
| App.ConditionsBind | src/we_count/frontend/app.py:658-675 | only the active-camera condition binds a value |
| App.QueryPlaceholders | src/we_count/frontend/app.py:647-681 | the number of `?` in the query equals the number of parameters passed to `conn.execute`: one with the active filter, none without |
| App.ConditionsFollowToggles | src/we_count/frontend/app.py:653-675 | the uptime, active and hardware conditions are each in the query exactly when their toggle selects them (hardware 1 or 2 only for the single selections `[1]` and `[2]`) |
| App.SegmentedActiveIds | src/we_count/frontend/app.py:222-233 | dropping the rows without a segment does not change the set of active segment ids |
| App.StagesFilter | src/we_count/frontend/app.py:229-239 | the active filter followed by the hardware filter is one filter by both conditions |
| App.KeptIsBoth | src/we_count/frontend/app.py:221-239 | a row is kept exactly when it has a segment and its normalised row passes both filters |
| App.MapDataKept | src/we_count/frontend/app.py:218-243 | the map rows are the input rows kept by the filters, each normalised and coloured, in input order |
| App.MapDataRows | src/we_count/frontend/app.py:218-243 | a row is shown exactly when some input row is kept; every shown row has a segment, a hardware version other than 0, a colour, the selected hardware, and (with the active filter) an active segment |
| App.HardwareNormalised | src/we_count/frontend/app.py:508-513 | the hardware selection becomes `[1, 2]` exactly for `[]`, `[1, 2]` and `[2, 1]`, and is otherwise kept |
| App.StreetSwitched | src/we_count/frontend/app.py:508-511 | selecting only hardware 1 on a version-2 street switches to the Alte Jakobstraße segment, only hardware 2 on a version-1 street to the Dresdener Straße segment; otherwise the street stays |
| App.SelectHardwareIdempotent | src/we_count/frontend/app.py:508-513 | when no street switch happens, applying the selection to its own result changes nothing |
| App.OfferedStreetKept | src/we_count/frontend/app.py:518-527 | a street among the options is kept; otherwise the default street of the current hardware version is chosen, else the first option; no street results only when the options are empty and the version is neither 1 nor 2 |
| App.FirstSeparator | src/we_count/frontend/app.py:642 | in `name (rest)` with no `" ("` in the name, the first separator is the one after the name |
| App.StreetIdRoundTrip | src/we_count/frontend/app.py:640-642 | from `name (segment)` with a ten-digit segment and no `" ("` in the name, `[-11:-1]` gives back the segment and `split(' (')[0]` the name |
| App.IdStreetRoundTrip | src/we_count/backend/bzm_get_data.py:81 | the street ids the location table is written with are taken apart by the dashboard into the same name and ten-digit segment |
| App.ComparedPeriodsTwo | src/we_count/frontend/app.py:1116-1123 | exactly two periods are always compared; the selection is kept exactly when it has two values, otherwise the years 2025 and 2026 are compared and the warning colour is used |
| App.GroupByDefined | src/we_count/frontend/app.py:1155-1166 | a grouping column is chosen exactly for the four period types (the month type compared after translation); a year always has one |
| App.GroupByUntranslated | src/we_count/frontend/app.py:1155-1166 | without translation a year groups by month, a month by day, a week by weekday and a day by hour, each with its label |
| Backup.SortedIncreasing | src/we_count/backend/backup_data.py:95-99 | a count list is sorted without repeated dates exactly when every date is later than all dates before it |
| Backup.StoreSorted | src/we_count/backend/backup_data.py:95-99 | storing one count by insert-or-replace keeps the list sorted by date without repeated dates |
| Backup.StoreContents | src/we_count/backend/backup_data.py:95-99 | after storing `tc` the list holds `tc` and every old count of another date, and nothing else |
| Backup.Bisect | src/we_count/backend/backup_data.py:95 | `bisect.bisect` returns the right insertion point: every count before it is not later than the date, every count from it on is later |
| Backup.InsertOrReplace | src/we_count/backend/backup_data.py:95-99 | the segment's list becomes the stored list (insert at the bisect point when the previous date differs, else replace the previous count) and stays sorted |
| Backup.InsertAt | src/we_count/backend/backup_data.py:96-97 | when the count before the bisect point has another date, inserting there gives the stored list |
| Backup.ReplaceAt | src/we_count/backend/backup_data.py:98-99 | when the count before the bisect point has the date, replacing it gives the stored list |
| Backup.AcceptedMembers | src/we_count/backend/backup_data.py:92-93 | exactly the report entries with positive uptime are stored |
| Backup.StoreAllAppend | src/we_count/backend/backup_data.py:92-99 | storing two lists of entries in turn is storing their concatenation |
| Backup.StoreAllSorted | src/we_count/backend/backup_data.py:92-99 | however many entries are stored, the list stays sorted without repeated dates |
| Backup.StoreAllLastWins | src/we_count/backend/backup_data.py:95-99 | the last entry of a date is the count stored for that date |
| Backup.StoreAllKeeps | src/we_count/backend/backup_data.py:95-99 | a stored count of a date no entry has is kept |
| Backup.StoreAllSound | src/we_count/backend/backup_data.py:95-99 | every count afterwards is an old one or built from one of the entries |
| Backup.StoreEntry | src/we_count/backend/backup_data.py:93-99 | one report entry is stored exactly when its uptime is positive, keeping the list sorted |
| Backup.StoreEntries | src/we_count/backend/backup_data.py:92-99 | the report loop stores exactly the accepted entries, in order |
| Backup.WindowLength | src/we_count/backend/backup_data.py:70-86 | the request window is positive: 20 days with the advanced API, 90 days otherwise |
| Backup.RequestedWindows | src/we_count/backend/backup_data.py:68-100 | the windows requested start at `first` and advance by the window length while before `last`; none when `first >= last`; only the last one can be refused, and a window that is not refused and is last reaches `last` |
| Backup.RequestedStarts | src/we_count/backend/backup_data.py:68-100 | the k-th window requested starts `k` window lengths after `first`, and before `last` |
| Backup.RequestedAnswered | src/we_count/backend/backup_data.py:68-100 | every window requested except the last was answered (not refused) |
| Backup.RequestedReaches | src/we_count/backend/backup_data.py:68-100 | some window is requested exactly when `first < last`; a last window that was answered reaches `last` |
| Backup.Actives | src/we_count/backend/backup_data.py:60 | the active list holds exactly the first-data times of the cameras that have one |
| Backup.Min | src/we_count/backend/backup_data.py:64 | `min(active)` is an element not above any other |
| Backup.WindowStep | src/we_count/backend/backup_data.py:68-100 | one window is requested; a 403 with the advanced API ends the loop with nothing stored, otherwise its accepted entries are stored and the next window follows |
| Backup.BackupWindows | src/we_count/backend/backup_data.py:68-100 | the window loop requests exactly the planned windows and stores the accepted entries of every answered window, keeping the list sorted |
| Backup.WindowAdvance | src/we_count/backend/backup_data.py:68-100 | one more pass of the window loop: a refused window is the last one requested and adds no entries; an answered one adds its entries and the loop goes on from the next window |
| Backup.UpdateSegment | src/we_count/backend/backup_data.py:59-101 | a segment is processed exactly when some camera has first data; otherwise it is unchanged; a processed segment is fetched from its last backup (else the earliest camera) to its last data and stamped with today |
| Backup.UpdateDb | src/we_count/backend/backup_data.py:55-105 | every segment is updated as one segment alone; the result is the latest last-data time among the processed segments, `None` when none has one |
| BackupExport.AllModeNamesLayout | src/we_count/backend/backup_data.py:116-119 | the mode columns are three per mode, in mode order, each triple being that mode's `_lft`, `_rgt`, `_total` |
| BackupExport.AllModeNamesFour | src/we_count/backend/backup_data.py:116-119 | with four modes, the mode columns are the three names of each mode, the modes in order |
| BackupExport.NamesLayout | src/we_count/backend/backup_data.py:114-120 | the header is `segment_id`, `date_local`, `uptime`, then `<mode>_lft/_rgt/_total` per mode (with `pedestrian` shortened to `ped`), then `v85` and the eight speed columns: `3 * modes + 12` names |
| BackupExport.SpeedNamesSpelled | src/we_count/backend/backup_data.py:120 | the speed columns are `car_speed0` to `car_speed70` in steps of ten |
| BackupExport.ColumnNames | src/we_count/backend/backup_data.py:114-120 | the loop building the header yields the column layout above |
| BackupExport.Total | src/we_count/backend/backup_data.py:128-130 | a `_total` is empty only when both sides are; otherwise it is the sum with a missing side counted as 0 |
| BackupExport.AllModeCellsLayout | src/we_count/backend/backup_data.py:125-130 | the mode values are three per mode in mode order: left, right, total |
| BackupExport.ValuesMatchNames | src/we_count/backend/backup_data.py:123-134 | a row of values has as many cells as the header has names, with each mode's three values under that mode's three columns and `v85` under `v85` |
| BackupExport.ColumnValues | src/we_count/backend/backup_data.py:123-134 | the loop building a row yields segment id, local time, uptime, the mode triples, `v85` and the histogram cells |
| BackupExport.CountRowsSelected | src/we_count/backend/backup_data.py:162-164 | a segment writes no row exactly when none of its counts falls in the month |
| BackupExport.HeaderOnce | src/we_count/backend/backup_data.py:156-170 | the file is removed exactly when no row matches; otherwise its first line is the header, the rest are the matching rows, and the header appears nowhere else |
| BackupExport.RowsEmpty | src/we_count/backend/backup_data.py:160-170 | no row is written exactly when no count of any segment is selected |
| BackupExport.CsvCounts | src/we_count/backend/backup_data.py:162-168 | the count loop of one segment writes the header before its first row only, and `need_header` stays set exactly while nothing was written |
| BackupExport.WriteCsv | src/we_count/backend/backup_data.py:156-170 | the CSV file holds the header and the selected rows, or is removed when none is selected |
| BackupExport.XlCounts | src/we_count/backend/backup_data.py:142-151 | the workbook loop keeps the row counter one past the rows written, with the header in row 1 |
| BackupExport.WriteXl | src/we_count/backend/backup_data.py:137-153 | the workbook is saved with the same rows as the CSV file, and not saved when there are none |
| BackupExport.FirstMonth | src/we_count/backend/backup_data.py:191 | the first exported month is January of the start year when set, else the month before the newest data, always a valid month |
| BackupExport.MonthFiles | src/we_count/backend/backup_data.py:190-197 | the month loop names one file per month from the first month through the current one |
| BackupExport.MonthFilesNamed | src/we_count/backend/backup_data.py:190-197 | the k-th file is that of the k-th month after the first; the last is the current month's; without a start year exactly the previous and the current month are written |
| BackupExport.CsvMonths | src/we_count/backend/backup_data.py:187-197 | the `--csv` step raises on `newest_data.year` exactly when the update found no newest data, even with `csv_start_year` set; otherwise it names the month files from the first month through the newest data's month |
| BackupExport.KeepSegments | src/we_count/backend/backup_data.py:179-181 | the selection keeps exactly the segments whose id is in the `--segments` list |
| BackupExport.KeepSegmentsValid | src/we_count/backend/backup_data.py:181 | the selected dictionary keeps distinct keys |
| BzmGetData.Shift | src/we_count/backend/common.py:207-215 | `add_month` on a (year, month) pair gives a month in 1..12 whose absolute month index is the old one plus the offset |
| BzmGetData.DistZero | src/we_count/backend/bzm_get_data.py:97 | two normalised months are equal exactly when no month lies between them, so the `!=` loop test is a distance test |
| BzmGetData.CsvFiles | src/we_count/backend/bzm_get_data.py:95-105 | one file per month from the first month up to, not including, the stop month, the k-th being the path of the k-th month |
| BzmGetData.ReadCsv | src/we_count/backend/bzm_get_data.py:94-105 | the file loop collects exactly those files |
| BzmGetData.CsvFilesNamed | src/we_count/backend/bzm_get_data.py:98-103 | the k-th file is `bzm_telraam_<year>_<two-digit month>.csv.gz` of the k-th month, read from the CSV directory when present and from the web otherwise; the month is before the end |
| BzmGetData.CsvFilesSplit | src/we_count/backend/bzm_get_data.py:95-105 | the files of two adjacent periods together are the files of the joined period |
| BzmGetData.SaveFormat | src/we_count/backend/bzm_get_data.py:47-52 | a table is written as Excel exactly for `.xlsx`, as Parquet exactly for `.parquet`, as CSV otherwise |
| BzmGetData.GetOptions | src/we_count/backend/bzm_get_data.py:180-205 | CSV input is used when asked or when no database is given; the defaults are the Parquet output names, 4 months back and an aggregate of 3 |
| BzmGetData.AlignedStart | src/we_count/backend/bzm_get_data.py:212 | the aligned month is in the same year, at most `aggregate - 1` months earlier, and starts an aggregate block of the year |
| BzmGetData.PlanStep | src/we_count/backend/bzm_get_data.py:215-231 | one turn of the chunk loop writes this chunk unless it is skipped, then continues `aggregate` months later |
| BzmGetData.PlanDone | src/we_count/backend/bzm_get_data.py:215 | nothing is written once the end month is reached |
| BzmGetData.ChunkBounds | src/we_count/backend/bzm_get_data.py:216-223 | the head of a turn computes the skip decision, the output file name and a stop month after the current one, capped at the end month when the chunk is written |
| BzmGetData.PlanTurn | src/we_count/backend/bzm_get_data.py:215-231 | after each turn the tables saved so far are a prefix of the planned tables |
| BzmGetData.WriteChunks | src/we_count/backend/bzm_get_data.py:215-231 | the chunk loop saves exactly the planned tables; without CSV input it fails at the first chunk to read, having saved none |
| BzmGetData.Run | src/we_count/backend/bzm_get_data.py:208-231 | `main` saves the location table, then the planned chunks from the aligned first month to the month after now; an aggregate of 0 fails before anything is saved |
| BzmGetData.StartsShape | src/we_count/backend/bzm_get_data.py:211-231 | the chunk starts begin at the first month, are `aggregate` months apart, all lie before the end, and the last lies at most `aggregate` months before it |
| BzmGetData.ChunkContents | src/we_count/backend/bzm_get_data.py:217-226 | a chunk's file is labelled with its first and last month, `aggregate - 1` apart, and reads the files of `aggregate` months, fewer when the end month comes first |
| BzmGetData.LastChunksWritten | src/we_count/backend/bzm_get_data.py:218 | the last two chunks are always written, whether or not their files exist |
| BzmGetData.SkipRule | src/we_count/backend/bzm_get_data.py:218-220 | a chunk whose file is missing, or any chunk of a forced run, is written |
| BzmGetData.ForcedReadsAll | src/we_count/backend/bzm_get_data.py:215-231 | a forced run reads every monthly file of the period exactly once, in order |
| BzmGetData.DefaultsWriteParquet | src/we_count/backend/bzm_get_data.py:190-193 | with the default output names every table is written as Parquet |
| BzmGetData.Hardware | src/we_count/backend/bzm_get_data.py:74-77 | the hardware version is that of the first camera, 0 when the camera list is empty |
| Common.MonthShift | src/we_count/backend/common.py:207-215 | the shifted month is normalised to 1..12 and its absolute month index is the old one plus the offset |
| Common.MonthIndexInjective | src/we_count/backend/common.py:207-215 | a month index names exactly one normalised (year, month) pair, so `add_month`'s result is unique |
| Common.MonthShiftZero | src/we_count/backend/common.py:207-215 | adding no months leaves a valid month unchanged |
| Common.MonthShiftCompose | src/we_count/backend/common.py:207-215 | shifting by `a` and then by `b` is shifting by `a + b` |
| Common.MonthShiftInverse | src/we_count/backend/common.py:207-215 | shifting forward and back by the same amount returns to the original month |
| Common.TupleLeIsIndexOrder | src/we_count/backend/common.py:207-215 | on normalised months the tuple comparison used by the scripts is the order of month indices |
| Common.NextMonth | src/we_count/backend/common.py:207-215 | the month after a valid month is valid and one index later |
| Common.NextIsShift | src/we_count/backend/common.py:207-215 | `add_month(1, …)` is the next month |
| Common.WalkAt | src/we_count/backend/bzm_get_data.py:95-105 | a month-by-month walk has one entry per month, the k-th named after the k-th month from the start |
| Common.WalkEnds | src/we_count/backend/bzm_get_data.py:95-105 | a non-empty walk from `first` through `last` ends at `last` |
| Common.WalkStep | src/we_count/backend/bzm_get_data.py:95-105 | a walk of `n > 0` months is its first month followed by the walk of `n - 1` months from the next |
| Common.WalkNext | src/we_count/backend/bzm_get_data.py:95-105 | a walk from `month` through `last` is `month` followed by the walk from the next month through `last` |
| Common.AddMonth | src/we_count/backend/common.py:207-215 | the two carrying loops compute the normalised shift |
| Common.WithScheme | src/we_count/backend/common.py:126-127 | a set, non-empty URL without `://` gets `https://` in front; any other URL, and a missing one, is kept |
| Common.WithSchemeIdempotent | src/we_count/backend/common.py:126-127 | applying the scheme rule twice is applying it once |
| Common.Options.ParseOptions | src/we_count/backend/common.py:122-128 | the URL gets its scheme and the secrets are replaced by the secrets file when it exists, kept otherwise |
| Common.ParseUtc | src/we_count/backend/common.py:60-63 | a datetime passes through; text is None exactly when empty or `NaT`; otherwise a trailing `Z` becomes `+00:00` and text without `Z` is unchanged |
| Common.ParseUtcZulu | src/we_count/backend/common.py:63 | `…Z` is read as `…+00:00` |
| Common.ParseUtcDict | src/we_count/backend/common.py:66-67 | a missing key reads as a date (the start of 1970), never as None |
| Common.Stamps | src/we_count/backend/common.py:66-67 | every property becomes a date argument under the same key, in the same order |
| Common.StampsGet | src/we_count/backend/common.py:66-67 | looking a key up among the dates is looking it up among the properties |
| Common.StampMissing | src/we_count/backend/common.py:66-67 | a station without the stamp reads as stamped at the start of 1970, not as the fallback |
| Common.StampStored | src/we_count/backend/common.py:60-67 | a stored `+00:00` stamp is read back unchanged; an empty one reads as the fallback |
| Common.LoadJsonIfStale | src/we_count/backend/common.py:70-83 | no file or `clear` gives an empty feature list; otherwise None exactly when the file is under 30 minutes old, else its stored features, none when it has no `features` |
| Common.SkipOnlyWhenFresh | src/we_count/backend/common.py:70-83 | a run skips its work only for an existing file, without `clear`, written less than 30 minutes ago |
| Common.ConnectionProvider.constructor | src/we_count/backend/common.py:24-32 | the pool holds the tokens, starts at the drawn index and has sent no queries |
| Common.ConnectionProvider.Request | src/we_count/backend/common.py:34-54 | at most `retries + 1` attempts on consecutive connections round robin, each counted; every attempt but the last was throttled (429); the last non-throttled answer is returned as it is, `{}` when all were throttled |
| Common.NextIndex | src/we_count/backend/common.py:39 | the next connection after `i` of `n` is `i + 1`, or 0 after the last one |
| Datamodel.ParseUtc | src/datamodel.py:17-18 | empty text gives None and only empty text does; a result never holds `Z`; text without `Z` is kept |
| Datamodel.ParseUtcAgreesWithBackend | src/datamodel.py:17-18 | the database scripts' `parse_utc` agrees with the backend one on text, except on `NaT`, which only the backend reads as None |
| Datamodel.Instant | src/datamodel.py:17-18 | a date field denotes no instant exactly when it is empty |
| Datamodel.Attributes | src/datamodel.py:25-27 | exactly the table's columns are set; a column named in the input takes its last value with -1 read as None; a column not named stays None; no attribute is -1 |
| Datamodel.SetAttributes | src/datamodel.py:25-27 | the `setattr` loop produces those attributes |
| Datamodel.Bin | src/datamodel.py:33-35 | bin `i` starts at `5 * i` km/h and is 5 km/h wide, the bin from 120 km/h reaching to 1000 |
| Datamodel.BinsSound | src/datamodel.py:31-36 | every stored bin comes from a positive histogram entry and carries its percentage |
| Datamodel.BinsComplete | src/datamodel.py:31-36 | every positive histogram entry is stored |
| Datamodel.BinsIncreasing | src/datamodel.py:31-36 | the stored bins are strictly increasing in their lower bound, all below the end of the histogram |
| Datamodel.CountOf | src/datamodel.py:28-30 | the interval is 3600 seconds exactly for `hourly` data, None otherwise; the date and the uptime are taken over |
| Datamodel.NewTrafficCount | src/datamodel.py:24-36 | the constructor builds that record |
| Datamodel.CameraOf | src/datamodel.py:112-120 | the camera is keyed by its instance id, its first and last data dates are None exactly when empty, and no attribute is -1 |
| Datamodel.NewCamera | src/datamodel.py:112-120 | the constructor builds that record |
| Datamodel.Segment.constructor | src/datamodel.py:77-82 | the segment takes its id and its last data date, has no backup date, no cameras and no counts, and numbers the geometry's points 0..n-1 in order |
| Datamodel.Segment.AddCamera | src/datamodel.py:84-85 | the new camera is appended and the others are kept |
| Datamodel.Segment.Update | src/datamodel.py:87-88 | only the last data date changes, to the new package's |
| EcocounterBackup.DatastreamFirst | src/we_count/backend/ecocounter_backup.py:65-67 | a direction's datastream is that of the first counter of that direction, for the chosen period; none when no counter has that direction |
| EcocounterBackup.SinceRules | src/we_count/backend/ecocounter_backup.py:71-73 | with `clear` the fetch starts at the station's first data; otherwise at the stored backup stamp, at 1970 when there is none, and at the first data when the stamp is empty |
| EcocounterBackup.Rows | src/we_count/backend/ecocounter_backup.py:83-89 | one row per date, in the order of the dates |
| EcocounterBackup.StationRows | src/we_count/backend/ecocounter_backup.py:78-89 | the new rows of a station are in strictly increasing date order, have a row exactly for the dates seen in either direction, and hold both counts (0 where missing) and their sum modulo 65536 |
| EcocounterBackup.DatedRow | src/we_count/backend/ecocounter_backup.py:83-88 | every date of the list has its row |
| EcocounterBackup.UndatedRow | src/we_count/backend/ecocounter_backup.py:83-88 | a date outside the list has no row |
| EcocounterBackup.RowsCounted | src/we_count/backend/ecocounter_backup.py:84-89 | every row is of the station and holds both counts and their 16-bit sum |
| EcocounterBackup.FetchedRows | src/we_count/backend/ecocounter_backup.py:64-89 | a station is skipped exactly when it has no left datastream; otherwise its rows are those of its two directions' observations since the start of the fetch |
| EcocounterBackup.FetchedOwnRows | src/we_count/backend/ecocounter_backup.py:83-88 | the fetched rows all belong to the fetched station |
| EcocounterBackup.ResultsOf | src/we_count/backend/ecocounter_backup.py:64 | one fetch result per station, in station order |
| EcocounterBackup.ResultsWellFormed | src/we_count/backend/ecocounter_backup.py:64-89 | with distinct station ids every result's rows belong to its station |
| EcocounterBackup.FetchStation | src/we_count/backend/ecocounter_backup.py:65-89 | the fetch of one station gives that station's result |
| EcocounterBackup.MergeStep | src/we_count/backend/ecocounter_backup.py:90-94 | a station with new rows replaces the table's rows of its own dates and appends its own; a station without rows leaves the table alone |
| EcocounterBackup.UpdateTurn | src/we_count/backend/ecocounter_backup.py:64-99 | one turn of the station loop adds this station's stamp, merges its rows and updates the newest date |
| EcocounterBackup.Absorb | src/we_count/backend/ecocounter_backup.py:90-97 | merging one more station's rows and comparing its last date gives the table and the newest date of the stations so far |
| EcocounterBackup.UpdateData | src/we_count/backend/ecocounter_backup.py:58-100 | `update_data` returns the stamps, the merged table and the newest date of all stations |
| EcocounterBackup.MergedAllExactly | src/we_count/backend/ecocounter_backup.py:90-94 | there is no table exactly when there was none and no station has rows; the merged table holds every new row and the old rows whose (station, date) was not fetched again, and nothing else; unique keys are kept |
| EcocounterBackup.NewKeysOwned | src/we_count/backend/ecocounter_backup.py:83-94 | every new (segment, date) key belongs to one of the stations fetched |
| EcocounterBackup.MergedAllNone | src/we_count/backend/ecocounter_backup.py:90-94 | there is no table after the loop exactly when there was none and no station brought a row |
| EcocounterBackup.KeptWithoutNewest | src/we_count/backend/ecocounter_backup.py:63-97 | when no station brings a row, the stored table is kept and there is no newest date, so with a stored table `main` reaches the `--csv` step that raises on `newest_data.year` |
| EcocounterBackup.MergedAllUnique | src/we_count/backend/ecocounter_backup.py:90-94 | a table without repeated (segment, date) keeps that property after every station is merged |
| EcocounterBackup.MergedAllMembers | src/we_count/backend/ecocounter_backup.py:90-94 | the merged table holds every new row of every station, and an old row exactly when no station brought a row with its key |
| EcocounterBackup.MergedAllMember | src/we_count/backend/ecocounter_backup.py:90-94 | a row is in the merged table exactly when some station brought it, or it was an old row whose key no station brought |
| EcocounterBackup.OtherSegment | src/we_count/backend/ecocounter_backup.py:90-94 | a row of another segment never shares a key with a station's own rows |
| EcocounterBackup.Run | src/we_count/backend/ecocounter_backup.py:141-156 | no stations stops the run; no table stops it after the update; otherwise the table is sorted and written, and each feature of the station file gets its stations' new stamps |
| EcocounterPositions.Grouped | src/we_count/backend/ecocounter_positions.py:66-78 | the grouping's dictionaries have distinct keys, and a direction has periods exactly when it has a `siteID` |
| EcocounterPositions.GroupDatastreams | src/we_count/backend/ecocounter_positions.py:66-78 | the datastream loop builds that grouping |
| EcocounterPositions.GroupedSiteIds | src/we_count/backend/ecocounter_positions.py:72-74 | a direction gets a `siteID` exactly when it is not `Beide` and has a datastream, and it is the `siteID` of its last datastream |
| EcocounterPositions.SiteIdsStep | src/we_count/backend/ecocounter_positions.py:69-74 | one more datastream sets the `siteID` of its own direction unless it is `Beide`, and no other direction's |
| EcocounterPositions.HasDirectionSplit | src/we_count/backend/ecocounter_positions.py:69-71 | a direction has a datastream exactly when one before the last has it or the last one has it |
| EcocounterPositions.GroupedHasSiteId | src/we_count/backend/ecocounter_positions.py:72-74 | a direction gets a `siteID` exactly when it is not `Beide` and has a datastream |
| EcocounterPositions.GroupedSiteId | src/we_count/backend/ecocounter_positions.py:72-74 | the `siteID` of a direction is that of its last datastream |
| EcocounterPositions.HasCoordsSplit | src/we_count/backend/ecocounter_positions.py:76-78 | some datastream has coordinates for a direction exactly when one before the last does or the last does |
| EcocounterPositions.GroupedHasCoords | src/we_count/backend/ecocounter_positions.py:76-78 | a direction has coordinates exactly when it is not `Beide` and one of its datastreams has some |
| EcocounterPositions.NoCoordsBefore | src/we_count/backend/ecocounter_positions.py:77 | no datastream before the first one with coordinates has any |
| EcocounterPositions.GroupedCoords | src/we_count/backend/ecocounter_positions.py:76-78 | a direction keeps the first coordinates seen for it |
| EcocounterPositions.HasPeriodSplit | src/we_count/backend/ecocounter_positions.py:75 | a period occurs for a direction exactly when it does before the last datastream or in the last |
| EcocounterPositions.PeriodsStep | src/we_count/backend/ecocounter_positions.py:75 | one more datastream sets its own period of its own direction to its id and changes no other entry |
| EcocounterPositions.GroupedHasPeriod | src/we_count/backend/ecocounter_positions.py:75 | a period appears for a direction exactly when one of its datastreams has it |
| EcocounterPositions.GroupedPeriod | src/we_count/backend/ecocounter_positions.py:75 | a period maps to the id of its last datastream |
| EcocounterPositions.Orders | src/we_count/backend/ecocounter_positions.py:83-87 | ordering directions by `siteID` and periods by name are total preorders, so `sorted` applies |
| EcocounterPositions.SortedDirections | src/we_count/backend/ecocounter_positions.py:83 | the directions with their `siteID`s, a permutation of them, in increasing `siteID` |
| EcocounterPositions.Counters | src/we_count/backend/ecocounter_positions.py:84-89 | one counter per direction; the first is the left one and the second the right one, and only they |
| EcocounterPositions.CountersBySite | src/we_count/backend/ecocounter_positions.py:83-89 | the counters come in increasing `siteID` of their direction |
| EcocounterPositions.CountersDirections | src/we_count/backend/ecocounter_positions.py:84-89 | every direction has exactly one counter |
| EcocounterPositions.CounterStreams | src/we_count/backend/ecocounter_positions.py:87 | a counter's datastreams are sorted by period and are exactly its direction's periods |
| EcocounterPositions.PointCoords | src/we_count/backend/ecocounter_positions.py:92-97 | the coordinates come only from a first location of type `Point`, and for such a location they are its `coordinates` (`JNull` when it has none) |
| EcocounterPositions.Geometry | src/we_count/backend/ecocounter_positions.py:113 | there is a geometry exactly when the coordinates are truthy, and then it is a `Point` holding them |
| EcocounterPositions.PointGeometry | src/we_count/backend/ecocounter_positions.py:92-113 | a station has a geometry exactly when its first location is a `Point` with truthy coordinates, and then it is the `Point` at those coordinates |
| EcocounterPositions.FeatureFrom | src/we_count/backend/ecocounter_positions.py:111-115 | the station's feature has a geometry exactly when its first location is a `Point` with truthy coordinates |
| EcocounterPositions.StoredProps | src/we_count/backend/ecocounter_positions.py:48-49 | the stored properties by `segment_id` form a dictionary with distinct keys |
| EcocounterPositions.OverlaySets | src/we_count/backend/ecocounter_positions.py:100-110 | every computed property holds its computed value, whatever the station had under that key |
| EcocounterPositions.OverlayKeeps | src/we_count/backend/ecocounter_positions.py:100-101 | every other property of the station is kept |
| EcocounterPositions.StampsCarried | src/we_count/backend/ecocounter_positions.py:99-110 | a station's backup stamps are those of the last stored feature of its `segment_id`, None when it has none |
| EcocounterPositions.Run | src/we_count/backend/ecocounter_positions.py:36-122 | nothing is written exactly when the station file is fresh; otherwise the file holds the creation time and one feature per station built over the stored properties |
| EcocounterPositions.StationFeatures | src/we_count/backend/ecocounter_positions.py:54-115 | the station loop builds those features |
| ImportEcocounter.CellHitsAre | src/import_ecocounter.py:52-55 | a header cell yields its own index, and does so exactly when it is non-empty and holds a counter's name |
| ImportEcocounter.HitsAre | src/import_ecocounter.py:52-55 | the matching columns of a header, from left to right, and only those |
| ImportEcocounter.HeaderColumns | src/import_ecocounter.py:51-65 | the left column is the first matching column, None exactly when none matches; the right one is the next matching column after it, None when there is none; later matches are ignored |
| ImportEcocounter.PickStep | src/import_ecocounter.py:56-62 | a further match fills the left column, else the right one, else is ignored |
| ImportEcocounter.HeaderColumnsOf | src/import_ecocounter.py:51-62 | the header loop computes those columns |
| ImportEcocounter.RowAsWrittenRaises | src/import_ecocounter.py:73-77 | as written, every row the import is meant to store raises; the rows it skips are skipped by both |
| ImportEcocounter.RowAsWrittenExample | src/import_ecocounter.py:73-77 | a row with a local time and 3 bikes raises as written and is stored by the intended import |
| ImportEcocounter.DataEntriesExactly | src/import_ecocounter.py:66-77 | the entries of a sheet are hourly with uptime 1 and each comes from one of its rows; every row with a time and a left or right value gives an entry, dated at that time in the segment's zone |
| ImportEcocounter.DataEntriesStep | src/import_ecocounter.py:49-82 | one more row adds its entry, if it makes one, after the others |
| ImportEcocounter.StoreRow | src/import_ecocounter.py:77-82 | a row is inserted at its place by date, or replaces the count of the same date; the counts stay strictly sorted |
| ImportEcocounter.ImportRow | src/import_ecocounter.py:66-82 | a data row stores its entry, if any, into the counts built so far |
| ImportEcocounter.ImportSheet | src/import_ecocounter.py:48-82 | a sheet stores all its entries in row order; the counts stay strictly sorted |
| ImportEcocounter.CountersOf | src/import_ecocounter.py:32-36 | a segment has a counter list exactly when some feature has its id |
| ImportEcocounter.FindCounters | src/import_ecocounter.py:32-36 | the feature loop finds the first feature of the segment |
| ImportEcocounter.YearEntriesFrom | src/import_ecocounter.py:43-47 | every imported entry comes from the sheet of a year in `[first, final)` that the workbook has |
| ImportEcocounter.YearStep | src/import_ecocounter.py:43-47 | one more year adds its sheet's entries when the workbook has it, nothing otherwise |
| ImportEcocounter.ImportYears | src/import_ecocounter.py:43-82 | the year loop stores every year's entries in year order; the counts stay strictly sorted |
| ImportEcocounter.ImportYear | src/import_ecocounter.py:44-82 | one year of the year loop |
| ImportEcocounter.ImportSegment | src/import_ecocounter.py:27-83 | a segment with counters gets the entries of its years from its last backup (2012 when none) up to its last data year, and is stamped with today; one without counters is left unchanged |
| ImportEcocounter.UpdateDb | src/import_ecocounter.py:25-84 | every segment is imported in turn |
| LegacyBackup.NewCamerasExactly | src/backup_data.py:55-59 | a segment gets exactly the cameras of the reply that name it and whose instance id is not stored yet |
| LegacyBackup.NewCamerasUnknown | src/backup_data.py:56 | a segment id not in the dictionary gets no camera |
| LegacyBackup.GetCameras | src/backup_data.py:52-59 | every segment's cameras are its old ones followed by its new ones, in reply order |
| LegacyBackup.AttachCamera | src/backup_data.py:56-59 | one reply entry appends its camera to its own segment, if known and not stored, and changes no other segment |
| LegacyBackup.AppendCamera | src/backup_data.py:58-59 | the camera of the reply entry is appended to the cameras of its own segment only; every other segment keeps its cameras |
| LegacyBackup.ColumnNames | src/backup_data.py:113-117 | `get_column_names` is the 24 columns from `segment_id` to `car_speed70`, the modes spelled `ped`, `bike`, `car`, `heavy` |
| LegacyBackup.ColumnsSplit | src/backup_data.py:113-117 | the 24 columns are the leading ones, then `_lft`, `_rgt`, `_total` of `ped`, `bike`, `car`, `heavy`, then `v85` and the speed classes |
| LegacyBackup.ModeNamesSpelled | src/backup_data.py:115-116 | each mode's three columns are its `_lft`, `_rgt` and `_total` |
| LegacyBackup.ValuesMatchColumns | src/backup_data.py:120-131 | a row has one value per column: the three cells of each mode in the columns of that mode, then `v85` |
| LegacyBzmGetData.Segments | src/bzm_get_data.py:34 | the segments of the table, each once, exactly those that occur |
| LegacyBzmGetData.LastAtUnique | src/bzm_get_data.py:36 | a (segment, time) has at most one last row |
| LegacyBzmGetData.LatestRules | src/bzm_get_data.py:36 | a (segment, time) has values exactly when a row is there, and then those of its last row (`keep='last'`) |
| LegacyBzmGetData.Dates | src/bzm_get_data.py:36-39 | the times of the segment's rows, none only for a segment without rows |
| LegacyBzmGetData.Min | src/bzm_get_data.py:39 | the earliest of the segment's times |
| LegacyBzmGetData.Max | src/bzm_get_data.py:39 | the latest of the segment's times |
| LegacyBzmGetData.Grid | src/bzm_get_data.py:39-43 | `n` hourly rows of the segment from `lo` on, each holding the last values of its time or none |
| LegacyBzmGetData.FillMissingDates | src/bzm_get_data.py:31-46 | the segment loop concatenates the blocks of all segments |
| LegacyBzmGetData.BlockHourly | src/bzm_get_data.py:36-43 | a segment's block runs hour by hour from its earliest time to the last hour not after its latest time, every row of the segment |
| LegacyBzmGetData.BlockValues | src/bzm_get_data.py:36-40 | a block row is empty exactly when no row has its time, and otherwise holds the values of the last such row |
| LegacyBzmGetData.BlockGrid | src/bzm_get_data.py:39-40 | a block is the grid of its segment from its first time |
| LegacyBzmGetData.GridBounds | src/bzm_get_data.py:39 | the range of a row's segment is its first time and the number of hours up to its last |
| LegacyBzmGetData.GridHas | src/bzm_get_data.py:39-40 | every whole hour from the start within the range is on the grid |
| LegacyBzmGetData.GridMisses | src/bzm_get_data.py:39-40 | no time off the hours is on the grid |
| LegacyBzmGetData.RowKept | src/bzm_get_data.py:36-40 | the last row of a time on the hourly grid survives with its values |
| LegacyBzmGetData.OnGrid | src/bzm_get_data.py:39 | every time between the first and the last lies within the grid's hours |
| LegacyBzmGetData.OffGridDropped | src/bzm_get_data.py:39-40 | a row off its segment's hourly grid is dropped by the reindex |
| LegacyBzmGetData.FilledSegments | src/bzm_get_data.py:31-46 | the result is one block per segment, in order of first appearance, and holds only segments of the input |
| LegacyBzmGetData.UnlistRules | src/bzm_get_data.py:60-68 | blanking one column replaces a list there, keeps any other value, and keeps every other column and the column order |
| LegacyBzmGetData.UnlistGet | src/bzm_get_data.py:60-68 | one column after blanking one column |
| LegacyBzmGetData.BlankSteps | src/bzm_get_data.py:61-68 | one row is blanked column by column: width, lanes and max speed to `''`, the name to missing |
| LegacyBzmGetData.BlankKeys | src/bzm_get_data.py:60-68 | blanking keeps the columns and their order |
| LegacyBzmGetData.BlankGet | src/bzm_get_data.py:61-68 | a list in width, lanes or max speed becomes `''`, a list as name becomes missing, and everything else stays |
| LegacyBzmGetData.BlankNoLists | src/bzm_get_data.py:60-68 | after blanking, none of those four columns holds a list |
| LegacyBzmGetData.UpdateRows | src/bzm_get_data.py:60-68 | the row loop updates every row in place, in order |
| LegacyBzmGetData.GetLocations | src/bzm_get_data.py:59-72 | the locations are the blanked rows that have a name, in order |
| LegacyBzmGetData.NamedAfterBlank | src/bzm_get_data.py:67-72 | a blanked row keeps its name exactly when it had one that was not a list |
| LegacyBzmGetData.LocationsNamed | src/bzm_get_data.py:59-72 | a location is kept exactly when its name is present, not missing and not a list, and is kept blanked |
| LegacyBzmGetData.LocationsClean | src/bzm_get_data.py:59-72 | every kept location is named and holds no list in the four blanked columns |
| LegacyBzmGetData.FrontRows | src/bzm_get_data.py:121 | a merged row with a location pairs a traffic row with a location of its segment |
| LegacyBzmGetData.MergedFromJoin | src/bzm_get_data.py:121-129 | every row that survives the drops pairs a traffic row with a named location of its segment |
| LegacyBzmGetData.JoinInFront | src/bzm_get_data.py:121 | every traffic row paired with a location of its segment is in the outer merge |
| LegacyBzmGetData.JoinInMerged | src/bzm_get_data.py:121-129 | every traffic row paired with a named location of its segment survives the drops |
| LegacyBzmGetData.WeekdayLabel | src/bzm_get_data.py:150 | a weekday number has a label exactly when it is 0..6 |
| LegacyBzmGetData.MonthLabel | src/bzm_get_data.py:151 | a month number has a label exactly when it is 1..12 |
| LegacyBzmGetData.IndexOf | src/bzm_get_data.py:150-151 | a found position holds the label; not found means the label is absent |
| LegacyBzmGetData.IndexOfAt | src/bzm_get_data.py:150-151 | in a list of distinct labels a label's position gives it back |
| LegacyBzmGetData.WeekdaysDistinct | src/bzm_get_data.py:150 | the seven weekday labels are distinct |
| LegacyBzmGetData.MonthsDistinct | src/bzm_get_data.py:151 | the twelve month labels are distinct |
| LegacyBzmGetData.LabelsOneToOne | src/bzm_get_data.py:150-151 | each weekday and each month gets its own label, which names its number back |
| LegacyCommon.ApiKeys | src/common.py:18-20 | the keys are the stripped non-blank lines of the token file, at most one per line, none blank or with outer spaces, every non-blank line giving its key |
| LegacyCommon.ConnectionProvider.constructor | src/common.py:17-22 | the pool holds those keys, starts at the first one and has sent no queries |
| LegacyCommon.ConnectionProvider.Request | src/common.py:24-42 | at most `retries + 1` attempts, each counted, attempt j on connection (start + j) mod n round robin, the index left one past the last used; every attempt but the last answered `Too Many Requests`; the last other answer is returned as it is, `{}` when every attempt was throttled |
| LegacySensorPositions.InsideBox | src/sensor_positions.py:61-68 | a segment is inside exactly when it has points and all of them lie strictly inside the box, the loop stopping at the first point outside |
| LegacySensorPositions.BoxSegments | src/sensor_positions.py:58-70 | the ids collected are exactly those of the segments inside the box |
| LegacySensorPositions.Combine | src/sensor_positions.py:80-85 | the segments taken have wanted ids that are no longer left; the ids left are a subset of those wanted |
| LegacySensorPositions.CombineFirst | src/sensor_positions.py:81-85 | every segment taken is the first one of its id among the live and then the stored segments |
| LegacySensorPositions.FirstOfTail | src/sensor_positions.py:81-85 | a segment that is the first of its id after the head, with an id other than the head's, is the first of its id in the whole list |
| LegacySensorPositions.CombineDistinct | src/sensor_positions.py:81-85 | no id is taken twice |
| LegacySensorPositions.ConsDistinct | src/sensor_positions.py:83-84 | appending a segment whose id none of the distinct segments taken so far has keeps every id distinct |
| LegacySensorPositions.CombineLeft | src/sensor_positions.py:81-85 | the ids left are exactly the wanted ids that no segment has |
| LegacySensorPositions.CombineCovers | src/sensor_positions.py:81-85 | every wanted id that is not left is taken |
| LegacySensorPositions.CombineSegments | src/sensor_positions.py:80-85 | the combining loop computes that split |
| LegacySensorPositions.CopiedGet | src/sensor_positions.py:95-97 | an excluded property is never copied; every other one keeps its last value |
| LegacySensorPositions.NewProps | src/sensor_positions.py:94-97 | the rebuilt properties hold `segment_id` (the segment's own, else its `oidn`), `timezone` (the segment's own, else the computed one), every other non-excluded property, and no excluded one |
| LegacySensorPositions.Base | src/sensor_positions.py:94 | the starting dictionary maps `segment_id` to the `oidn` and `timezone` to the computed zone, and has no other key |
| LegacySensorPositions.CopiedAll | src/sensor_positions.py:95-97 | for every key at once, the copy has nothing under an excluded key and the property's last value under any other |
| LegacySensorPositions.FetchMissing | src/sensor_positions.py:87-99 | every id left is fetched once, in set order; the rebuilt segment of each id the server has is appended once, the others are skipped |
| LegacySensorPositions.CollectPresent | src/sensor_positions.py:87-99 | the loop over a set of ids visits every id exactly once, in some order, and keeps the value of each visited id that has one, in visiting order: only values some id gave, and the value of every id that gave one |
| LegacySensorPositions.Visit | src/sensor_positions.py:87-99 | visiting one more id still to do keeps the order an enumeration of the ids done and adds that id's value, if any, at the end |
| LegacySensorPositions.PresentCount | src/sensor_positions.py:87-99 | over ids visited once, the values kept are exactly as many as the ids that have a value |
| LegacySensorPositions.EnumeratedCount | src/sensor_positions.py:87-99 | over an enumeration of a set of ids, the values kept are as many as the ids of the set that have a value |
| LegacySensorPositions.CrossOff | src/sensor_positions.py:87 | taking one id from those still to visit moves it to those visited and shortens what is left |
| LegacySensorPositions.PresentFetched | src/sensor_positions.py:87-99 | what that loop keeps, fed with the server's replies, is the rebuilt segment of each id with a reply, one per id, in visiting order |
| LegacySensorPositions.FetchedIdentified | src/sensor_positions.py:87-99 | every segment fetched for an id of the box has an id |
| LegacySensorPositions.Replied | src/sensor_positions.py:88-91 | when every reply has an `oidn`, the ids that give a new segment are exactly those the server answers with features |
| LegacySensorPositions.FetchedCount | src/sensor_positions.py:87-99 | the fetched segments are exactly as many as the ids left that the server answers with features, so none is added twice |
| LegacySensorPositions.Edge | src/sensor_positions.py:28-35 | a segment's edge is the stored one when its stored segment has one, else the looked-up edge without its geometry |
| LegacySensorPositions.WithEdge | src/sensor_positions.py:36 | only the `osm` property changes, to the segment's edge |
| LegacySensorPositions.WithEdges | src/sensor_positions.py:29-36 | the list with edges has as many segments as the input |
| LegacySensorPositions.WithEdgesAt | src/sensor_positions.py:29-36 | the i-th segment of the list with edges is the i-th input segment with its own edge |
| LegacySensorPositions.WithEdgesStep | src/sensor_positions.py:29-36 | one more pass of the loop adds the next segment with its edge to the end |
| LegacySensorPositions.WithEdgesAll | src/sensor_positions.py:29-36 | every segment of the list with edges is its input segment with its own edge |
| LegacySensorPositions.AddOsm | src/sensor_positions.py:27-36 | every segment gets its edge, in order |
| LegacySensorPositions.WithCameras | src/sensor_positions.py:22-24 | only the `cameras` property changes, to the segment's cameras |
| LegacySensorPositions.EachWithCameras | src/sensor_positions.py:21-24 | the list with cameras has as many segments as the input |
| LegacySensorPositions.EachWithCamerasAt | src/sensor_positions.py:21-24 | the i-th segment of the list with cameras is the i-th input segment with its own cameras |
| LegacySensorPositions.EachWithCamerasStep | src/sensor_positions.py:21-24 | one more pass of the loop adds the next segment with its cameras to the end |
| LegacySensorPositions.EachWithCamerasAll | src/sensor_positions.py:21-24 | every segment of the list with cameras is its input segment with its own cameras |
| LegacySensorPositions.AddCameras | src/sensor_positions.py:20-24 | every segment gets its cameras, in order |
| LegacySensorPositions.Run | src/sensor_positions.py:39-109 | a js file under 30 minutes old stops the run; an empty snapshot stops it; otherwise the output is the live and stored segments in the box, each id once, then the fetched missing ones, each with its edge and its cameras |
| LegacySensorPositions.IdentifiedConcat | src/sensor_positions.py:81 | live segments followed by stored ones, all with ids, form a list whose segments all have ids |
| LegacySensorPositions.FinishedFrom | src/sensor_positions.py:100-102 | adding the edges and then the cameras leaves every combined segment with its own edge and its own cameras |
| MautBackup.SaveLoadLastBackup | src/we_count/backend/maut_backup.py:22-37 | a saved backup date is loaded back unchanged, and saving it leaves the sections of the file as they were |
| MautBackup.KeptExactly | src/we_count/backend/maut_backup.py:58-70 | the rows are exactly those of the reply's features whose section is known, each with one count wrapped to 32 bits; there are none exactly when no feature's section is known |
| MautBackup.MaxDate | src/we_count/backend/maut_backup.py:73 | the newest date is one of the rows' dates and no row's date is greater |
| MautBackup.UpdateData | src/we_count/backend/maut_backup.py:40-74 | no rows gives no table and no date; otherwise the kept rows and their newest date |
| MautBackup.Run | src/we_count/backend/maut_backup.py:104-130 | no sections stops the run; no new rows stops it; otherwise the new rows replace the stored rows of the same (section, date), the table is sorted and written, and the newest date is saved |
| MautBackup.NextSince | src/we_count/backend/maut_backup.py:116-130 | the next run fetches from the newest date saved, which is not before any row fetched now |
| MautPositions.PolylineRoundTrip | src/we_count/backend/maut_positions.py:21-27 | no geometry exactly when there are no paths; otherwise the paths are kept, as a `LineString` exactly when there is one path |
| MautPositions.TwoFields | src/we_count/backend/maut_positions.py:26-27 | a converted geometry holds its type and its coordinates |
| MautPositions.Literal | src/we_count/backend/maut_positions.py:74-83 | the properties hold the eight keys of the literal, in its order |
| MautPositions.KeysDistinct | src/we_count/backend/maut_positions.py:74-83 | no key of the literal repeats |
| MautPositions.LiteralGet | src/we_count/backend/maut_positions.py:74-83 | every key of the literal holds its value, and there is no other key |
| MautPositions.SectionPropsRules | src/we_count/backend/maut_positions.py:71-83 | a section's properties hold its id, its copied attributes (None when absent), the Berlin zone and the stored section's backup stamp, and nothing else |
| MautPositions.SectionPropsFixed | src/we_count/backend/maut_positions.py:71-83 | a section's properties hold its id under `segment_id`, the Berlin zone under `timezone` and the stored section's backup stamp under `last_data_backup` |
| MautPositions.SectionPropsKey | src/we_count/backend/maut_positions.py:71-83 | any other key holds the copied attribute of that name (None when absent) when it is copied, and is absent otherwise |
| MautPositions.SectionPropsCopied | src/we_count/backend/maut_positions.py:71-83 | a copied key holds the section's attribute of that name, None when the section has none |
| MautPositions.SectionPropsAbsent | src/we_count/backend/maut_positions.py:71-83 | a key neither copied nor one of the three fixed ones is absent |
| MautPositions.StampCarried | src/we_count/backend/maut_positions.py:73-82 | a section's stamp is that of the last stored feature of its id |
| MautPositions.FeaturesOf | src/we_count/backend/maut_positions.py:69-88 | one feature per section |
| MautPositions.Run | src/we_count/backend/maut_positions.py:30-96 | a fresh file stops the run; no sections stops it; otherwise the file holds the creation time and the sections' features after `add_osm` |
| MautPositions.SectionFeatures | src/we_count/backend/maut_positions.py:69-88 | the section loop builds those features |
| MautPositions.WrittenSections | src/we_count/backend/maut_positions.py:69-95 | the file holds one feature per section, in order, with its section's id and geometry |
| Osm.HandleRules | src/we_count/backend/osm.py:29-49 | a feature with a stored, named edge fetched in the last 30 days gets it; one without geometry is left alone; any other gets a looked-up edge stamped with now and without geometry; nothing but `osm` changes |
| Osm.Visits | src/we_count/backend/osm.py:28-49 | one visit per feature, in order |
| Osm.CappedStep | src/we_count/backend/osm.py:28-51 | one more feature is handled; a lookup that reaches the cap ends the loop and leaves the rest as they are |
| Osm.LookupsFront | src/we_count/backend/osm.py:39 | the lookups of a run are the first feature's plus those of the rest |
| Osm.CappedPrefix | src/we_count/backend/osm.py:28-51 | the loop handles the features up to some point and leaves the rest unchanged, stops early only after its last allowed lookup, and makes at most `max(1, max_updates)` lookups |
| Osm.StopsHere | src/we_count/backend/osm.py:50-51 | a first feature that uses the only allowed lookup ends the loop after it |
| Osm.HandledCons | src/we_count/backend/osm.py:28-51 | handling the first feature and then a prefix of the rest is handling a prefix of all |
| Osm.AddOsmKeeps | src/we_count/backend/osm.py:23-51 | `add_osm` keeps every feature, its geometry and every property but `osm` |
| Osm.VisitFeature | src/we_count/backend/osm.py:29-49 | the loop body computes the feature's visit |
| Osm.AddOsm | src/we_count/backend/osm.py:23-51 | the loop computes the capped run over all features |
| SensorPositions.IntOrder | src/we_count/backend/sensor_positions.py:21 | the order of ids is a total, antisymmetric order, so `sorted` applies |
| SensorPositions.SortedIds | src/we_count/backend/sensor_positions.py:21 | the ids of the box, each once, in strictly increasing order |
| SensorPositions.DefaultsGet | src/we_count/backend/sensor_positions.py:33 | the defaults hold the id under `segment_id` and now under `last_prop_fetch`, and nothing else |
| SensorPositions.Merged | src/we_count/backend/sensor_positions.py:33 | the fetched properties win over the defaults: `segment_id` and `last_prop_fetch` default to the id and now, every other key keeps its fetched value |
| SensorPositions.Refreshed | src/we_count/backend/sensor_positions.py:32-35 | a refreshed segment keeps the fetched geometry and the merged properties, except that a stored `osm` edge wins |
| SensorPositions.FetchBudget | src/we_count/backend/sensor_positions.py:19-28 | every unknown id is fetched, and at most `max_prop_updates` known ones besides |
| SensorPositions.FoldGrows | src/we_count/backend/sensor_positions.py:20-36 | the loop only appends, at most one segment per id |
| SensorPositions.RecentKept | src/we_count/backend/sensor_positions.py:22-27 | a stored segment whose properties are under a day old is kept unchanged |
| SensorPositions.StepExtends | src/we_count/backend/sensor_positions.py:21-36 | one pass of the loop keeps every segment built so far, in front |
| SensorPositions.UnknownFetched | src/we_count/backend/sensor_positions.py:28-36 | a segment not stored before is fetched whatever the budget, and comes out refreshed when the reply has it |
| SensorPositions.FoldSources | src/we_count/backend/sensor_positions.py:20-36 | every segment out of the loop is a stored segment or a refreshed fetch of one of the ids |
| SensorPositions.InvalidExactly | src/we_count/backend/sensor_positions.py:37-41 | the segments appended at the end are exactly the stored ones whose id left the box |
| SensorPositions.FoldStep | src/we_count/backend/sensor_positions.py:21-36 | one more id is one more step of the loop |
| SensorPositions.Visit | src/we_count/backend/sensor_positions.py:22-36 | the loop body computes that step |
| SensorPositions.UpdateProps | src/we_count/backend/sensor_positions.py:17-42 | `update_props` returns the loop's segments over the sorted ids, then the stored segments that left the box |
| SensorPositions.OldData | src/we_count/backend/sensor_positions.py:50 | the stored segments by id form a dictionary with distinct keys |
| SensorPositions.StoredProps | src/we_count/backend/sensor_positions.py:66 | each stored id maps to its segment's properties, and only those ids |
| SensorPositions.Run | src/we_count/backend/sensor_positions.py:45-69 | a fresh file stops the run; otherwise the file holds the creation time and the updated segments after `add_osm` over the stored properties |
| StationTables.Pairs | src/we_count/backend/ecocounter_backup.py:30-31 | one (segment id, properties) pair per feature, in file order |
| StationTables.LoadThings | src/we_count/backend/ecocounter_backup.py:24-31 | the loaded stations have distinct ids; no file gives no stations |
| StationTables.LoadThingsLastWins | src/we_count/backend/ecocounter_backup.py:30-31 | exactly the ids of the file are loaded, each with the properties of its last feature |
| StationTables.SaveThings | src/we_count/backend/ecocounter_backup.py:34-44 | every feature is kept in place, with its station's properties when the station is known |
| StationTables.SaveLoadedUnion | src/we_count/backend/ecocounter_backup.py:156 | writing back the loaded stations updated by the run gives every updated station its new properties and leaves the last feature of every other station as it was |
| StationTables.OlderOrder | src/we_count/backend/ecocounter_backup.py:148 | ordering stations by their backup stamp is a total preorder |
| StationTables.Oldest | src/we_count/backend/ecocounter_backup.py:145-149 | without a limit all stations are kept, in order |
| StationTables.PermutationValid | src/we_count/backend/ecocounter_backup.py:148-149 | reordering the stations keeps their ids distinct |
| StationTables.SortedPrefixBelow | src/we_count/backend/ecocounter_backup.py:148-149 | in a sorted list everything before a cut is below everything after it |
| StationTables.OldestPrefix | src/we_count/backend/ecocounter_backup.py:148-149 | the limit keeps the first `limit` stations (Python slice semantics, negative limits included) of the stations sorted by backup stamp |
| StationTables.OldestChosen | src/we_count/backend/ecocounter_backup.py:148-149 | the stations kept are stations of the input with distinct ids, as many as the slice `[:limit]` takes |
| StationTables.ValidTake | src/we_count/backend/ecocounter_backup.py:148-149 | the first `n` stations of a dictionary with distinct ids still have distinct ids |
| StationTables.OldestFirst | src/we_count/backend/ecocounter_backup.py:148-149 | no station kept was backed up later than a station left out, a missing stamp counting as 1970 |
| StationTables.Keyed | src/we_count/backend/ecocounter_backup.py:55 | each observation is keyed by the start of its `phenomenonTime` interval |
| StationTables.Observations | src/we_count/backend/ecocounter_backup.py:55 | the observations by interval start have distinct keys |
| StationTables.ObservationsExactly | src/we_count/backend/ecocounter_backup.py:55 | exactly the interval starts of the reply are keys, each holding the result of its last observation |
| StationTables.AllKeysExactly | src/we_count/backend/ecocounter_backup.py:78 | the union of the directions' dates holds exactly the dates of either |
| StationTables.LexOrder | src/we_count/backend/ecocounter_backup.py:78 | string order is a total, antisymmetric order, so `sorted` applies |
| StationTables.Dates | src/we_count/backend/ecocounter_backup.py:78 | the dates of all directions, each once, in strictly increasing string order |
| StationTables.DatesOfTwo | src/we_count/backend/ecocounter_backup.py:78 | the dates of two directions are those of either |
| StationTables.UniqueAppend | src/we_count/backend/ecocounter_backup.py:93-94 | appending rows without a common key keeps the keys unique |
| StationTables.KeySetMembers | src/we_count/backend/ecocounter_backup.py:93 | a (segment, date) is a key of the rows exactly when some row has it |
| StationTables.WithoutExactly | src/we_count/backend/ecocounter_backup.py:93 | the rows kept are exactly those whose key is not dropped, and unique keys stay unique |
| StationTables.WithoutStation | src/we_count/backend/ecocounter_backup.py:93 | dropping a station's new dates keeps the rows of other stations and of other dates |
| StationTables.MergeExactly | src/we_count/backend/ecocounter_backup.py:90-94 | the merged table holds the new rows and the old rows whose key is not new, nothing else, and keeps keys unique |
| StationTables.RecordOrder | src/we_count/backend/ecocounter_backup.py:154 | ordering rows by segment and then date is a total preorder |
| StationTables.SortRecords | src/we_count/backend/ecocounter_backup.py:154 | the same rows, as a multiset, ordered by segment and then by date |
| StationTables.ChosenExactly | src/we_count/backend/ecocounter_backup.py:105-114 | the rows exported are exactly the rows of known stations in the month asked, if any |
| StationTables.Prepare | src/we_count/backend/ecocounter_backup.py:103-120 | there is nothing to export exactly when no row is chosen; otherwise one output row per chosen row |
| StationTables.PrepareExactly | src/we_count/backend/ecocounter_backup.py:103-120 | nothing is exported exactly when no row qualifies; otherwise each output row is a qualifying row with its date in its station's zone |
| StationTables.MonthExportsByMonth | src/we_count/backend/ecocounter_backup.py:157-164 | the k-th file of the month loop is named after the k-th month from the first and holds that month's rows |
| StationTables.CsvExports | src/we_count/backend/ecocounter_backup.py:157-164 | the `--csv` step raises exactly when there is no newest date, even with `csv_start_year` set; otherwise it writes one file per month from the first month through the newest date's month |
| StationTables.StampedAll | src/we_count/backend/ecocounter_backup.py:64-99 | one stamped station per station |
| StationTables.StampedAllAt | src/we_count/backend/ecocounter_backup.py:80-99 | each station keeps its id and is stamped unless it was skipped |
| StationTables.StampedAllStations | src/we_count/backend/ecocounter_backup.py:68-99 | the ids stay, a skipped station is unchanged, and any other station gets today under the backup key and keeps every other property |
| StationTables.StampStep | src/we_count/backend/ecocounter_backup.py:64-99 | one more station adds its stamp and raises the newest date when its last date is later |
| StationTables.NewestAllIsLatest | src/we_count/backend/ecocounter_backup.py:95-97 | no newest date exactly when no station brought rows; otherwise it is the latest last date of a station |
| StationTables.NewestStep | src/we_count/backend/ecocounter_backup.py:95-97 | one station more replaces the newest date by its last date exactly when it has one and there was none or it is later |
| TeuBackup.Streams | src/we_count/backend/teu_backup.py:64-65 | the datastream of every vehicle class for the period, in the order KFZ, PKW, LKW |
| TeuBackup.SinceRules | src/we_count/backend/teu_backup.py:69-70 | with `clear` the fetch starts in 2010; otherwise at the stored stamp, at 1970 when there is none, and in 2010 when it is empty |
| TeuBackup.CountsAt | src/we_count/backend/teu_backup.py:81-83 | the count of every vehicle class at the date, 0 where a class has none |
| TeuBackup.Rows | src/we_count/backend/teu_backup.py:80-84 | one row per date, holding the counts of every class at that date |
| TeuBackup.ObservedAll | src/we_count/backend/teu_backup.py:73-74 | the observations of every class since the start, none for a class without a datastream |
| TeuBackup.StationRows | src/we_count/backend/teu_backup.py:75-84 | a station's new rows are in strictly increasing date order, have a row exactly for the dates some class observed, and hold every class's count at their date |
| TeuBackup.RowDate | src/we_count/backend/teu_backup.py:75 | a row has a date exactly when some class observed it |
| TeuBackup.SeenRow | src/we_count/backend/teu_backup.py:75-84 | a date some class observed has its row |
| TeuBackup.RowSeen | src/we_count/backend/teu_backup.py:75-84 | a date no class observed has no row |
| TeuBackup.FetchedOwnRows | src/we_count/backend/teu_backup.py:80-84 | the fetched rows all belong to the fetched station |
| TeuBackup.FetchStation | src/we_count/backend/teu_backup.py:64-84 | the fetch of one station gives its result, None when no class has a datastream |
| TeuBackup.ResultsOf | src/we_count/backend/teu_backup.py:63 | one fetch result per station, in station order |
| TeuBackup.ResultsWellFormed | src/we_count/backend/teu_backup.py:63-84 | with distinct station ids every result's rows belong to its station |
| TeuBackup.AllNewExactly | src/we_count/backend/teu_backup.py:84-90 | the collected rows are exactly the stations' new rows, none exactly when no station brought any, and no (segment, date) comes twice |
| TeuBackup.AllNewMembers | src/we_count/backend/teu_backup.py:84-90 | the collected rows are exactly the stations' new rows |
| TeuBackup.AllNewUnique | src/we_count/backend/teu_backup.py:84-90 | no (segment, date) is collected twice |
| TeuBackup.TableExactly | src/we_count/backend/teu_backup.py:144-147 | the merged table holds every new row and the old rows of (segment, date) pairs not fetched again, nothing else, with unique keys kept |
| TeuBackup.CollectStep | src/we_count/backend/teu_backup.py:84 | one more station appends its rows |
| TeuBackup.UpdateData | src/we_count/backend/teu_backup.py:57-90 | `update_data` returns the stamps, the collected rows (None when there are none) and the newest date |
| TeuBackup.Run | src/we_count/backend/teu_backup.py:131-152 | no stations stops the run; no new rows stops it; otherwise the merged table is sorted and written and the station file gets the new stamps |
| TeuPositions.Nested | src/we_count/backend/teu_positions.py:44-50 | the nesting by vehicle has distinct vehicles |
| TeuPositions.NestDatastreams | src/we_count/backend/teu_positions.py:44-50 | the datastream loop builds that nesting |
| TeuPositions.HasVehicleSplit | src/we_count/backend/teu_positions.py:50 | a vehicle occurs exactly when it does before the last datastream or in the last |
| TeuPositions.HasMeasurementSplit | src/we_count/backend/teu_positions.py:50 | a measurement of a vehicle occurs exactly when it does before the last datastream or in the last |
| TeuPositions.HasStreamSplit | src/we_count/backend/teu_positions.py:50 | a (vehicle, measurement, period) occurs exactly when it does before the last datastream or in the last |
| TeuPositions.NestedStep | src/we_count/backend/teu_positions.py:50 | one more datastream adds its vehicle and its vehicle's measurement and nothing else |
| TeuPositions.LookupStep | src/we_count/backend/teu_positions.py:50 | one more datastream sets its own entry to its id and no other |
| TeuPositions.AddLookup | src/we_count/backend/teu_positions.py:50 | the nested `setdefault` sets exactly the entry of the datastream |
| TeuPositions.AddPresence | src/we_count/backend/teu_positions.py:50 | after one more datastream a vehicle is present exactly when it was or is the datastream's, and a measurement of a vehicle likewise; nothing is removed |
| TeuPositions.NestedKeys | src/we_count/backend/teu_positions.py:44-50 | the vehicles are exactly those of the datastreams, and a vehicle's measurements exactly its datastreams' |
| TeuPositions.NestedHasStream | src/we_count/backend/teu_positions.py:44-50 | an entry exists exactly when some datastream has its vehicle, measurement and period |
| TeuPositions.NestedLast | src/we_count/backend/teu_positions.py:44-50 | an entry holds the id of the last datastream with its vehicle, measurement and period |
| TeuPositions.FeatureFrom | src/we_count/backend/teu_positions.py:53-76 | the station's feature has a geometry exactly when its first location is a `Point` with truthy coordinates |
| TeuPositions.OverlaySets | src/we_count/backend/teu_positions.py:61-71 | every computed property holds its computed value, whatever the station had under that key |
| TeuPositions.OverlayKeeps | src/we_count/backend/teu_positions.py:61-62 | every other property of the station is kept |
| TeuPositions.FeatureIdentified | src/we_count/backend/teu_positions.py:34-71 | a station's feature is identified by its `mq_id15`, carries its `@iot.id` and its nested datastreams |
| TeuPositions.StampsCarried | src/we_count/backend/teu_positions.py:60-70 | a station's backup stamps are those of the last stored feature of its id, None when it has none |
| TeuPositions.FeaturesIdentified | src/we_count/backend/teu_positions.py:30-76 | every feature written belongs to a station with an `mq_id15`; stations without one are skipped |
| TeuPositions.WrittenIdentified | src/we_count/backend/teu_positions.py:78 | `add_osm` keeps every feature identified by its station |
| TeuPositions.Run | src/we_count/backend/teu_positions.py:19-85 | a fresh file stops the run; otherwise the file holds the creation time and the stations' features after `add_osm` |
| TeuPositions.StationFeatures | src/we_count/backend/teu_positions.py:29-76 | the station loop builds those features |
| Update.SitePackagesFrom | src/update.py:16-17 | the entry found is the first one ending in `site-packages`; none is found exactly when no entry ends in it |
| Update.PrependVenv | src/update.py:16-20 | the loop over `sys.path` gives the path with the venv entry of the first `site-packages` entry in front, or raises where `index` raises |
| Update.VenvEntry | src/update.py:18 | the venv entry is missing exactly when the entry holds no `/lib/`; otherwise it is `BASE/../../venv_wecount/` followed by the part from `lib/` on |
| Update.LibTail | src/update.py:18 | the slice after a found `/lib/` starts with `lib/` and is relative, so `os.path.join` keeps the base |
| Update.VenvJoins | src/update.py:18 | joining the venv parts to a base that does not end in `/` puts exactly one `/` between the parts |
| Update.VenvPrependedOnce | src/update.py:16-20 | without a `site-packages` entry the path is unchanged; with one, the new path is the old one with exactly one entry in front, the venv entry of the first match; the loop raises exactly when that first match holds no `/lib/` |
| Update.RecordStages | src/update.py:47-59 | a record is built from the base dict by three fixes in order (`segment_id`, `osm`, cameras), and raises as soon as one of them raises |
| Update.FixFirst | src/update.py:49-59 | applying a list of fixes is the first fix and then the rest, stopping at the first that raises |
| Update.StringifyCamera | src/update.py:55-57 | the loop over one camera's items yields the camera with every `mac` or `_id` key's value made a string |
| Update.ConvertCameras | src/update.py:53-58 | the loop over the cameras yields each camera converted, in order, or raises when one is not an object |
| Update.ObjectsStayRaised | src/update.py:54-58 | once one camera has raised, the whole loop raises |
| Update.ObjectsRaise | src/update.py:54-58 | the loop over the cameras raises exactly when some camera is not an object |
| Update.ObjectsMapped | src/update.py:54-58 | when it does not raise, the loop gives one converted camera per camera, in order |
| Update.CamerasConverted | src/update.py:52-58 | the cameras raise exactly when one is not an object; otherwise each converted camera is the original with its id fields made strings, in the same order |
| Update.Convert | src/update.py:47-59 | the body of the loop over the features computes the record of the feature, or raises |
| Update.StringKeySuffix | src/update.py:57 | `k[-3:] in ("mac", "_id")` holds exactly for keys that end in `mac` or `_id`, short keys included |
| Update.CameraStringsFields | src/update.py:55-57 | a converted camera has the same keys in the same order; the values of `mac` and `_id` keys become strings and the others stay |
| Update.BaseFields | src/update.py:47-48 | in the base dict a key of the feature's properties wins; otherwise `last_update` is the stamp and `geometry` the feature's geometry, and no other key exists |
| Update.OsmIdRaises | src/update.py:50-51 | making `osmid` a string raises exactly when `osm` is present but is not an object holding `osmid` |
| Update.OsmIdFields | src/update.py:50-51 | only the `osmid` of the `osm` entry changes, to its string form; without `osm` the dict is unchanged |
| Update.CamerasRaise | src/update.py:52-58 | converting the cameras raises exactly when they are truthy but not a list of objects |
| Update.CamerasFields | src/update.py:52-58 | only `cameras` changes: when truthy it becomes the list of converted cameras, same length and order; otherwise it stays |
| Update.Stringified | src/update.py:49 | after the first fix `segment_id` is its own string form, and the rest of the record is the `osm` and cameras fixes applied to that |
| Update.RecordRaises | src/update.py:47-59 | a feature raises exactly when it has no `segment_id`, or a malformed `osm`, or truthy cameras that are not a list of objects |
| Update.RecordKeys | src/update.py:47-59 | a record has `segment_id` as a string, and every key other than `segment_id`, `osm` and `cameras` keeps its base value |
| Update.RecordOsm | src/update.py:50-51 | a record's `osm` entry has its `osmid` as a string and its other fields unchanged |
| Update.RecordCameras | src/update.py:52-59 | a record's truthy cameras are the converted cameras, one per original in order; falsy cameras stay as they were |
| Update.RecordEmitted | src/update.py:60 | whether a record is written is decided by the feature's own cameras and eco-counter, before conversion |
| Update.SameEmitted | src/update.py:60 | two records that agree on `cameras` and `eco-counter` are both written or both skipped |
| Update.CamerasEmitted | src/update.py:52-60 | converting the cameras never changes whether they are truthy |
| Update.WrittenStep | src/update.py:46-62 | one feature more: a raising record ends the file; otherwise its line is added when it is written |
| Update.WrittenAdvance | src/update.py:46-62 | the loop invariant of the export of one file is kept across a record that does not raise |
| Update.ExportFile | src/update.py:46-62 | the loop over the features of one file writes exactly the lines of the export of that file and reports whether it raised |
| Update.WrittenFails | src/update.py:46-62 | writing a file fails exactly when some record raises |
| Update.WrittenAll | src/update.py:46-62 | when no record raises, the lines are the written records, in feature order |
| Update.WrittenStops | src/update.py:46-62 | when the record at `j` is the first to raise, the lines are those of the records before it |
| Update.ExportFails | src/update.py:46-62 | the export of a file fails exactly when some feature cannot be converted |
| Update.ExportComplete | src/update.py:46-62 | when every feature converts, the lines are the converted records that have cameras or an eco-counter, in order |
| Update.ExportStops | src/update.py:46-62 | when feature `j` is the first that cannot be converted, the file holds the lines of the features before it and the export fails |
| Update.StoppedInTurn | src/update.py:42-62 | the files exported are a prefix of the files, none before the last has failed, and the export stops early only after a failed file |
| Update.StoppedStep | src/update.py:42-62 | one file more: a failed file ends the export; otherwise the next files follow |
| Update.StoppedAdvance | src/update.py:42-62 | the loop invariant of the export of all files is kept across a file that does not fail |
| Update.StoppedStart | src/update.py:42-62 | before the first file the export so far is empty and the rest of the files are all of them |
| Update.StoppedFail | src/update.py:42-62 | at a file that fails, the export of all files is the export so far followed by that file |
| Update.StoppedEnd | src/update.py:42-62 | past the last file, the export so far is the export of all files |
| Update.ExportAll | src/update.py:41-62 | the loop over the GeoJSON files exports each file in turn, with the stamp to the minute, stopping after the first file that raises |
| Timestamps.Pow10 | src/update.py:41 | a power of ten is at least one |
| Timestamps.DigitsWidth | src/update.py:41 | a number below `10^w` has at most `w` digits |
| Timestamps.PadWidth | src/update.py:41 | padding a number below `10^w` to `w` places gives exactly `w` digits |
| Timestamps.IsoFormatShape | src/update.py:41 | `isoformat(" ")` of a UTC time is 25 characters at a whole second and 32 otherwise, and its first 16 are the time to the minute |
| Timestamps.IsoFormatSplit | src/update.py:41 | `isoformat(" ")` is the time to the minute followed by the seconds, the microseconds when not zero, and the offset |
| Timestamps.MinutesWidth | src/update.py:41 | the time to the minute is 16 characters |
| Timestamps.LastUpdateCut | src/update.py:41 | the stamp is the time to the minute when the microseconds are not zero, and only its first nine characters at a whole second |
| Timestamps.LastUpdateWholeSecond | src/update.py:41 | at 03:04:05.000000 on 2 January 2024 the stamp is `2024-01-0` |
| Timestamps.MinutesOf2024 | src/update.py:41 | on 2 January 2024 the first nine characters of the time to the minute are `2024-01-0` |
| Timestamps.MinutesPrefix | src/update.py:41 | the first nine characters of the time to the minute are the year, the month and the first digit of the day |
| Timestamps.Year2024 | src/update.py:41 | the year 2024 is written `2024` |
| Timestamps.LastUpdateMinutes | src/update.py:41 | the intended stamp is 16 characters, the time to the minute, at every instant |
| VmkImport.ServeReply | src/we_count/backend/vmk_import.py:37-41 | one request answers with the failing status, with an OGC exception, or with the next page of at most 1000 features from `startIndex` |
| VmkImport.Starts | src/we_count/backend/vmk_import.py:34-55 | a layer of `n` features is read in one request more than its full pages |
| VmkImport.FetchLayer | src/we_count/backend/vmk_import.py:30-56 | the paging loop gives every feature of the layer, nothing for status 400 or 404 or an OGC exception, and raises for any other failing status; its start indices step by 1000 |
| VmkImport.Base | src/we_count/backend/vmk_import.py:95-107 | the literal part of the properties has exactly the keys `segment_id` and the seven street attributes, in that order |
| VmkImport.BaseKeysDistinct | src/we_count/backend/vmk_import.py:97-105 | no key of the literal repeats |
| VmkImport.PropsOfGet | src/we_count/backend/vmk_import.py:95-107 | a key of `extra` wins; otherwise `segment_id` is the `link_id` and a street attribute is the feature's value or `None`; no other key exists |
| VmkImport.CountsGet | src/we_count/backend/vmk_import.py:118-122 | the count dict holds `dtvw_kfz`, `dtvw_lkw` and `dtvw_rad` with the given values |
| VmkImport.ByLink | src/we_count/backend/vmk_import.py:91-92 | the comprehension by `link_id` maps each `link_id` to the count of its last feature |
| VmkImport.FeaturesByLink | src/we_count/backend/vmk_import.py:93 | the Rad features by `link_id` form a dict with each key once |
| VmkImport.BuildFeatures | src/we_count/backend/vmk_import.py:110-137 | the two loops build exactly the features of the file: one per KFZ edge, then the Rad-only edges |
| VmkImport.KfzEdges | src/we_count/backend/vmk_import.py:110-123 | the loop over the KFZ edges builds one feature per edge, in order, and collects exactly their `link_id`s |
| VmkImport.KfzIdsStep | src/we_count/backend/vmk_import.py:113-114 | one KFZ edge more adds its `link_id` to the set |
| VmkImport.RadEdges | src/we_count/backend/vmk_import.py:126-137 | the loop over the Rad edges by `link_id` builds one feature for each edge outside the KFZ layer, in dict order |
| VmkImport.KfzFeatureCounts | src/we_count/backend/vmk_import.py:115-123 | a KFZ feature keeps its geometry; its `segment_id` is its `link_id`, and its LKW and Rad counts are looked up by `link_id`, `None` when missing |
| VmkImport.KfzFeatures | src/we_count/backend/vmk_import.py:110-123 | the `i`-th feature of the file is built from the `i`-th KFZ edge, with the last LKW and Rad counts of its `link_id` |
| VmkImport.GeoFeaturesHead | src/we_count/backend/vmk_import.py:110-123 | the file starts with the KFZ features, in KFZ order |
| VmkImport.RadFeatureCounts | src/we_count/backend/vmk_import.py:129-137 | a Rad-only feature keeps its geometry, has no KFZ or LKW count, and has its own Rad count |
| VmkImport.ByLinkKeys | src/we_count/backend/vmk_import.py:93 | the Rad layer by `link_id` has a key exactly for each `link_id` in the layer |
| VmkImport.KeptKeys | src/we_count/backend/vmk_import.py:126-128 | the entries kept are exactly the keys outside the KFZ set |
| VmkImport.RadOnlyEdges | src/we_count/backend/vmk_import.py:125-137 | a Rad-only feature exists for a `link_id` exactly when the Rad layer has it and the KFZ layer does not |
| VmkImport.FreshAsWrittenAgrees | src/we_count/backend/vmk_import.py:72-79 | the age test as written raises exactly for a file without `created_at`; otherwise it agrees with the intended test |
| VmkImport.Run | src/we_count/backend/vmk_import.py:59-152 | a file under 30 days old is skipped unless cleared; an HTTP error of a layer propagates; without KFZ edges nothing is written; otherwise the file holds the year, the time and the built features |
| Sorting.Insert | src/we_count/backend/ecocounter_backup.py:148 | inserting into a sorted list keeps it sorted and adds exactly the new element |
| Sorting.ConsSorted | src/we_count/backend/ecocounter_backup.py:148 | an element ordered before every element of a sorted list can go in front and the list stays sorted |
| Sorting.SortBy | src/we_count/backend/ecocounter_backup.py:148 | `sorted` with a key gives a sorted permutation of its input |
| Sorting.InsertTied | src/we_count/backend/ecocounter_backup.py:148 | an inserted element goes behind every element it ties with |
| Sorting.SortByStable | src/we_count/backend/ecocounter_backup.py:148 | `sorted` is stable: the elements that tie with any given one keep their relative order |
| Sorting.Dedup | src/we_count/backend/ecocounter_backup.py:78 | removing repeats keeps exactly the elements of the input, each once |
| Sorting.SortedSet | src/we_count/backend/ecocounter_backup.py:78 | `sorted(set(...))` is sorted, holds each element once, and holds exactly the input's elements |
| Sorting.StrictlySorted | src/we_count/backend/sensor_positions.py:21 | under an antisymmetric order a sorted list without repeats is strictly increasing |
| PyDict.Union | src/we_count/backend/ecocounter_backup.py:156 | in the union of two dicts a key of the second takes its last value there, any other key keeps its value in the first, and a dict without repeated keys stays one |
| PyDict.FromPairs | src/we_count/backend/vmk_import.py:91-93 | a dict comprehension holds each key once, with the value of its last pair |

## Left out

### Outside the model
- The dashboard's layout, figures, translations and callbacks are not modelled. Only the selection rules of `app.py` are, with the database answers and the current date as parameters.
- The callback that decides when to recompute the map data is not modelled. Its test `callback_trigger == 'toggle_active_filter' or 'hardware_version'` (`app.py:504`) always holds, because a non-empty string is true, so the script recomputes the map data on every call. The model states `update_map_data` itself.
- Network and database access become parameters: HTTP requests, the Telraam, FROST and ArcGIS APIs, the WFS server of the traffic volume map, and the SQL session. So do the file system, the clock, `random.randint`, `time.sleep`, time-zone lookup and conversion, and OpenStreetMap edge lookup (`find_edge`, with its street graph and reverse geocoding). The model does not cover their failures beyond the error answers they return.
- Printing, logging, `--verbose` messages and the process exit code are not modelled.
- Concurrency is not modelled: the dashboard's database lock, and the web server that runs the scripts.
- pandas operations are modelled only in their effect on rows and columns:
  - `pd.cut` binning, `astype` conversions and the gzip and Parquet encodings are not modelled;
  - row order after `pd.merge` in `src/bzm_get_data.py` is not modelled: the merged table is stated as a set of rows per location;
  - CSV writing is modelled as the list of rows written, not as bytes.
- Floating-point numbers are not a JSON value of the model. `get_column_values` in `backup_data.py` rounds float counts and applies `round_separator` to `uptime_rel`, `v85` and the speed histogram. In the model an attribute is read only when it is an integer, so a float count or `v85` becomes an empty cell. Rounding and the decimal separator are not modelled.
- `bzm_get_data._read_csv` is modelled as the list of monthly files it reads. Reading and concatenating them with pandas is not modelled, including the `ValueError` of `pd.concat` on an empty list.
- `update.py` is modelled from the first `site-packages` entry to the lines written to each Kibana file. The calls to `sensor_positions`, `backup_data` and `bzm_get_data` at the top of the script are modelled in their own modules, not as part of `Update`. Opening, reading and writing the files is not modelled.

### Helper versions the legacy scripts assume
- The first-generation scripts in `src/` use helpers that `src/common.py` and `src/datamodel.py` do not provide. The model supplies what they use, as follows.
  - `src/backup_data.py` imports `TrafficCountAdvanced`, which `src/datamodel.py` lacks. It reads `options.secrets`, `url`, `csv`, `csv_segments` and `advanced`, which `get_options` in `src/common.py` does not define. It calls `Segment` with one argument. The model takes the backend's `TrafficCount` layout from `Datamodel`, the backend's mode lists, and the options as parameters.
  - `src/sensor_positions.py` reads `options.js_file`, `options.secrets` and `options.osm`, which `src/common.py` does not define. The model takes them as parameters; `osm` is the boolean `useNoData`.
  - `src/update.py` imports `GEO_JSON_NAME` from `src/common.py`, which does not define it. The file name is not part of the model.
- The backend's `backup_data.py` uses a datamodel that is not among the source files: `Segment.timezone`, `TrafficCount.get_histogram()` and `modes()`, and `TrafficCountAdvanced`. The model takes the time zone and the histogram as parameters, and the modes as the lists the script names.
- `src/import_ecocounter.py` reads `s.timezone` and calls `get_options(args, "ecocounter.geojson")`, and `src/common.py` provides neither. The model takes the time zone conversion and the options as parameters.

### Error paths stated as requirements or read differently
- Common.TextOf: a stamp that is neither a string nor missing makes `date.replace` raise an `AttributeError` in `parse_utc`. The model reads it as empty text, which then parses as no date.
- SensorPositions.Recent: an empty or `"NaT"` `last_prop_fetch` makes `parse_utc` return `None`. The comparison `None > datetime` raises a `TypeError` at `sensor_positions.py:25` when the budget is not used up. The model reads such a stamp as not recent, so the segment is refreshed.
- Osm.Recent: the same `TypeError` at `osm.py:33` for an empty or `"NaT"` `last_osm_fetch`. The model reads such a stamp as not recent, so the edge is looked up again.
- Osm.AddOsm: `max_updates` of 0 or less still allows one lookup, because the budget is checked only after the update (`osm.py:50`). The model keeps this behaviour.
- Common.ConnectionProvider.constructor requires at least one token. With an empty token list, `random.randint(0, -1)` raises a `ValueError`.
- LegacyCommon.ConnectionProvider.Request requires at least one key. With no connection, `time.sleep(1.1 / len(...))` divides by zero.
- BzmGetData.Run requires `aggregate >= 0`. An aggregate of 0 is modelled: it fails with a division by zero before anything is saved. A negative aggregate makes the loop of `main` walk backwards forever, so it is excluded.
- BzmGetData.ReadCsv requires that the start does not come after the end. Otherwise the `!=` loop of `_read_csv` never ends.
- VmkImport.Run requires every KFZ feature to have `link_id`, and every LKW and Rad feature to have `link_id` and its count. Otherwise `[...]` raises a `KeyError` in `main`.
- EcocounterBackup.Run, TeuBackup.Run, MautBackup.Run, EcocounterPositions.Run, TeuPositions.Run, MautPositions.Run, SensorPositions.Run and LegacySensorPositions.Run require the stored GeoJSON file to give every feature a `segment_id`. The scripts index it with `[...]` and raise a `KeyError` otherwise. MautPositions.Run also requires every section to have an `abschnitt_id`.
- Osm.AddOsm and the positions scripts require `find_edge` to return a dict, that is, pairs with no repeated key.
- EcocounterBackup.Run: counts are unbounded integers. `pd.array(..., dtype="uint16")` raises for a count outside 0..65535, and that raise is not modelled. The sum `bike_total` is modelled modulo 65536, as `uint16` addition wraps.
- TeuBackup.Run: the vehicle counts are unbounded integers. A count outside 0..65535 makes `pd.array(..., dtype="uint16")` raise, and that is not modelled.
- Backup.UpdateDb and ImportEcocounter.UpdateDb require each segment's `counts` to be strictly sorted by `date_utc`. `bisect` needs a sorted list. The relationship at `src/datamodel.py:96` has no `order_by`, so this order after a reload from the database is an assumption of the model, not a guarantee of the source.
- BackupExport.MonthFiles and StationTables.MonthExports take the month of the newest data as given. The `--csv` step of the scripts reads `newest_data.year`. When the update found no new data, `newest_data` is `None` and that read raises an `AttributeError`, even with `csv_start_year` set. This happens at `src/we_count/backend/backup_data.py:190`, `src/backup_data.py:196` and `ecocounter_backup.py:160`. BackupExport.CsvMonths and StationTables.CsvExports model that raise as `None`. EcocounterBackup.KeptWithoutNewest shows that the ecocounter run reaches it with a stored table and no new rows. In `teu_backup.py:156` it cannot happen, because that run stops earlier when no station brings rows. The Run methods end once the table is written and leave the `--csv` step to those members.
- LegacySensorPositions.WithCameras takes `services.cameras(id)` as the value under `camera`. A camera reply without `camera`, such as the `{}` that `request` returns after throttled attempts, makes `cameras["camera"]` raise a `KeyError` at `src/sensor_positions.py:24`. That raise is not modelled.
- LegacySensorPositions.FetchMissing: `fetch` gives `None` for a reply without `features` and the first feature otherwise. A reply whose `features` is an empty list makes `["features"][0]` raise an `IndexError` at `src/sensor_positions.py:91`. The model reads it like a reply without `features`, so the id is skipped.
- LegacySensorPositions.Run requires every live feature to have a `segment_id`. Otherwise `segment["properties"]["segment_id"]` raises a `KeyError` at `src/sensor_positions.py:82`.
- LegacySensorPositions.Run requires every fetched segment to have an `oidn` (`Fetchable`). Otherwise `segment["properties"]["oidn"]` raises a `KeyError` at `src/sensor_positions.py:94`.
- LegacySensorPositions.Run requires every rebuilt segment to have a `segment_id` (`IdentifiedWhenFetched`). `add_osm` and `add_camera` index it at `src/sensor_positions.py:22` and `:30`.
- EcocounterBackup.StreamOf reads a counter without `datastreams` as having no datastream. In the source, `c["datastreams"]` raises a `KeyError` for the first counter of a direction that lacks the key (`ecocounter_backup.py:66-67`). The model gives that counter no datastream: without a left datastream the station is skipped, and a missing right one is read as absent.
- ImportEcocounter.NameIn answers false for a header cell that is not text. In the source, `cnt["name"] in col` raises a `TypeError` for a non-empty number or date cell (`src/import_ecocounter.py:55`). In the model such a cell matches no counter.
- Update.ExportFile and Update.ExportAll take each file as its list of features, each with properties and a geometry. A file without `features`, or a feature without `geometry` or `properties`, raises a `KeyError` at `src/update.py:46-48` and `src/we_count/backend/update.py:45-47`. That raise is not modelled.
- LegacyBzmGetData.GetLocations takes the location rows after `drop(['uptime', 'v85'], axis=1)`. A file that lacks either column makes that drop raise a `KeyError` at `src/bzm_get_data.py:57`. That raise is not modelled.
- App.MinMaxStr takes the street's first and last date as text. For a street without rows, `min(date_local)` and `max(date_local)` are `NULL`, and `None.strftime` raises an `AttributeError` at `app.py:272` and `:284`. That case is not modelled.
- Osm.Coords gives `JNull` to `find_edge` for a geometry that is neither a Point nor a LineString and has no first line. In the source, `geometry["coordinates"][0]` raises an `IndexError` for an empty `MultiLineString` and a `KeyError` without `coordinates` (`osm.py:45`).
- EcocounterPositions.PointCoords gives no coordinates, so the station feature gets no geometry, for a first location that is a `Point` without `coordinates` and for a `location` that is `null`. In the source the first raises a `KeyError` on `geo["coordinates"]` (`ecocounter_positions.py:97`, `teu_positions.py:58`) and the second an `AttributeError` on `geo.get` (`ecocounter_positions.py:96`, `teu_positions.py:57`).
- LegacyCommon.ApiKeys strips only ASCII whitespace (space, tab, line feed, carriage return, vertical tab, form feed). Python's `str.strip()` also strips U+001C to U+001F, U+0085, U+00A0 and the other Unicode whitespace; the model keeps those characters in a key.

### Orders not modelled
- App.MapData: the legend order from `df_map.sort_values(by=['map_line_color'])` (`app.py:246`) is not modelled. That sort is not stable (quicksort), so the order among equal colours is unspecified. The model states which segments are kept, in input order.
- SensorPositions.Invalid: the segments that left the box are appended in the order of a Python `set` (`sensor_positions.py:37-41`), which is unspecified. The model appends them in the order of the stored file.

## Findings

| source | as written | input that shows it | evidently intended | confidence | as-written member | corrected member |
|---|---|---|---|---|---|---|
| src/update.py:41 | `isoformat(" ")[:-16]` cuts a fixed 16 characters from the end, but `isoformat` leaves out the microseconds when they are zero, so the string is 7 characters shorter | the current time 2024-01-02 03:04:05.000000 UTC gives `last_update` `2024-01-0` | the time to the minute, `2024-01-02 03:04`, as the first 16 characters (`isoformat(" ")[:16]`) | not executed | Timestamps.LastUpdateWholeSecond | Timestamps.LastUpdateMinutes |
| src/we_count/backend/vmk_import.py:75 | for a file without `created_at`, the default `"1970-01-01"` parses to a datetime without time zone, and subtracting it from the aware current time raises a `TypeError` | an existing `vmk_2023.json` whose top level has no `created_at`, run without `--clear` | a missing stamp counts as 1970, so the file is stale and is rebuilt | not executed | VmkImport.FreshAsWrittenAgrees | VmkImport.Run |
| src/import_ecocounter.py:73-77 | each row is passed to `TrafficCount(entry)` with a `datetime` date and no histogram. `src/datamodel.py:28` calls `date.replace("Z", "+00:00")` on that datetime through `parse_utc`, which raises, and `src/datamodel.py:31` would raise a `KeyError` for the missing `car_speed_hist_0to120plus` | any data row with a date and a count, such as a row with local time 0 and 3 bikes in the left column | the row is stored as an hourly count of that date, replacing a count of the same date | not executed | ImportEcocounter.RowAsWrittenExample | ImportEcocounter.DataEntriesExactly |
