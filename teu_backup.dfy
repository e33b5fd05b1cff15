/**
  `teu_backup.py`: the vehicle counts (all vehicles, cars, lorries) of the
  traffic detection stations, read station by station from one datastream
  per vehicle class since the last backup, collected, merged into the table
  by (segment, date) and exported month by month.  The station file, the
  table and the export are `StationTables`'.
*/
module TeuBackup {
  import opened Wrappers
  import opened Json
  import opened Strings
  import PyDict
  import Common
  import Seqs
  import opened StationTables

  const PeriodNormal: string := "1-Stunde"
  const PeriodAdvanced: string := "5-Min"

  /** The vehicle classes, in the order of the count columns `kfz`, `pkw`, `lkw`. */
  const Vehicles: seq<string> := ["KFZ", "PKW", "LKW"]

  /** Where the counts of a station start when it is cleared or its stamp is empty. */
  const Start: string := "2010-01-01T00:00:00+00:00"

  function Period(advanced: bool): string {
    if advanced then PeriodAdvanced else PeriodNormal
  }

  // ---------------------------------------------------------------------
  // Datastreams and the start of the fetch
  // ---------------------------------------------------------------------

  /** `j.get(key, {})`: a missing key reads as an empty object. */
  function Sub(j: Json, key: string): Json {
    Field(j, key).GetOr(JObj([]))
  }

  /** `t.get("datastreams", {}).get(v, {}).get("Anzahl", {}).get(period)` */
  function Datastream(t: Props, vehicle: string, period: string): Json {
    var all := PyDict.Get(t, "datastreams").GetOr(JObj([]));
    Field(Sub(Sub(all, vehicle), "Anzahl"), period).GetOr(JNull)
  }

  /** The datastream of every vehicle class, in the order of `Vehicles`. */
  function Streams(t: Props, period: string): (r: seq<Json>)
    ensures |r| == |Vehicles| && forall k :: 0 <= k < |Vehicles| ==> r[k] == Datastream(t, Vehicles[k], period)
  {
    seq(|Vehicles|, k requires 0 <= k < |Vehicles| => Datastream(t, Vehicles[k], period))
  }

  /** `any(ds_by_vehicle.values())` */
  predicate AnyTruthy(streams: seq<Json>) {
    exists k :: 0 <= k < |streams| && Truthy(streams[k])
  }

  /** `since`: 2010 when clearing, else `parse_utc_dict(t, backup_date) or epoch`. */
  function Since(t: Props, clear: bool, key: string): string {
    if clear then Start else Common.StampOr(t, key, Start)
  }

  /**
    Clearing starts at 2010; otherwise a stored stamp in `+00:00` form is
    where the fetch starts, an empty stamp falls back to 2010, and a station
    without a stamp is fetched from the start of 1970.
  */
  lemma SinceRules(t: Props, clear: bool, key: string)
    ensures clear ==> Since(t, clear, key) == Start
    ensures !clear && !PyDict.HasKey(t, key) ==> Since(t, clear, key) == Common.Epoch
    ensures !clear && PyDict.Get(t, key) == Some(JStr("")) ==> Since(t, clear, key) == Start
    ensures forall s :: !clear && PyDict.Get(t, key) == Some(JStr(s)) && s != "" && s != "NaT" && 'Z' !in s ==>
      Since(t, clear, key) == s
  {
    if !clear {
      if !PyDict.HasKey(t, key) {
        Common.StampMissing(t, key, Start);
      } else {
        var v := PyDict.Get(t, key).value;
        if v.JStr? {
          Common.StampStored(t, key, Start, v.s);
        }
      }
    }
  }

  // ---------------------------------------------------------------------
  // One station
  // ---------------------------------------------------------------------

  /** The count of every vehicle class at `d`, 0 where a class has none. */
  function CountsAt(obs: seq<PyDict.Dict<string, int>>, d: string): (r: seq<int>)
    ensures |r| == |obs| && forall k :: 0 <= k < |obs| ==> r[k] == CountAt(obs[k], d)
  {
    seq(|obs|, k requires 0 <= k < |obs| => CountAt(obs[k], d))
  }

  /** The new rows of one station, one per date, one count column per vehicle class. */
  function Rows(sid: int, dates: seq<string>, obs: seq<PyDict.Dict<string, int>>): (r: seq<Record>)
    ensures |r| == |dates| && forall i :: 0 <= i < |dates| ==> r[i] == Record(sid, dates[i], CountsAt(obs, dates[i]))
  {
    if dates == [] then []
    else Rows(sid, dates[..|dates| - 1], obs) + [Record(sid, dates[|dates| - 1], CountsAt(obs, dates[|dates| - 1]))]
  }

  /** The observations of every vehicle class since `since`; none for a class without a datastream. */
  function ObservedAll(streams: seq<Json>, since: string, env: Env): (r: seq<PyDict.Dict<string, int>>)
    ensures |r| == |streams| && forall k :: 0 <= k < |streams| ==> r[k] == Observed(streams[k], since, env)
  {
    Seqs.Map(streams, ObserveWith(since, env))
  }

  function ObserveWith(since: string, env: Env): Json -> PyDict.Dict<string, int> {
    stream => Observed(stream, since, env)
  }

  /** One station of `update_data`: `None` when it is skipped, else its new rows, possibly none. */
  function Fetched(sid: int, t: Props, env: Env): Option<seq<Record>> {
    var streams := Streams(t, Period(env.advanced));
    if !AnyTruthy(streams) then None
    else
      var obs := ObservedAll(streams, Since(t, env.clear, BackupKey(env.advanced)), env);
      Some(Rows(sid, Dates(obs), obs))
  }

  /** Whether some vehicle class has an observation at `d`. */
  predicate Seen(obs: seq<PyDict.Dict<string, int>>, d: string) {
    exists k :: 0 <= k < |obs| && PyDict.HasKey(obs[k], d)
  }

  /**
    The rows built from the vehicle classes' observations: one per interval
    start seen in any class, in increasing order, all for segment `sid`,
    each with one count per class (0 where the class has none).
  */
  lemma StationRows(sid: int, obs: seq<PyDict.Dict<string, int>>)
    ensures var rows := Rows(sid, Dates(obs), obs);
      forall i, j :: 0 <= i < j < |rows| ==> LexLess(rows[i].date, rows[j].date)
    ensures var rows := Rows(sid, Dates(obs), obs);
      forall d :: (exists i :: 0 <= i < |rows| && rows[i].date == d) <==> Seen(obs, d)
    ensures var rows := Rows(sid, Dates(obs), obs);
      forall i :: 0 <= i < |rows| ==> (rows[i].segmentId == sid && |rows[i].counts| == |obs| &&
        forall k :: 0 <= k < |obs| ==> rows[i].counts[k] == CountAt(obs[k], rows[i].date))
  {
    forall d ensures (exists i :: 0 <= i < |Rows(sid, Dates(obs), obs)| && Rows(sid, Dates(obs), obs)[i].date == d) <==> Seen(obs, d) {
      RowDate(sid, obs, d);
    }
  }

  /** A row has date `d` exactly when some vehicle class has an observation at `d`. */
  lemma RowDate(sid: int, obs: seq<PyDict.Dict<string, int>>, d: string)
    ensures var rows := Rows(sid, Dates(obs), obs);
      (exists i :: 0 <= i < |rows| && rows[i].date == d) <==> Seen(obs, d)
  {
    if Seen(obs, d) {
      SeenRow(sid, obs, d);
    } else {
      RowSeen(sid, obs, d);
    }
  }

  lemma SeenRow(sid: int, obs: seq<PyDict.Dict<string, int>>, d: string)
    requires Seen(obs, d)
    ensures exists i :: 0 <= i < |Dates(obs)| && Rows(sid, Dates(obs), obs)[i].date == d
  {
    var dates := Dates(obs);
    assert d in dates;
    var i :| 0 <= i < |dates| && dates[i] == d;
    assert Rows(sid, dates, obs)[i].date == d;
  }

  lemma RowSeen(sid: int, obs: seq<PyDict.Dict<string, int>>, d: string)
    requires !Seen(obs, d)
    ensures var rows := Rows(sid, Dates(obs), obs);
      forall i :: 0 <= i < |rows| ==> rows[i].date != d
  {
    var dates := Dates(obs);
    var rows := Rows(sid, dates, obs);
    assert d !in dates;
    forall i | 0 <= i < |rows| ensures rows[i].date != d {
      assert rows[i].date == dates[i];
    }
  }

  lemma FetchedOwnRows(sid: int, t: Props, env: Env)
    ensures Fetched(sid, t, env).Some? ==> OwnRows(sid, Fetched(sid, t, env).value)
  {
    var streams := Streams(t, Period(env.advanced));
    if AnyTruthy(streams) {
      var obs := ObservedAll(streams, Since(t, env.clear, BackupKey(env.advanced)), env);
      StationRows(sid, obs);
      var rows := Rows(sid, Dates(obs), obs);
      forall i, j | 0 <= i < j < |rows| ensures Key(rows[i]) != Key(rows[j]) {
        LexIrreflexive(rows[i].date);
      }
    }
  }

  /** The fetch of one station in `update_data`: `None` when no vehicle class has a datastream. */
  method FetchStation(sid: int, t: Props, env: Env) returns (rows: Option<seq<Record>>)
    ensures rows == Fetched(sid, t, env)
  {
    var streams := Streams(t, Period(env.advanced));
    if !AnyTruthy(streams) {
      return None;
    }
    var since := Since(t, env.clear, BackupKey(env.advanced));
    var obs: seq<PyDict.Dict<string, int>> := [];
    for k := 0 to |streams|
      invariant obs == Seqs.Map(streams[..k], ObserveWith(since, env))
    {
      Seqs.MapStep(streams, k, ObserveWith(since, env));
      obs := obs + [Observed(streams[k], since, env)];
    }
    assert streams[..|streams|] == streams;
    rows := Some(Rows(sid, Dates(obs), obs));
  }

  // ---------------------------------------------------------------------
  // `update_data`
  // ---------------------------------------------------------------------

  function ResultsOf(things: Things, env: Env): (r: Results)
    ensures |r| == |things| && forall i :: 0 <= i < |things| ==> r[i] == (things[i].0, Fetched(things[i].0, things[i].1, env))
  {
    seq(|things|, i requires 0 <= i < |things| => (things[i].0, Fetched(things[i].0, things[i].1, env)))
  }

  lemma ResultsWellFormed(things: Things, env: Env)
    requires PyDict.Valid(things)
    ensures WellFormed(ResultsOf(things, env))
  {
    var r := ResultsOf(things, env);
    forall i | 0 <= i < |r| && r[i].1.Some? ensures OwnRows(r[i].0, r[i].1.value) {
      FetchedOwnRows(things[i].0, things[i].1, env);
    }
  }

  /** `all_new`, concatenated: the rows of every station in turn. */
  function AllNew(results: Results): seq<Record> {
    if results == [] then []
    else AllNew(results[..|results| - 1]) + RowsOf(results[|results| - 1])
  }

  /** `pd.concat(all_new) if all_new else None`: no frame when no station brought a row. */
  function Collected(results: Results): Option<seq<Record>> {
    var rows := AllNew(results);
    if rows == [] then None else Some(rows)
  }

  /**
    The collected rows are exactly the rows of the stations; there are none
    exactly when no station brought a row, and no (segment, date) comes twice.
  */
  lemma AllNewExactly(results: Results)
    requires WellFormed(results)
    ensures forall x :: x in AllNew(results) <==> exists i :: 0 <= i < |results| && x in RowsOf(results[i])
    ensures AllNew(results) == [] <==> forall i :: 0 <= i < |results| ==> RowsOf(results[i]) == []
    ensures UniqueKeys(AllNew(results))
  {
    AllNewMembers(results);
    AllNewUnique(results);
  }

  lemma {:induction false} AllNewMembers(results: Results)
    ensures forall x :: x in AllNew(results) <==> exists i :: 0 <= i < |results| && x in RowsOf(results[i])
    ensures AllNew(results) == [] <==> forall i :: 0 <= i < |results| ==> RowsOf(results[i]) == []
  {
    if results != [] {
      var n := |results| - 1;
      var init := results[..n];
      assert forall i :: 0 <= i < n ==> results[i] == init[i];
      AllNewMembers(init);
    }
  }

  lemma {:induction false} AllNewUnique(results: Results)
    requires WellFormed(results)
    ensures UniqueKeys(AllNew(results))
  {
    if results != [] {
      var n := |results| - 1;
      var init := results[..n];
      var rows := RowsOf(results[n]);
      assert forall i :: 0 <= i < n ==> results[i] == init[i];
      assert WellFormed(init);
      AllNewUnique(init);
      AllNewMembers(init);
      assert OwnRows(results[n].0, rows);
      forall x, y | x in AllNew(init) && y in rows ensures Key(x) != Key(y) {
        // Earlier rows belong to other stations' segments.
        var s :| 0 <= s < n && x in RowsOf(init[s]);
        assert OwnRows(init[s].0, RowsOf(init[s]));
      }
      UniqueAppend(AllNew(init), rows);
    }
  }

  /**
    The table after `main`'s merge: every collected row, and an old row
    exactly when no station brought a row for its segment and date (the
    per-segment `isin` filter); no (segment, date) repeats when none did.
  */
  lemma TableExactly(df: Option<seq<Record>>, results: Results)
    requires WellFormed(results)
    ensures forall x :: x in Merge(df, AllNew(results)) <==>
      (exists i :: 0 <= i < |results| && x in RowsOf(results[i])) ||
      (df.Some? && x in df.value && !exists y :: y in AllNew(results) && y.segmentId == x.segmentId && y.date == x.date)
    ensures (df.Some? ==> UniqueKeys(df.value)) ==> UniqueKeys(Merge(df, AllNew(results)))
  {
    AllNewExactly(results);
    MergeExactly(df, AllNew(results));
    var added := AllNew(results);
    forall x ensures Key(x) in KeySet(added) <==> exists y :: y in added && y.segmentId == x.segmentId && y.date == x.date {
      KeySetMembers(added, x);
    }
  }

  /** The collected rows after one more station. */
  lemma CollectStep(results: Results, i: nat)
    requires i < |results|
    ensures AllNew(results[..i + 1]) == AllNew(results[..i]) + RowsOf(results[i])
  {
    assert results[..i + 1][..i] == results[..i];
  }

  /** `update_data`: stamps, collected rows and newest date, station by station. */
  method UpdateData(things: Things, env: Env)
    returns (stamped: Things, collected: Option<seq<Record>>, newest: Option<string>)
    ensures stamped == StampedAll(things, ResultsOf(things, env), BackupKey(env.advanced), env.today)
    ensures collected == Collected(ResultsOf(things, env))
    ensures newest == NewestAll(ResultsOf(things, env), env.instant)
  {
    var key := BackupKey(env.advanced);
    ghost var results := ResultsOf(things, env);
    var allNew: seq<Record> := [];
    stamped, newest := [], None;
    var i := 0;
    while i < |things|
      invariant 0 <= i <= |things|
      invariant stamped == StampedAll(things[..i], results[..i], key, env.today)
      invariant allNew == AllNew(results[..i])
      invariant newest == NewestAll(results[..i], env.instant)
    {
      var sid, t := things[i].0, things[i].1;
      var rows := FetchStation(sid, t, env);
      StampStep(things, results, i, key, env.today, env.instant);
      CollectStep(results, i);
      assert results[i].1 == rows;
      if rows.Some? && rows.value != [] {
        allNew := allNew + rows.value;
        var last := rows.value[|rows.value| - 1].date;
        if newest.None? || env.instant(newest.value) < env.instant(last) {
          newest := Some(last);
        }
      }
      stamped := stamped + [(sid, StampOne(t, rows, key, env.today))];
      i := i + 1;
    }
    assert things[..i] == things;
    assert results[..i] == results;
    collected := if allNew == [] then None else Some(allNew);
  }

  // ---------------------------------------------------------------------
  // `main`
  // ---------------------------------------------------------------------

  /**
    `main` after the station file is refreshed: load the stations, keep the
    `limit` backed up longest ago, collect their new rows, merge them into
    the table, sort and write it, and write the stamps back into the
    station file.
  */
  method Run(parquet: Option<seq<Record>>, file: Option<seq<Props>>, limit: int, env: Env) returns (out: Outcome)
    requires file.Some? ==> AllHaveSegmentId(file.value)
    ensures out.NoStations? <==> LoadThings(file) == []
    ensures var things := Oldest(LoadThings(file), limit, BackupKey(env.advanced), env.instant);
      var results := ResultsOf(things, env);
      (out.NoData? <==> LoadThings(file) != [] && AllNew(results) == []) &&
      (out.Written? ==>
        file.Some? &&
        out.table == SortRecords(Merge(parquet, AllNew(results))) &&
        out.newest == NewestAll(results, env.instant) &&
        |out.features| == |file.value| &&
        forall i :: 0 <= i < |file.value| ==>
          out.features[i] == SavedProps(file.value[i],
            PyDict.Union(LoadThings(file), StampedAll(things, results, BackupKey(env.advanced), env.today))))
  {
    var loaded := LoadThings(file);
    if loaded == [] {
      return NoStations;
    }
    var things := Oldest(loaded, limit, BackupKey(env.advanced), env.instant);
    var stamped, collected, newest := UpdateData(things, env);
    if collected.None? {
      return NoData;
    }
    var table := Merge(parquet, collected.value);
    var saved := SaveThings(file.value, PyDict.Union(LoadThings(file), stamped));
    out := Written(SortRecords(table), saved, newest);
  }
}
