/**
  `ecocounter_backup.py`: the bicycle counts of the Eco-Counter stations,
  read station by station from their left and right datastreams since the
  last backup, merged into the table by (segment, date), and exported month
  by month.  The station file, the table and the export are `StationTables`'.
*/
module EcocounterBackup {
  import opened Wrappers
  import opened Json
  import opened Strings
  import PyDict
  import Common
  import opened StationTables

  const PeriodNormal: string := "1-Stunde"
  const PeriodAdvanced: string := "15-Min"

  /** Where the counts of a station start when its file does not say. */
  const FirstDataDefault: string := "2010-01-01T00:00:00+00:00"

  /** `uint16` columns: the sum of two counts wraps around at 65536. */
  const UInt16: int := 65536

  function Period(advanced: bool): string {
    if advanced then PeriodAdvanced else PeriodNormal
  }

  // ---------------------------------------------------------------------
  // Datastreams and the start of the fetch
  // ---------------------------------------------------------------------

  /** `t.get("counter", [])` */
  function Counters(t: Props): seq<Json> {
    var c := PyDict.Get(t, "counter");
    if c.Some? && c.value.JArr? then c.value.items else []
  }

  /** Whether counter `c` counts the direction `side` (`c.get(side)` is truthy). */
  predicate Counts(c: Json, side: string) {
    Truthy(Field(c, side).GetOr(JNull))
  }

  /** `c["datastreams"].get(period)` */
  function StreamOf(c: Json, period: string): Json {
    match Field(c, "datastreams")
    case Some(ds) => Field(ds, period).GetOr(JNull)
    case None => JNull
  }

  /** `next((c["datastreams"].get(period) for c in counters if c.get(side)), None)` */
  function Datastream(counters: seq<Json>, side: string, period: string): Json {
    if counters == [] then JNull
    else if Counts(counters[0], side) then StreamOf(counters[0], period)
    else Datastream(counters[1..], side, period)
  }

  /**
    The datastream of a direction is the `period` stream of the first counter
    counting that direction, and `None` when no counter does.
  */
  lemma {:induction false} DatastreamFirst(counters: seq<Json>, side: string, period: string)
    ensures (forall i :: 0 <= i < |counters| ==> !Counts(counters[i], side)) ==>
      Datastream(counters, side, period) == JNull
    ensures forall i :: (0 <= i < |counters| && Counts(counters[i], side) &&
      (forall j :: 0 <= j < i ==> !Counts(counters[j], side))) ==>
      Datastream(counters, side, period) == StreamOf(counters[i], period)
  {
    if counters != [] {
      var rest := counters[1..];
      DatastreamFirst(rest, side, period);
      assert forall i :: 1 <= i < |counters| ==> counters[i] == rest[i - 1];
      if !Counts(counters[0], side) {
        forall i | 0 <= i < |counters| && Counts(counters[i], side) &&
          (forall j :: 0 <= j < i ==> !Counts(counters[j], side))
          ensures Datastream(counters, side, period) == StreamOf(counters[i], period)
        {
          assert i > 0 && rest[i - 1] == counters[i];
          assert forall j :: 0 <= j < i - 1 ==> rest[j] == counters[j + 1];
        }
      }
    }
  }

  /** `parse_utc(t.get("firstData", "")) or epoch`, as text. */
  function FirstData(t: Props): string {
    match Common.ParseUtc(Common.Iso(Common.TextOf(PyDict.Get(t, "firstData").GetOr(JStr("")))))
    case Some(Iso(text)) => text
    case _ => FirstDataDefault
  }

  /** `since`: the first data when clearing, else `parse_utc_dict(t, backup_date) or first_data`. */
  function Since(t: Props, clear: bool, key: string): string {
    if clear then FirstData(t) else Common.StampOr(t, key, FirstData(t))
  }

  /**
    Clearing starts at the first data; otherwise a stored stamp in `+00:00`
    form is where the fetch starts, an empty stamp falls back to the first
    data, and a station without a stamp is fetched from the start of 1970.
  */
  lemma SinceRules(t: Props, clear: bool, key: string)
    ensures clear ==> Since(t, clear, key) == FirstData(t)
    ensures !clear && !PyDict.HasKey(t, key) ==> Since(t, clear, key) == Common.Epoch
    ensures !clear && PyDict.Get(t, key) == Some(JStr("")) ==> Since(t, clear, key) == FirstData(t)
    ensures forall s :: !clear && PyDict.Get(t, key) == Some(JStr(s)) && s != "" && s != "NaT" && 'Z' !in s ==>
      Since(t, clear, key) == s
  {
    if !clear {
      if !PyDict.HasKey(t, key) {
        Common.StampMissing(t, key, FirstData(t));
      } else {
        var v := PyDict.Get(t, key).value;
        if v.JStr? {
          Common.StampStored(t, key, FirstData(t), v.s);
        }
      }
    }
  }

  // ---------------------------------------------------------------------
  // One station
  // ---------------------------------------------------------------------

  /** One new row: both directions (0 when missing) and their `uint16` sum. */
  function Row(sid: int, d: string, lft: PyDict.Dict<string, int>, rgt: PyDict.Dict<string, int>): Record {
    var l := CountAt(lft, d);
    var r := CountAt(rgt, d);
    Record(sid, d, [l, r, (l + r) % UInt16])
  }

  function Rows(sid: int, dates: seq<string>, lft: PyDict.Dict<string, int>, rgt: PyDict.Dict<string, int>): (r: seq<Record>)
    ensures |r| == |dates| && forall i :: 0 <= i < |dates| ==> r[i] == Row(sid, dates[i], lft, rgt)
  {
    if dates == [] then [] else Rows(sid, dates[..|dates| - 1], lft, rgt) + [Row(sid, dates[|dates| - 1], lft, rgt)]
  }

  /** One station of `update_data`: `None` when it is skipped, else its new rows, possibly none. */
  function Fetched(sid: int, t: Props, env: Env): Option<seq<Record>> {
    var period := Period(env.advanced);
    var lft := Datastream(Counters(t), "bikes_left", period);
    if !Truthy(lft) then None
    else
      var since := Since(t, env.clear, BackupKey(env.advanced));
      var obsL := Observed(lft, since, env);
      var obsR := Observed(Datastream(Counters(t), "bikes_right", period), since, env);
      Some(Rows(sid, Dates([obsL, obsR]), obsL, obsR))
  }

  /**
    The rows built from the two directions' observations: one per interval
    start seen in either, in increasing order, all for segment `sid`, with
    both counts (0 where a direction has none) and their sum modulo 65536.
  */
  lemma StationRows(sid: int, obsL: PyDict.Dict<string, int>, obsR: PyDict.Dict<string, int>)
    ensures var rows := Rows(sid, Dates([obsL, obsR]), obsL, obsR);
      forall i, j :: 0 <= i < j < |rows| ==> LexLess(rows[i].date, rows[j].date)
    ensures var rows := Rows(sid, Dates([obsL, obsR]), obsL, obsR);
      forall d :: (exists i :: 0 <= i < |rows| && rows[i].date == d) <==>
        PyDict.HasKey(obsL, d) || PyDict.HasKey(obsR, d)
    ensures RowsCount(sid, Dates([obsL, obsR]), obsL, obsR)
  {
    var dates := Dates([obsL, obsR]);
    var rows := Rows(sid, dates, obsL, obsR);
    DatesOfTwo(obsL, obsR);
    forall d ensures (exists i :: 0 <= i < |rows| && rows[i].date == d) <==> d in dates {
      if d in dates {
        DatedRow(sid, dates, obsL, obsR, d);
      } else {
        UndatedRow(sid, dates, obsL, obsR, d);
      }
    }
    RowsCounted(sid, dates, obsL, obsR);
  }

  /** A date of the list has its row. */
  lemma DatedRow(sid: int, dates: seq<string>, obsL: PyDict.Dict<string, int>, obsR: PyDict.Dict<string, int>, d: string)
    requires d in dates
    ensures exists i :: 0 <= i < |dates| && Rows(sid, dates, obsL, obsR)[i].date == d
  {
    var i :| 0 <= i < |dates| && dates[i] == d;
    assert Rows(sid, dates, obsL, obsR)[i].date == d;
  }

  /** A date not in the list has no row. */
  lemma UndatedRow(sid: int, dates: seq<string>, obsL: PyDict.Dict<string, int>, obsR: PyDict.Dict<string, int>, d: string)
    requires d !in dates
    ensures forall i :: 0 <= i < |dates| ==> Rows(sid, dates, obsL, obsR)[i].date != d
  {
  }

  /**
    Every row is of segment `sid` and holds both counts (0 where a direction
    has none) and their sum modulo 65536, which fits 16 bits.
  */
  predicate RowsCount(sid: int, dates: seq<string>, obsL: PyDict.Dict<string, int>, obsR: PyDict.Dict<string, int>) {
    var rows := Rows(sid, dates, obsL, obsR);
    forall i :: 0 <= i < |rows| ==>
      var l, r := CountAt(obsL, rows[i].date), CountAt(obsR, rows[i].date);
      rows[i].segmentId == sid && rows[i].counts == [l, r, (l + r) % UInt16] && 0 <= rows[i].counts[2] < UInt16
  }

  lemma RowsCounted(sid: int, dates: seq<string>, obsL: PyDict.Dict<string, int>, obsR: PyDict.Dict<string, int>)
    ensures RowsCount(sid, dates, obsL, obsR)
  {
    var rows := Rows(sid, dates, obsL, obsR);
    forall i | 0 <= i < |rows|
      ensures var l, r := CountAt(obsL, rows[i].date), CountAt(obsR, rows[i].date);
        rows[i].segmentId == sid && rows[i].counts == [l, r, (l + r) % UInt16] && 0 <= rows[i].counts[2] < UInt16
    {
      assert rows[i] == Row(sid, dates[i], obsL, obsR);
    }
  }

  /** The rows of a station with a left datastream are those of its two directions' observations. */
  lemma FetchedRows(sid: int, t: Props, env: Env)
    ensures Fetched(sid, t, env).None? <==> !Truthy(Datastream(Counters(t), "bikes_left", Period(env.advanced)))
    ensures Fetched(sid, t, env).Some? ==>
      var since := Since(t, env.clear, BackupKey(env.advanced));
      var obsL := Observed(Datastream(Counters(t), "bikes_left", Period(env.advanced)), since, env);
      var obsR := Observed(Datastream(Counters(t), "bikes_right", Period(env.advanced)), since, env);
      Fetched(sid, t, env).value == Rows(sid, Dates([obsL, obsR]), obsL, obsR)
  {
  }

  lemma FetchedOwnRows(sid: int, t: Props, env: Env)
    ensures Fetched(sid, t, env).Some? ==> OwnRows(sid, Fetched(sid, t, env).value)
  {
    if Fetched(sid, t, env).Some? {
      var since := Since(t, env.clear, BackupKey(env.advanced));
      var obsL := Observed(Datastream(Counters(t), "bikes_left", Period(env.advanced)), since, env);
      var obsR := Observed(Datastream(Counters(t), "bikes_right", Period(env.advanced)), since, env);
      FetchedRows(sid, t, env);
      StationRows(sid, obsL, obsR);
      var rows := Fetched(sid, t, env).value;
      forall i, j | 0 <= i < j < |rows| ensures Key(rows[i]) != Key(rows[j]) {
        LexIrreflexive(rows[i].date);
      }
    }
  }

  // ---------------------------------------------------------------------
  // `update_data`
  // ---------------------------------------------------------------------

  function ResultsOf(things: Things, env: Env): (r: Results)
    ensures |r| == |things| && forall i {:trigger r[i]} :: 0 <= i < |things| ==> r[i] == (things[i].0, Fetched(things[i].0, things[i].1, env))
  {
    seq(|things|, i requires 0 <= i < |things| => (things[i].0, Fetched(things[i].0, things[i].1, env)))
  }

  lemma ResultsWellFormed(things: Things, env: Env)
    requires PyDict.Valid(things)
    ensures WellFormed(ResultsOf(things, env))
  {
    var r := ResultsOf(things, env);
    forall i | 0 <= i < |r| && r[i].1.Some? ensures OwnRows(r[i].0, r[i].1.value) {
      FetchedOwnRows(things[i].0, things[i].1, env);
    }
  }

  /** The table after the stations so far, each replacing its own (segment, date) rows. */
  function MergedAll(df: Option<seq<Record>>, results: Results): Option<seq<Record>> {
    if results == [] then df
    else
      var prior := MergedAll(df, results[..|results| - 1]);
      var rows := RowsOf(results[|results| - 1]);
      if rows == [] then prior else Some(Merge(prior, rows))
  }

  /** The fetch of one station in `update_data`: `None` when it has no left datastream. */
  method FetchStation(sid: int, t: Props, env: Env) returns (rows: Option<seq<Record>>)
    ensures rows == Fetched(sid, t, env)
  {
    var period := Period(env.advanced);
    var lft := Datastream(Counters(t), "bikes_left", period);
    if !Truthy(lft) {
      return None;
    }
    var since := Since(t, env.clear, BackupKey(env.advanced));
    var obsL := Observations(env.fetch(lft, since));
    var rgt := Datastream(Counters(t), "bikes_right", period);
    var obsR := if Truthy(rgt) then Observations(env.fetch(rgt, since)) else [];
    rows := Some(Rows(sid, Dates([obsL, obsR]), obsL, obsR));
  }

  /** The table after one more station. */
  lemma MergeStep(results: Results, i: nat, df: Option<seq<Record>>)
    requires i < |results|
    ensures MergedAll(df, results[..i + 1]) ==
      if RowsOf(results[i]) == [] then MergedAll(df, results[..i])
      else Some(Merge(MergedAll(df, results[..i]), RowsOf(results[i])))
  {
    assert results[..i + 1][..i] == results[..i];
  }

  /** One turn of `update_data`: the stamps, table and newest date after station `i`, whose fetch gave `rows`. */
  lemma UpdateTurn(things: Things, results: Results, i: nat, key: string, today: string, instant: string -> int,
                   df: Option<seq<Record>>, rows: Option<seq<Record>>)
    requires |things| == |results| && i < |things| && results[i].1 == rows
    ensures StampedAll(things[..i + 1], results[..i + 1], key, today) ==
      StampedAll(things[..i], results[..i], key, today) + [(things[i].0, StampOne(things[i].1, rows, key, today))]
    ensures MergedAll(df, results[..i + 1]) ==
      if rows.Some? && rows.value != [] then Some(Merge(MergedAll(df, results[..i]), rows.value)) else MergedAll(df, results[..i])
    ensures var prior := NewestAll(results[..i], instant);
      NewestAll(results[..i + 1], instant) ==
        if rows.Some? && rows.value != [] && (prior.None? || instant(prior.value) < instant(rows.value[|rows.value| - 1].date))
        then Some(rows.value[|rows.value| - 1].date) else prior
  {
    StampStep(things, results, i, key, today, instant);
    MergeStep(results, i, df);
  }

  /** The merged table and the newest date after station `i`, whose fetch gave `rows`. */
  method Absorb(ghost df: Option<seq<Record>>, ghost results: Results, i: nat, rows: Option<seq<Record>>,
                table: Option<seq<Record>>, newest: Option<string>, instant: string -> int)
    returns (table': Option<seq<Record>>, newest': Option<string>)
    requires i < |results| && results[i].1 == rows
    requires table == MergedAll(df, results[..i]) && newest == NewestAll(results[..i], instant)
    ensures table' == MergedAll(df, results[..i + 1])
    ensures newest' == NewestAll(results[..i + 1], instant)
  {
    MergeStep(results, i, df);
    NewestStep(results, i, instant);
    table', newest' := table, newest;
    if rows.Some? && rows.value != [] {
      table' := Some(Merge(table, rows.value));
      var last := rows.value[|rows.value| - 1].date;
      if newest.None? || instant(newest.value) < instant(last) {
        newest' := Some(last);
      }
    }
  }

  /** `update_data`: stamps, merged table and newest date, station by station. */
  method UpdateData(things: Things, df: Option<seq<Record>>, env: Env)
    returns (stamped: Things, table: Option<seq<Record>>, newest: Option<string>)
    ensures stamped == StampedAll(things, ResultsOf(things, env), BackupKey(env.advanced), env.today)
    ensures table == MergedAll(df, ResultsOf(things, env))
    ensures newest == NewestAll(ResultsOf(things, env), env.instant)
  {
    var key := BackupKey(env.advanced);
    ghost var results := ResultsOf(things, env);
    stamped, table, newest := [], df, None;
    var i := 0;
    while i < |things|
      invariant 0 <= i <= |things|
      invariant stamped == StampedAll(things[..i], results[..i], key, env.today)
      invariant table == MergedAll(df, results[..i])
      invariant newest == NewestAll(results[..i], env.instant)
    {
      var sid, t := things[i].0, things[i].1;
      var rows := FetchStation(sid, t, env);
      assert results[i].1 == rows;
      StampStep(things, results, i, key, env.today, env.instant);
      table, newest := Absorb(df, results, i, rows, table, newest, env.instant);
      stamped := stamped + [(sid, StampOne(t, rows, key, env.today))];
      i := i + 1;
    }
    assert things[..i] == things;
    assert results[..i] == results;
  }

  /** The keys the stations bring new rows for. */
  function NewKeys(results: Results): set<(int, string)> {
    if results == [] then {}
    else NewKeys(results[..|results| - 1]) + KeySet(RowsOf(results[|results| - 1]))
  }

  /** Every new key belongs to a station of the results. */
  lemma {:induction false} NewKeysOwned(results: Results)
    requires WellFormed(results)
    ensures forall x :: x in NewKeys(results) ==> exists i :: 0 <= i < |results| && results[i].0 == x.0
  {
    if results != [] {
      var n := |results| - 1;
      var init := results[..n];
      var rows := RowsOf(results[n]);
      assert forall i :: 0 <= i < n ==> results[i] == init[i];
      assert WellFormed(init);
      NewKeysOwned(init);
      assert OwnRows(results[n].0, rows);
      forall x | x in NewKeys(results) ensures exists i :: 0 <= i < |results| && results[i].0 == x.0 {
        if x !in NewKeys(init) {
          var k :| 0 <= k < |rows| && Key(rows[k]) == x;
          assert rows[k] in rows;
        }
      }
    }
  }

  /**
    With no station bringing a row, the stored table is kept and there is no
    newest date: `main` then passes its `df is None` test and, under
    `--csv`, raises on `newest_data.year`.
  */
  lemma {:induction false} KeptWithoutNewest(df: Option<seq<Record>>, results: Results, instant: string -> int)
    requires forall i :: 0 <= i < |results| ==> RowsOf(results[i]) == []
    ensures MergedAll(df, results) == df && NewestAll(results, instant).None?
    decreases |results|
  {
    if results != [] {
      KeptWithoutNewest(df, results[..|results| - 1], instant);
    }
  }

  /** There is no table after `update_data` exactly when there was none and no station brought a row. */
  lemma {:induction false} MergedAllNone(df: Option<seq<Record>>, results: Results)
    ensures MergedAll(df, results).None? <==> df.None? && forall i :: 0 <= i < |results| ==> RowsOf(results[i]) == []
  {
    if results != [] {
      var n := |results| - 1;
      var init := results[..n];
      assert forall i :: 0 <= i < n ==> results[i] == init[i];
      MergedAllNone(df, init);
    }
  }

  /** A table without repeated (segment, date) keeps that property through `update_data`. */
  lemma {:induction false} MergedAllUnique(df: Option<seq<Record>>, results: Results)
    requires WellFormed(results)
    ensures (df.Some? ==> UniqueKeys(df.value)) && MergedAll(df, results).Some? ==> UniqueKeys(MergedAll(df, results).value)
  {
    if results != [] {
      var n := |results| - 1;
      var init := results[..n];
      var rows := RowsOf(results[n]);
      assert forall i :: 0 <= i < n ==> results[i] == init[i];
      assert WellFormed(init);
      MergedAllUnique(df, init);
      assert OwnRows(results[n].0, rows);
      if rows != [] {
        MergeExactly(MergedAll(df, init), rows);
      }
    }
  }

  /**
    The table after `update_data` holds every new row of every station, and
    an old row exactly when no station brought a row for its segment and date.
  */
  lemma MergedAllMembers(df: Option<seq<Record>>, results: Results)
    requires WellFormed(results)
    ensures MergedAll(df, results).Some? ==> forall x :: x in MergedAll(df, results).value <==>
      (exists i :: 0 <= i < |results| && x in RowsOf(results[i])) ||
      (df.Some? && x in df.value && Key(x) !in NewKeys(results))
  {
    forall x ensures MergedAll(df, results).Some? ==> (x in MergedAll(df, results).value <==>
      (exists i :: 0 <= i < |results| && x in RowsOf(results[i])) ||
      (df.Some? && x in df.value && Key(x) !in NewKeys(results)))
    {
      MergedAllMember(df, results, x);
    }
  }

  /** A row of another segment has no key among a station's own rows. */
  lemma OtherSegment(x: Record, sid: int, rows: seq<Record>)
    requires OwnRows(sid, rows) && x.segmentId != sid
    ensures Key(x) !in KeySet(rows)
  {
    forall k | 0 <= k < |rows| ensures Key(rows[k]) != Key(x) {
      assert rows[k] in rows;
    }
  }

  /** Whether one row `x` is in the table after `update_data`. */
  lemma {:induction false} MergedAllMember(df: Option<seq<Record>>, results: Results, x: Record)
    requires WellFormed(results)
    ensures MergedAll(df, results).Some? ==> (x in MergedAll(df, results).value <==>
      (exists i :: 0 <= i < |results| && x in RowsOf(results[i])) ||
      (df.Some? && x in df.value && Key(x) !in NewKeys(results)))
  {
    if results != [] {
      var n := |results| - 1;
      var init := results[..n];
      var last := results[n];
      var rows := RowsOf(last);
      assert forall i :: 0 <= i < n ==> results[i] == init[i];
      assert WellFormed(init);
      MergedAllMember(df, init, x);
      MergedAllNone(df, init);
      assert OwnRows(last.0, rows);
      assert (exists i :: 0 <= i < |results| && x in RowsOf(results[i])) <==>
        (exists i :: 0 <= i < n && x in RowsOf(init[i])) || x in rows by {
        if exists i :: 0 <= i < |results| && x in RowsOf(results[i]) {
          var i :| 0 <= i < |results| && x in RowsOf(results[i]);
          if i < n {
            assert x in RowsOf(init[i]);
          }
        }
        if exists i :: 0 <= i < n && x in RowsOf(init[i]) {
          var i :| 0 <= i < n && x in RowsOf(init[i]);
          assert x in RowsOf(results[i]);
        }
      }
      if rows != [] {
        MergeExactly(MergedAll(df, init), rows);
        // A row of an earlier station belongs to another segment, so this station does not drop it.
        if exists i :: 0 <= i < n && x in RowsOf(init[i]) {
          var i :| 0 <= i < n && x in RowsOf(init[i]);
          assert init[i].1.Some?;
          assert OwnRows(init[i].0, init[i].1.value);
          assert results[i] == init[i];
          OtherSegment(x, last.0, rows);
        }
      }
    }
  }

  /**
    The table after `update_data` holds every new row of every station, and
    an old row exactly when no station brought a row for its segment and
    date; it is `None` only when there was no table and no station brought a
    row.  A table without repeated (segment, date) keeps that property.
  */
  lemma MergedAllExactly(df: Option<seq<Record>>, results: Results)
    requires WellFormed(results)
    ensures MergedAll(df, results).None? <==> df.None? && forall i :: 0 <= i < |results| ==> RowsOf(results[i]) == []
    ensures MergedAll(df, results).Some? ==> forall x :: x in MergedAll(df, results).value <==>
      (exists i :: 0 <= i < |results| && x in RowsOf(results[i])) ||
      (df.Some? && x in df.value && Key(x) !in NewKeys(results))
    ensures (df.Some? ==> UniqueKeys(df.value)) && MergedAll(df, results).Some? ==> UniqueKeys(MergedAll(df, results).value)
    ensures forall x :: x in NewKeys(results) ==> exists i :: 0 <= i < |results| && results[i].0 == x.0
  {
    MergedAllNone(df, results);
    MergedAllMembers(df, results);
    MergedAllUnique(df, results);
    NewKeysOwned(results);
  }

  // ---------------------------------------------------------------------
  // `main`
  // ---------------------------------------------------------------------

  /**
    `main` after the station file is refreshed: load the stations, keep the
    `limit` backed up longest ago, update, sort and write the table, and
    write the stamps back into the station file.
  */
  method Run(parquet: Option<seq<Record>>, file: Option<seq<Props>>, limit: int, env: Env) returns (out: Outcome)
    requires file.Some? ==> AllHaveSegmentId(file.value)
    ensures out.NoStations? <==> LoadThings(file) == []
    ensures var things := Oldest(LoadThings(file), limit, BackupKey(env.advanced), env.instant);
      var results := ResultsOf(things, env);
      (out.NoData? <==> LoadThings(file) != [] && MergedAll(parquet, results).None?) &&
      (out.Written? ==>
        file.Some? &&
        out.table == SortRecords(MergedAll(parquet, results).value) &&
        out.newest == NewestAll(results, env.instant) &&
        |out.features| == |file.value| &&
        forall i :: 0 <= i < |file.value| ==>
          out.features[i] == SavedProps(file.value[i],
            PyDict.Union(LoadThings(file), StampedAll(things, results, BackupKey(env.advanced), env.today))))
  {
    var loaded := LoadThings(file);
    if loaded == [] {
      return NoStations;
    }
    var things := Oldest(loaded, limit, BackupKey(env.advanced), env.instant);
    var stamped, table, newest := UpdateData(things, parquet, env);
    if table.None? {
      return NoData;
    }
    var saved := SaveThings(file.value, PyDict.Union(LoadThings(file), stamped));
    out := Written(SortRecords(table.value), saved, newest);
  }
}
