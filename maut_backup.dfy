/**
  `maut_backup.py`: the lorry counts of the toll sections, fetched in one
  request for all sections since the newest observation of the last backup,
  merged into the table by (segment, date) and exported month by month.
  Unlike the station backups, the stamp is one date for the whole file: the
  newest observation fetched, stored under `last_data_backup`.
*/
module MautBackup {
  import opened Wrappers
  import opened Json
  import opened Strings
  import PyDict
  import Common
  import opened StationTables

  /** Where the counts start when clearing or when the file has no stamp. */
  const Start: string := "2000-01-01T00:00:00+00:00"

  /** `uint32` columns: counts wrap around at 2^32. */
  const UInt32: int := 0x1_0000_0000

  // ---------------------------------------------------------------------
  // The section file: `load_things` and `save_last_backup`
  // ---------------------------------------------------------------------

  /** The section file: its features' properties and its top-level `last_data_backup`. */
  datatype SectionFile = SectionFile(features: seq<Props>, lastDataBackup: Option<Json>)

  /** The sections of `load_things`, by segment id; none without a file. */
  function Sections(file: Option<SectionFile>): Things
    requires file.Some? ==> AllHaveSegmentId(file.value.features)
  {
    LoadThings(if file.None? then None else Some(file.value.features))
  }

  /** The stamp of `load_things`: `parse_utc(data.get("last_data_backup"))`, as text. */
  function LastBackup(file: Option<SectionFile>): Option<string> {
    if file.None? || file.value.lastDataBackup.None? then None
    else
      match Common.ParseUtc(Common.Iso(Common.TextOf(file.value.lastDataBackup.value)))
      case Some(Iso(text)) => Some(text)
      case _ => None
  }

  /** `save_last_backup`: the file with its stamp set to `date` and nothing else changed. */
  function SaveLastBackup(file: SectionFile, date: string): SectionFile {
    file.(lastDataBackup := Some(JStr(date)))
  }

  /**
    A stamp in `+00:00` form is read back as written, and saving it leaves
    the sections as they were.
  */
  lemma SaveLoadLastBackup(file: SectionFile, date: string)
    requires date != "" && date != "NaT" && 'Z' !in date
    ensures LastBackup(Some(SaveLastBackup(file, date))) == Some(date)
    ensures AllHaveSegmentId(file.features) ==> Sections(Some(SaveLastBackup(file, date))) == Sections(Some(file))
  {
  }

  /** `set(things.keys())` */
  function Ids(things: Things): set<int> {
    set k | k in PyDict.Keys(things)
  }

  /** `since`: 2000 when clearing or without a stamp, else the stamp. */
  function Since(last: Option<string>, clear: bool): string {
    if clear || last.None? then Start else last.value
  }

  // ---------------------------------------------------------------------
  // `update_data`
  // ---------------------------------------------------------------------

  /** The attributes of one fetched feature; `anzahl` is `None` when the service gives null. */
  datatype Attributes = Attributes(abschnittId: int, datum: int, anzahl: Option<int>)

  /**
    What the service gives: `fetch(since)` the features after `since`, `iso`
    the ISO text of a UTC instant given in milliseconds, `clear` the option.
  */
  datatype Api = Api(clear: bool, fetch: string -> seq<Attributes>, iso: int -> string)

  /** One row: the section, its date and the count, `anzahl or 0`, as `uint32`. */
  function RowOf(a: Attributes, iso: int -> string): Record {
    Record(a.abschnittId, iso(a.datum), [a.anzahl.GetOr(0) % UInt32])
  }

  /** The rows of the features whose section is known, in reply order. */
  function Kept(raw: seq<Attributes>, ids: set<int>, iso: int -> string): seq<Record> {
    if raw == [] then []
    else
      var a := raw[|raw| - 1];
      Kept(raw[..|raw| - 1], ids, iso) + (if a.abschnittId in ids then [RowOf(a, iso)] else [])
  }

  /**
    A row is kept exactly for a feature of a known section; its count is the
    feature's (0 when null) modulo 2^32, so it fits 32 bits.
  */
  lemma {:induction false} KeptExactly(raw: seq<Attributes>, ids: set<int>, iso: int -> string)
    ensures forall x :: x in Kept(raw, ids, iso) <==> exists a :: a in raw && a.abschnittId in ids && x == RowOf(a, iso)
    ensures forall x :: x in Kept(raw, ids, iso) ==> x.segmentId in ids && |x.counts| == 1 && 0 <= x.counts[0] < UInt32
    ensures Kept(raw, ids, iso) == [] <==> forall a :: a in raw ==> a.abschnittId !in ids
  {
    if raw != [] {
      var init := raw[..|raw| - 1];
      var a := raw[|raw| - 1];
      KeptExactly(init, ids, iso);
      assert raw == init + [a];
      assert forall b :: b in raw <==> b in init || b == a;
    }
  }

  /** `max(new_df["date"])`: the greatest date of the rows, as strings compare. */
  function MaxDate(rows: seq<Record>): (r: string)
    requires rows != []
    ensures exists i :: 0 <= i < |rows| && rows[i].date == r
    ensures forall i :: 0 <= i < |rows| ==> LexLe(rows[i].date, r)
  {
    var last := rows[|rows| - 1].date;
    if |rows| == 1 then last
    else
      var init := rows[..|rows| - 1];
      var m := MaxDate(init);
      assert forall i :: 0 <= i < |init| ==> rows[i] == init[i];
      LexLeTotalOrder();
      if LexLess(m, last) then last else m
  }

  /**
    `update_data`: the rows of the known sections and the newest date among
    them, or neither when the reply is empty or holds no known section.
  */
  method UpdateData(ids: set<int>, api: Api, since: string) returns (rows: Option<seq<Record>>, newest: Option<string>)
    ensures var kept := Kept(api.fetch(since), ids, api.iso);
      rows == (if kept == [] then None else Some(kept)) &&
      newest == (if kept == [] then None else Some(MaxDate(kept)))
  {
    var raw := api.fetch(since);
    if raw == [] {
      return None, None;
    }
    var acc: seq<Record> := [];
    for i := 0 to |raw|
      invariant acc == Kept(raw[..i], ids, api.iso)
    {
      assert raw[..i + 1][..i] == raw[..i];
      var a := raw[i];
      if a.abschnittId in ids {
        acc := acc + [RowOf(a, api.iso)];
      }
    }
    assert raw[..|raw|] == raw;
    if acc == [] {
      return None, None;
    }
    rows := Some(acc);
    newest := Some(MaxDate(acc));
  }

  // ---------------------------------------------------------------------
  // `main`
  // ---------------------------------------------------------------------

  /** How `main` ends: no sections, no rows, or the table and the stamped file written. */
  datatype MautOutcome =
    | NoSections
    | NoData
    | Written(table: seq<Record>, file: SectionFile)

  /**
    `main` after the section file is refreshed: fetch the rows since the
    stamp, merge them into the table by (segment, date), sort and write it,
    and stamp the file with the newest date fetched.
  */
  method Run(parquet: Option<seq<Record>>, file: Option<SectionFile>, api: Api) returns (out: MautOutcome)
    requires file.Some? ==> AllHaveSegmentId(file.value.features)
    ensures out.NoSections? <==> Sections(file) == []
    ensures var kept := Kept(api.fetch(Since(LastBackup(file), api.clear)), Ids(Sections(file)), api.iso);
      (out.NoData? <==> Sections(file) != [] && kept == []) &&
      (out.Written? ==>
        file.Some? &&
        out.table == SortRecords(Merge(parquet, kept)) &&
        out.file == SaveLastBackup(file.value, MaxDate(kept)))
  {
    var things := Sections(file);
    if things == [] {
      return NoSections;
    }
    var since := Since(LastBackup(file), api.clear);
    var rows, newest := UpdateData(Ids(things), api, since);
    if rows.None? {
      return MautOutcome.NoData;
    }
    var table := SortRecords(Merge(parquet, rows.value));
    out := MautOutcome.Written(table, SaveLastBackup(file.value, newest.value));
  }

  /**
    After a backup, the next one (not clearing) fetches from the newest date
    it stored, which no stored row of that backup exceeds; this needs the
    dates to be in `+00:00` form, as `isoformat` writes them.
  */
  lemma NextSince(file: SectionFile, kept: seq<Record>)
    requires kept != []
    requires forall x :: x in kept ==> x.date != "" && x.date != "NaT" && 'Z' !in x.date
    ensures Since(LastBackup(Some(SaveLastBackup(file, MaxDate(kept)))), false) == MaxDate(kept)
    ensures forall x :: x in kept ==> LexLe(x.date, Since(LastBackup(Some(SaveLastBackup(file, MaxDate(kept)))), false))
  {
    var m := MaxDate(kept);
    var i :| 0 <= i < |kept| && kept[i].date == m;
    assert kept[i] in kept;
    SaveLoadLastBackup(file, m);
    forall x | x in kept ensures LexLe(x.date, m) {
      var j :| 0 <= j < |kept| && kept[j] == x;
    }
  }
}
