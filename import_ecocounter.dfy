/**
  The import of the Berlin counting stations' yearly workbook
  (`import_ecocounter.py`): for every segment that has eco counters, the
  sheets of the years from its last backup up to, not including, the year of
  its last data are read; the header row of a sheet names the columns of the
  counters, and every later row with a date and a count becomes an hourly
  count stored by date, as the Telraam backup stores report entries.

  The workbook is a map from year to the rows of sheet `Jahresdatei <year>`;
  the conversion of a sheet's local date to an instant of the segment's time
  zone, the year of an instant and the current year are parameters.
*/
module ImportEcocounter {
  import opened Wrappers
  import opened Strings
  import opened Json
  import opened Datamodel
  import PyDict
  import Sorting
  import Backup

  /** A cell of a sheet: empty, text, a number or a date (local seconds). */
  datatype XCell = Blank | Txt(s: string) | Number(n: int) | Stamp(t: int)

  type Line = seq<XCell>

  /** `line[i]`; a sheet's rows all have the sheet's width, beyond which cells are empty. */
  function CellAt(line: Line, i: nat): XCell {
    if i < |line| then line[i] else Blank
  }

  // ---------------------------------------------------------------------
  // The header row
  // ---------------------------------------------------------------------

  /** `if col:` and `cnt["name"] in col` for one counter name. */
  predicate NameIn(cell: XCell, name: string) {
    cell.Txt? && cell.s != [] && Contains(cell.s, name)
  }

  /** Whether a header cell names one of the counters. */
  predicate Matches(cell: XCell, names: seq<string>) {
    exists k :: 0 <= k < |names| && NameIn(cell, names[k])
  }

  /** Column `idx` once for every counter whose name it contains, in counter order. */
  function CellHits(idx: nat, cell: XCell, names: seq<string>): seq<nat> {
    if names == [] then []
    else CellHits(idx, cell, names[..|names| - 1]) + (if NameIn(cell, names[|names| - 1]) then [idx] else [])
  }

  /** Every (column, counter) match of a header row, in the order the loops visit them. */
  function Hits(content: Line, names: seq<string>): seq<nat> {
    if content == [] then []
    else Hits(content[..|content| - 1], names) + CellHits(|content| - 1, content[|content| - 1], names)
  }

  /** The first match becomes the left column, the second the right one; later ones only warn. */
  function Pick(hits: seq<nat>): (Option<nat>, Option<nat>) {
    (if |hits| > 0 then Some(hits[0]) else None, if |hits| > 1 then Some(hits[1]) else None)
  }

  lemma {:induction false} CellHitsAre(idx: nat, cell: XCell, names: seq<string>)
    ensures forall x :: x in CellHits(idx, cell, names) ==> x == idx
    ensures CellHits(idx, cell, names) != [] <==> Matches(cell, names)
  {
    if names != [] {
      var init := names[..|names| - 1];
      CellHitsAre(idx, cell, init);
      if Matches(cell, names) && !NameIn(cell, names[|names| - 1]) {
        var k :| 0 <= k < |names| && NameIn(cell, names[k]);
        assert NameIn(cell, init[k]);
      }
    }
  }

  /** The matches are the matching columns, from left to right. */
  lemma {:induction false} HitsAre(content: Line, names: seq<string>)
    ensures forall x: nat :: x in Hits(content, names) <==> x < |content| && Matches(content[x], names)
    ensures forall i, j :: 0 <= i < j < |Hits(content, names)| ==> Hits(content, names)[i] <= Hits(content, names)[j]
  {
    if content != [] {
      var n := |content| - 1;
      var init := content[..n];
      HitsAre(init, names);
      CellHitsAre(n, content[n], names);
      var h := Hits(init, names);
      var c := CellHits(n, content[n], names);
      assert Hits(content, names) == h + c;
      assert forall x :: 0 <= x < n ==> content[x] == init[x];
      if c != [] {
        assert c[0] in c;
      }
      forall i, j | 0 <= i < j < |h + c| ensures (h + c)[i] <= (h + c)[j] {
        if j >= |h| {
          assert (h + c)[j] in c;
          if i < |h| {
            assert h[i] in h;
          } else {
            assert (h + c)[i] in c;
          }
        }
      }
    }
  }

  /**
    The header's columns: the left column is the first column naming a
    counter, `None` when none does; the right column is the next matching
    column, or the left one again when it names two counters; with a left
    column and no right one, no later column names a counter.
  */
  lemma HeaderColumns(content: Line, names: seq<string>)
    ensures var (lft, rgt) := Pick(Hits(content, names));
      (lft.None? <==> forall j :: 0 <= j < |content| ==> !Matches(content[j], names)) &&
      (lft.Some? ==>
        lft.value < |content| && Matches(content[lft.value], names) &&
        forall j :: 0 <= j < lft.value ==> !Matches(content[j], names)) &&
      (rgt.Some? ==>
        lft.Some? && lft.value <= rgt.value < |content| && Matches(content[rgt.value], names) &&
        forall j :: lft.value < j < rgt.value ==> !Matches(content[j], names)) &&
      (lft.Some? && rgt.None? ==> forall j :: lft.value < j < |content| ==> !Matches(content[j], names))
  {
    var h := Hits(content, names);
    HitsAre(content, names);
    if |h| > 0 {
      assert h[0] in h;
    }
    if |h| > 1 {
      assert h[1] in h;
    }
    forall j | 0 <= j < |content| && Matches(content[j], names)
      ensures exists i :: 0 <= i < |h| && h[i] == j
    {
      assert j in h;
    }
  }

  lemma PickStep(hits: seq<nat>, x: nat)
    ensures Pick(hits + [x]) ==
      var (lft, rgt) := Pick(hits);
      if lft.None? then (Some(x), None) else if rgt.None? then (lft, Some(x)) else (lft, rgt)
  {
    assert (hits + [x])[..|hits|] == hits;
  }

  /** The header part of the row loop: the column indices of the counters. */
  method HeaderColumnsOf(content: Line, names: seq<string>) returns (lft: Option<nat>, rgt: Option<nat>)
    ensures (lft, rgt) == Pick(Hits(content, names))
  {
    lft, rgt := None, None;
    var idx := 0;
    while idx < |content|
      invariant 0 <= idx <= |content|
      invariant (lft, rgt) == Pick(Hits(content[..idx], names))
    {
      var col := content[idx];
      assert content[..idx + 1][..idx] == content[..idx];
      ghost var before := Hits(content[..idx], names);
      if col.Txt? && col.s != [] {
        var k := 0;
        while k < |names|
          invariant 0 <= k <= |names|
          invariant (lft, rgt) == Pick(before + CellHits(idx, col, names[..k]))
        {
          assert names[..k + 1][..k] == names[..k];
          if Contains(col.s, names[k]) {
            PickStep(before + CellHits(idx, col, names[..k]), idx);
            if lft.None? {
              lft := Some(idx);
            } else if rgt.None? {
              rgt := Some(idx);
            }
          }
          assert before + CellHits(idx, col, names[..k + 1]) ==
            before + CellHits(idx, col, names[..k]) + (if NameIn(col, names[k]) then [idx] else []);
          k := k + 1;
        }
        assert names[..k] == names;
      } else {
        CellHitsAre(idx, col, names);
        assert before + CellHits(idx, col, names) == before;
      }
      idx := idx + 1;
    }
    assert content[..idx] == content;
  }

  // ---------------------------------------------------------------------
  // The data rows
  // ---------------------------------------------------------------------

  /** An empty cell or an empty string is no value. */
  function CellValue(c: XCell): Json {
    match c
    case Blank => JNull
    case Txt(s) => if s == [] then JNull else JStr(s)
    case Number(n) => JInt(n)
    case Stamp(t) => JInt(t)
  }

  /**
    The entry a data row is stored as, if any: the row needs a date in its
    first cell and a value in the left or the right column; it becomes an
    hourly count with uptime 1 of the bikes in both directions.
  */
  function RowEntry(line: Line, lft: nat, rgt: Option<nat>, instant: int -> int): Option<CountTable> {
    var l := CellValue(CellAt(line, lft));
    var r := if rgt.None? then JNull else CellValue(CellAt(line, rgt.value));
    var date := CellAt(line, 0);
    if date.Stamp? && (l != JNull || r != JNull) then
      Some(CountTable([("interval", JStr("hourly")), ("uptime", JInt(1)), ("bike_lft", l), ("bike_rgt", r)],
                      instant(date.t), "hourly", 1.0, []))
    else None
  }

  /** What becomes of a data row as the script is written: skipped, or an exception. */
  datatype RowOutcome = Skipped | Raised

  /**
    A data row as written: every row with a first cell and a value is turned
    into an entry whose date is a datetime, which the `TrafficCount`
    constructor hands to `parse_utc` as if it were text (a `TypeError`; a
    first cell that is text or a number already fails at `replace(tzinfo=...)`),
    and which lacks the speed histogram the constructor reads (a `KeyError`).
  */
  function RowAsWritten(line: Line, lft: nat, rgt: Option<nat>): RowOutcome {
    var l := CellValue(CellAt(line, lft));
    var r := if rgt.None? then JNull else CellValue(CellAt(line, rgt.value));
    if CellAt(line, 0) != Blank && (l != JNull || r != JNull) then Raised else Skipped
  }

  /** Every row the import means to store raises as written; the rows it skips are skipped. */
  lemma RowAsWrittenRaises(line: Line, lft: nat, rgt: Option<nat>, instant: int -> int)
    ensures RowEntry(line, lft, rgt, instant).Some? ==> RowAsWritten(line, lft, rgt).Raised?
    ensures RowAsWritten(line, lft, rgt).Skipped? ==> RowEntry(line, lft, rgt, instant).None?
  {
  }

  /** An hourly value of 3 bikes at local second 0 is stored by the intended import and raises as written. */
  lemma RowAsWrittenExample()
    ensures RowAsWritten([Stamp(0), Number(3)], 1, None).Raised?
    ensures RowEntry([Stamp(0), Number(3)], 1, None, t => t).Some?
  {
  }

  /** `content[0] is not None and (lft is not None or rgt is not None)`, where the first cell must hold a date. */
  predicate Recorded(line: Line, lft: nat, rgt: Option<nat>) {
    CellAt(line, 0).Stamp? &&
    (CellValue(CellAt(line, lft)) != JNull || (rgt.Some? && CellValue(CellAt(line, rgt.value)) != JNull))
  }

  function DataEntries(lines: seq<Line>, lft: nat, rgt: Option<nat>, instant: int -> int): seq<CountTable> {
    if lines == [] then []
    else
      var e := RowEntry(lines[|lines| - 1], lft, rgt, instant);
      DataEntries(lines[..|lines| - 1], lft, rgt, instant) + (if e.Some? then [e.value] else [])
  }

  /**
    The entries of a sheet: none when its first row names no counter (the
    reading stops), else those of the rows after it, in order.
  */
  function SheetEntries(lines: seq<Line>, names: seq<string>, instant: int -> int): seq<CountTable> {
    if lines == [] then []
    else
      var (lft, rgt) := Pick(Hits(lines[0], names));
      if lft.None? then [] else DataEntries(lines[1..], lft.value, rgt, instant)
  }

  /**
    A row is stored exactly when it has a date and a left or right value,
    and what is stored is an hourly count with uptime 1 at the row's instant.
  */
  lemma {:induction false} DataEntriesExactly(lines: seq<Line>, lft: nat, rgt: Option<nat>, instant: int -> int)
    ensures forall e :: e in DataEntries(lines, lft, rgt, instant) ==>
      e.interval == "hourly" && e.uptime == 1.0 && exists line :: line in lines && RowEntry(line, lft, rgt, instant) == Some(e)
    ensures forall line :: line in lines && Recorded(line, lft, rgt) ==>
      RowEntry(line, lft, rgt, instant).Some? && RowEntry(line, lft, rgt, instant).value in DataEntries(lines, lft, rgt, instant)
    ensures forall line :: line in lines && RowEntry(line, lft, rgt, instant).Some? ==>
      CellAt(line, 0).Stamp? && RowEntry(line, lft, rgt, instant).value.date == instant(CellAt(line, 0).t)
  {
    if lines != [] {
      var init := lines[..|lines| - 1];
      DataEntriesExactly(init, lft, rgt, instant);
      assert forall line :: line in lines <==> line in init || line == lines[|lines| - 1];
    }
  }

  lemma DataEntriesStep(lines: seq<Line>, i: nat, lft: nat, rgt: Option<nat>, instant: int -> int)
    requires 1 <= i < |lines|
    ensures DataEntries(lines[1..i + 1], lft, rgt, instant) ==
      DataEntries(lines[1..i], lft, rgt, instant) +
        (if RowEntry(lines[i], lft, rgt, instant).Some? then [RowEntry(lines[i], lft, rgt, instant).value] else [])
  {
    assert lines[1..i + 1][..i - 1] == lines[1..i];
  }

  /** One row stored, as in `update_db`: bisect, then insert or replace. */
  method StoreRow(s: Segment, e: CountTable)
    requires Backup.StrictlySorted(s.counts)
    modifies s`counts
    ensures s.counts == Backup.StoreAll(old(s.counts), [e])
    ensures Backup.StrictlySorted(s.counts)
  {
    var tc := NewTrafficCount(e);
    Backup.InsertOrReplace(s, tc);
    assert [e][..0] == [];
  }

  /** A data row of the row loop: stored when it makes an entry. */
  method ImportRow(s: Segment, lines: seq<Line>, i: nat, lft: nat, rgt: Option<nat>, instant: int -> int,
                   ghost counts: seq<TrafficCount>)
    requires 1 <= i < |lines|
    requires Backup.StrictlySorted(s.counts)
    requires s.counts == Backup.StoreAll(counts, DataEntries(lines[1..i], lft, rgt, instant))
    modifies s`counts
    ensures s.counts == Backup.StoreAll(counts, DataEntries(lines[1..i + 1], lft, rgt, instant))
    ensures Backup.StrictlySorted(s.counts)
  {
    var e := RowEntry(lines[i], lft, rgt, instant);
    DataEntriesStep(lines, i, lft, rgt, instant);
    var prior := DataEntries(lines[1..i], lft, rgt, instant);
    if e.Some? {
      StoreRow(s, e.value);
      Backup.StoreAllAppend(counts, prior, [e.value]);
      assert DataEntries(lines[1..i + 1], lft, rgt, instant) == prior + [e.value];
    } else {
      assert DataEntries(lines[1..i + 1], lft, rgt, instant) == prior + [];
      assert prior + [] == prior;
    }
  }

  /**
    The row loop over one sheet: the first row is read as the header; with
    no counter column the loop stops; every later row is stored if it has a
    date and a value.
  */
  method ImportSheet(s: Segment, lines: seq<Line>, names: seq<string>, instant: int -> int)
    requires Backup.StrictlySorted(s.counts)
    modifies s`counts
    ensures s.counts == Backup.StoreAll(old(s.counts), SheetEntries(lines, names, instant))
    ensures Backup.StrictlySorted(s.counts)
  {
    var lft: Option<nat> := None;
    var rgt: Option<nat> := None;
    var i := 0;
    while i < |lines|
      invariant 0 <= i <= |lines|
      invariant i == 0 ==> lft.None? && s.counts == old(s.counts)
      invariant i > 0 ==> lft.Some? && lft == Pick(Hits(lines[0], names)).0 && rgt == Pick(Hits(lines[0], names)).1
      invariant i > 0 ==> s.counts == Backup.StoreAll(old(s.counts), DataEntries(lines[1..i], lft.value, rgt, instant))
      invariant Backup.StrictlySorted(s.counts)
    {
      if lft.None? {
        lft, rgt := HeaderColumnsOf(lines[i], names);
        if lft.None? {
          break;
        }
        assert lines[1..1] == [];
      } else {
        ImportRow(s, lines, i, lft.value, rgt, instant, old(s.counts));
      }
      i := i + 1;
    }
    if i == |lines| && i > 0 {
      assert lines[1..i] == lines[1..];
    }
  }

  // ---------------------------------------------------------------------
  // One segment, all segments
  // ---------------------------------------------------------------------

  /** A feature of the eco-counter file: its segment and the names of its counters. */
  datatype CounterFeature = CounterFeature(segmentId: int, counters: seq<string>)

  /** The counters of the first feature of segment `id`, if any. */
  function CountersOf(features: seq<CounterFeature>, id: int): (r: Option<seq<string>>)
    ensures r.Some? <==> exists f :: f in features && f.segmentId == id
  {
    if features == [] then None
    else if features[0].segmentId == id then Some(features[0].counters)
    else CountersOf(features[1..], id)
  }

  /** The counter loop of `update_db`, which stops at the first feature of the segment. */
  method FindCounters(features: seq<CounterFeature>, id: int) returns (counters: Option<seq<string>>)
    ensures counters == CountersOf(features, id)
  {
    counters := None;
    var i := 0;
    while i < |features|
      invariant 0 <= i <= |features|
      invariant CountersOf(features, id) == CountersOf(features[i..], id)
    {
      if features[i].segmentId == id {
        counters := Some(features[i].counters);
        break;
      }
      assert features[i..][1..] == features[i + 1..];
      i := i + 1;
    }
    assert i == |features| ==> features[i..] == [];
  }

  /** `s.last_backup_utc.year`, else 2012. */
  function FirstYear(lastBackup: Option<int>, yearOf: int -> int): int {
    if lastBackup.Some? then yearOf(lastBackup.value) else 2012
  }

  /** `s.last_data_utc.year`, else the current year. */
  function FinalYear(lastData: Option<int>, yearOf: int -> int, currentYear: int): int {
    if lastData.Some? then yearOf(lastData.value) else currentYear
  }

  /** The entries of the sheets of the years `first` up to, not including, `final`; a missing sheet adds none. */
  function YearEntries(workbook: map<int, seq<Line>>, first: int, final: int, names: seq<string>, instant: int -> int): seq<CountTable>
    decreases final - first
  {
    if final <= first then []
    else
      YearEntries(workbook, first, final - 1, names, instant) +
        (if final - 1 in workbook then SheetEntries(workbook[final - 1], names, instant) else [])
  }

  /** A year outside `[first, final)`, or one without a sheet, contributes nothing; each other year its sheet's entries. */
  lemma {:induction false} YearEntriesFrom(workbook: map<int, seq<Line>>, first: int, final: int, names: seq<string>,
                                           instant: int -> int, e: CountTable)
    requires e in YearEntries(workbook, first, final, names, instant)
    ensures exists y :: first <= y < final && y in workbook && e in SheetEntries(workbook[y], names, instant)
    decreases final - first
  {
    if final > first {
      var prev := YearEntries(workbook, first, final - 1, names, instant);
      if e !in prev {
        assert final - 1 in workbook && e in SheetEntries(workbook[final - 1], names, instant);
      } else {
        YearEntriesFrom(workbook, first, final - 1, names, instant, e);
      }
    }
  }

  lemma YearStep(workbook: map<int, seq<Line>>, first: int, year: int, names: seq<string>, instant: int -> int)
    requires first <= year
    ensures YearEntries(workbook, first, year + 1, names, instant) ==
      YearEntries(workbook, first, year, names, instant) +
        (if year in workbook then SheetEntries(workbook[year], names, instant) else [])
  {
  }

  /** The year loop of one segment: each year's sheet, if the workbook has one, is imported. */
  method ImportYears(s: Segment, workbook: map<int, seq<Line>>, first: int, final: int, names: seq<string>,
                     instant: int -> int)
    requires Backup.StrictlySorted(s.counts)
    modifies s`counts
    ensures s.counts == Backup.StoreAll(old(s.counts), YearEntries(workbook, first, final, names, instant))
    ensures Backup.StrictlySorted(s.counts)
  {
    var year := first;
    while year < final
      invariant first <= year && (year <= final || year == first)
      invariant s.counts == Backup.StoreAll(old(s.counts), YearEntries(workbook, first, year, names, instant))
      invariant Backup.StrictlySorted(s.counts)
    {
      ImportYear(s, workbook, first, year, names, instant, old(s.counts));
      year := year + 1;
    }
    if year != final {
      assert YearEntries(workbook, first, final, names, instant) == [];
    }
  }

  /** One year of the year loop. */
  method ImportYear(s: Segment, workbook: map<int, seq<Line>>, first: int, year: int, names: seq<string>,
                    instant: int -> int, ghost counts: seq<TrafficCount>)
    requires first <= year
    requires Backup.StrictlySorted(s.counts)
    requires s.counts == Backup.StoreAll(counts, YearEntries(workbook, first, year, names, instant))
    modifies s`counts
    ensures s.counts == Backup.StoreAll(counts, YearEntries(workbook, first, year + 1, names, instant))
    ensures Backup.StrictlySorted(s.counts)
  {
    var prior := YearEntries(workbook, first, year, names, instant);
    if year in workbook {
      ImportSheet(s, workbook[year], names, instant);
      Backup.StoreAllAppend(counts, prior, SheetEntries(workbook[year], names, instant));
      YearStep(workbook, first, year, names, instant);
    } else {
      YearStep(workbook, first, year, names, instant);
      assert prior + [] == prior;
    }
  }

  /** What the import needs besides the segments. */
  datatype Import = Import(
    features: seq<CounterFeature>,
    workbook: map<int, seq<Line>>,
    yearOf: int -> int,
    currentYear: int,
    local: (int, int) -> int,
    today: int)

  /** The conversion of a sheet's local date to an instant in segment `id`'s time zone. */
  function InstantOf(im: Import, id: int): int -> int {
    t => im.local(id, t)
  }

  /** Whether `update_db` imports into a segment: some feature of it lists counters. */
  predicate HasCounters(im: Import, id: int) {
    var c := CountersOf(im.features, id);
    c.Some? && c.value != []
  }

  /** The entries a segment receives from the workbook. */
  function SegmentEntries(im: Import, id: int, lastBackup: Option<int>, lastData: Option<int>): seq<CountTable>
    requires HasCounters(im, id)
  {
    YearEntries(im.workbook, FirstYear(lastBackup, im.yearOf), FinalYear(lastData, im.yearOf, im.currentYear),
                CountersOf(im.features, id).value, InstantOf(im, id))
  }

  /**
    One segment of `update_db`: skipped, unchanged, without counters;
    otherwise its years are imported and its backup date becomes today.
  */
  method ImportSegment(s: Segment, im: Import) returns (imported: bool)
    requires Backup.StrictlySorted(s.counts)
    modifies s`counts, s`lastBackupUtc
    ensures Backup.StrictlySorted(s.counts)
    ensures imported <==> HasCounters(im, s.id)
    ensures !imported ==> s.counts == old(s.counts) && s.lastBackupUtc == old(s.lastBackupUtc)
    ensures imported ==> s.lastBackupUtc == Some(im.today)
    ensures imported ==>
      s.counts == Backup.StoreAll(old(s.counts), SegmentEntries(im, s.id, old(s.lastBackupUtc), s.lastDataUtc))
  {
    var first := FirstYear(s.lastBackupUtc, im.yearOf);
    var final := FinalYear(s.lastDataUtc, im.yearOf, im.currentYear);
    var counters := FindCounters(im.features, s.id);
    if counters.None? || counters.value == [] {
      return false;
    }
    ImportYears(s, im.workbook, first, final, counters.value, InstantOf(im, s.id));
    s.lastBackupUtc := Some(im.today);
    imported := true;
  }

  /** What `update_db` does to one segment. */
  twostate predicate SegmentImported(s: Segment, im: Import)
    reads s
  {
    s.id == old(s.id) && s.lastDataUtc == old(s.lastDataUtc) && Backup.StrictlySorted(s.counts) &&
    if !HasCounters(im, s.id) then s.counts == old(s.counts) && s.lastBackupUtc == old(s.lastBackupUtc)
    else
      s.lastBackupUtc == Some(im.today) &&
      s.counts == Backup.StoreAll(old(s.counts), SegmentEntries(im, s.id, old(s.lastBackupUtc), s.lastDataUtc))
  }

  /** `update_db`: every segment in turn. */
  method UpdateDb(segments: seq<Segment>, im: Import)
    requires Sorting.Distinct(segments)
    requires forall i :: 0 <= i < |segments| ==> Backup.StrictlySorted(segments[i].counts)
    modifies set i | 0 <= i < |segments| :: segments[i]
    ensures forall i :: 0 <= i < |segments| ==> SegmentImported(segments[i], im)
  {
    var k := 0;
    while k < |segments|
      invariant 0 <= k <= |segments|
      invariant forall i :: 0 <= i < k ==> SegmentImported(segments[i], im)
      invariant forall i :: k <= i < |segments| ==> unchanged(segments[i])
    {
      var _ := ImportSegment(segments[k], im);
      k := k + 1;
    }
  }
}
