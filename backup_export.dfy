/**
  The export half of the backup scripts: the CSV column layout, one row per
  stored count, the per-month files and the segment selection of `main`.
  Time-zone conversion is a parameter (`local`, the local calendar month and
  the printed local time of an instant in a segment's zone), and so is the
  speed histogram of a count (`hist`).  Rounding of the values is not modelled.
*/
module BackupExport {
  import opened Wrappers
  import opened Strings
  import opened Json
  import opened Datamodel
  import PyDict
  import Common
  import Seqs

  // ---------------------------------------------------------------------
  // Column names
  // ---------------------------------------------------------------------

  /** The column prefix of a mode: `pedestrian` is shortened to `ped`. */
  function Prefix(mode: string): string {
    if mode == "pedestrian" then "ped" else mode
  }

  function ModeNames(mode: string): seq<string> {
    [Prefix(mode) + "_lft", Prefix(mode) + "_rgt", Prefix(mode) + "_total"]
  }

  function AllModeNames(modes: seq<string>): seq<string> {
    if modes == [] then [] else AllModeNames(modes[..|modes| - 1]) + ModeNames(modes[|modes| - 1])
  }

  const Leading: seq<string> := ["segment_id", "date_local", "uptime"]

  /** The speed-histogram columns, one per 10 km/h from 0 to 70. */
  const SpeedNames: seq<string> := ["car_speed0", "car_speed10", "car_speed20", "car_speed30",
                                    "car_speed40", "car_speed50", "car_speed60", "car_speed70"]

  /** The header row for counts whose modes are `modes`. */
  function Names(modes: seq<string>): seq<string> {
    Leading + AllModeNames(modes) + ["v85"] + SpeedNames
  }

  lemma {:induction false} AllModeNamesLayout(modes: seq<string>)
    ensures |AllModeNames(modes)| == 3 * |modes|
    ensures forall k :: 0 <= k < |modes| ==> AllModeNames(modes)[3 * k..3 * k + 3] == ModeNames(modes[k])
  {
    if modes != [] {
      var init := modes[..|modes| - 1];
      AllModeNamesLayout(init);
      forall k | 0 <= k < |modes| ensures AllModeNames(modes)[3 * k..3 * k + 3] == ModeNames(modes[k]) {
        if k < |init| {
          assert modes[k] == init[k];
          assert AllModeNames(modes)[3 * k..3 * k + 3] == AllModeNames(init)[3 * k..3 * k + 3];
        }
      }
    }
  }

  /** Four modes give the names of each in turn. */
  lemma AllModeNamesFour(modes: seq<string>)
    requires |modes| == 4
    ensures AllModeNames(modes) == ModeNames(modes[0]) + ModeNames(modes[1]) + ModeNames(modes[2]) + ModeNames(modes[3])
  {
    var m3, m2, m1 := modes[..3], modes[..3][..2], modes[..3][..2][..1];
    assert m1[..0] == [];
    assert AllModeNames(m1) == ModeNames(modes[0]);
    assert AllModeNames(m2) == AllModeNames(m1) + ModeNames(modes[1]);
    assert AllModeNames(m3) == AllModeNames(m2) + ModeNames(modes[2]);
  }

  /**
    The header: three leading names, three per mode (`_lft`, `_rgt`,
    `_total`, with `pedestrian` shortened), `v85`, then eight speed columns.
  */
  lemma NamesLayout(modes: seq<string>)
    ensures |Names(modes)| == 3 * |modes| + 12
    ensures Names(modes)[..3] == ["segment_id", "date_local", "uptime"]
    ensures forall k :: 0 <= k < |modes| ==>
      Names(modes)[3 + 3 * k..6 + 3 * k] == [Prefix(modes[k]) + "_lft", Prefix(modes[k]) + "_rgt", Prefix(modes[k]) + "_total"]
    ensures Names(modes)[3 + 3 * |modes|] == "v85"
    ensures Names(modes)[4 + 3 * |modes|..] == SpeedNames
  {
    AllModeNamesLayout(modes);
    var n := Names(modes);
    var a := AllModeNames(modes);
    var rest := ["v85"] + SpeedNames;
    assert n == Leading + a + rest;
    forall k | 0 <= k < |modes|
      ensures n[3 + 3 * k..6 + 3 * k] == [Prefix(modes[k]) + "_lft", Prefix(modes[k]) + "_rgt", Prefix(modes[k]) + "_total"]
    {
      Seqs.SliceMiddle(Leading, a, rest, 3 * k, 3 * k + 3);
    }
    assert n[4 + 3 * |modes|..] == SpeedNames;
  }

  /** The speed columns are `["car_speed%s" % s for s in range(0, 80, 10)]`. */
  lemma SpeedNamesSpelled()
    ensures |SpeedNames| == 8
    ensures forall k :: 0 <= k < 8 ==> SpeedNames[k] == "car_speed" + Decimal(10 * k)
  {
    assert Digits(10) == "10" && Digits(20) == "20" && Digits(30) == "30" && Digits(40) == "40";
    assert Digits(50) == "50" && Digits(60) == "60" && Digits(70) == "70";
  }

  /** `get_column_names`, given the modes of the count class. */
  method ColumnNames(modes: seq<string>) returns (res: seq<string>)
    ensures res == Names(modes)
  {
    res := ["segment_id", "date_local", "uptime"];
    var i := 0;
    while i < |modes|
      invariant 0 <= i <= |modes|
      invariant res == Leading + AllModeNames(modes[..i])
    {
      var mode := modes[i];
      if mode == "pedestrian" {
        mode := "ped";
      }
      assert modes[..i + 1][..i] == modes[..i];
      res := res + [mode + "_lft", mode + "_rgt", mode + "_total"];
      i := i + 1;
    }
    assert modes[..i] == modes;
    SpeedNamesSpelled();
    var speeds: seq<string> := [];
    var k := 0;
    while k < 8
      invariant 0 <= k <= 8
      invariant speeds == SpeedNames[..k]
    {
      assert SpeedNames[..k + 1] == SpeedNames[..k] + [SpeedNames[k]];
      speeds := speeds + ["car_speed" + Decimal(10 * k)];
      k := k + 1;
    }
    res := res + ["v85"] + speeds;
  }

  // ---------------------------------------------------------------------
  // Column values
  // ---------------------------------------------------------------------

  /** A cell of an exported row; `Null` is Python's `None`, an empty CSV field. */
  datatype Cell = Null | Num(n: int) | Frac(r: real) | Text(s: string)

  function OptCell(v: Option<int>): Cell {
    if v.Some? then Num(v.value) else Null
  }

  /** A numeric attribute of a count, `None` when missing. */
  function Attr(tc: TrafficCount, key: string): Option<int> {
    if key in tc.attrs && tc.attrs[key].JInt? then Some(tc.attrs[key].i) else None
  }

  /** The `_total` of a mode: `None` only when both sides are; a missing side counts as 0. */
  function Total(lft: Option<int>, rgt: Option<int>): (r: Option<int>)
    ensures r.None? <==> lft.None? && rgt.None?
    ensures r.Some? ==> r.value == lft.GetOr(0) + rgt.GetOr(0)
    ensures lft.Some? && rgt.None? ==> r == lft
    ensures lft.None? && rgt.Some? ==> r == rgt
  {
    if lft.Some? || rgt.Some? then Some(lft.GetOr(0) + rgt.GetOr(0)) else None
  }

  function ModeCells(tc: TrafficCount, mode: string): seq<Cell> {
    var lft := Attr(tc, mode + "_lft");
    var rgt := Attr(tc, mode + "_rgt");
    [OptCell(lft), OptCell(rgt), OptCell(Total(lft, rgt))]
  }

  function AllModeCells(tc: TrafficCount, modes: seq<string>): seq<Cell> {
    if modes == [] then [] else AllModeCells(tc, modes[..|modes| - 1]) + ModeCells(tc, modes[|modes| - 1])
  }

  function HistCells(hist: seq<real>): (r: seq<Cell>)
    ensures |r| == |hist| && forall i :: 0 <= i < |hist| ==> r[i] == Frac(hist[i])
  {
    if hist == [] then [] else HistCells(hist[..|hist| - 1]) + [Frac(hist[|hist| - 1])]
  }

  /** The row of one count; `localText` is `str(local_date)`, of which the last 9 characters are cut. */
  function Values(tc: TrafficCount, localText: string, modes: seq<string>, hist: seq<real>): seq<Cell> {
    [OptCell(Attr(tc, "segment_id")), Text(Slice(localText, 0, -9)), Frac(tc.uptimeRel)]
      + AllModeCells(tc, modes) + [OptCell(Attr(tc, "v85"))] + HistCells(hist)
  }

  lemma {:induction false} AllModeCellsLayout(tc: TrafficCount, modes: seq<string>)
    ensures |AllModeCells(tc, modes)| == 3 * |modes|
    ensures forall k :: 0 <= k < |modes| ==> AllModeCells(tc, modes)[3 * k..3 * k + 3] == ModeCells(tc, modes[k])
  {
    if modes != [] {
      var init := modes[..|modes| - 1];
      AllModeCellsLayout(tc, init);
      forall k | 0 <= k < |modes| ensures AllModeCells(tc, modes)[3 * k..3 * k + 3] == ModeCells(tc, modes[k]) {
        if k < |init| {
          assert modes[k] == init[k];
          assert AllModeCells(tc, modes)[3 * k..3 * k + 3] == AllModeCells(tc, init)[3 * k..3 * k + 3];
        }
      }
    }
  }

  /**
    Values line up with names: with the eight histogram values of a count,
    the row is as long as the header, and the three cells in the columns of
    a mode (its `_lft`, `_rgt` and `_total` names in `NamesLayout`) hold the
    count's `<mode>_lft`, its `<mode>_rgt` and their total, read under the
    unshortened mode name; `v85` comes right after the modes.
  */
  lemma ValuesMatchNames(tc: TrafficCount, localText: string, modes: seq<string>, hist: seq<real>)
    requires |hist| == |SpeedNames|
    ensures |Names(modes)| == 3 * |modes| + 12
    ensures |Values(tc, localText, modes, hist)| == 3 * |modes| + 12
    ensures forall k :: 0 <= k < |modes| ==>
      Values(tc, localText, modes, hist)[3 + 3 * k..6 + 3 * k] == ModeCells(tc, modes[k])
    ensures Values(tc, localText, modes, hist)[3 + 3 * |modes|] == OptCell(Attr(tc, "v85"))
  {
    NamesLayout(modes);
    AllModeCellsLayout(tc, modes);
    var v := Values(tc, localText, modes, hist);
    var c := AllModeCells(tc, modes);
    forall k | 0 <= k < |modes|
      ensures v[3 + 3 * k..6 + 3 * k] == ModeCells(tc, modes[k])
    {
      assert v[3 + 3 * k..6 + 3 * k] == c[3 * k..3 * k + 3];
    }
  }

  /** `get_column_values` */
  method ColumnValues(tc: TrafficCount, localText: string, modes: seq<string>, hist: seq<real>)
    returns (result: seq<Cell>)
    ensures result == Values(tc, localText, modes, hist)
  {
    result := [OptCell(Attr(tc, "segment_id")), Text(Slice(localText, 0, -9)), Frac(tc.uptimeRel)];
    var k := 0;
    while k < |modes|
      invariant 0 <= k <= |modes|
      invariant result == [OptCell(Attr(tc, "segment_id")), Text(Slice(localText, 0, -9)), Frac(tc.uptimeRel)]
        + AllModeCells(tc, modes[..k])
    {
      var mode := modes[k];
      var lft := Attr(tc, mode + "_lft");
      var rgt := Attr(tc, mode + "_rgt");
      assert modes[..k + 1][..k] == modes[..k];
      result := result + [OptCell(lft), OptCell(rgt), if lft.Some? || rgt.Some? then Num(lft.GetOr(0) + rgt.GetOr(0)) else Null];
      k := k + 1;
    }
    assert modes[..k] == modes;
    result := result + [OptCell(Attr(tc, "v85"))];
    var j := 0;
    while j < |hist|
      invariant 0 <= j <= |hist|
      invariant result == [OptCell(Attr(tc, "segment_id")), Text(Slice(localText, 0, -9)), Frac(tc.uptimeRel)]
        + AllModeCells(tc, modes) + [OptCell(Attr(tc, "v85"))] + HistCells(hist[..j])
    {
      assert hist[..j + 1][..j] == hist[..j];
      result := result + [Frac(hist[j])];
      j := j + 1;
    }
    assert hist[..j] == hist;
  }

  // ---------------------------------------------------------------------
  // Export files
  // ---------------------------------------------------------------------

  /** An instant in a segment's time zone: its calendar month and `str(local_date)`. */
  datatype LocalDate = LocalDate(year: int, month: int, text: string)

  /**
    What one export needs besides the segments: the modes of the count
    class, the month to export (`None` for all), the time-zone conversion
    (segment id and instant to local date) and each count's histogram.
  */
  datatype Export = Export(
    modes: seq<string>,
    month: Option<(int, int)>,
    local: (int, int) -> LocalDate,
    hist: TrafficCount -> seq<real>)

  /** The segments as the writers see them: their ids and stored counts. */
  datatype SegmentCounts = SegmentCounts(id: int, counts: seq<TrafficCount>)

  predicate Selected(ex: Export, id: int, tc: TrafficCount) {
    var d := ex.local(id, tc.dateUtc);
    ex.month.None? || (d.year, d.month) == ex.month.value
  }

  function Row(ex: Export, id: int, tc: TrafficCount): seq<Cell> {
    Values(tc, ex.local(id, tc.dateUtc).text, ex.modes, ex.hist(tc))
  }

  /** The data rows of one segment's counts, in stored order. */
  function CountRows(ex: Export, id: int, counts: seq<TrafficCount>): seq<seq<Cell>> {
    if counts == [] then []
    else
      var tc := counts[|counts| - 1];
      CountRows(ex, id, counts[..|counts| - 1]) + (if Selected(ex, id, tc) then [Row(ex, id, tc)] else [])
  }

  /** The data rows of all segments, segment after segment. */
  function Rows(ex: Export, segs: seq<SegmentCounts>): seq<seq<Cell>> {
    if segs == [] then []
    else Rows(ex, segs[..|segs| - 1]) + CountRows(ex, segs[|segs| - 1].id, segs[|segs| - 1].counts)
  }

  /** A row of text cells. */
  function TextRow(names: seq<string>): (r: seq<Cell>)
    ensures |r| == |names| && forall i :: 0 <= i < |r| ==> r[i] == Text(names[i])
  {
    if names == [] then [] else TextRow(names[..|names| - 1]) + [Text(names[|names| - 1])]
  }

  function HeaderRow(modes: seq<string>): seq<Cell> {
    TextRow(Names(modes))
  }

  /** The file an export leaves behind: none without a matching count, else the header and the rows. */
  function Exported(ex: Export, segs: seq<SegmentCounts>): Option<seq<seq<Cell>>> {
    var rows := Rows(ex, segs);
    if rows == [] then None else Some(Written(ex.modes, rows))
  }

  lemma {:induction false} CountRowsShape(ex: Export, id: int, counts: seq<TrafficCount>)
    ensures forall r: seq<Cell> :: r in CountRows(ex, id, counts) ==> r != [] && !r[0].Text?
  {
    if counts != [] {
      CountRowsShape(ex, id, counts[..|counts| - 1]);
    }
  }

  lemma {:induction false} RowsShape(ex: Export, segs: seq<SegmentCounts>)
    ensures forall r: seq<Cell> :: r in Rows(ex, segs) ==> r != [] && !r[0].Text?
  {
    if segs != [] {
      RowsShape(ex, segs[..|segs| - 1]);
      CountRowsShape(ex, segs[|segs| - 1].id, segs[|segs| - 1].counts);
    }
  }

  lemma {:induction false} CountRowsSelected(ex: Export, id: int, counts: seq<TrafficCount>)
    ensures CountRows(ex, id, counts) == [] <==> forall i :: 0 <= i < |counts| ==> !Selected(ex, id, counts[i])
  {
    if counts != [] {
      var init := counts[..|counts| - 1];
      CountRowsSelected(ex, id, init);
      assert forall i :: 0 <= i < |init| ==> init[i] == counts[i];
    }
  }

  /**
    The header-once, no-empty-file rule: a file exists exactly when some
    count of some segment falls in the month; it then starts with the header,
    which appears nowhere else, and holds one row per matching count.
  */
  lemma HeaderOnce(ex: Export, segs: seq<SegmentCounts>)
    ensures Exported(ex, segs).None? <==> Rows(ex, segs) == []
    ensures Exported(ex, segs).Some? ==>
      var f := Exported(ex, segs).value;
      f[0] == HeaderRow(ex.modes) && f[1..] == Rows(ex, segs) &&
      forall i :: 0 < i < |f| ==> f[i] != HeaderRow(ex.modes)
  {
    RowsShape(ex, segs);
    if Rows(ex, segs) != [] {
      var f := Exported(ex, segs).value;
      var h := HeaderRow(ex.modes);
      NamesLayout(ex.modes);
      assert h[0].Text?;
      forall i | 0 < i < |f| ensures f[i] != h {
        assert f[i] == Rows(ex, segs)[i - 1];
        assert f[i] in Rows(ex, segs);
      }
    }
  }

  /** Without a month every count is exported; a segment without a matching count adds nothing. */
  lemma {:induction false} RowsEmpty(ex: Export, segs: seq<SegmentCounts>)
    ensures Rows(ex, segs) == [] <==>
      forall s, i :: 0 <= s < |segs| && 0 <= i < |segs[s].counts| ==> !Selected(ex, segs[s].id, segs[s].counts[i])
  {
    if segs != [] {
      var init := segs[..|segs| - 1];
      RowsEmpty(ex, init);
      var last := segs[|segs| - 1];
      CountRowsSelected(ex, last.id, last.counts);
      assert forall s :: 0 <= s < |init| ==> init[s] == segs[s];
    }
  }

  lemma CountRowsPrefix(ex: Export, id: int, counts: seq<TrafficCount>, j: nat)
    requires j < |counts|
    ensures CountRows(ex, id, counts[..j + 1]) == CountRows(ex, id, counts[..j]) +
      (if Selected(ex, id, counts[j]) then [Row(ex, id, counts[j])] else [])
  {
    assert counts[..j + 1][..j] == counts[..j];
  }

  lemma RowsStep(ex: Export, segs: seq<SegmentCounts>, s: nat)
    requires s < |segs|
    ensures Rows(ex, segs[..s + 1]) == Rows(ex, segs[..s]) + CountRows(ex, segs[s].id, segs[s].counts)
  {
    assert segs[..s + 1][..s] == segs[..s];
  }

  /** What a file holds once `rows` have been written after the header. */
  function Written(modes: seq<string>, rows: seq<seq<Cell>>): seq<seq<Cell>> {
    if rows == [] then [] else [HeaderRow(modes)] + rows
  }

  lemma WrittenStep(modes: seq<string>, rows: seq<seq<Cell>>, row: seq<Cell>)
    ensures Written(modes, rows + [row]) == (if rows == [] then [HeaderRow(modes)] else Written(modes, rows)) + [row]
  {
  }

  /** The loop of `_write_csv` over the counts of one segment. */
  method CsvCounts(ex: Export, id: int, counts: seq<TrafficCount>, written: seq<seq<Cell>>, needHeader: bool,
                   ghost before: seq<seq<Cell>>)
    returns (written': seq<seq<Cell>>, needHeader': bool)
    requires needHeader <==> before == []
    requires written == Written(ex.modes, before)
    ensures needHeader' <==> before + CountRows(ex, id, counts) == []
    ensures written' == Written(ex.modes, before + CountRows(ex, id, counts))
  {
    written', needHeader' := written, needHeader;
    ghost var rows := before;
    var j := 0;
    while j < |counts|
      invariant 0 <= j <= |counts|
      invariant rows == before + CountRows(ex, id, counts[..j])
      invariant needHeader' <==> rows == []
      invariant written' == Written(ex.modes, rows)
    {
      var tc := counts[j];
      CountRowsPrefix(ex, id, counts, j);
      var d := ex.local(id, tc.dateUtc);
      if ex.month.None? || (d.year, d.month) == ex.month.value {
        if needHeader' {
          var names := ColumnNames(ex.modes);
          written' := written' + [TextRow(names)];
          needHeader' := false;
        }
        var row := ColumnValues(tc, d.text, ex.modes, ex.hist(tc));
        WrittenStep(ex.modes, rows, row);
        assert before + CountRows(ex, id, counts[..j + 1]) == rows + [row];
        written' := written' + [row];
        rows := rows + [row];
      } else {
        assert before + CountRows(ex, id, counts[..j + 1]) == rows;
      }
      j := j + 1;
    }
    assert counts[..j] == counts;
  }

  /** `_write_csv`: the rows written, or `None` when the file is removed for want of data. */
  method WriteCsv(ex: Export, segs: seq<SegmentCounts>) returns (file: Option<seq<seq<Cell>>>)
    ensures file == Exported(ex, segs)
  {
    var written: seq<seq<Cell>> := [];
    var needHeader := true;
    var s := 0;
    while s < |segs|
      invariant 0 <= s <= |segs|
      invariant needHeader <==> Rows(ex, segs[..s]) == []
      invariant written == Written(ex.modes, Rows(ex, segs[..s]))
    {
      written, needHeader := CsvCounts(ex, segs[s].id, segs[s].counts, written, needHeader, Rows(ex, segs[..s]));
      RowsStep(ex, segs, s);
      s := s + 1;
    }
    assert segs[..s] == segs;
    if needHeader {
      return None;
    }
    return Some(written);
  }

  /** The loop of `_write_xl` over the counts of one segment, with the row counter. */
  method XlCounts(ex: Export, id: int, counts: seq<TrafficCount>, sheet: seq<seq<Cell>>, row: int,
                  ghost before: seq<seq<Cell>>)
    returns (sheet': seq<seq<Cell>>, row': int)
    requires row == |sheet| + 1
    requires sheet == Written(ex.modes, before)
    ensures row' == |sheet'| + 1
    ensures sheet' == Written(ex.modes, before + CountRows(ex, id, counts))
  {
    sheet', row' := sheet, row;
    ghost var rows := before;
    var j := 0;
    while j < |counts|
      invariant 0 <= j <= |counts|
      invariant rows == before + CountRows(ex, id, counts[..j])
      invariant row' == |sheet'| + 1
      invariant sheet' == Written(ex.modes, rows)
    {
      var tc := counts[j];
      CountRowsPrefix(ex, id, counts, j);
      var d := ex.local(id, tc.dateUtc);
      if ex.month.None? || (d.year, d.month) == ex.month.value {
        if row' == 1 {
          var names := ColumnNames(ex.modes);
          sheet' := sheet' + [TextRow(names)];
          row' := row' + 1;
        }
        var values := ColumnValues(tc, d.text, ex.modes, ex.hist(tc));
        WrittenStep(ex.modes, rows, values);
        assert before + CountRows(ex, id, counts[..j + 1]) == rows + [values];
        sheet' := sheet' + [values];
        rows := rows + [values];
        row' := row' + 1;
      } else {
        assert before + CountRows(ex, id, counts[..j + 1]) == rows;
      }
      j := j + 1;
    }
    assert counts[..j] == counts;
  }

  /**
    `_write_xl`: the same rows through a row counter that starts at 1; the
    workbook is saved only when the counter moved.
  */
  method WriteXl(ex: Export, segs: seq<SegmentCounts>) returns (saved: Option<seq<seq<Cell>>>)
    ensures saved == Exported(ex, segs)
  {
    var sheet: seq<seq<Cell>> := [];
    var row := 1;
    var s := 0;
    while s < |segs|
      invariant 0 <= s <= |segs|
      invariant row == |sheet| + 1
      invariant sheet == Written(ex.modes, Rows(ex, segs[..s]))
    {
      sheet, row := XlCounts(ex, segs[s].id, segs[s].counts, sheet, row, Rows(ex, segs[..s]));
      RowsStep(ex, segs, s);
      s := s + 1;
    }
    assert segs[..s] == segs;
    if row > 1 {
      return Some(sheet);
    }
    return None;
  }

  // ---------------------------------------------------------------------
  // `main`: the month files and the segment selection
  // ---------------------------------------------------------------------

  /** `prefix + "_%s_%02i.csv.gz" % month` */
  function MonthFile(prefix: string, month: (int, int)): string {
    prefix + "_" + Decimal(month.0) + "_" + Pad2(month.1) + ".csv.gz"
  }

  /** The first month exported: January of `csv_start_year` when set (non-zero), else the month before `curr`. */
  function FirstMonth(startYear: int, curr: (int, int)): (r: (int, int))
    ensures Common.ValidMonth(r.1)
  {
    if startYear != 0 then (startYear, 1) else Common.MonthShift(-1, curr.0, curr.1)
  }

  /**
    The month loop of `main`: one file per month from the first month
    through the month of the newest data, `curr`.
  */
  method MonthFiles(prefix: string, startYear: int, curr: (int, int)) returns (files: seq<string>)
    requires Common.ValidMonth(curr.1)
    ensures files == Common.Walk(m => MonthFile(prefix, m), FirstMonth(startYear, curr),
                                 Common.MonthCount(FirstMonth(startYear, curr), curr))
  {
    var month: (int, int);
    if startYear != 0 {
      month := (startYear, 1);
    } else {
      var y, m := Common.AddMonth(-1, curr.0, curr.1);
      month := (y, m);
    }
    ghost var first := month;
    ghost var name := m => MonthFile(prefix, m);
    files := [];
    while Common.TupleLe(month, curr)
      invariant Common.ValidMonth(month.1)
      invariant files + Common.Walk(name, month, Common.MonthCount(month, curr)) ==
                Common.Walk(name, first, Common.MonthCount(first, curr))
      decreases Common.MonthCount(month, curr)
    {
      Common.WalkNext(files, name, month, curr);
      assert name(month) == MonthFile(prefix, month);
      files := files + [MonthFile(prefix, month)];
      Common.NextIsShift(month);
      var y, m := Common.AddMonth(1, month.0, month.1);
      month := (y, m);
    }
    Common.TupleLeIsIndexOrder(month, curr);
    assert files + [] == files;
  }

  /**
    The files written are named after the consecutive months from the first
    month through `curr`, which is the last one; without `csv_start_year`
    they are the previous month and the current one.
  */
  lemma MonthFilesNamed(prefix: string, startYear: int, curr: (int, int))
    requires Common.ValidMonth(curr.1)
    ensures var first := FirstMonth(startYear, curr);
      var n := Common.MonthCount(first, curr);
      var files := Common.Walk(m => MonthFile(prefix, m), first, n);
      |files| == n &&
      (forall k :: 0 <= k < n ==> files[k] == MonthFile(prefix, Common.MonthShift(k, first.0, first.1))) &&
      (n > 0 ==> files[n - 1] == MonthFile(prefix, curr)) &&
      (startYear == 0 ==> files == [MonthFile(prefix, Common.MonthShift(-1, curr.0, curr.1)), MonthFile(prefix, curr)])
  {
    var first := FirstMonth(startYear, curr);
    var n := Common.MonthCount(first, curr);
    var name := m => MonthFile(prefix, m);
    Common.WalkAt(name, first, n);
    Common.WalkEnds(first, curr);
    if startYear == 0 {
      Common.MonthShiftZero(first.0, first.1);
    }
  }

  /**
    The `--csv` step of `main` after the update: `newest` is the month of
    `newest_data`.  When the update found no new data it is `None`, and
    `newest_data.year` raises an `AttributeError` before any file is
    written, whether `csv_start_year` is set or not; `None` stands for that
    raise.
  */
  method CsvMonths(prefix: string, startYear: int, newest: Option<(int, int)>) returns (files: Option<seq<string>>)
    requires newest.Some? ==> Common.ValidMonth(newest.value.1)
    ensures files.None? <==> newest.None?
    ensures files.Some? ==>
      var first := FirstMonth(startYear, newest.value);
      files.value == Common.Walk(m => MonthFile(prefix, m), first, Common.MonthCount(first, newest.value))
  {
    if newest.None? {
      return None;
    }
    var names := MonthFiles(prefix, startYear, newest.value);
    files := Some(names);
  }

  /** `{k: v for k, v in segments.items() if k in filtered}` */
  function KeepSegments<V>(segments: PyDict.Dict<int, V>, filtered: seq<int>): (r: PyDict.Dict<int, V>)
    ensures |r| <= |segments|
    ensures forall i :: 0 <= i < |r| ==> r[i] in segments && r[i].0 in filtered
    ensures forall i :: 0 <= i < |segments| && segments[i].0 in filtered ==> segments[i] in r
  {
    if segments == [] then []
    else
      var last := segments[|segments| - 1];
      var init := segments[..|segments| - 1];
      assert forall i :: 0 <= i < |init| ==> init[i] == segments[i];
      KeepSegments(init, filtered) + (if last.0 in filtered then [last] else [])
  }

  /** The selection keeps the dictionary's order and distinct keys. */
  lemma {:induction false} KeepSegmentsValid<V>(segments: PyDict.Dict<int, V>, filtered: seq<int>)
    requires PyDict.Valid(segments)
    ensures PyDict.Valid(KeepSegments(segments, filtered))
  {
    if segments != [] {
      var init := segments[..|segments| - 1];
      var last := segments[|segments| - 1];
      assert forall i :: 0 <= i < |init| ==> init[i] == segments[i];
      KeepSegmentsValid(init, filtered);
      var kept := KeepSegments(init, filtered);
      forall j | 0 <= j < |kept| ensures kept[j].0 != last.0 {
        var i :| 0 <= i < |init| && init[i] == kept[j];
      }
    }
  }
}
