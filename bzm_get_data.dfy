/**
  `bzm_get_data`: the dashboard's data preparation.  It lists the monthly
  Telraam CSV files of a period, walks the period in chunks of `aggregate`
  months aligned to the calendar year, writes one traffic table per chunk
  (skipping chunks already on disk unless forced) and writes the table of
  counting locations with each segment's hardware version and street label.
*/
module BzmGetData {
  import opened Wrappers
  import opened Strings
  import opened Json
  import PyDict
  import Seqs
  import Common
  import BackupExport

  /** A (year, month) pair. */
  type Month = (int, int)

  function Shift(offset: int, m: Month): (r: Month)
    ensures Common.ValidMonth(r.1)
    ensures Common.MonthIndex(r.0, r.1) == Common.MonthIndex(m.0, m.1) + offset
  {
    Common.MonthShift(offset, m.0, m.1)
  }

  /** How many months `b` lies after `a`. */
  function Dist(a: Month, b: Month): int {
    Common.MonthIndex(b.0, b.1) - Common.MonthIndex(a.0, a.1)
  }

  /** Two normalised months are equal exactly when none lies between them. */
  lemma DistZero(a: Month, b: Month)
    requires Common.ValidMonth(a.1) && Common.ValidMonth(b.1)
    ensures Dist(a, b) == 0 <==> a == b
  {
    if Dist(a, b) == 0 {
      Common.MonthIndexInjective(a.0, a.1, b.0, b.1);
    }
  }

  // ---------------------------------------------------------------------
  // `_read_csv`: one file per month of [start, end)
  // ---------------------------------------------------------------------

  const WebCsv := "https://berlin-zaehlt.de/csv/"

  /**
    What the file system holds: the CSV directory's path and the names of the
    files in it, and the names of the files in the data directory.
  */
  datatype Disk = Disk(csvDir: string, localCsv: set<string>, dataFiles: set<string>)

  /** `"bzm_telraam_%s_%02i.csv.gz" % (year, month)` */
  function CsvName(m: Month): string {
    BackupExport.MonthFile("bzm_telraam", m)
  }

  /** The local copy when the CSV directory has one, otherwise the file on the web server. */
  function CsvPath(disk: Disk, m: Month): string {
    var file := CsvName(m);
    if file in disk.localCsv then disk.csvDir + "/" + file else WebCsv + file
  }

  /** The number of months from `first` up to, not including, `stop`. */
  function Span(first: Month, stop: Month): nat {
    if Dist(first, stop) < 0 then 0 else Dist(first, stop)
  }

  /** `f` of each month from `first` up to, not including, `stop`. */
  function MonthSeq<T>(first: Month, stop: Month, f: Month -> T): (r: seq<T>)
    ensures |r| == Span(first, stop)
  {
    seq(Span(first, stop), k => f(Shift(k, first)))
  }

  /** One more month adds its value at the end. */
  lemma MonthSeqStep<T>(first: Month, month: Month, f: Month -> T)
    requires Common.ValidMonth(month.1) && 0 <= Dist(first, month)
    ensures MonthSeq(first, Shift(1, month), f) == MonthSeq(first, month, f) + [f(month)]
  {
    var k := Dist(first, month);
    Common.MonthIndexInjective(Shift(k, first).0, Shift(k, first).1, month.0, month.1);
    var a, b := MonthSeq(first, Shift(1, month), f), MonthSeq(first, month, f);
    assert |a| == k + 1;
    forall i | 0 <= i < k ensures a[i] == b[i] {}
  }

  /** The months up to `mid` followed by those from `mid` to `stop` are the months up to `stop`. */
  lemma MonthSeqSplit<T>(first: Month, mid: Month, stop: Month, f: Month -> T)
    requires 0 <= Dist(first, mid) <= Dist(first, stop)
    ensures MonthSeq(first, mid, f) + MonthSeq(mid, stop, f) == MonthSeq(first, stop, f)
  {
    var a, b, c := MonthSeq(first, mid, f), MonthSeq(mid, stop, f), MonthSeq(first, stop, f);
    var d := Dist(first, mid);
    forall k | 0 <= k < |c| ensures (a + b)[k] == c[k] {
      if k >= d {
        var p, q := Shift(k, first), Shift(k - d, mid);
        Common.MonthIndexInjective(p.0, p.1, q.0, q.1);
        assert b[k - d] == f(q);
      }
    }
  }

  function CsvPaths(disk: Disk): Month -> string {
    m => CsvPath(disk, m)
  }

  /** The files of the months from `first` up to, not including, `stop`. */
  function CsvFiles(disk: Disk, first: Month, stop: Month): (r: seq<string>)
    ensures |r| == Span(first, stop)
    ensures forall k :: 0 <= k < |r| ==> r[k] == CsvPath(disk, Shift(k, first))
  {
    MonthSeq(first, stop, CsvPaths(disk))
  }

  /** `_read_csv`: the file list, built month by month until `end` is reached. */
  method ReadCsv(disk: Disk, start: Month, end: Month) returns (files: seq<string>)
    requires Common.ValidMonth(start.1) && Common.ValidMonth(end.1)
    requires Dist(start, end) >= 0
    ensures files == CsvFiles(disk, start, end)
  {
    var month := start;
    files := [];
    while month != end
      invariant Common.ValidMonth(month.1)
      invariant 0 <= Dist(start, month) <= Dist(start, end)
      invariant files == CsvFiles(disk, start, month)
      decreases Dist(month, end)
    {
      DistZero(month, end);
      MonthSeqStep(start, month, CsvPaths(disk));
      var file := CsvName(month);
      var path := if file in disk.localCsv then disk.csvDir + "/" + file else WebCsv + file;
      files := files + [path];
      var y, m := Common.AddMonth(1, month.0, month.1);
      month := (y, m);
    }
  }

  /**
    The `k`-th file is the `k`-th month after `start`, named with the year and
    the two-digit month, local when present and remote otherwise.
  */
  lemma CsvFilesNamed(disk: Disk, start: Month, end: Month, k: int)
    requires Common.ValidMonth(start.1)
    requires 0 <= k < |CsvFiles(disk, start, end)|
    ensures var m := Shift(k, start);
      var name := "bzm_telraam_" + Decimal(m.0) + "_" + Pad2(m.1) + ".csv.gz";
      Dist(start, m) == k && Dist(m, end) > 0 &&
      |Pad2(m.1)| == 2 && AllDigits(Pad2(m.1)) && ParseDigits(Pad2(m.1)) == m.1 &&
      CsvFiles(disk, start, end)[k] == (if name in disk.localCsv then disk.csvDir + "/" + name else WebCsv + name)
  {
    var m := Shift(k, start);
    Pad2RoundTrip(m.1);
    assert "bzm_telraam" + "_" + Decimal(m.0) + "_" + Pad2(m.1) + ".csv.gz"
        == "bzm_telraam_" + Decimal(m.0) + "_" + Pad2(m.1) + ".csv.gz";
  }

  /** The files up to `mid` followed by those from `mid` to `stop` are the files up to `stop`. */
  lemma CsvFilesSplit(disk: Disk, first: Month, mid: Month, stop: Month)
    requires 0 <= Dist(first, mid) <= Dist(first, stop)
    ensures CsvFiles(disk, first, mid) + CsvFiles(disk, mid, stop) == CsvFiles(disk, first, stop)
  {
    MonthSeqSplit(first, mid, stop, CsvPaths(disk));
  }

  // ---------------------------------------------------------------------
  // `save_df`: the format follows the file extension
  // ---------------------------------------------------------------------

  datatype Format = Xlsx | Parquet | Csv

  lemma ExtensionsDisjoint(fileName: string)
    ensures EndsWith(fileName, ".xlsx") ==> !EndsWith(fileName, ".parquet")
  {
    if EndsWith(fileName, ".xlsx") {
      assert fileName[|fileName| - 1] == ".xlsx"[4];
    }
  }

  /** Excel for `.xlsx`, Parquet for `.parquet`, CSV for every other name. */
  function SaveFormat(fileName: string): (r: Format)
    ensures r == Xlsx <==> EndsWith(fileName, ".xlsx")
    ensures r == Parquet <==> EndsWith(fileName, ".parquet")
    ensures r == Csv <==> !EndsWith(fileName, ".xlsx") && !EndsWith(fileName, ".parquet")
  {
    ExtensionsDisjoint(fileName);
    if EndsWith(fileName, ".xlsx") then Xlsx
    else if EndsWith(fileName, ".parquet") then Parquet
    else Csv
  }

  // ---------------------------------------------------------------------
  // `get_options`
  // ---------------------------------------------------------------------

  /** An output option with its one `%s` directive: the text before and after it. */
  datatype Template = Template(before: string, after: string)

  function Fill(t: Template, text: string): string {
    t.before + text + t.after
  }

  /** The command line as given; `None` where an option is not given. */
  datatype Args = Args(
    output: Option<Template>,
    locationOutput: Option<string>,
    months: Option<int>,
    aggregate: Option<int>,
    force: bool,
    csv: bool,
    database: Option<string>)

  datatype Options = Options(
    output: Template,
    locationOutput: string,
    months: int,
    aggregate: int,
    force: bool,
    csv: bool)

  const DefaultOutput := Template("traffic_df_", ".parquet")
  const DefaultLocationOutput := "df_geojson.parquet"

  /**
    `get_options`: the argparse defaults, and CSV input whenever no database
    is given (an empty database argument counts as none).
  */
  function GetOptions(args: Args): (r: Options)
    ensures r.csv <==> args.csv || args.database.None? || args.database.value == []
    ensures args.output.None? ==> r.output == DefaultOutput
    ensures args.locationOutput.None? ==> r.locationOutput == DefaultLocationOutput
    ensures args.months.None? ==> r.months == 4
    ensures args.aggregate.None? ==> r.aggregate == 3
    ensures args.output.Some? ==> r.output == args.output.value
    ensures args.months.Some? ==> r.months == args.months.value
    ensures args.aggregate.Some? ==> r.aggregate == args.aggregate.value
    ensures r.force == args.force
  {
    Options(
      args.output.GetOr(DefaultOutput),
      args.locationOutput.GetOr(DefaultLocationOutput),
      args.months.GetOr(4),
      args.aggregate.GetOr(3),
      args.force,
      args.csv || !(args.database.Some? && args.database.value != []))
  }

  // ---------------------------------------------------------------------
  // `main`: the chunk loop
  // ---------------------------------------------------------------------

  /** `((month - 1) // aggregate) * aggregate + 1`: the first month of the aggregate the month falls in. */
  function AlignedStart(m: Month, agg: int): (r: Month)
    requires Common.ValidMonth(m.1) && agg >= 1
    ensures Common.ValidMonth(r.1) && r.0 == m.0
    ensures 0 <= Dist(r, m) < agg
    ensures (r.1 - 1) % agg == 0
  {
    var q := (m.1 - 1) / agg;
    Common.DivMod(q * agg, agg, q, 0);
    (m.0, q * agg + 1)
  }

  /** `"%s_%02i-%s_%02i"`: a chunk's first and last month. */
  function Label(first: Month, last: Month): string {
    Decimal(first.0) + "_" + Pad2(first.1) + "-" + Decimal(last.0) + "_" + Pad2(last.1)
  }

  /** The file a chunk starting at `first` is written to; the last month is the one before the next chunk. */
  function OutFile(o: Options, first: Month): string {
    Fill(o.output, Label(first, Shift(-1, Shift(o.aggregate, first))))
  }

  /** The end of the months read for a chunk: the next chunk's start, but never past `end`. */
  function ChunkStop(first: Month, end: Month, agg: int): Month {
    var next := Shift(agg, first);
    if Dist(end, next) > 0 then end else next
  }

  /** An existing file is kept unless forced, while the chunk after this one also ends before `end`. */
  predicate Skipped(o: Options, disk: Disk, end: Month, first: Month) {
    Dist(Shift(o.aggregate, Shift(o.aggregate, first)), end) > 0 && OutFile(o, first) in disk.dataFiles && !o.force
  }

  function Kept(o: Options, disk: Disk, end: Month): Month -> bool {
    first => !Skipped(o, disk, end, first)
  }

  /** What gets saved. */
  datatype Saved =
    | Locations(file: string, format: Format)
    | Traffic(file: string, format: Format, inputs: seq<string>)

  /** The table written for the chunk starting at `first`. */
  function ChunkOf(o: Options, disk: Disk, end: Month, first: Month): Saved {
    var file := OutFile(o, first);
    Traffic(file, SaveFormat(file), CsvFiles(disk, first, ChunkStop(first, end, o.aggregate)))
  }

  function Chunk(o: Options, disk: Disk, end: Month): Month -> Saved {
    first => ChunkOf(o, disk, end, first)
  }

  /** The first months of the chunks: steps of `agg` months from `month` while before `end`. */
  function Starts(month: Month, end: Month, agg: int): seq<Month>
    requires agg >= 1
    decreases Dist(month, end)
  {
    if Dist(month, end) <= 0 then [] else [month] + Starts(Shift(agg, month), end, agg)
  }

  /** The tables written from `first` on: the chunks not skipped, in order. */
  function Plan(o: Options, disk: Disk, first: Month, end: Month): seq<Saved>
    requires o.aggregate >= 1
  {
    Seqs.Map(Seqs.Filter(Starts(first, end, o.aggregate), Kept(o, disk, end)), Chunk(o, disk, end))
  }

  /** One turn of the chunk loop: this chunk, unless skipped, then the rest. */
  lemma PlanStep(o: Options, disk: Disk, month: Month, end: Month)
    requires o.aggregate >= 1 && Dist(month, end) > 0
    ensures Plan(o, disk, month, end)
         == (if Skipped(o, disk, end, month) then [] else [ChunkOf(o, disk, end, month)])
            + Plan(o, disk, Shift(o.aggregate, month), end)
  {
    var rest := Starts(Shift(o.aggregate, month), end, o.aggregate);
    var p, f := Kept(o, disk, end), Chunk(o, disk, end);
    assert Starts(month, end, o.aggregate) == [month] + rest;
    Seqs.FilterAppend([month], rest, p);
    assert [month][..0] == [];
    var head := Seqs.Filter([month], p);
    assert head == if p(month) then [month] else [];
    Seqs.MapAppend(head, Seqs.Filter(rest, p), f);
    assert Seqs.Map(head, f) == if p(month) then [f(month)] else [];
  }

  lemma PlanDone(o: Options, disk: Disk, month: Month, end: Month)
    requires o.aggregate >= 1 && Dist(month, end) <= 0
    ensures Plan(o, disk, month, end) == []
  {
  }

  /**
    The head of one turn of the chunk loop: the chunk's file name, whether it
    is skipped, and where the months it reads stop (the next chunk's start
    when skipped, which is never clamped).
  */
  method ChunkBounds(o: Options, disk: Disk, month: Month, end: Month) returns (skip: bool, outFile: string, stop: Month)
    requires o.aggregate >= 1
    requires Common.ValidMonth(month.1) && Common.ValidMonth(end.1)
    requires Dist(month, end) > 0
    ensures Common.ValidMonth(stop.1) && 0 < Dist(month, stop)
    ensures skip == Skipped(o, disk, end, month)
    ensures outFile == OutFile(o, month)
    ensures !skip ==> stop == ChunkStop(month, end, o.aggregate)
    ensures Plan(o, disk, stop, end) == Plan(o, disk, Shift(o.aggregate, month), end)
  {
    var yp, mp := Common.AddMonth(o.aggregate, month.0, month.1);
    var yl, ml := Common.AddMonth(-1, yp, mp);
    outFile := Fill(o.output, Label(month, (yl, ml)));
    var ya, ma := Common.AddMonth(o.aggregate, yp, mp);
    Common.TupleLeIsIndexOrder(end, (ya, ma));
    if !Common.TupleLe(end, (ya, ma)) && outFile in disk.dataFiles && !o.force {
      return true, outFile, (yp, mp);
    }
    skip := false;
    Common.TupleLeIsIndexOrder((yp, mp), end);
    stop := (yp, mp);
    if !Common.TupleLe((yp, mp), end) {
      stop := end;
      PlanDone(o, disk, (yp, mp), end);
      PlanDone(o, disk, end, end);
    }
  }

  /** One turn of the chunk loop, told by what its head computed: the saved tables stay a prefix of the plan. */
  lemma PlanTurn(o: Options, disk: Disk, first: Month, month: Month, end: Month,
                 skip: bool, outFile: string, stop: Month, saved: seq<Saved>)
    requires o.aggregate >= 1 && Dist(month, end) > 0
    requires skip == Skipped(o, disk, end, month) && outFile == OutFile(o, month)
    requires !skip ==> stop == ChunkStop(month, end, o.aggregate)
    requires Plan(o, disk, stop, end) == Plan(o, disk, Shift(o.aggregate, month), end)
    requires saved + Plan(o, disk, month, end) == Plan(o, disk, first, end)
    ensures skip ==> saved + Plan(o, disk, stop, end) == Plan(o, disk, first, end)
    ensures !skip ==> Plan(o, disk, month, end) != []
    ensures !skip ==>
      saved + [Traffic(outFile, SaveFormat(outFile), CsvFiles(disk, month, stop))] + Plan(o, disk, stop, end)
      == Plan(o, disk, first, end)
  {
    PlanStep(o, disk, month, end);
    var here, rest := Plan(o, disk, month, end), Plan(o, disk, stop, end);
    if skip {
      Seqs.PrefixStep(saved, here, [], rest, Plan(o, disk, first, end));
    } else {
      var c := ChunkOf(o, disk, end, month);
      assert Traffic(outFile, SaveFormat(outFile), CsvFiles(disk, month, stop)) == c;
      Seqs.PrefixStep(saved, here, [c], rest, Plan(o, disk, first, end));
    }
  }

  /**
    The chunk loop of `main`.  Without CSV input, the first chunk that is not
    skipped fails, since the database reader is not available.
  */
  method WriteChunks(o: Options, disk: Disk, first: Month, end: Month) returns (saved: seq<Saved>, failed: bool)
    requires o.aggregate >= 1
    requires Common.ValidMonth(first.1) && Common.ValidMonth(end.1)
    ensures failed <==> !o.csv && Plan(o, disk, first, end) != []
    ensures !failed ==> saved == Plan(o, disk, first, end)
    ensures failed ==> saved == []
  {
    var month := first;
    saved, failed := [], false;
    while !Common.TupleLe(end, month)
      invariant Common.ValidMonth(month.1)
      invariant saved + Plan(o, disk, month, end) == Plan(o, disk, first, end)
      invariant !o.csv ==> saved == []
      decreases Dist(month, end)
    {
      Common.TupleLeIsIndexOrder(end, month);
      var skip, outFile, stop := ChunkBounds(o, disk, month, end);
      PlanTurn(o, disk, first, month, end, skip, outFile, stop, saved);
      if skip {
        month := stop;
        continue;
      }
      if !o.csv {
        return [], true;
      }
      var inputs := ReadCsv(disk, month, stop);
      saved := saved + [Traffic(outFile, SaveFormat(outFile), inputs)];
      month := stop;
    }
    Common.TupleLeIsIndexOrder(end, month);
    PlanDone(o, disk, month, end);
  }

  /** The month after the current one ends the period. */
  function EndMonth(now: Month): Month {
    Shift(1, now)
  }

  /** The aligned first month, `months` months back. */
  function FirstMonth(o: Options, now: Month): Month
    requires o.aggregate >= 1
  {
    AlignedStart(Shift(-o.months, now), o.aggregate)
  }

  /**
    `main`: the location table first, then the chunks from the aligned first
    month up to the month after `now`.  An aggregate of 0 fails in the
    alignment (a division by zero) before anything is saved.
  */
  method Run(o: Options, disk: Disk, now: Month) returns (saved: seq<Saved>, failed: bool)
    requires o.aggregate >= 0
    requires Common.ValidMonth(now.1)
    ensures o.aggregate == 0 ==> failed && saved == []
    ensures o.aggregate >= 1 ==>
      var locations := Locations(o.locationOutput, SaveFormat(o.locationOutput));
      var plan := Plan(o, disk, FirstMonth(o, now), EndMonth(now));
      (failed <==> !o.csv && plan != []) &&
      (!failed ==> saved == [locations] + plan) &&
      (failed ==> saved == [locations])
  {
    if o.aggregate == 0 {
      return [], true;
    }
    var ey, em := Common.AddMonth(1, now.0, now.1);
    var y, m := Common.AddMonth(-o.months, now.0, now.1);
    m := ((m - 1) / o.aggregate) * o.aggregate + 1;
    assert (y, m) == FirstMonth(o, now);
    assert (ey, em) == EndMonth(now);
    saved := [Locations(o.locationOutput, SaveFormat(o.locationOutput))];
    var chunks;
    chunks, failed := WriteChunks(o, disk, FirstMonth(o, now), EndMonth(now));
    saved := saved + chunks;
  }

  // ---------------------------------------------------------------------
  // What the plan says
  // ---------------------------------------------------------------------

  /**
    The chunks start at `month` and follow each other in steps of `agg`
    months; each starts before `end`, and the last one reaches `end`.
  */
  lemma {:induction false} StartsShape(month: Month, end: Month, agg: int)
    requires agg >= 1
    ensures var s := Starts(month, end, agg);
      (|s| > 0 <==> Dist(month, end) > 0) &&
      (|s| > 0 ==> s[0] == month && Dist(s[|s| - 1], end) <= agg) &&
      (forall k :: 0 <= k < |s| ==> Dist(month, s[k]) == k * agg && Dist(s[k], end) > 0) &&
      (forall k :: 0 <= k < |s| - 1 ==> s[k + 1] == Shift(agg, s[k]))
    decreases Dist(month, end)
  {
    if Dist(month, end) > 0 {
      var next := Shift(agg, month);
      StartsShape(next, end, agg);
      var s, t := Starts(month, end, agg), Starts(next, end, agg);
      assert s == [month] + t;
      forall k | 1 <= k < |s| ensures Dist(month, s[k]) == k * agg {
        assert s[k] == t[k - 1];
        assert Dist(month, s[k]) == agg + (k - 1) * agg;
      }
    }
  }

  /**
    The table of the chunk starting at `first` is named after `first` and the
    month `aggregate - 1` after it, and reads the `aggregate` months from
    `first` on, fewer when `end` comes first.
  */
  lemma ChunkContents(o: Options, disk: Disk, end: Month, first: Month)
    requires o.aggregate >= 1 && Dist(first, end) > 0
    ensures var c := ChunkOf(o, disk, end, first);
      var last := Shift(o.aggregate - 1, first);
      var n := if Dist(first, end) < o.aggregate then Dist(first, end) else o.aggregate;
      c.file == Fill(o.output, Label(first, last)) &&
      Dist(first, last) == o.aggregate - 1 &&
      c.format == SaveFormat(c.file) &&
      |c.inputs| == n &&
      forall k :: 0 <= k < n ==> c.inputs[k] == CsvPath(disk, Shift(k, first))
  {
    Common.MonthShiftCompose(o.aggregate, -1, first.0, first.1);
  }

  /**
    The two chunks nearest `end` are always written, whether or not their
    files exist and whether or not the run is forced.
  */
  lemma LastChunksWritten(o: Options, disk: Disk, first: Month, end: Month)
    requires o.aggregate >= 1
    ensures var s := Starts(first, end, o.aggregate);
      forall k :: 0 <= k < |s| && |s| - 2 <= k ==> ChunkOf(o, disk, end, s[k]) in Plan(o, disk, first, end)
  {
    var agg := o.aggregate;
    var s := Starts(first, end, agg);
    StartsShape(first, end, agg);
    var kept := Seqs.Filter(s, Kept(o, disk, end));
    Seqs.FilterMembers(s, Kept(o, disk, end));
    forall k | 0 <= k < |s| && |s| - 2 <= k
      ensures ChunkOf(o, disk, end, s[k]) in Plan(o, disk, first, end)
    {
      if k < |s| - 1 {
        assert s[k + 1] == Shift(agg, s[k]);
      }
      assert !Skipped(o, disk, end, s[k]);
      var j :| 0 <= j < |kept| && kept[j] == s[k];
      assert Plan(o, disk, first, end)[j] == ChunkOf(o, disk, end, s[k]);
    }
  }

  /** A chunk is skipped only when its file exists and the run is not forced. */
  lemma SkipRule(o: Options, disk: Disk, first: Month, end: Month)
    requires o.aggregate >= 1
    ensures var s := Starts(first, end, o.aggregate);
      forall k :: 0 <= k < |s| && (o.force || OutFile(o, s[k]) !in disk.dataFiles) ==>
        ChunkOf(o, disk, end, s[k]) in Plan(o, disk, first, end)
  {
    var s := Starts(first, end, o.aggregate);
    var kept := Seqs.Filter(s, Kept(o, disk, end));
    Seqs.FilterMembers(s, Kept(o, disk, end));
    forall k | 0 <= k < |s| && (o.force || OutFile(o, s[k]) !in disk.dataFiles)
      ensures ChunkOf(o, disk, end, s[k]) in Plan(o, disk, first, end)
    {
      var j :| 0 <= j < |kept| && kept[j] == s[k];
      assert Plan(o, disk, first, end)[j] == ChunkOf(o, disk, end, s[k]);
    }
  }

  /** The CSV files read by a list of saves, one save after the other. */
  function Inputs(saved: seq<Saved>): seq<string> {
    if saved == [] then []
    else (if saved[0].Traffic? then saved[0].inputs else []) + Inputs(saved[1..])
  }

  /**
    A forced run reads every month file from `month` up to `end` exactly once,
    in order.
  */
  lemma {:induction false} ForcedReadsAll(o: Options, disk: Disk, month: Month, end: Month)
    requires o.aggregate >= 1 && o.force
    ensures Inputs(Plan(o, disk, month, end)) == CsvFiles(disk, month, end)
    decreases Dist(month, end)
  {
    if Dist(month, end) <= 0 {
      PlanDone(o, disk, month, end);
    } else {
      var next := Shift(o.aggregate, month);
      PlanStep(o, disk, month, end);
      ForcedReadsAll(o, disk, next, end);
      var plan := Plan(o, disk, month, end);
      assert plan[1..] == Plan(o, disk, next, end);
      var stop := ChunkStop(month, end, o.aggregate);
      if Dist(end, next) > 0 {
        PlanDone(o, disk, next, end);
        assert Inputs(plan) == CsvFiles(disk, month, end) + [];
      } else {
        CsvFilesSplit(disk, month, next, end);
      }
    }
  }

  /** With the default output names every table is written as Parquet. */
  lemma DefaultsWriteParquet(args: Args, disk: Disk, first: Month, end: Month)
    requires args.output.None? && args.locationOutput.None?
    requires args.aggregate.None? || args.aggregate.value >= 1
    ensures var o := GetOptions(args);
      SaveFormat(o.locationOutput) == Parquet &&
      forall c :: c in Plan(o, disk, first, end) ==> c.format == Parquet
  {
    var o := GetOptions(args);
    assert EndsWith(o.locationOutput, ".parquet");
    var kept := Seqs.Filter(Starts(first, end, o.aggregate), Kept(o, disk, end));
    forall c | c in Plan(o, disk, first, end) ensures c.format == Parquet {
      var j :| 0 <= j < |kept| && c == ChunkOf(o, disk, end, kept[j]);
      var file := OutFile(o, kept[j]);
      assert file[|file| - 8..] == ".parquet";
    }
  }

  // ---------------------------------------------------------------------
  // `get_locations`: hardware version and street label
  // ---------------------------------------------------------------------

  /**
    `get_hardware`: the first camera's `hardware_version`, 0 when the segment
    has no cameras; `None` where Python raises (no `cameras` entry, or a first
    camera that is not an object with a hardware version).
  */
  function Hardware(props: Props): (r: Option<Json>)
    ensures PyDict.Get(props, "cameras").None? ==> r.None?
    ensures PyDict.Get(props, "cameras").Some? && !Truthy(PyDict.Get(props, "cameras").value) ==> r == Some(JInt(0))
    ensures forall cams, v ::
      (PyDict.Get(props, "cameras") == Some(JArr(cams)) && cams != [] && Field(cams[0], "hardware_version") == Some(v))
      ==> r == Some(v)
    ensures r.Some? ==> PyDict.Get(props, "cameras").Some?
  {
    match PyDict.Get(props, "cameras")
    case None => None
    case Some(cams) =>
      if !Truthy(cams) then Some(JInt(0))
      else if cams.JArr? then Field(cams.items[0], "hardware_version")
      else None
  }

  /** `name + ' (' + segment_id + ')'` */
  function IdStreet(name: string, segmentId: int): string {
    name + " (" + Decimal(segmentId) + ")"
  }
}
