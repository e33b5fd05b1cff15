/**
  The first dashboard's data preparation (`src/bzm_get_data.py`): hourly gap
  filling of the Telraam traffic files, the cleaned location table, and the
  merge of both with its label columns.  Timestamps are seconds.
*/
module LegacyBzmGetData {
  import opened Wrappers
  import opened Json
  import PyDict
  import Seqs
  import Common

  // Times are seconds; the hourly grid steps by 3600.

  // ---------------------------------------------------------------------
  // `fill_missing_dates`
  // ---------------------------------------------------------------------

  /** One row of a traffic file: its segment, its `date_local` and its other columns. */
  datatype Count = Count(segmentId: int, date: int, values: Props)

  /** A row after gap filling; `values` is `None` for an inserted hour, whose other columns are missing. */
  datatype Filled = Filled(segmentId: int, date: int, values: Option<Props>)

  /** `df['segment_id'].unique()`: the segments in the order they first appear. */
  function Segments(df: seq<Count>): (r: seq<int>)
    ensures forall i, j :: 0 <= i < j < |r| ==> r[i] != r[j]
    ensures forall s :: s in r <==> exists i :: 0 <= i < |df| && df[i].segmentId == s
  {
    if df == [] then []
    else
      var init := df[..|df| - 1];
      assert forall i :: 0 <= i < |init| ==> init[i] == df[i];
      var u := Segments(init);
      var s := df[|df| - 1].segmentId;
      if s in u then u else u + [s]
  }

  predicate At(c: Count, s: int, t: int) {
    c.segmentId == s && c.date == t
  }

  /** Row `i` is the last row of segment `s` at time `t`. */
  predicate LastAt(df: seq<Count>, i: int, s: int, t: int) {
    0 <= i < |df| && At(df[i], s, t) && forall j :: i < j < |df| ==> !At(df[j], s, t)
  }

  lemma LastAtUnique(df: seq<Count>, i: int, j: int, s: int, t: int)
    requires LastAt(df, i, s, t) && LastAt(df, j, s, t)
    ensures i == j
  {
  }

  /**
    The columns of segment `s` at time `t` after `drop_duplicates(keep='last')`:
    those of the last row there, if any.
  */
  function Latest(df: seq<Count>, s: int, t: int): Option<Props> {
    if df == [] then None
    else if At(df[|df| - 1], s, t) then Some(df[|df| - 1].values)
    else Latest(df[..|df| - 1], s, t)
  }

  /** `Latest` is empty exactly when no row is there, and otherwise holds the last row's columns. */
  lemma {:induction false} LatestRules(df: seq<Count>, s: int, t: int)
    ensures Latest(df, s, t).None? <==> forall i :: 0 <= i < |df| ==> !At(df[i], s, t)
    ensures Latest(df, s, t).Some? ==> exists i :: LastAt(df, i, s, t) && df[i].values == Latest(df, s, t).value
  {
    if df == [] {
    } else if At(df[|df| - 1], s, t) {
      assert LastAt(df, |df| - 1, s, t);
    } else {
      var init := df[..|df| - 1];
      assert forall i :: 0 <= i < |init| ==> init[i] == df[i];
      LatestRules(init, s, t);
      if Latest(init, s, t).Some? {
        var i :| LastAt(init, i, s, t) && init[i].values == Latest(init, s, t).value;
        assert LastAt(df, i, s, t);
      }
    }
  }

  /** The times of the rows of segment `s`. */
  function Dates(df: seq<Count>, s: int): (r: seq<int>)
    ensures forall t :: t in r <==> exists i :: 0 <= i < |df| && At(df[i], s, t)
    ensures r == [] ==> forall i :: 0 <= i < |df| ==> df[i].segmentId != s
  {
    if df == [] then []
    else
      var init := df[..|df| - 1];
      assert forall i :: 0 <= i < |init| ==> init[i] == df[i];
      Dates(init, s) + (if df[|df| - 1].segmentId == s then [df[|df| - 1].date] else [])
  }

  function Min(ts: seq<int>): (r: int)
    requires ts != []
    ensures r in ts && forall t :: t in ts ==> r <= t
  {
    if |ts| == 1 then ts[0]
    else
      var m := Min(ts[1..]);
      assert forall t :: t in ts[1..] ==> t in ts;
      assert forall t :: t in ts ==> t == ts[0] || t in ts[1..];
      if ts[0] <= m then ts[0] else m
  }

  function Max(ts: seq<int>): (r: int)
    requires ts != []
    ensures r in ts && forall t :: t in ts ==> t <= r
  {
    if |ts| == 1 then ts[0]
    else
      var m := Max(ts[1..]);
      assert forall t :: t in ts[1..] ==> t in ts;
      assert forall t :: t in ts ==> t == ts[0] || t in ts[1..];
      if ts[0] >= m then ts[0] else m
  }

  /**
    One segment after reindexing on the hourly range from its first to its
    last time: the hour's last row where there is one, an empty row otherwise,
    and every row carrying the segment's id.
  */
  function Block(df: seq<Count>, s: int): seq<Filled> {
    var ds := Dates(df, s);
    if ds == [] then [] else Grid(df, s, Min(ds), (Max(ds) - Min(ds)) / 3600 + 1)
  }

  /** `n` hours of segment `s` from `lo` on. */
  function Grid(df: seq<Count>, s: int, lo: int, n: nat): (r: seq<Filled>)
    ensures |r| == n
    ensures forall k :: 0 <= k < n ==> r[k] == Filled(s, lo + 3600 * k, Latest(df, s, lo + 3600 * k))
  {
    seq(n, k => Filled(s, lo + 3600 * k, Latest(df, s, lo + 3600 * k)))
  }

  function BlockOf(df: seq<Count>): int -> seq<Filled> {
    s => Block(df, s)
  }

  /** The filled table: the segments' blocks one after the other. */
  function FillAll(df: seq<Count>): seq<Filled> {
    Seqs.Concat(Seqs.Map(Segments(df), BlockOf(df)))
  }

  /** `fill_missing_dates`: the blocks appended segment by segment. */
  method FillMissingDates(df: seq<Count>) returns (result: seq<Filled>)
    ensures result == FillAll(df)
  {
    var segs := Segments(df);
    result := [];
    for i := 0 to |segs|
      invariant result == Seqs.Concat(Seqs.Map(segs[..i], BlockOf(df)))
    {
      var block := Block(df, segs[i]);
      Seqs.MapStep(segs, i, BlockOf(df));
      Seqs.ConcatSnoc(Seqs.Map(segs[..i], BlockOf(df)), block);
      result := result + block;
    }
    assert segs[..|segs|] == segs;
  }

  /**
    A segment's block has one row per hour from its first time on, the last
    one at most an hour before its last time; every row carries the segment.
  */
  lemma BlockHourly(df: seq<Count>, s: int)
    requires s in Segments(df)
    ensures var b := Block(df, s);
      var lo, hi := Min(Dates(df, s)), Max(Dates(df, s));
      (forall i :: 0 <= i < |df| && df[i].segmentId == s ==> lo <= df[i].date <= hi) &&
      |b| == (hi - lo) / 3600 + 1 &&
      b[0].date == lo && hi - 3600 < b[|b| - 1].date <= hi &&
      forall k :: 0 <= k < |b| ==> b[k].segmentId == s && b[k].date == lo + 3600 * k
  {
    var ds := Dates(df, s);
    var i :| 0 <= i < |df| && df[i].segmentId == s;
    assert df[i].date in ds;
    var lo, hi := Min(ds), Max(ds);
    forall j | 0 <= j < |df| && df[j].segmentId == s ensures lo <= df[j].date <= hi {
      assert df[j].date in ds;
    }
    var n := (hi - lo) / 3600;
    Common.DivMod(hi - lo, 3600, n, (hi - lo) % 3600);
  }

  /**
    Each hour of a block holds the last row of that hour, and an hour without
    rows is empty.
  */
  lemma BlockValues(df: seq<Count>, s: int, k: int)
    requires 0 <= k < |Block(df, s)|
    ensures var row := Block(df, s)[k];
      (row.values.None? <==> forall i :: 0 <= i < |df| ==> !At(df[i], s, row.date)) &&
      (row.values.Some? ==> exists i :: LastAt(df, i, s, row.date) && df[i].values == row.values.value)
  {
    LatestRules(df, s, Block(df, s)[k].date);
  }

  /** A block is the grid of its segment from its first time on. */
  lemma BlockGrid(df: seq<Count>, s: int, lo: int, n: nat)
    requires Dates(df, s) != []
    requires lo == Min(Dates(df, s)) && n == (Max(Dates(df, s)) - lo) / 3600 + 1
    ensures Block(df, s) == Grid(df, s, lo, n)
  {
  }

  /** The first time of the segment of row `i`, and the number of hours up to its last time. */
  lemma GridBounds(df: seq<Count>, i: int) returns (lo: int, n: nat)
    requires 0 <= i < |df|
    ensures var ds := Dates(df, df[i].segmentId);
      ds != [] && lo == Min(ds) && n == (Max(ds) - lo) / 3600 + 1
  {
    var ds := Dates(df, df[i].segmentId);
    assert df[i].date in ds;
    lo := Min(ds);
    n := (Max(ds) - lo) / 3600 + 1;
  }

  /** A time a whole number of hours after `lo` and before the grid's end is on the grid. */
  lemma GridHas(df: seq<Count>, s: int, lo: int, n: nat, t: int)
    requires lo <= t < lo + 3600 * n && (t - lo) % 3600 == 0
    ensures Filled(s, t, Latest(df, s, t)) in Grid(df, s, lo, n)
  {
    var k := (t - lo) / 3600;
    Common.DivMod(t - lo, 3600, k, 0);
    assert Grid(df, s, lo, n)[k] == Filled(s, t, Latest(df, s, t));
  }

  /** A grid holds no time off its hours. */
  lemma GridMisses(df: seq<Count>, s: int, lo: int, n: nat, t: int)
    requires (t - lo) % 3600 != 0
    ensures forall k :: 0 <= k < n ==> Grid(df, s, lo, n)[k].date != t
  {
    forall k | 0 <= k < n ensures Grid(df, s, lo, n)[k].date != t {
      Common.DivMod(3600 * k, 3600, k, 0);
    }
  }

  /**
    A row that is the last one at its time, a whole number of hours after
    its segment's first time, is in the block with its columns.
  */
  lemma RowKept(df: seq<Count>, i: int)
    requires 0 <= i < |df|
    requires LastAt(df, i, df[i].segmentId, df[i].date)
    requires (df[i].date - Min(Dates(df, df[i].segmentId))) % 3600 == 0
    ensures Filled(df[i].segmentId, df[i].date, Some(df[i].values)) in Block(df, df[i].segmentId)
  {
    var s, t := df[i].segmentId, df[i].date;
    var lo, n := GridBounds(df, i);
    assert t in Dates(df, s);
    OnGrid(lo, t, Max(Dates(df, s)));
    GridHas(df, s, lo, n, t);
    LatestRules(df, s, t);
    var l :| LastAt(df, l, s, t) && df[l].values == Latest(df, s, t).value;
    LastAtUnique(df, l, i, s, t);
    BlockGrid(df, s, lo, n);
  }

  /** A time on the hours from `lo` up to `hi` falls within the grid's hours. */
  lemma OnGrid(lo: int, t: int, hi: int)
    requires lo <= t <= hi
    ensures t < lo + 3600 * ((hi - lo) / 3600 + 1)
  {
    Common.DivMod(hi - lo, 3600, (hi - lo) / 3600, (hi - lo) % 3600);
  }

  /** A row whose time is off the hourly grid of its segment has no row in the block. */
  lemma OffGridDropped(df: seq<Count>, i: int)
    requires 0 <= i < |df|
    requires (df[i].date - Min(Dates(df, df[i].segmentId))) % 3600 != 0
    ensures forall k :: 0 <= k < |Block(df, df[i].segmentId)| ==> Block(df, df[i].segmentId)[k].date != df[i].date
  {
    var lo, n := GridBounds(df, i);
    GridMisses(df, df[i].segmentId, lo, n, df[i].date);
    BlockGrid(df, df[i].segmentId, lo, n);
  }

  /** Every segment of the input has exactly one block in the output, in order of first appearance. */
  lemma FilledSegments(df: seq<Count>)
    ensures var segs := Segments(df);
      FillAll(df) == Seqs.Concat(Seqs.Map(segs, BlockOf(df))) &&
      (forall i, j :: 0 <= i < j < |segs| ==> segs[i] != segs[j]) &&
      forall f :: f in FillAll(df) ==> f.segmentId in segs
  {
    var segs := Segments(df);
    var blocks := Seqs.Map(segs, BlockOf(df));
    forall f | f in FillAll(df) ensures f.segmentId in segs {
      Seqs.ConcatMember(blocks, f);
      var i :| 0 <= i < |blocks| && f in blocks[i];
      BlockHourly(df, segs[i]);
    }
  }

  // ---------------------------------------------------------------------
  // `get_locations`: list cells blanked, nameless segments dropped
  // ---------------------------------------------------------------------

  /** Telraam sends some OSM attributes as lists; these columns become empty text. */
  const Blanked := ["osm.width", "osm.lanes", "osm.maxspeed"]

  predicate IsList(j: Option<Json>) {
    j.Some? && j.value.JArr?
  }

  /** `p[key] = v` when `p[key]` is a list. */
  function Unlist(p: Props, key: string, v: Json): Props {
    if IsList(PyDict.Get(p, key)) then PyDict.Set(p, key, v) else p
  }

  lemma UnlistRules(p: Props, key: string, v: Json)
    ensures PyDict.Get(Unlist(p, key, v), key) == if IsList(PyDict.Get(p, key)) then Some(v) else PyDict.Get(p, key)
    ensures forall k :: k != key ==> PyDict.Get(Unlist(p, key, v), k) == PyDict.Get(p, k)
    ensures PyDict.Keys(Unlist(p, key, v)) == PyDict.Keys(p)
  {
  }

  /** The cells the loop replaces when they hold a list, each with its replacement. */
  const Cells: seq<(string, Json)> := [("osm.width", JStr("")), ("osm.lanes", JStr("")), ("osm.maxspeed", JStr("")), ("osm.name", JNull)]

  function UnlistEach(p: Props, cells: seq<(string, Json)>): Props
    decreases |cells|
  {
    if cells == [] then p else UnlistEach(Unlist(p, cells[0].0, cells[0].1), cells[1..])
  }

  /** One column after `Unlist`. */
  lemma UnlistGet(p: Props, key: string, v: Json, k: string)
    ensures PyDict.Get(Unlist(p, key, v), k) ==
      if k == key && IsList(PyDict.Get(p, key)) then Some(v) else PyDict.Get(p, k)
  {
    UnlistRules(p, key, v);
  }

  /** One row of the location table after the loop: width, lanes and speed blanked, a list name made missing. */
  function Blank(p: Props): Props {
    UnlistEach(p, Cells)
  }

  lemma BlankSteps(p: Props)
    ensures Blank(p) == Unlist(Unlist(Unlist(Unlist(p, "osm.width", JStr("")), "osm.lanes", JStr("")), "osm.maxspeed", JStr("")), "osm.name", JNull)
  {
    var p1 := Unlist(p, "osm.width", JStr(""));
    var p2 := Unlist(p1, "osm.lanes", JStr(""));
    var p3 := Unlist(p2, "osm.maxspeed", JStr(""));
    var p4 := Unlist(p3, "osm.name", JNull);
    assert Cells[1..][1..][1..][1..] == [];
    calc {
      Blank(p);
      UnlistEach(p1, Cells[1..]);
      UnlistEach(p2, Cells[1..][1..]);
      UnlistEach(p3, Cells[1..][1..][1..]);
      UnlistEach(p4, Cells[1..][1..][1..][1..]);
    }
  }

  /** Blanking keeps the columns and their order. */
  lemma BlankKeys(p: Props)
    ensures PyDict.Keys(Blank(p)) == PyDict.Keys(p)
  {
    BlankSteps(p);
    var p1 := Unlist(p, "osm.width", JStr(""));
    var p2 := Unlist(p1, "osm.lanes", JStr(""));
    var p3 := Unlist(p2, "osm.maxspeed", JStr(""));
    UnlistRules(p, "osm.width", JStr(""));
    UnlistRules(p1, "osm.lanes", JStr(""));
    UnlistRules(p2, "osm.maxspeed", JStr(""));
    UnlistRules(p3, "osm.name", JNull);
  }

  /** What blanking does to each column: a list goes, everything else stays. */
  lemma BlankGet(p: Props, k: string)
    ensures PyDict.Get(Blank(p), k) ==
      if k in Blanked && IsList(PyDict.Get(p, k)) then Some(JStr(""))
      else if k == "osm.name" && IsList(PyDict.Get(p, k)) then Some(JNull)
      else PyDict.Get(p, k)
  {
    BlankSteps(p);
    var p1 := Unlist(p, "osm.width", JStr(""));
    var p2 := Unlist(p1, "osm.lanes", JStr(""));
    var p3 := Unlist(p2, "osm.maxspeed", JStr(""));
    UnlistGet(p, "osm.width", JStr(""), k);
    UnlistGet(p1, "osm.lanes", JStr(""), k);
    UnlistGet(p2, "osm.maxspeed", JStr(""), k);
    UnlistGet(p3, "osm.name", JNull, k);
    assert "osm.width"[4] == 'w' && "osm.lanes"[4] == 'l' && "osm.maxspeed"[4] == 'm' && "osm.name"[4] == 'n';
    assert k in Blanked <==> k == "osm.width" || k == "osm.lanes" || k == "osm.maxspeed";
  }

  /** After blanking, none of the blanked columns and not the name holds a list. */
  lemma BlankNoLists(p: Props)
    ensures forall k :: k in Blanked || k == "osm.name" ==> !IsList(PyDict.Get(Blank(p), k))
  {
    forall k | k in Blanked || k == "osm.name" ensures !IsList(PyDict.Get(Blank(p), k)) {
      BlankGet(p, k);
    }
  }

  /** Updates every row of the table in place with `f`, in row order. */
  method UpdateRows(rows: array<Props>, f: Props -> Props)
    modifies rows
    ensures rows[..] == Seqs.Map(old(rows[..]), f)
  {
    for i := 0 to rows.Length
      invariant forall j :: 0 <= j < i ==> rows[j] == f(old(rows[j]))
      invariant forall j :: i <= j < rows.Length ==> rows[j] == old(rows[j])
    {
      rows[i] := f(rows[i]);
    }
  }

  /** `isnull()` is false: the column is present and not null. */
  predicate Named(p: Props) {
    var name := PyDict.Get(p, "osm.name");
    name.Some? && name.value != JNull
  }

  /** `get_locations` after reading the file: blank the lists, drop the rows without a name. */
  method GetLocations(features: seq<Props>) returns (locations: seq<Props>)
    ensures locations == Seqs.Filter(Seqs.Map(features, Blank), Named)
  {
    var rows := new Props[|features|](i requires 0 <= i < |features| => features[i]);
    assert rows[..] == features;
    UpdateRows(rows, Blank);
    locations := Seqs.Filter(rows[..], Named);
  }

  /** A blanked row is named exactly when its name was present, not null and not a list. */
  lemma NamedAfterBlank(p: Props)
    ensures Named(Blank(p)) <==> Named(p) && !IsList(PyDict.Get(p, "osm.name"))
  {
    BlankGet(p, "osm.name");
  }

  /**
    A location is kept exactly when its name is present, not null and not a
    list: every such row is kept, blanked, and every kept row comes from one.
  */
  lemma LocationsNamed(features: seq<Props>)
    ensures var locations := Seqs.Filter(Seqs.Map(features, Blank), Named);
      (forall i :: 0 <= i < |features| && Named(features[i]) && !IsList(PyDict.Get(features[i], "osm.name")) ==>
        Blank(features[i]) in locations) &&
      (forall p :: p in locations ==> exists i :: (0 <= i < |features| && p == Blank(features[i]) &&
        Named(features[i]) && !IsList(PyDict.Get(features[i], "osm.name"))))
  {
    var blanked := Seqs.Map(features, Blank);
    Seqs.FilterMembers(blanked, Named);
    forall i | 0 <= i < |features| {
      NamedAfterBlank(features[i]);
    }
  }

  /** Every kept location is named and holds no list in the blanked columns or the name. */
  lemma LocationsClean(features: seq<Props>)
    ensures forall p :: p in Seqs.Filter(Seqs.Map(features, Blank), Named) ==>
      Named(p) && forall k :: k in Blanked || k == "osm.name" ==> !IsList(PyDict.Get(p, k))
  {
    var blanked := Seqs.Map(features, Blank);
    Seqs.FilterMembers(blanked, Named);
    forall p | p in Seqs.Filter(blanked, Named)
      ensures Named(p) && forall k :: k in Blanked || k == "osm.name" ==> !IsList(PyDict.Get(p, k))
    {
      var i :| 0 <= i < |blanked| && blanked[i] == p;
      BlankNoLists(features[i]);
    }
  }

  // ---------------------------------------------------------------------
  // `merge_data`
  // ---------------------------------------------------------------------

  /** One row of the outer merge; a side without a partner is missing. */
  datatype Merged = Merged(segmentId: Json, date: Option<int>, counts: Option<Props>, location: Option<Props>)

  predicate Matches(f: Filled, l: Props) {
    PyDict.Get(l, "segment_id") == Some(JInt(f.segmentId))
  }

  function MatchOf(f: Filled): Props -> bool {
    l => Matches(f, l)
  }

  function Joined(f: Filled): Props -> Merged {
    l => Merged(JInt(f.segmentId), Some(f.date), f.values, Some(l))
  }

  /** The merge rows of one traffic row: one per matching location, or one without a location. */
  function RowsFor(locations: seq<Props>): Filled -> seq<Merged> {
    f =>
      var matching := Seqs.Filter(locations, MatchOf(f));
      if matching == [] then [Merged(JInt(f.segmentId), Some(f.date), f.values, None)]
      else Seqs.Map(matching, Joined(f))
  }

  predicate Unmatched(traffic: seq<Filled>, l: Props) {
    forall i :: 0 <= i < |traffic| ==> !Matches(traffic[i], l)
  }

  function UnmatchedIn(traffic: seq<Filled>): Props -> bool {
    l => Unmatched(traffic, l)
  }

  function LocationOnly(l: Props): Merged {
    Merged(PyDict.Get(l, "segment_id").GetOr(JNull), None, None, Some(l))
  }

  /**
    `pd.merge(traffic, locations, on='segment_id', how='outer')`: the traffic
    rows with their matches, then the locations no traffic row matches (the
    row order pandas chooses is not modelled).
  */
  function OuterMerge(traffic: seq<Filled>, locations: seq<Props>): seq<Merged> {
    Seqs.Concat(Seqs.Map(traffic, RowsFor(locations)))
      + Seqs.Map(Seqs.Filter(locations, UnmatchedIn(traffic)), LocationOnly)
  }

  predicate HasName(m: Merged) {
    m.location.Some? && Named(m.location.value)
  }

  predicate HasDate(m: Merged) {
    m.date.Some?
  }

  /** Dropping the rows without `osm.name`, then those without `date_local`. */
  function DropMissing(rows: seq<Merged>): seq<Merged> {
    Seqs.Filter(Seqs.Filter(rows, HasName), HasDate)
  }

  /** The rows of the traffic side of the merge pair a traffic row with a matching location, or with none. */
  lemma FrontRows(traffic: seq<Filled>, locations: seq<Props>, m: Merged)
    requires m in Seqs.Concat(Seqs.Map(traffic, RowsFor(locations)))
    requires m.location.Some?
    ensures exists i, j :: (0 <= i < |traffic| && 0 <= j < |locations| &&
      Matches(traffic[i], locations[j]) && m == Joined(traffic[i])(locations[j]))
  {
    var blocks := Seqs.Map(traffic, RowsFor(locations));
    Seqs.ConcatMember(blocks, m);
    var i :| 0 <= i < |blocks| && m in blocks[i];
    var f := traffic[i];
    var matching := Seqs.Filter(locations, MatchOf(f));
    var none := Merged(JInt(f.segmentId), Some(f.date), f.values, None);
    assert blocks[i] == if matching == [] then [none] else Seqs.Map(matching, Joined(f));
    assert m != none;
    var joined := Seqs.Map(matching, Joined(f));
    assert m in joined;
    Seqs.FilterMembers(locations, MatchOf(f));
    var k :| 0 <= k < |joined| && joined[k] == m;
    var j :| 0 <= j < |locations| && locations[j] == matching[k];
    assert Matches(traffic[i], locations[j]);
  }

  /**
    After the drops every row pairs a traffic row with a named location of
    its segment: the locations without traffic are gone with their missing
    date, the traffic without a location with its missing name.
  */
  lemma MergedFromJoin(traffic: seq<Filled>, locations: seq<Props>)
    ensures forall m :: m in DropMissing(OuterMerge(traffic, locations)) ==>
      exists i, j :: (0 <= i < |traffic| && 0 <= j < |locations| &&
        Matches(traffic[i], locations[j]) && Named(locations[j]) && m == Joined(traffic[i])(locations[j]))
  {
    var merged := OuterMerge(traffic, locations);
    var front := Seqs.Concat(Seqs.Map(traffic, RowsFor(locations)));
    var tail := Seqs.Map(Seqs.Filter(locations, UnmatchedIn(traffic)), LocationOnly);
    var named := Seqs.Filter(merged, HasName);
    Seqs.FilterMembers(merged, HasName);
    Seqs.FilterMembers(named, HasDate);
    assert forall k :: 0 <= k < |tail| ==> !HasDate(tail[k]);
    forall m | m in DropMissing(merged)
      ensures exists i, j :: (0 <= i < |traffic| && 0 <= j < |locations| &&
        Matches(traffic[i], locations[j]) && Named(locations[j]) && m == Joined(traffic[i])(locations[j]))
    {
      assert m in merged && HasDate(m) && HasName(m);
      assert m !in tail;
      FrontRows(traffic, locations, m);
    }
  }

  lemma JoinInFront(traffic: seq<Filled>, locations: seq<Props>, i: int, j: int)
    requires 0 <= i < |traffic| && 0 <= j < |locations|
    requires Matches(traffic[i], locations[j])
    ensures Joined(traffic[i])(locations[j]) in OuterMerge(traffic, locations)
  {
    var m := Joined(traffic[i])(locations[j]);
    var blocks := Seqs.Map(traffic, RowsFor(locations));
    var matching := Seqs.Filter(locations, MatchOf(traffic[i]));
    Seqs.FilterMembers(locations, MatchOf(traffic[i]));
    var k :| 0 <= k < |matching| && matching[k] == locations[j];
    assert blocks[i] == Seqs.Map(matching, Joined(traffic[i]));
    assert m == blocks[i][k];
    Seqs.ConcatMember(blocks, m);
  }

  /** Every traffic row paired with a named location of its segment survives the drops. */
  lemma JoinInMerged(traffic: seq<Filled>, locations: seq<Props>, i: int, j: int)
    requires 0 <= i < |traffic| && 0 <= j < |locations|
    requires Matches(traffic[i], locations[j]) && Named(locations[j])
    ensures Joined(traffic[i])(locations[j]) in DropMissing(OuterMerge(traffic, locations))
  {
    JoinInFront(traffic, locations, i, j);
    var merged := OuterMerge(traffic, locations);
    Seqs.FilterMembers(merged, HasName);
    var named := Seqs.Filter(merged, HasName);
    Seqs.FilterMembers(named, HasDate);
  }

  // ---------------------------------------------------------------------
  // The label columns
  // ---------------------------------------------------------------------

  const WeekdayLabels := ["Mon", "Tue", "Wed", "Thu", "Fri", "Sat", "Sun"]
  const MonthLabels := ["Jan", "Feb", "Mar", "Apr", "May", "Jun", "Jul", "Aug", "Sep", "Oct", "Nov", "Dec"]

  /** `.map({0: 'Mon', ..., 6: 'Sun'})`: weekday 0 is Monday; any other value becomes missing. */
  function WeekdayLabel(d: int): (r: Option<string>)
    ensures r.Some? <==> 0 <= d < 7
  {
    if 0 <= d < 7 then Some(WeekdayLabels[d]) else None
  }

  /** `.map({1: 'Jan', ..., 12: 'Dec'})`: month 1 is January; any other value becomes missing. */
  function MonthLabel(m: int): (r: Option<string>)
    ensures r.Some? <==> 1 <= m <= 12
  {
    if 1 <= m <= 12 then Some(MonthLabels[m - 1]) else None
  }

  /** The position of `name` in `labels`. */
  function IndexOf(labels: seq<string>, name: string): (r: Option<nat>)
    ensures r.Some? ==> r.value < |labels| && labels[r.value] == name
    ensures r.None? ==> name !in labels
  {
    if labels == [] then None
    else if labels[0] == name then Some(0)
    else match IndexOf(labels[1..], name)
      case Some(i) => Some(i + 1)
      case None => None
  }

  predicate Distinct(labels: seq<string>) {
    forall i, j :: 0 <= i < j < |labels| ==> labels[i] != labels[j]
  }

  /** In a list of distinct labels, a label's position gives the label back. */
  lemma {:induction false} IndexOfAt(labels: seq<string>, i: nat)
    requires Distinct(labels) && i < |labels|
    ensures IndexOf(labels, labels[i]) == Some(i)
  {
    if i > 0 {
      assert labels[1..][i - 1] == labels[i];
      IndexOfAt(labels[1..], i - 1);
    }
  }

  lemma WeekdaysDistinct()
    ensures Distinct(WeekdayLabels)
  {
    var firsts := "MTWTFSS";
    var seconds := "ouehrau";
    assert forall i :: 0 <= i < 7 ==> WeekdayLabels[i][0] == firsts[i] && WeekdayLabels[i][1] == seconds[i];
  }

  lemma MonthsDistinct()
    ensures Distinct(MonthLabels)
  {
    var m1 := "aeapauuuecoe";
    var m2 := "nbrrynlgptvc";
    assert forall i :: 0 <= i < 12 ==> MonthLabels[i][1] == m1[i] && MonthLabels[i][2] == m2[i];
  }

  /** Different weekdays and different months get different labels, and each label names its number. */
  lemma LabelsOneToOne(d: int, m: int)
    ensures 0 <= d < 7 ==> IndexOf(WeekdayLabels, WeekdayLabel(d).value) == Some(d)
    ensures 1 <= m <= 12 ==> IndexOf(MonthLabels, MonthLabel(m).value) == Some(m - 1)
  {
    WeekdaysDistinct();
    MonthsDistinct();
    if 0 <= d < 7 {
      IndexOfAt(WeekdayLabels, d);
    }
    if 1 <= m <= 12 {
      IndexOfAt(MonthLabels, m - 1);
    }
  }
}
