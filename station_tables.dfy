/**
  What the three station backups (Eco-Counter bicycle counters, TEU traffic
  detectors and toll-road counts) share: the station file keyed by segment
  id, observation replies keyed by interval start, the table of counts keyed
  by segment and date with its merge and sort, the `--limit` choice of the
  stations backed up longest ago, and the per-month CSV export.
*/
module StationTables {
  import opened Wrappers
  import opened Strings
  import opened Json
  import PyDict
  import Sorting
  import Seqs
  import Common
  import BackupExport

  /** The stations: properties by segment id, in file order. */
  type Things = PyDict.Dict<int, Props>

  /** One row of the parquet table: segment, ISO start of the interval, count columns. */
  datatype Record = Record(segmentId: int, date: string, counts: seq<int>)

  // ---------------------------------------------------------------------
  // `load_things` and `save_things`
  // ---------------------------------------------------------------------

  predicate HasSegmentId(p: Props) {
    var v := PyDict.Get(p, "segment_id");
    v.Some? && v.value.JInt?
  }

  predicate AllHaveSegmentId(features: seq<Props>) {
    forall i :: 0 <= i < |features| ==> HasSegmentId(features[i])
  }

  function SegmentId(p: Props): int
    requires HasSegmentId(p)
  {
    PyDict.Get(p, "segment_id").value.i
  }

  function Pairs(features: seq<Props>): (r: seq<(int, Props)>)
    requires AllHaveSegmentId(features)
    ensures |r| == |features|
    ensures forall i :: 0 <= i < |features| ==> r[i] == (SegmentId(features[i]), features[i])
  {
    seq(|features|, i requires 0 <= i < |features| => (SegmentId(features[i]), features[i]))
  }

  /** No later feature has the segment id of feature `i`. */
  predicate LastOfId(features: seq<Props>, i: nat)
    requires AllHaveSegmentId(features) && i < |features|
  {
    forall j :: i < j < |features| ==> SegmentId(features[j]) != SegmentId(features[i])
  }

  /**
    `load_things`: `{}` when there is no file, else the properties of every
    feature under its `segment_id` (the features' list stands for the file).
  */
  function LoadThings(file: Option<seq<Props>>): (r: Things)
    requires file.Some? ==> AllHaveSegmentId(file.value)
    ensures PyDict.Valid(r)
    ensures file.None? ==> r == []
  {
    if file.None? then [] else PyDict.FromPairs(Pairs(file.value))
  }

  /** Exactly the ids of the file are loaded, each with the properties of its last feature. */
  lemma LoadThingsLastWins(features: seq<Props>)
    requires AllHaveSegmentId(features)
    ensures forall sid :: PyDict.HasKey(LoadThings(Some(features)), sid) <==>
      exists i :: 0 <= i < |features| && SegmentId(features[i]) == sid
    ensures forall i :: 0 <= i < |features| && LastOfId(features, i) ==>
      PyDict.Get(LoadThings(Some(features)), SegmentId(features[i])) == Some(features[i])
  {
    var pairs := Pairs(features);
    forall sid
      ensures PyDict.HasKey(LoadThings(Some(features)), sid) <==>
        exists i :: 0 <= i < |features| && SegmentId(features[i]) == sid
    {
      if exists i :: 0 <= i < |features| && SegmentId(features[i]) == sid {
        var i :| 0 <= i < |features| && SegmentId(features[i]) == sid;
        assert pairs[i].0 == sid;
      }
      if PyDict.HasKey(pairs, sid) {
        var i :| 0 <= i < |pairs| && pairs[i].0 == sid;
        assert SegmentId(features[i]) == sid;
      }
    }
    forall i | 0 <= i < |features| && LastOfId(features, i)
      ensures PyDict.Get(LoadThings(Some(features)), SegmentId(features[i])) == Some(features[i])
    {
      PyDict.GetLastAt(pairs, i);
    }
  }

  /** What `save_things` leaves as the properties of feature `p`. */
  function SavedProps(p: Props, things: Things): Props
    requires HasSegmentId(p)
  {
    PyDict.Get(things, SegmentId(p)).GetOr(p)
  }

  /**
    `save_things`: every feature whose segment id is in `things` gets those
    properties; every other feature keeps its own, in file order.
  */
  method SaveThings(features: seq<Props>, things: Things) returns (saved: seq<Props>)
    requires AllHaveSegmentId(features)
    ensures |saved| == |features|
    ensures forall i :: 0 <= i < |features| ==> saved[i] == SavedProps(features[i], things)
  {
    saved := features;
    var i := 0;
    while i < |features|
      invariant 0 <= i <= |features| && |saved| == |features|
      invariant forall k :: 0 <= k < i ==> saved[k] == SavedProps(features[k], things)
      invariant forall k :: i <= k < |features| ==> saved[k] == features[k]
    {
      var t := PyDict.Get(things, SegmentId(features[i]));
      if t.Some? {
        saved := saved[i := t.value];
      }
      i := i + 1;
    }
  }

  /**
    `save_things(load_things(f) | things, f)`: a station in `things` gets its
    new properties; any other feature is rewritten with the properties of the
    last feature sharing its id, so it is unchanged when it is that last one.
  */
  lemma SaveLoadedUnion(features: seq<Props>, things: Things)
    requires AllHaveSegmentId(features) && PyDict.Valid(things)
    ensures var u := PyDict.Union(LoadThings(Some(features)), things);
      forall i :: 0 <= i < |features| ==>
        (PyDict.HasKey(things, SegmentId(features[i])) ==>
          SavedProps(features[i], u) == PyDict.Get(things, SegmentId(features[i])).value) &&
        (!PyDict.HasKey(things, SegmentId(features[i])) && LastOfId(features, i) ==>
          SavedProps(features[i], u) == features[i])
  {
    var loaded := LoadThings(Some(features));
    var u := PyDict.Union(loaded, things);
    LoadThingsLastWins(features);
    forall i | 0 <= i < |features|
      ensures PyDict.HasKey(things, SegmentId(features[i])) ==>
        SavedProps(features[i], u) == PyDict.Get(things, SegmentId(features[i])).value
      ensures !PyDict.HasKey(things, SegmentId(features[i])) && LastOfId(features, i) ==>
        SavedProps(features[i], u) == features[i]
    {
      var sid := SegmentId(features[i]);
      assert PyDict.Get(u, sid) == if PyDict.HasKey(things, sid) then PyDict.GetLast(things, sid) else PyDict.Get(loaded, sid);
      PyDict.GetLastValid(things, sid);
    }
  }

  // ---------------------------------------------------------------------
  // `--limit`: the stations backed up longest ago
  // ---------------------------------------------------------------------

  /** Orders stations by the instant of their backup stamp, 1970 when missing or empty. */
  function Older(key: string, instant: string -> int): ((int, Props), (int, Props)) -> bool {
    (a: (int, Props), b: (int, Props)) =>
      instant(Common.StampOr(a.1, key, Common.Epoch)) <= instant(Common.StampOr(b.1, key, Common.Epoch))
  }

  lemma OlderOrder(key: string, instant: string -> int)
    ensures Sorting.TotalPreorder(Older(key, instant))
  {
  }

  /**
    `dict(sorted(things.items(), key=...)[:limit])` when `limit` is set
    (non-zero); `instant` gives the seconds of an ISO date.
  */
  function Oldest(things: Things, limit: int, key: string, instant: string -> int): (r: Things)
    ensures limit == 0 ==> r == things
  {
    if limit == 0 then things
    else
      OlderOrder(key, instant);
      Slice(Sorting.SortBy(things, Older(key, instant)), 0, limit)
  }

  /** Reordering a dict keeps its keys distinct. */
  lemma PermutationValid(d: Things, s: Things)
    requires PyDict.Valid(d) && multiset(s) == multiset(d)
    ensures PyDict.Valid(s)
  {
    forall i, j | 0 <= i < j < |s| ensures s[i].0 != s[j].0 {
      if s[i].0 == s[j].0 {
        assert s[i] in multiset(d) && s[j] in multiset(d);
        var a :| 0 <= a < |d| && d[a] == s[i];
        var b :| 0 <= b < |d| && d[b] == s[j];
        assert a == b;
        Sorting.MultisetCountTwo(s, i, j);
        assert Sorting.Distinct(d);
        Sorting.DistinctCountOne(d, s[i]);
      }
    }
  }

  /** In a sorted list, everything before position `hi` is below everything from `hi` on. */
  lemma SortedPrefixBelow<T>(s: seq<T>, le: (T, T) -> bool, hi: nat)
    requires Sorting.SortedBy(s, le) && hi <= |s|
    ensures forall x, y :: x in s[..hi] && y in s && y !in s[..hi] ==> le(x, y)
  {
    forall x, y | x in s[..hi] && y in s && y !in s[..hi] ensures le(x, y) {
      var i :| 0 <= i < hi && s[..hi][i] == x;
      var j :| 0 <= j < |s| && s[j] == y;
    }
  }

  /** The limit keeps the start of the stations sorted from the oldest backup on. */
  lemma OldestPrefix(things: Things, limit: int, key: string, instant: string -> int)
    requires limit != 0 && Sorting.TotalPreorder(Older(key, instant))
    ensures Oldest(things, limit, key, instant) ==
      Sorting.SortBy(things, Older(key, instant))[..ClampIndex(|things|, limit)]
  {
    var s := Sorting.SortBy(things, Older(key, instant));
    var hi := ClampIndex(|s|, limit);
    assert Oldest(things, limit, key, instant) == Slice(s, 0, limit);
    if hi == 0 {
      assert s[..hi] == [];
    } else {
      assert s[0..hi] == s[..hi];
    }
  }

  /**
    With a limit, the stations chosen are stations of `things`, none twice,
    `limit` of them (or all but `-limit` for a negative limit).
  */
  lemma OldestChosen(things: Things, limit: int, key: string, instant: string -> int)
    requires PyDict.Valid(things) && limit != 0
    ensures PyDict.Valid(Oldest(things, limit, key, instant))
    ensures forall x :: x in Oldest(things, limit, key, instant) ==> x in things
    ensures |Oldest(things, limit, key, instant)| ==
      if limit > 0 then (if limit < |things| then limit else |things|)
      else (if |things| + limit < 0 then 0 else |things| + limit)
  {
    OlderOrder(key, instant);
    OldestPrefix(things, limit, key, instant);
    var s := Sorting.SortBy(things, Older(key, instant));
    var hi := ClampIndex(|things|, limit);
    PermutationValid(things, s);
    ValidTake(s, hi);
    forall x | x in s[..hi] ensures x in things {
      assert x in multiset(s);
    }
  }

  /** The start of a dict is a dict. */
  lemma ValidTake(d: Things, n: nat)
    requires PyDict.Valid(d) && n <= |d|
    ensures PyDict.Valid(d[..n])
  {
    assert forall i :: 0 <= i < n ==> d[..n][i] == d[i];
  }

  /** No station chosen by the limit was backed up later than a station left out. */
  lemma OldestFirst(things: Things, limit: int, key: string, instant: string -> int)
    requires limit != 0
    ensures forall x, y ::
      x in Oldest(things, limit, key, instant) && y in things && y !in Oldest(things, limit, key, instant) ==>
      instant(Common.StampOr(x.1, key, Common.Epoch)) <= instant(Common.StampOr(y.1, key, Common.Epoch))
  {
    OlderOrder(key, instant);
    OldestPrefix(things, limit, key, instant);
    var le := Older(key, instant);
    var s := Sorting.SortBy(things, le);
    assert forall y :: y in things ==> y in multiset(s);
    SortedPrefixBelow(s, le, ClampIndex(|things|, limit));
  }

  // ---------------------------------------------------------------------
  // Observations
  // ---------------------------------------------------------------------

  /** A reply `(phenomenonTime, result)` keyed by the start of its interval. */
  function Keyed(obs: seq<(string, int)>): (r: seq<(string, int)>)
    ensures |r| == |obs| && forall i :: 0 <= i < |obs| ==> r[i] == (SplitFirst(obs[i].0, "/"), obs[i].1)
  {
    seq(|obs|, i requires 0 <= i < |obs| => (SplitFirst(obs[i].0, "/"), obs[i].1))
  }

  /** `_fetch_observations`' dict: result by interval start, the last observation of a start winning. */
  function Observations(obs: seq<(string, int)>): (r: PyDict.Dict<string, int>)
    ensures PyDict.Valid(r)
  {
    PyDict.FromPairs(Keyed(obs))
  }

  /**
    The dict holds exactly the interval starts of the reply, each with the
    result of the last observation starting there.
  */
  lemma ObservationsExactly(obs: seq<(string, int)>)
    ensures forall d :: PyDict.HasKey(Observations(obs), d) <==>
      exists i :: 0 <= i < |obs| && SplitFirst(obs[i].0, "/") == d
    ensures forall i :: (0 <= i < |obs| &&
      (forall j :: i < j < |obs| ==> SplitFirst(obs[j].0, "/") != SplitFirst(obs[i].0, "/"))) ==>
      PyDict.Get(Observations(obs), SplitFirst(obs[i].0, "/")) == Some(obs[i].1)
  {
    var k := Keyed(obs);
    forall d
      ensures PyDict.HasKey(Observations(obs), d) <==> exists i :: 0 <= i < |obs| && SplitFirst(obs[i].0, "/") == d
    {
      if exists i :: 0 <= i < |obs| && SplitFirst(obs[i].0, "/") == d {
        var i :| 0 <= i < |obs| && SplitFirst(obs[i].0, "/") == d;
        assert k[i].0 == d;
      }
      if PyDict.HasKey(k, d) {
        var i :| 0 <= i < |k| && k[i].0 == d;
        assert SplitFirst(obs[i].0, "/") == d;
      }
    }
    forall i | 0 <= i < |obs| &&
      (forall j :: i < j < |obs| ==> SplitFirst(obs[j].0, "/") != SplitFirst(obs[i].0, "/"))
      ensures PyDict.Get(Observations(obs), SplitFirst(obs[i].0, "/")) == Some(obs[i].1)
    {
      PyDict.GetLastAt(k, i);
    }
  }

  /** `obs.get(d, 0)` */
  function CountAt(obs: PyDict.Dict<string, int>, d: string): int {
    PyDict.Get(obs, d).GetOr(0)
  }

  /** The keys of all the dicts, one dict after the other. */
  function AllKeys(ds: seq<PyDict.Dict<string, int>>): seq<string> {
    if ds == [] then [] else AllKeys(ds[..|ds| - 1]) + PyDict.Keys(ds[|ds| - 1])
  }

  lemma {:induction false} AllKeysExactly(ds: seq<PyDict.Dict<string, int>>)
    ensures forall d :: d in AllKeys(ds) <==> exists k :: 0 <= k < |ds| && PyDict.HasKey(ds[k], d)
  {
    if ds != [] {
      var init := ds[..|ds| - 1];
      var last := ds[|ds| - 1];
      AllKeysExactly(init);
      forall d ensures d in AllKeys(ds) <==> exists k :: 0 <= k < |ds| && PyDict.HasKey(ds[k], d) {
        var keys := PyDict.Keys(last);
        if d in keys {
          var i :| 0 <= i < |keys| && keys[i] == d;
          assert last[i].0 == d;
          assert PyDict.HasKey(ds[|ds| - 1], d);
        }
        if PyDict.HasKey(last, d) {
          var i :| 0 <= i < |last| && last[i].0 == d;
          assert keys[i] == d;
        }
        if exists k :: 0 <= k < |ds| && PyDict.HasKey(ds[k], d) {
          var k :| 0 <= k < |ds| && PyDict.HasKey(ds[k], d);
          if k < |init| {
            assert ds[k] == init[k];
          }
        }
        if exists k :: 0 <= k < |init| && PyDict.HasKey(init[k], d) {
          var k :| 0 <= k < |init| && PyDict.HasKey(init[k], d);
          assert ds[k] == init[k];
        }
      }
    }
  }

  lemma LexOrder()
    ensures Sorting.TotalPreorder(LexLe) && Sorting.Antisymmetric(LexLe)
  {
    LexLeTotalOrder();
  }

  /**
    `sorted(set().union(*ds))`: every interval start of any of the dicts,
    once each, in increasing string order.
  */
  function Dates(ds: seq<PyDict.Dict<string, int>>): (r: seq<string>)
    ensures forall d :: d in r <==> exists k :: 0 <= k < |ds| && PyDict.HasKey(ds[k], d)
    ensures forall i, j :: 0 <= i < j < |r| ==> LexLess(r[i], r[j])
  {
    LexOrder();
    AllKeysExactly(ds);
    var r := Sorting.SortedSet(AllKeys(ds), LexLe);
    forall i, j | 0 <= i < j < |r| ensures LexLess(r[i], r[j]) {
      Sorting.StrictlySorted(r, LexLe, i, j);
    }
    r
  }

  /** The interval starts of two replies. */
  lemma DatesOfTwo(a: PyDict.Dict<string, int>, b: PyDict.Dict<string, int>)
    ensures forall d :: d in Dates([a, b]) <==> PyDict.HasKey(a, d) || PyDict.HasKey(b, d)
  {
    var ds := [a, b];
    assert ds[0] == a && ds[1] == b;
  }

  // ---------------------------------------------------------------------
  // The table: merge by (segment, date) and sort
  // ---------------------------------------------------------------------

  function Key(r: Record): (int, string) {
    (r.segmentId, r.date)
  }

  function KeySet(rows: seq<Record>): set<(int, string)> {
    set i | 0 <= i < |rows| :: Key(rows[i])
  }

  /** Two lists without repeated keys and without a key in common make one without repeated keys. */
  lemma UniqueAppend(prior: seq<Record>, rows: seq<Record>)
    requires UniqueKeys(prior) && UniqueKeys(rows)
    requires forall x, y :: x in prior && y in rows ==> Key(x) != Key(y)
    ensures UniqueKeys(prior + rows)
  {
    var all := prior + rows;
    forall i, j | 0 <= i < j < |all| ensures Key(all[i]) != Key(all[j]) {
      if j < |prior| {
        assert all[i] == prior[i] && all[j] == prior[j];
      } else if i >= |prior| {
        assert all[i] == rows[i - |prior|] && all[j] == rows[j - |prior|];
      } else {
        assert all[i] in prior && all[j] in rows;
      }
    }
  }

  /** A key is in the key set exactly when some row has that segment and date. */
  lemma KeySetMembers(rows: seq<Record>, x: Record)
    ensures Key(x) in KeySet(rows) <==> exists y :: y in rows && y.segmentId == x.segmentId && y.date == x.date
  {
    if exists y :: y in rows && y.segmentId == x.segmentId && y.date == x.date {
      var y :| y in rows && y.segmentId == x.segmentId && y.date == x.date;
      var k :| 0 <= k < |rows| && rows[k] == y;
      assert Key(rows[k]) == Key(x);
    } else {
      forall k | 0 <= k < |rows| ensures Key(rows[k]) != Key(x) {
        assert rows[k] in rows;
      }
    }
  }

  predicate UniqueKeys(rows: seq<Record>) {
    forall i, j :: 0 <= i < j < |rows| ==> Key(rows[i]) != Key(rows[j])
  }

  /** `df[~df.set_index(["segment_id", "date"]).index.isin(keys)]` */
  function Without(df: seq<Record>, keys: set<(int, string)>): seq<Record> {
    if df == [] then []
    else
      var last := df[|df| - 1];
      Without(df[..|df| - 1], keys) + (if Key(last) in keys then [] else [last])
  }

  /** The rows kept are exactly those whose key is not dropped; keys unique before stay unique. */
  lemma {:induction false} WithoutExactly(df: seq<Record>, keys: set<(int, string)>)
    ensures forall x :: x in Without(df, keys) <==> x in df && Key(x) !in keys
    ensures UniqueKeys(df) ==> UniqueKeys(Without(df, keys))
  {
    if df != [] {
      var init := df[..|df| - 1];
      var last := df[|df| - 1];
      WithoutExactly(init, keys);
      assert df == init + [last];
      var w := Without(init, keys);
      if UniqueKeys(df) && Key(last) !in keys {
        assert UniqueKeys(init);
        forall i | 0 <= i < |w| ensures Key(w[i]) != Key(last) {
          assert w[i] in init;
          var k :| 0 <= k < |init| && init[k] == w[i];
          assert df[k] == w[i];
        }
      }
    }
  }

  /**
    The rows of `df` for which the station `sid` has no new value on that
    date: `df[~df["date"].isin(dates) | (df["segment_id"] != sid)]`.
  */
  lemma WithoutStation(df: seq<Record>, sid: int, dates: seq<string>)
    ensures forall x :: x in Without(df, set d | d in dates :: (sid, d)) <==>
      x in df && (x.date !in dates || x.segmentId != sid)
  {
    WithoutExactly(df, set d | d in dates :: (sid, d));
  }

  /** The new rows after the old ones whose (segment, date) they do not repeat. */
  function Merge(df: Option<seq<Record>>, added: seq<Record>): seq<Record> {
    match df
    case None => added
    case Some(rows) => Without(rows, KeySet(added)) + added
  }

  /**
    After the merge the table holds every new row, and an old row exactly when
    no new row has its segment and date; no (segment, date) is repeated that
    was not repeated before.
  */
  lemma MergeExactly(df: Option<seq<Record>>, added: seq<Record>)
    ensures forall x :: x in Merge(df, added) <==>
      x in added || (df.Some? && x in df.value && Key(x) !in KeySet(added))
    ensures (df.Some? ==> UniqueKeys(df.value)) && UniqueKeys(added) ==> UniqueKeys(Merge(df, added))
  {
    if df.Some? {
      var w := Without(df.value, KeySet(added));
      WithoutExactly(df.value, KeySet(added));
      if UniqueKeys(df.value) && UniqueKeys(added) {
        var m := w + added;
        forall i, j | 0 <= i < j < |m| ensures Key(m[i]) != Key(m[j]) {
          if i < |w| && j >= |w| {
            assert m[i] in w;
            assert Key(m[j]) in KeySet(added) by {
              assert m[j] == added[j - |w|];
            }
          } else if j < |w| {
            assert m[i] == w[i] && m[j] == w[j];
          } else {
            assert m[i] == added[i - |w|] && m[j] == added[j - |w|];
          }
        }
      }
    }
  }

  /** `sort_values(["segment_id", "date"])`'s order. */
  predicate RecordLe(a: Record, b: Record) {
    a.segmentId < b.segmentId || (a.segmentId == b.segmentId && LexLe(a.date, b.date))
  }

  lemma RecordOrder()
    ensures Sorting.TotalPreorder(RecordLe)
  {
    LexLeTotalOrder();
  }

  /** `df.sort_values(["segment_id", "date"])`: the same rows, by segment and then date. */
  function SortRecords(rows: seq<Record>): (r: seq<Record>)
    ensures multiset(r) == multiset(rows)
    ensures forall i, j :: 0 <= i < j < |r| ==>
      r[i].segmentId < r[j].segmentId || (r[i].segmentId == r[j].segmentId && LexLe(r[i].date, r[j].date))
  {
    RecordOrder();
    Sorting.SortBy(rows, RecordLe)
  }

  // ---------------------------------------------------------------------
  // `_prepare_df` and the month loop
  // ---------------------------------------------------------------------

  /** One exported row: segment, local date text, count columns. */
  datatype OutRow = OutRow(segmentId: int, dateLocal: string, counts: seq<int>)

  /** `t.get("timezone", "Europe/Berlin")` */
  function TimeZone(t: Props): string {
    match PyDict.Get(t, "timezone")
    case Some(v) => Str(v)
    case None => "Europe/Berlin"
  }

  /** A row is exported when its station is known and, with a month, it falls in that UTC month. */
  predicate Exported(things: Things, month: Option<(int, int)>, utcMonth: string -> (int, int), r: Record) {
    PyDict.HasKey(things, r.segmentId) && (month.None? || utcMonth(r.date) == month.value)
  }

  function Chosen(things: Things, df: seq<Record>, month: Option<(int, int)>, utcMonth: string -> (int, int)): seq<Record> {
    if df == [] then []
    else
      var last := df[|df| - 1];
      Chosen(things, df[..|df| - 1], month, utcMonth) + (if Exported(things, month, utcMonth, last) then [last] else [])
  }

  lemma {:induction false} ChosenExactly(things: Things, df: seq<Record>, month: Option<(int, int)>, utcMonth: string -> (int, int))
    ensures forall x :: x in Chosen(things, df, month, utcMonth) <==> x in df && Exported(things, month, utcMonth, x)
  {
    if df != [] {
      ChosenExactly(things, df[..|df| - 1], month, utcMonth);
      assert df == df[..|df| - 1] + [df[|df| - 1]];
    }
  }

  /** The exported form of a row: its date in the station's time zone, by `local`. */
  function OutOf(things: Things, local: (string, string) -> string, r: Record): OutRow {
    OutRow(r.segmentId, local(TimeZone(PyDict.Get(things, r.segmentId).GetOr([])), r.date), r.counts)
  }

  /**
    `_prepare_df`: `None` when no row is left after keeping the known
    stations and the month, else those rows in table order with local dates.
  */
  function Prepare(things: Things, df: seq<Record>, month: Option<(int, int)>, utcMonth: string -> (int, int),
                   local: (string, string) -> string): (r: Option<seq<OutRow>>)
    ensures r.None? <==> Chosen(things, df, month, utcMonth) == []
    ensures r.Some? ==> |r.value| == |Chosen(things, df, month, utcMonth)|
  {
    var rows := Chosen(things, df, month, utcMonth);
    if rows == [] then None else Some(Seqs.Map(rows, r => OutOf(things, local, r)))
  }

  /**
    The month loop of `main` with `_write_csv`: one file name per month from
    the first month through `curr`, each with what `_prepare_df` gives for it.
  */
  function MonthExports(prefix: string, startYear: int, curr: (int, int), things: Things, df: seq<Record>,
                        utcMonth: string -> (int, int), local: (string, string) -> string): seq<(string, Option<seq<OutRow>>)>
  {
    var first := BackupExport.FirstMonth(startYear, curr);
    Common.Walk(m => (BackupExport.MonthFile(prefix, m), Prepare(things, df, Some(m), utcMonth, local)),
                first, Common.MonthCount(first, curr))
  }

  /**
    The `--csv` step of `main`: `newest` is the month of `newest_data`.
    Without newest data `newest_data.year` raises an `AttributeError`,
    `csv_start_year` or not; `None` stands for that raise.
  */
  function CsvExports(prefix: string, startYear: int, newest: Option<(int, int)>, things: Things, df: seq<Record>,
                      utcMonth: string -> (int, int), local: (string, string) -> string): (r: Option<seq<(string, Option<seq<OutRow>>)>>)
    ensures r.None? <==> newest.None?
    ensures r.Some? ==> |r.value| == Common.MonthCount(BackupExport.FirstMonth(startYear, newest.value), newest.value)
  {
    if newest.None? then None
    else
      var first := BackupExport.FirstMonth(startYear, newest.value);
      var name := m => (BackupExport.MonthFile(prefix, m), Prepare(things, df, Some(m), utcMonth, local));
      Common.WalkAt(name, first, Common.MonthCount(first, newest.value));
      Some(MonthExports(prefix, startYear, newest.value, things, df, utcMonth, local))
  }

  /**
    `_prepare_df` gives nothing exactly when no row of a known station falls
    in the month; otherwise its i-th line is the i-th such row of the table,
    with its date in the station's time zone.
  */
  lemma PrepareExactly(things: Things, df: seq<Record>, month: Option<(int, int)>, utcMonth: string -> (int, int),
                       local: (string, string) -> string)
    ensures var r := Prepare(things, df, month, utcMonth, local);
      (r.None? <==> forall x :: x in df ==> !Exported(things, month, utcMonth, x)) &&
      (r.Some? ==> forall i :: 0 <= i < |r.value| ==>
        var x := Chosen(things, df, month, utcMonth)[i];
        x in df && Exported(things, month, utcMonth, x) && r.value[i] == OutOf(things, local, x))
  {
    ChosenExactly(things, df, month, utcMonth);
    var c := Chosen(things, df, month, utcMonth);
    if exists x :: x in df && Exported(things, month, utcMonth, x) {
      var x :| x in df && Exported(things, month, utcMonth, x);
      assert x in c;
    }
    if c != [] {
      assert c[0] in c;
    }
    forall i | 0 <= i < |c| ensures c[i] in df && Exported(things, month, utcMonth, c[i]) {
      assert c[i] in c;
    }
  }

  /** The k-th file of the month loop is named after the k-th month and holds that month's rows. */
  lemma MonthExportsByMonth(prefix: string, startYear: int, curr: (int, int), things: Things, df: seq<Record>,
                            utcMonth: string -> (int, int), local: (string, string) -> string, k: nat)
    requires k < |MonthExports(prefix, startYear, curr, things, df, utcMonth, local)|
    ensures var first := BackupExport.FirstMonth(startYear, curr);
      var m := Common.MonthShift(k, first.0, first.1);
      MonthExports(prefix, startYear, curr, things, df, utcMonth, local)[k] ==
        (BackupExport.MonthFile(prefix, m), Prepare(things, df, Some(m), utcMonth, local))
  {
    var first := BackupExport.FirstMonth(startYear, curr);
    var name := m => (BackupExport.MonthFile(prefix, m), Prepare(things, df, Some(m), utcMonth, local));
    Common.WalkAt(name, first, Common.MonthCount(first, curr));
  }

  // ---------------------------------------------------------------------
  // `update_data`: what the station loop leaves behind
  // ---------------------------------------------------------------------

  /** The key under which a station's last backup is stamped. */
  function BackupKey(advanced: bool): string {
    if advanced then "last_advanced_backup" else "last_data_backup"
  }

  /**
    What the network gives: `fetch(datastream, since)` is the reply of
    `_fetch_observations`, `instant` the seconds of an ISO date, `today` the
    ISO text of today's UTC midnight.
  */
  datatype Env = Env(advanced: bool, clear: bool, today: string,
                     fetch: (Json, string) -> seq<(string, int)>, instant: string -> int)

  /** The observations of a datastream, or none when there is no datastream (it is not truthy). */
  function Observed(stream: Json, since: string, env: Env): PyDict.Dict<string, int> {
    if Truthy(stream) then Observations(env.fetch(stream, since)) else []
  }

  /** A station's rows are all of its own segment, one per date. */
  predicate OwnRows(sid: int, rows: seq<Record>) {
    (forall x :: x in rows ==> x.segmentId == sid) && UniqueKeys(rows)
  }

  /** What each station gave in turn: its segment id and `None` when skipped, else its rows. */
  type Results = seq<(int, Option<seq<Record>>)>

  /** Each result belongs to its own segment, and no segment comes twice. */
  predicate WellFormed(results: Results) {
    (forall i :: 0 <= i < |results| && results[i].1.Some? ==> OwnRows(results[i].0, results[i].1.value)) &&
    (forall i, j :: 0 <= i < j < |results| ==> results[i].0 != results[j].0)
  }

  function RowsOf(result: (int, Option<seq<Record>>)): seq<Record> {
    result.1.GetOr([])
  }

  /** A station that was not skipped is stamped with `today` under the backup key. */
  function StampOne(t: Props, result: Option<seq<Record>>, key: string, today: string): Props {
    if result.None? then t else PyDict.Set(t, key, JStr(today))
  }

  function StampedAll(things: Things, results: Results, key: string, today: string): (r: Things)
    requires |results| == |things|
    ensures |r| == |things|
  {
    if things == [] then []
    else
      var n := |things| - 1;
      StampedAll(things[..n], results[..n], key, today) + [(things[n].0, StampOne(things[n].1, results[n].1, key, today))]
  }

  /** The last interval start a station brought, if any. */
  function LastDate(result: (int, Option<seq<Record>>)): Option<string> {
    var rows := RowsOf(result);
    if rows == [] then None else Some(rows[|rows| - 1].date)
  }

  /** The newest interval start so far, by instant; the first one wins a tie. */
  function NewestAll(results: Results, instant: string -> int): Option<string> {
    if results == [] then None
    else
      var prior := NewestAll(results[..|results| - 1], instant);
      var d := LastDate(results[|results| - 1]);
      if d.Some? && (prior.None? || instant(prior.value) < instant(d.value)) then d else prior
  }

  /** Station `i` after stamping: its own id, its properties stamped unless it was skipped. */
  lemma {:induction false} StampedAllAt(things: Things, results: Results, key: string, today: string)
    requires |results| == |things|
    ensures forall i :: 0 <= i < |things| ==>
      StampedAll(things, results, key, today)[i] == (things[i].0, StampOne(things[i].1, results[i].1, key, today))
  {
    if things != [] {
      var n := |things| - 1;
      StampedAllAt(things[..n], results[..n], key, today);
      forall i | 0 <= i < n
        ensures StampedAll(things, results, key, today)[i] == (things[i].0, StampOne(things[i].1, results[i].1, key, today))
      {
        assert things[..n][i] == things[i];
        assert results[..n][i] == results[i];
      }
    }
  }

  /**
    Every station keeps its place and segment id, so the stations remain a
    dict; a skipped station keeps its properties, every other one gets
    `today` under the backup key and keeps the rest.
  */
  lemma StampedAllStations(things: Things, results: Results, key: string, today: string)
    requires |results| == |things|
    ensures PyDict.Keys(StampedAll(things, results, key, today)) == PyDict.Keys(things)
    ensures PyDict.Valid(things) ==> PyDict.Valid(StampedAll(things, results, key, today))
    ensures forall i :: 0 <= i < |things| && results[i].1.None? ==> StampedAll(things, results, key, today)[i] == things[i]
    ensures forall i :: 0 <= i < |things| && results[i].1.Some? ==>
      PyDict.Get(StampedAll(things, results, key, today)[i].1, key) == Some(JStr(today)) &&
      forall k :: k != key ==> PyDict.Get(StampedAll(things, results, key, today)[i].1, k) == PyDict.Get(things[i].1, k)
  {
    StampedAllAt(things, results, key, today);
  }

  /** Stamps and newest date after one more station. */
  lemma StampStep(things: Things, results: Results, i: nat, key: string, today: string, instant: string -> int)
    requires |things| == |results| && i < |things|
    ensures StampedAll(things[..i + 1], results[..i + 1], key, today) ==
      StampedAll(things[..i], results[..i], key, today) + [(things[i].0, StampOne(things[i].1, results[i].1, key, today))]
    ensures var prior := NewestAll(results[..i], instant);
      var d := LastDate(results[i]);
      NewestAll(results[..i + 1], instant) ==
        if d.Some? && (prior.None? || instant(prior.value) < instant(d.value)) then d else prior
  {
    assert things[..i + 1][..i] == things[..i];
    assert results[..i + 1][..i] == results[..i];
    NewestStep(results, i, instant);
  }

  /** The newest date after one more station. */
  lemma NewestStep(results: Results, i: nat, instant: string -> int)
    requires i < |results|
    ensures var prior := NewestAll(results[..i], instant);
      var d := LastDate(results[i]);
      NewestAll(results[..i + 1], instant) ==
        if d.Some? && (prior.None? || instant(prior.value) < instant(d.value)) then d else prior
  {
    assert results[..i + 1][..i] == results[..i];
  }

  /**
    The newest date is `None` exactly when no station brought a row; else it
    is the last interval start of some station, and no station's last
    interval start is a later instant.
  */
  lemma {:induction false} NewestAllIsLatest(results: Results, instant: string -> int)
    ensures NewestAll(results, instant).None? <==> forall i :: 0 <= i < |results| ==> LastDate(results[i]).None?
    ensures NewestAll(results, instant).Some? ==>
      exists i :: 0 <= i < |results| && LastDate(results[i]) == NewestAll(results, instant)
    ensures NewestAll(results, instant).Some? ==> forall i :: 0 <= i < |results| && LastDate(results[i]).Some? ==>
      instant(LastDate(results[i]).value) <= instant(NewestAll(results, instant).value)
  {
    if results != [] {
      var n := |results| - 1;
      var init := results[..n];
      NewestAllIsLatest(init, instant);
      assert forall i :: 0 <= i < n ==> results[i] == init[i];
      var r := NewestAll(results, instant);
      if r.Some? && r != LastDate(results[n]) {
        var i :| 0 <= i < n && LastDate(init[i]) == r;
        assert LastDate(results[i]) == r;
      }
    }
  }

  /**
    How `main` ends: no stations, no table, or the table and the station
    file written, with the newest date when any station brought one.
  */
  datatype Outcome =
    | NoStations
    | NoData
    | Written(table: seq<Record>, features: seq<Props>, newest: Option<string>)
}
