/**
  The Telraam backup (`backup_data.py` of the backend): per segment, traffic
  reports are requested window by window from the last backup to the last
  data package and stored in the segment's count list, which stays sorted by
  date without repeated dates; then monthly CSV tables are written.

  The API is a parameter `fetch(segment, start, end)`; times are seconds.
*/
module Backup {
  import opened Wrappers
  import opened Strings
  import opened Datamodel
  import Json
  import Sorting
  import Common
  import Seqs

  // ---------------------------------------------------------------------
  // Storing one count: bisect, then insert or replace
  // ---------------------------------------------------------------------

  function DateAt(counts: seq<TrafficCount>, i: nat): int
    requires i < |counts|
  {
    counts[i].dateUtc
  }

  /** Ordered by date, no date twice: every count is later than the one before it. */
  predicate StrictlySorted(counts: seq<TrafficCount>) {
    |counts| <= 1 ||
    (StrictlySorted(counts[..|counts| - 1]) && counts[|counts| - 2].dateUtc < counts[|counts| - 1].dateUtc)
  }

  /** Any two counts are in date order. */
  predicate Increasing(counts: seq<TrafficCount>) {
    forall i, j :: 0 <= i < j < |counts| ==> DateAt(counts, i) < DateAt(counts, j)
  }

  lemma {:induction false} SortedIncreasing(counts: seq<TrafficCount>)
    ensures StrictlySorted(counts) <==> Increasing(counts)
  {
    if |counts| > 1 {
      var n := |counts| - 1;
      var init := counts[..n];
      SortedIncreasing(init);
      if StrictlySorted(counts) {
        forall i, j | 0 <= i < j < |counts| ensures DateAt(counts, i) < DateAt(counts, j) {
          if j < n {
            assert DateAt(init, i) < DateAt(init, j);
          } else if i < n - 1 {
            assert DateAt(init, i) < DateAt(init, n - 1);
          }
        }
      }
      if Increasing(counts) {
        assert DateAt(counts, n - 1) < DateAt(counts, n);
        forall i, j | 0 <= i < j < n ensures DateAt(init, i) < DateAt(init, j) {
          assert DateAt(counts, i) < DateAt(counts, j);
        }
      }
    }
  }

  /** Whether a count lies before (`below`) or after `d`. */
  predicate OnSide(c: TrafficCount, d: int, below: bool) {
    if below then c.dateUtc < d else c.dateUtc > d
  }

  /** The counts that lie before (`below`) or after `d`, in order. */
  function Side(counts: seq<TrafficCount>, d: int, below: bool): seq<TrafficCount> {
    if counts == [] then []
    else
      var last := counts[|counts| - 1];
      Side(counts[..|counts| - 1], d, below) + (if OnSide(last, d, below) then [last] else [])
  }

  function Earlier(counts: seq<TrafficCount>, d: int): seq<TrafficCount> {
    Side(counts, d, true)
  }

  function Later(counts: seq<TrafficCount>, d: int): seq<TrafficCount> {
    Side(counts, d, false)
  }

  /** The count list after storing `tc`: the counts before its date, `tc`, the counts after. */
  function Store(counts: seq<TrafficCount>, tc: TrafficCount): seq<TrafficCount> {
    Earlier(counts, tc.dateUtc) + [tc] + Later(counts, tc.dateUtc)
  }

  lemma {:induction false} SideMembers(counts: seq<TrafficCount>, d: int, below: bool)
    ensures forall c :: c in Side(counts, d, below) <==> c in counts && OnSide(c, d, below)
  {
    if counts != [] {
      var init := counts[..|counts| - 1];
      SideMembers(init, d, below);
      assert forall c :: c in counts <==> c in init || c == counts[|counts| - 1];
    }
  }

  lemma {:induction false} SideSorted(counts: seq<TrafficCount>, d: int, below: bool)
    requires StrictlySorted(counts)
    ensures StrictlySorted(Side(counts, d, below))
  {
    if counts != [] {
      var init := counts[..|counts| - 1];
      SideSorted(init, d, below);
      SideMembers(init, d, below);
      var f := Side(init, d, below);
      var n := |counts| - 1;
      SortedIncreasing(counts);
      SortedIncreasing(f);
      SortedIncreasing(Side(counts, d, below));
      forall i | 0 <= i < |f| ensures f[i].dateUtc < counts[n].dateUtc {
        assert f[i] in init;
        var k :| 0 <= k < n && init[k] == f[i];
        assert DateAt(counts, k) < DateAt(counts, n);
      }
      var r := Side(counts, d, below);
      forall i, j | 0 <= i < j < |r| ensures DateAt(r, i) < DateAt(r, j) {
        if j == |f| {
          assert r[j] == counts[n];
        } else {
          assert DateAt(f, i) < DateAt(f, j);
        }
      }
    }
  }

  /** When the counts on the side are exactly those at `lo..hi`, the side is that slice. */
  lemma {:induction false} SideRange(counts: seq<TrafficCount>, d: int, below: bool, lo: nat, hi: nat)
    requires lo <= hi <= |counts|
    requires forall i :: 0 <= i < |counts| ==> (OnSide(counts[i], d, below) <==> lo <= i < hi)
    ensures Side(counts, d, below) == counts[lo..hi]
  {
    if counts != [] {
      var n := |counts| - 1;
      var init := counts[..n];
      assert forall i :: 0 <= i < n ==> init[i] == counts[i];
      if OnSide(counts[n], d, below) {
        assert hi == n + 1 && lo <= n;
        SideRange(init, d, below, lo, n);
        Seqs.SliceSnoc(counts, lo, n);
      } else if hi <= n {
        SideRange(init, d, below, lo, hi);
        Seqs.SliceOfTake(counts, n, lo, hi);
      } else {
        assert lo == hi == n + 1;
        SideRange(init, d, below, n, n);
      }
    }
  }

  /** Storing keeps the list sorted without repeated dates. */
  lemma StoreSorted(counts: seq<TrafficCount>, tc: TrafficCount)
    requires StrictlySorted(counts)
    ensures StrictlySorted(Store(counts, tc))
  {
    var d := tc.dateUtc;
    var e, l := Earlier(counts, d), Later(counts, d);
    SideSorted(counts, d, true);
    SideSorted(counts, d, false);
    SideMembers(counts, d, true);
    SideMembers(counts, d, false);
    var r := Store(counts, tc);
    SortedIncreasing(e);
    SortedIncreasing(l);
    SortedIncreasing(r);
    forall i, j | 0 <= i < j < |r| ensures DateAt(r, i) < DateAt(r, j) {
      if j < |e| {
        assert DateAt(e, i) < DateAt(e, j);
      } else if i > |e| {
        assert DateAt(l, i - |e| - 1) < DateAt(l, j - |e| - 1);
      } else {
        if i < |e| {
          assert r[i] == e[i] && e[i] in e;
        }
        if j > |e| {
          assert r[j] == l[j - |e| - 1] && l[j - |e| - 1] in l;
        }
      }
    }
  }

  /** Storing `tc` keeps every count of another date and drops the one of its date. */
  lemma StoreContents(counts: seq<TrafficCount>, tc: TrafficCount, c: TrafficCount)
    ensures c in Store(counts, tc) <==> c == tc || (c in counts && c.dateUtc != tc.dateUtc)
  {
    SideMembers(counts, tc.dateUtc, true);
    SideMembers(counts, tc.dateUtc, false);
  }

  /** `bisect.bisect` (the right insertion point) on the dates of a sorted count list. */
  method Bisect(counts: seq<TrafficCount>, d: int) returns (idx: nat)
    requires StrictlySorted(counts)
    ensures idx <= |counts|
    ensures forall i :: 0 <= i < idx ==> counts[i].dateUtc <= d
    ensures forall i :: idx <= i < |counts| ==> counts[i].dateUtc > d
  {
    SortedIncreasing(counts);
    var lo, hi := 0, |counts|;
    while lo < hi
      invariant 0 <= lo <= hi <= |counts|
      invariant forall i :: 0 <= i < lo ==> counts[i].dateUtc <= d
      invariant forall i :: hi <= i < |counts| ==> counts[i].dateUtc > d
    {
      var mid := (lo + hi) / 2;
      if d < counts[mid].dateUtc {
        forall i | mid < i < |counts| ensures counts[i].dateUtc > d {
          assert DateAt(counts, mid) < DateAt(counts, i);
        }
        hi := mid;
      } else {
        forall i | 0 <= i < mid ensures counts[i].dateUtc <= d {
          assert DateAt(counts, i) < DateAt(counts, mid);
        }
        lo := mid + 1;
      }
    }
    idx := lo;
  }

  /** A list split into counts before `d`, counts at `d` and counts after `d`. */
  lemma SplitAt(counts: seq<TrafficCount>, d: int, k: nat, m: nat)
    requires k <= m <= |counts|
    requires forall i :: 0 <= i < k ==> counts[i].dateUtc < d
    requires forall i :: k <= i < m ==> counts[i].dateUtc == d
    requires forall i :: m <= i < |counts| ==> counts[i].dateUtc > d
    ensures Earlier(counts, d) == counts[..k]
    ensures Later(counts, d) == counts[m..]
  {
    SideRange(counts, d, true, 0, k);
    SideRange(counts, d, false, m, |counts|);
  }

  /**
    Insert `tc` at its bisect position, or replace the count just before that
    position when it has the same date.  As in Python, index `idx - 1` with
    `idx == 0` reads the last count.
  */
  method InsertOrReplace(s: Segment, tc: TrafficCount)
    requires StrictlySorted(s.counts)
    modifies s`counts
    ensures s.counts == Store(old(s.counts), tc)
    ensures StrictlySorted(s.counts)
  {
    StoreSorted(s.counts, tc);
    var counts := s.counts;
    var d := tc.dateUtc;
    var idx := Bisect(counts, d);
    var n := |counts|;
    var prev := if idx == 0 then n - 1 else idx - 1;
    if n == 0 || counts[prev].dateUtc != d {
      InsertAt(counts, tc, idx);
      s.counts := counts[..idx] + [tc] + counts[idx..];
    } else {
      assert idx > 0;
      ReplaceAt(counts, tc, idx);
      s.counts := counts[idx - 1 := tc];
    }
  }

  /** In a sorted list every count before one of date at most `d` is earlier than `d`. */
  lemma StrictBelow(counts: seq<TrafficCount>, k: nat, d: int)
    requires StrictlySorted(counts) && k < |counts| && counts[k].dateUtc <= d
    ensures forall i :: 0 <= i < k ==> counts[i].dateUtc < d
  {
    SortedIncreasing(counts);
    forall i | 0 <= i < k ensures counts[i].dateUtc < d {
      assert DateAt(counts, i) < DateAt(counts, k);
    }
  }

  /** Below the bisect point all dates are earlier when the one just before it differs. */
  lemma InsertAt(counts: seq<TrafficCount>, tc: TrafficCount, idx: nat)
    requires StrictlySorted(counts) && idx <= |counts|
    requires forall i :: 0 <= i < idx ==> counts[i].dateUtc <= tc.dateUtc
    requires forall i :: idx <= i < |counts| ==> counts[i].dateUtc > tc.dateUtc
    requires idx == 0 || counts[idx - 1].dateUtc != tc.dateUtc
    ensures counts[..idx] + [tc] + counts[idx..] == Store(counts, tc)
  {
    var d := tc.dateUtc;
    if idx > 0 {
      StrictBelow(counts, idx - 1, d);
    }
    assert forall i :: 0 <= i < idx ==> counts[i].dateUtc < d by {
      forall i | 0 <= i < idx ensures counts[i].dateUtc < d {
        if i == idx - 1 {
          assert counts[i].dateUtc != d;
        }
      }
    }
    SplitAt(counts, d, idx, idx);
  }

  /** The count just before the bisect point has the date: it is the one replaced. */
  lemma ReplaceAt(counts: seq<TrafficCount>, tc: TrafficCount, idx: nat)
    requires StrictlySorted(counts) && idx <= |counts|
    requires forall i :: 0 <= i < idx ==> counts[i].dateUtc <= tc.dateUtc
    requires forall i :: idx <= i < |counts| ==> counts[i].dateUtc > tc.dateUtc
    requires 0 < idx && counts[idx - 1].dateUtc == tc.dateUtc
    ensures counts[idx - 1 := tc] == Store(counts, tc)
  {
    ReplaceSides(counts, tc.dateUtc, idx - 1);
    Seqs.UpdateSplice(counts, idx - 1, tc);
  }

  /** The counts around the one of date `d` at `k` are the earlier and the later ones. */
  lemma ReplaceSides(counts: seq<TrafficCount>, d: int, k: nat)
    requires StrictlySorted(counts) && k < |counts| && counts[k].dateUtc == d
    requires forall i :: k < i < |counts| ==> counts[i].dateUtc > d
    ensures Earlier(counts, d) == counts[..k] && Later(counts, d) == counts[k + 1..]
  {
    StrictBelow(counts, k, d);
    SplitAt(counts, d, k, k + 1);
  }

  // ---------------------------------------------------------------------
  // Storing the entries of reports
  // ---------------------------------------------------------------------

  predicate Positive(e: CountTable) {
    e.uptime > 0.0
  }

  /** The entries of a report that are stored: those with positive uptime. */
  function Accepted(entries: seq<CountTable>): seq<CountTable> {
    if entries == [] then []
    else
      var last := entries[|entries| - 1];
      Accepted(entries[..|entries| - 1]) + (if Positive(last) then [last] else [])
  }

  /** Exactly the entries with positive uptime are accepted. */
  lemma {:induction false} AcceptedMembers(entries: seq<CountTable>)
    ensures forall e :: e in Accepted(entries) <==> e in entries && Positive(e)
  {
    if entries != [] {
      var init := entries[..|entries| - 1];
      AcceptedMembers(init);
      assert forall e :: e in entries <==> e in init || e == entries[|entries| - 1];
    }
  }

  /** The count list after storing every entry of `tables` in turn. */
  function StoreAll(counts: seq<TrafficCount>, tables: seq<CountTable>): seq<TrafficCount> {
    if tables == [] then counts
    else Store(StoreAll(counts, tables[..|tables| - 1]), CountOf(tables[|tables| - 1]))
  }

  lemma {:induction false} StoreAllAppend(counts: seq<TrafficCount>, a: seq<CountTable>, b: seq<CountTable>)
    ensures StoreAll(counts, a + b) == StoreAll(StoreAll(counts, a), b)
  {
    if b == [] {
      assert a + b == a;
    } else {
      assert (a + b)[..|a + b| - 1] == a + b[..|b| - 1];
      StoreAllAppend(counts, a, b[..|b| - 1]);
    }
  }

  /** However many entries are stored, the list stays sorted without repeated dates. */
  lemma {:induction false} StoreAllSorted(counts: seq<TrafficCount>, tables: seq<CountTable>)
    requires StrictlySorted(counts)
    ensures StrictlySorted(StoreAll(counts, tables))
  {
    if tables != [] {
      StoreAllSorted(counts, tables[..|tables| - 1]);
      StoreSorted(StoreAll(counts, tables[..|tables| - 1]), CountOf(tables[|tables| - 1]));
    }
  }

  /** The last entry of each date is the count stored for that date. */
  lemma {:induction false} StoreAllLastWins(counts: seq<TrafficCount>, tables: seq<CountTable>, i: nat)
    requires i < |tables|
    requires forall j :: i < j < |tables| ==> tables[j].date != tables[i].date
    ensures CountOf(tables[i]) in StoreAll(counts, tables)
  {
    var n := |tables| - 1;
    var prev := StoreAll(counts, tables[..n]);
    if i == n {
      StoreContents(prev, CountOf(tables[n]), CountOf(tables[n]));
    } else {
      StoreAllLastWins(counts, tables[..n], i);
      StoreContents(prev, CountOf(tables[n]), CountOf(tables[i]));
    }
  }

  /** A count of a date that no entry has stays. */
  lemma {:induction false} StoreAllKeeps(counts: seq<TrafficCount>, tables: seq<CountTable>, c: TrafficCount)
    requires c in counts
    requires forall j :: 0 <= j < |tables| ==> tables[j].date != c.dateUtc
    ensures c in StoreAll(counts, tables)
  {
    if tables != [] {
      var n := |tables| - 1;
      assert forall j :: 0 <= j < n ==> tables[..n][j] == tables[j];
      StoreAllKeeps(counts, tables[..n], c);
      StoreContents(StoreAll(counts, tables[..n]), CountOf(tables[n]), c);
    }
  }

  /** Every count afterwards is an old one or built from an entry. */
  lemma {:induction false} StoreAllSound(counts: seq<TrafficCount>, tables: seq<CountTable>, c: TrafficCount)
    requires c in StoreAll(counts, tables)
    ensures c in counts || exists j :: 0 <= j < |tables| && c == CountOf(tables[j])
  {
    if tables != [] {
      var n := |tables| - 1;
      StoreContents(StoreAll(counts, tables[..n]), CountOf(tables[n]), c);
      if c != CountOf(tables[n]) {
        StoreAllSound(counts, tables[..n], c);
        if c !in counts {
          var j :| 0 <= j < n && c == CountOf(tables[..n][j]);
          assert c == CountOf(tables[j]);
        }
      }
    }
  }

  /** Storing the entries of a longer list stores the new entry last, if it is accepted. */
  lemma AcceptedStep(counts: seq<TrafficCount>, entries: seq<CountTable>, i: nat)
    requires i < |entries|
    ensures StoreAll(counts, Accepted(entries[..i + 1])) ==
      if Positive(entries[i]) then Store(StoreAll(counts, Accepted(entries[..i])), CountOf(entries[i]))
      else StoreAll(counts, Accepted(entries[..i]))
  {
    var acc := Accepted(entries[..i]);
    assert entries[..i + 1][..i] == entries[..i] && entries[..i + 1][i] == entries[i];
    if Positive(entries[i]) {
      assert Accepted(entries[..i + 1]) == acc + [entries[i]];
      assert (acc + [entries[i]])[..|acc|] == acc;
    } else {
      assert Accepted(entries[..i + 1]) == acc;
    }
  }

  /** The body of the entry loop of `update_db`: an entry with positive uptime is stored. */
  method StoreEntry(s: Segment, entry: CountTable)
    requires StrictlySorted(s.counts)
    modifies s`counts
    ensures s.counts == if Positive(entry) then Store(old(s.counts), CountOf(entry)) else old(s.counts)
    ensures StrictlySorted(s.counts)
  {
    if entry.uptime > 0.0 {
      var tc := NewTrafficCount(entry);
      InsertOrReplace(s, tc);
    }
  }

  /** The `for entry in res.get("report", [])` loop of `update_db`. */
  method StoreEntries(s: Segment, entries: seq<CountTable>)
    requires StrictlySorted(s.counts)
    modifies s`counts
    ensures s.counts == StoreAll(old(s.counts), Accepted(entries))
    ensures StrictlySorted(s.counts)
  {
    var i := 0;
    while i < |entries|
      invariant 0 <= i <= |entries|
      invariant s.counts == StoreAll(old(s.counts), Accepted(entries[..i]))
      invariant StrictlySorted(s.counts)
    {
      AcceptedStep(old(s.counts), entries, i);
      StoreEntry(s, entries[i]);
      i := i + 1;
    }
    assert entries[..i] == entries;
  }

  // ---------------------------------------------------------------------
  // The request windows of one segment
  // ---------------------------------------------------------------------

  /** An answer of the reports endpoint: its `status_code`, if any, and its `report` entries. */
  datatype Report = Report(statusCode: Option<int>, entries: seq<CountTable>)

  const Day: int := 24 * 60 * 60
  const Forbidden: int := 403

  /** The window length: 20 days of quarter-hourly data (advanced API) or 90 days of hourly data. */
  function WindowLength(advanced: bool): (r: int)
    ensures r > 0
  {
    (if advanced then 20 else 90) * Day
  }

  /** With the advanced API a 403 answer stops the segment; the basic API does not check. */
  predicate Stops(advanced: bool, res: Report) {
    advanced && res.statusCode == Some(Forbidden)
  }

  /** The start times of the windows requested from `first` on, until `last` or a refusal. */
  function Requested(id: int, first: int, last: int, advanced: bool, fetch: (int, int, int) -> Report): (r: seq<int>)
    decreases last - first
  {
    if first >= last then []
    else
      var end := first + WindowLength(advanced);
      if Stops(advanced, fetch(id, first, end)) then [first]
      else [first] + Requested(id, end, last, advanced, fetch)
  }

  /**
    The requested windows follow each other without gap or overlap from
    `first`, all start before `last`, and every window but the last answered;
    the last one starts within one window length of `last` unless it was refused.
  */
  lemma RequestedWindows(id: int, first: int, last: int, advanced: bool, fetch: (int, int, int) -> Report)
    ensures var r := Requested(id, first, last, advanced, fetch);
      (r == [] <==> first >= last) &&
      (forall i :: 0 <= i < |r| ==> r[i] == first + i * WindowLength(advanced) && r[i] < last) &&
      (forall i :: 0 <= i < |r| - 1 ==> !Stops(advanced, fetch(id, r[i], r[i] + WindowLength(advanced)))) &&
      (r != [] && !Stops(advanced, fetch(id, r[|r| - 1], r[|r| - 1] + WindowLength(advanced))) ==>
         r[|r| - 1] + WindowLength(advanced) >= last)
  {
    RequestedStarts(id, first, last, advanced, fetch);
    RequestedAnswered(id, first, last, advanced, fetch);
    RequestedReaches(id, first, last, advanced, fetch);
  }

  /** The windows start `first`, one window length apart, all before `last`. */
  lemma {:induction false} RequestedStarts(id: int, first: int, last: int, advanced: bool, fetch: (int, int, int) -> Report)
    ensures forall i :: 0 <= i < |Requested(id, first, last, advanced, fetch)| ==>
      Requested(id, first, last, advanced, fetch)[i] == first + i * WindowLength(advanced) &&
      Requested(id, first, last, advanced, fetch)[i] < last
    decreases last - first
  {
    var w := WindowLength(advanced);
    if first < last && !Stops(advanced, fetch(id, first, first + w)) {
      RequestedStarts(id, first + w, last, advanced, fetch);
      var r := Requested(id, first, last, advanced, fetch);
      var rest := Requested(id, first + w, last, advanced, fetch);
      assert r == [first] + rest;
      forall i | 0 < i < |r| ensures r[i] == first + i * w && r[i] < last {
        assert r[i] == rest[i - 1];
        assert rest[i - 1] == first + w + (i - 1) * w && rest[i - 1] < last;
        assert (i - 1) * w + w == i * w;
      }
    }
  }

  /** Every window but the last was answered. */
  lemma {:induction false} RequestedAnswered(id: int, first: int, last: int, advanced: bool, fetch: (int, int, int) -> Report)
    ensures forall i :: 0 <= i < |Requested(id, first, last, advanced, fetch)| - 1 ==>
      var start := Requested(id, first, last, advanced, fetch)[i];
      !Stops(advanced, fetch(id, start, start + WindowLength(advanced)))
    decreases last - first
  {
    var w := WindowLength(advanced);
    if first < last && !Stops(advanced, fetch(id, first, first + w)) {
      RequestedAnswered(id, first + w, last, advanced, fetch);
      var r := Requested(id, first, last, advanced, fetch);
      var rest := Requested(id, first + w, last, advanced, fetch);
      assert r == [first] + rest;
      forall i | 0 < i < |r| - 1 ensures !Stops(advanced, fetch(id, r[i], r[i] + w)) {
        assert r[i] == rest[i - 1];
        assert !Stops(advanced, fetch(id, rest[i - 1], rest[i - 1] + w));
      }
    }
  }

  /** There are windows exactly when `first < last`; an answered last window reaches `last`. */
  lemma {:induction false} RequestedReaches(id: int, first: int, last: int, advanced: bool, fetch: (int, int, int) -> Report)
    ensures var r := Requested(id, first, last, advanced, fetch);
      (r == [] <==> first >= last) &&
      (r != [] && !Stops(advanced, fetch(id, r[|r| - 1], r[|r| - 1] + WindowLength(advanced))) ==>
         r[|r| - 1] + WindowLength(advanced) >= last)
    decreases last - first
  {
    var w := WindowLength(advanced);
    if first < last && !Stops(advanced, fetch(id, first, first + w)) {
      RequestedReaches(id, first + w, last, advanced, fetch);
      var r := Requested(id, first, last, advanced, fetch);
      var rest := Requested(id, first + w, last, advanced, fetch);
      assert r == [first] + rest;
      assert r[|r| - 1] == if |rest| == 0 then first else rest[|rest| - 1];
    }
  }

  /** The entries stored from the windows requested from `first` on. */
  function Collected(id: int, first: int, last: int, advanced: bool, fetch: (int, int, int) -> Report): seq<CountTable>
    decreases last - first
  {
    if first >= last then []
    else
      var end := first + WindowLength(advanced);
      var res := fetch(id, first, end);
      if Stops(advanced, res) then []
      else Accepted(res.entries) + Collected(id, end, last, advanced, fetch)
  }

  /** `[c.first_data_utc for c in s.cameras if c.first_data_utc is not None]` */
  function Actives(cameras: seq<Camera>): (r: seq<int>)
    ensures forall t :: t in r <==> exists c :: c in cameras && c.firstDataUtc == Some(t)
  {
    if cameras == [] then []
    else
      var c := cameras[|cameras| - 1];
      var init := cameras[..|cameras| - 1];
      assert forall x :: x in cameras <==> x in init || x == c;
      Actives(init) + (if c.firstDataUtc.Some? then [c.firstDataUtc.value] else [])
  }

  function Min(s: seq<int>): (r: int)
    requires s != []
    ensures r in s && forall x :: x in s ==> r <= x
  {
    if |s| == 1 then s[0]
    else
      var m := Min(s[1..]);
      assert forall x :: x in s ==> x == s[0] || x in s[1..];
      if s[0] <= m then s[0] else m
  }

  /** Where the windows of a segment start: at its last backup, else at its earliest camera. */
  function FirstWindow(lastBackup: Option<int>, active: seq<int>): int
    requires active != []
  {
    if lastBackup.Some? then lastBackup.value else Min(active)
  }

  /** The windows requested for a segment in one run of `update_db`. */
  function SegmentWindows(id: int, lastBackup: Option<int>, lastData: Option<int>, active: seq<int>,
                          advanced: bool, fetch: (int, int, int) -> Report): seq<int>
    requires active != []
  {
    if lastData.Some? then Requested(id, FirstWindow(lastBackup, active), lastData.value, advanced, fetch) else []
  }

  /** The entries stored for a segment in one run of `update_db`. */
  function SegmentEntries(id: int, lastBackup: Option<int>, lastData: Option<int>, active: seq<int>,
                          advanced: bool, fetch: (int, int, int) -> Report): seq<CountTable>
    requires active != []
  {
    if lastData.Some? then Collected(id, FirstWindow(lastBackup, active), lastData.value, advanced, fetch) else []
  }

  /** One window: requested, then either refused or stored and followed by the next. */
  lemma WindowStep(id: int, start: int, last: int, advanced: bool, fetch: (int, int, int) -> Report)
    requires start < last
    ensures var res := fetch(id, start, start + WindowLength(advanced));
      var next := start + WindowLength(advanced);
      if Stops(advanced, res) then
        Requested(id, start, last, advanced, fetch) == [start] && Collected(id, start, last, advanced, fetch) == []
      else
        Requested(id, start, last, advanced, fetch) == [start] + Requested(id, next, last, advanced, fetch) &&
        Collected(id, start, last, advanced, fetch) == Accepted(res.entries) + Collected(id, next, last, advanced, fetch)
  {
  }

  /** The windows done so far followed by those from `start` on are all of them, one window further on. */
  lemma WindowAdvance(id: int, first: int, start: int, last: int, advanced: bool, fetch: (int, int, int) -> Report,
                      requested: seq<int>, collected: seq<CountTable>)
    requires start < last
    requires requested + Requested(id, start, last, advanced, fetch) == Requested(id, first, last, advanced, fetch)
    requires collected + Collected(id, start, last, advanced, fetch) == Collected(id, first, last, advanced, fetch)
    ensures var res := fetch(id, start, start + WindowLength(advanced));
      var next := start + WindowLength(advanced);
      if Stops(advanced, res) then
        requested + [start] == Requested(id, first, last, advanced, fetch) &&
        collected == Collected(id, first, last, advanced, fetch)
      else
        requested + [start] + Requested(id, next, last, advanced, fetch) == Requested(id, first, last, advanced, fetch) &&
        collected + Accepted(res.entries) + Collected(id, next, last, advanced, fetch) == Collected(id, first, last, advanced, fetch)
  {
    var next := start + WindowLength(advanced);
    var res := fetch(id, start, next);
    WindowStep(id, start, last, advanced, fetch);
    var whole := Requested(id, first, last, advanced, fetch);
    var here := Requested(id, start, last, advanced, fetch);
    if Stops(advanced, res) {
      Seqs.PrefixStep(requested, here, [start], [], whole);
      Seqs.PrefixStep(collected, Collected(id, start, last, advanced, fetch), [], [],
        Collected(id, first, last, advanced, fetch));
      assert collected + [] == collected;
    } else {
      Seqs.PrefixStep(requested, here, [start], Requested(id, next, last, advanced, fetch), whole);
      Seqs.PrefixStep(collected, Collected(id, start, last, advanced, fetch), Accepted(res.entries),
        Collected(id, next, last, advanced, fetch), Collected(id, first, last, advanced, fetch));
    }
  }

  /** The window loop of `update_db` for one segment, from `first` to `last`. */
  method BackupWindows(s: Segment, first: int, last: int, advanced: bool, fetch: (int, int, int) -> Report)
    returns (requested: seq<int>)
    requires StrictlySorted(s.counts)
    modifies s`counts
    ensures StrictlySorted(s.counts)
    ensures requested == Requested(s.id, first, last, advanced, fetch)
    ensures s.counts == StoreAll(old(s.counts), Collected(s.id, first, last, advanced, fetch))
  {
    var id := s.id;
    var step := WindowLength(advanced);
    var start := first;
    ghost var collected: seq<CountTable> := [];
    requested := [];
    while start < last
      invariant s.counts == StoreAll(old(s.counts), collected)
      invariant StrictlySorted(s.counts)
      invariant requested + Requested(id, start, last, advanced, fetch) == Requested(id, first, last, advanced, fetch)
      invariant collected + Collected(id, start, last, advanced, fetch) == Collected(id, first, last, advanced, fetch)
      decreases last - start
    {
      var intervalEnd := start + step;
      var res := fetch(id, start, intervalEnd);
      WindowAdvance(id, first, start, last, advanced, fetch, requested, collected);
      if Stops(advanced, res) {
        requested := requested + [start];
        return;
      }
      requested := requested + [start];
      StoreAllAppend(old(s.counts), collected, Accepted(res.entries));
      StoreEntries(s, res.entries);
      collected := collected + Accepted(res.entries);
      start := intervalEnd;
    }
    assert requested + [] == requested && collected + [] == collected;
  }

  /**
    One segment of `update_db`: skipped, unchanged, without a camera that has
    delivered data; otherwise every window is requested and its entries with
    positive uptime are stored, and the backup date becomes `today` (today's
    midnight, a parameter).
  */
  method UpdateSegment(s: Segment, advanced: bool, fetch: (int, int, int) -> Report, today: int)
    returns (processed: bool, requested: seq<int>)
    requires StrictlySorted(s.counts)
    modifies s`counts, s`lastBackupUtc
    ensures StrictlySorted(s.counts)
    ensures processed <==> Actives(s.cameras) != []
    ensures !processed ==> s.counts == old(s.counts) && s.lastBackupUtc == old(s.lastBackupUtc) && requested == []
    ensures processed ==> s.lastBackupUtc == Some(today)
    ensures processed ==>
      requested == SegmentWindows(s.id, old(s.lastBackupUtc), s.lastDataUtc, Actives(s.cameras), advanced, fetch)
    ensures processed ==>
      s.counts == StoreAll(old(s.counts), SegmentEntries(s.id, old(s.lastBackupUtc), s.lastDataUtc, Actives(s.cameras), advanced, fetch))
  {
    var active := Actives(s.cameras);
    if active == [] {
      return false, [];
    }
    processed := true;
    var first := if s.lastBackupUtc.Some? then s.lastBackupUtc.value else Min(active);
    var last := s.lastDataUtc;
    requested := [];
    if last.Some? {
      requested := BackupWindows(s, first, last.value, advanced, fetch);
    }
    s.lastBackupUtc := Some(today);
  }

  // ---------------------------------------------------------------------
  // All segments
  // ---------------------------------------------------------------------

  /** Whether a segment has a camera that has delivered data, so that `update_db` processes it. */
  predicate Processed(s: Segment)
    reads s
  {
    Actives(s.cameras) != []
  }

  /** What `update_db` does to one segment, between the state before and after. */
  twostate predicate SegmentUpdated(s: Segment, advanced: bool, fetch: (int, int, int) -> Report, today: int)
    reads s
  {
    s.id == old(s.id) && s.cameras == old(s.cameras) && s.lastDataUtc == old(s.lastDataUtc) &&
    StrictlySorted(s.counts) &&
    if !Processed(s) then s.counts == old(s.counts) && s.lastBackupUtc == old(s.lastBackupUtc)
    else
      s.lastBackupUtc == Some(today) &&
      s.counts == StoreAll(old(s.counts),
        SegmentEntries(s.id, old(s.lastBackupUtc), s.lastDataUtc, Actives(s.cameras), advanced, fetch))
  }

  /**
    `update_db`: every segment in turn (they are distinct objects); returns
    the newest `last_data_utc` among the segments that were processed, or
    `None` when none of them has one.
  */
  method UpdateDb(segments: seq<Segment>, advanced: bool, fetch: (int, int, int) -> Report, today: int)
    returns (newest: Option<int>)
    requires Sorting.Distinct(segments)
    requires forall i :: 0 <= i < |segments| ==> StrictlySorted(segments[i].counts)
    modifies set i | 0 <= i < |segments| :: segments[i]
    ensures forall i :: 0 <= i < |segments| ==> SegmentUpdated(segments[i], advanced, fetch, today)
    ensures forall i :: 0 <= i < |segments| && Processed(segments[i]) && segments[i].lastDataUtc.Some? ==>
      newest.Some? && segments[i].lastDataUtc.value <= newest.value
    ensures newest.Some? ==>
      exists i :: 0 <= i < |segments| && Processed(segments[i]) && segments[i].lastDataUtc == newest
  {
    newest := None;
    var k := 0;
    while k < |segments|
      invariant 0 <= k <= |segments|
      invariant forall i :: 0 <= i < k ==> SegmentUpdated(segments[i], advanced, fetch, today)
      invariant forall i :: k <= i < |segments| ==> unchanged(segments[i])
      invariant forall i :: 0 <= i < k && Processed(segments[i]) && segments[i].lastDataUtc.Some? ==>
        newest.Some? && segments[i].lastDataUtc.value <= newest.value
      invariant newest.Some? ==>
        exists i :: 0 <= i < k && Processed(segments[i]) && segments[i].lastDataUtc == newest
    {
      var s := segments[k];
      assert forall i :: 0 <= i < |segments| && i != k ==> segments[i] != s;
      var processed, _ := UpdateSegment(s, advanced, fetch, today);
      assert SegmentUpdated(s, advanced, fetch, today);
      forall i | 0 <= i < k ensures SegmentUpdated(segments[i], advanced, fetch, today) {
        assert segments[i] != s;
      }
      if processed {
        var last := s.lastDataUtc;
        if last.Some? && (newest.None? || newest.value < last.value) {
          newest := last;
        }
      }
      k := k + 1;
    }
  }
}
