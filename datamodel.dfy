/**
  The ORM records of the Telraam backup database: traffic counts with their
  speed histograms, segments with their geometry, cameras and counts.  The
  constructors copy the API's attribute table, reading `-1` as a missing
  value.  ISO-8601 parsing is a parameter (`iso`), applied to the text that
  `ParseUtc` prepares.
*/
module Datamodel {
  import opened Wrappers
  import opened Strings
  import opened Json
  import PyDict
  import Common

  // ---------------------------------------------------------------------
  // Dates
  // ---------------------------------------------------------------------

  /** `parse_utc` of the database scripts: empty text is `None`, a `Z` is read as `+00:00`. */
  function ParseUtc(date: string): (r: Option<string>)
    ensures r.None? <==> date == []
    ensures r.Some? ==> 'Z' !in r.value
    ensures r.Some? && 'Z' !in date ==> r.value == date
  {
    if date != [] then Some(ReplaceChar(date, 'Z', "+00:00")) else None
  }

  /**
    This version and the backend's agree on every input except `"NaT"`, which
    only the backend maps to `None`.
  */
  lemma ParseUtcAgreesWithBackend(date: string)
    ensures date != "NaT" ==>
      Common.ParseUtc(Common.Iso(date)) == if date == [] then None else Some(Common.Iso(ParseUtc(date).value))
    ensures ParseUtc("NaT") == Some("NaT") && Common.ParseUtc(Common.Iso("NaT")) == None
  {
    assert 'Z' !in "NaT" by {
      assert "NaT"[0] != 'Z' && "NaT"[1] != 'Z' && "NaT"[2] != 'Z';
    }
  }

  /** The instant a date field denotes, `None` for an empty field. */
  function Instant(date: string, iso: string -> int): (r: Option<int>)
    ensures r.None? <==> date == []
  {
    match ParseUtc(date)
    case Some(t) => Some(iso(t))
    case None => None
  }

  // ---------------------------------------------------------------------
  // Attribute tables
  // ---------------------------------------------------------------------

  /** The API's "no value" marker. */
  function NoneIfMinusOne(v: Json): Json {
    if v == JInt(-1) then JNull else v
  }

  /**
    The columns of a record after `setattr` for every table entry whose name is
    a column: the last value given for it, with `-1` read as `None`; columns
    the table does not mention stay `None`.
  */
  function Attributes(columns: set<string>, table: PyDict.Dict<string, Json>): (r: map<string, Json>)
    ensures r.Keys == columns
    ensures forall k :: k in r ==> r[k] != JInt(-1)
    ensures forall k :: k in r && PyDict.HasKey(table, k) && PyDict.GetLast(table, k) != Some(JInt(-1)) ==>
      Some(r[k]) == PyDict.GetLast(table, k)
    ensures forall k :: k in r && !PyDict.HasKey(table, k) ==> r[k] == JNull
  {
    map k | k in columns :: if PyDict.HasKey(table, k) then NoneIfMinusOne(PyDict.GetLast(table, k).value) else JNull
  }

  /** The constructors' `for attr, val in table.items(): if hasattr(...): setattr(...)` loop. */
  method SetAttributes(columns: set<string>, table: PyDict.Dict<string, Json>) returns (attrs: map<string, Json>)
    ensures attrs == Attributes(columns, table)
  {
    attrs := map k | k in columns :: JNull;
    var i := 0;
    while i < |table|
      invariant 0 <= i <= |table|
      invariant attrs == Attributes(columns, table[..i])
    {
      var (key, val) := table[i];
      ghost var before := table[..i];
      ghost var after := table[..i + 1];
      assert after[..i] == before && after[i] == (key, val);
      if key in columns {
        attrs := attrs[key := NoneIfMinusOne(val)];
      }
      forall k | k in columns
        ensures PyDict.HasKey(after, k) == (PyDict.HasKey(before, k) || k == key)
      {
        if PyDict.HasKey(before, k) {
          var j :| 0 <= j < |before| && before[j].0 == k;
          assert after[j].0 == k;
        }
      }
      i := i + 1;
    }
    assert table[..i] == table;
  }

  // ---------------------------------------------------------------------
  // Traffic counts
  // ---------------------------------------------------------------------

  /** The columns of `traffic_count` that the API table can set. */
  const CountColumns: set<string> := {
    "id", "instance_id", "segment_id", "heavy_lft", "heavy_rgt", "car_lft", "car_rgt",
    "bike_lft", "bike_rgt", "pedestrian_lft", "pedestrian_rgt", "direction", "v85"
  }

  /** One row of `speed_histogram`. */
  datatype SpeedBin = SpeedBin(lowKmh: int, upKmh: int, percent: real)

  /** The bin for entry `i` of the 0..120+ histogram: 5 km/h wide, the one from 120 open-ended. */
  function Bin(i: nat, percent: real): (b: SpeedBin)
    ensures b.lowKmh == 5 * i && b.lowKmh < b.upKmh
    ensures i == 24 ==> b.upKmh == 1000
    ensures i != 24 ==> b.upKmh == b.lowKmh + 5
  {
    var low := 5 * i;
    SpeedBin(low, if low == 120 then 1000 else 5 * (i + 1), percent)
  }

  /** The histogram rows a traffic count gets: one per strictly positive entry, in order. */
  function Bins(hist: seq<real>): seq<SpeedBin> {
    if hist == [] then []
    else
      var i := |hist| - 1;
      Bins(hist[..i]) + (if hist[i] > 0.0 then [Bin(i, hist[i])] else [])
  }

  /** Every stored bin comes from a positive entry of the histogram. */
  lemma {:induction false} BinsSound(hist: seq<real>, b: SpeedBin)
    requires b in Bins(hist)
    ensures b.percent > 0.0
    ensures exists i :: 0 <= i < |hist| && b == Bin(i, hist[i])
  {
    var n := |hist| - 1;
    if b in Bins(hist[..n]) {
      BinsSound(hist[..n], b);
      var i :| 0 <= i < n && b == Bin(i, hist[..n][i]);
      assert hist[i] == hist[..n][i];
    } else {
      assert b == Bin(n, hist[n]);
    }
  }

  /** Every positive entry of the histogram is stored. */
  lemma {:induction false} BinsComplete(hist: seq<real>, i: nat)
    requires i < |hist| && hist[i] > 0.0
    ensures Bin(i, hist[i]) in Bins(hist)
  {
    var n := |hist| - 1;
    if i < n {
      assert hist[..n][i] == hist[i];
      BinsComplete(hist[..n], i);
    }
  }

  /** The stored bins are ordered by their lower bound, without repeats. */
  lemma {:induction false} BinsIncreasing(hist: seq<real>)
    ensures forall j, k :: 0 <= j < k < |Bins(hist)| ==> Bins(hist)[j].lowKmh < Bins(hist)[k].lowKmh
    ensures forall j :: 0 <= j < |Bins(hist)| ==> Bins(hist)[j].lowKmh < 5 * |hist|
  {
    if hist != [] {
      var n := |hist| - 1;
      BinsIncreasing(hist[..n]);
    }
  }

  datatype TrafficCount = TrafficCount(
    attrs: map<string, Json>,
    dateUtc: int,
    intervalSeconds: Option<int>,
    uptimeRel: real,
    histogram: seq<SpeedBin>)

  /**
    One entry of a traffic report: its attribute table and the entries the
    constructor reads by name (`date`, already parsed to seconds, `interval`,
    `uptime` and `car_speed_hist_0to120plus`).
  */
  datatype CountTable = CountTable(
    items: PyDict.Dict<string, Json>,
    date: int,
    interval: string,
    uptime: real,
    speedHist: seq<real>)

  /** The record `TrafficCount(table)` builds. */
  function CountOf(t: CountTable): (r: TrafficCount)
    ensures r.intervalSeconds.Some? <==> t.interval == "hourly"
    ensures r.intervalSeconds.Some? ==> r.intervalSeconds.value == 3600
    ensures r.dateUtc == t.date && r.uptimeRel == t.uptime
  {
    TrafficCount(
      Attributes(CountColumns, t.items),
      t.date,
      if t.interval == "hourly" then Some(3600) else None,
      t.uptime,
      Bins(t.speedHist))
  }

  /** `TrafficCount.__init__` */
  method NewTrafficCount(t: CountTable) returns (tc: TrafficCount)
    ensures tc == CountOf(t)
  {
    var attrs := SetAttributes(CountColumns, t.items);
    var histogram: seq<SpeedBin> := [];
    var i := 0;
    while i < |t.speedHist|
      invariant 0 <= i <= |t.speedHist|
      invariant histogram == Bins(t.speedHist[..i])
    {
      var v := t.speedHist[i];
      assert t.speedHist[..i + 1][..i] == t.speedHist[..i];
      if v > 0.0 {
        var low := 5 * i;
        var high := if low == 120 then 1000 else 5 * (i + 1);
        histogram := histogram + [SpeedBin(low, high, v)];
      }
      i := i + 1;
    }
    assert t.speedHist[..i] == t.speedHist;
    tc := TrafficCount(attrs, t.date, if t.interval == "hourly" then Some(3600) else None, t.uptime, histogram);
  }

  // ---------------------------------------------------------------------
  // Cameras
  // ---------------------------------------------------------------------

  /** The columns of `camera` that the API table can set (`id` and the dates are set afterwards). */
  const CameraColumns: set<string> := {
    "mac", "user_id", "segment_id", "direction", "status", "manual",
    "pedestrians_left", "pedestrians_right", "bikes_left", "bikes_right", "cars_left", "cars_right",
    "is_calibration_done", "hardware_version"
  }

  datatype Camera = Camera(
    attrs: map<string, Json>,
    id: int,
    addedUtc: Option<int>,
    endUtc: Option<int>,
    lastDataUtc: Option<int>,
    firstDataUtc: Option<int>)

  datatype CameraTable = CameraTable(
    items: PyDict.Dict<string, Json>,
    instanceId: int,
    timeAdded: string,
    timeEnd: string,
    lastDataPackage: string,
    firstDataPackage: string)

  /** The record `Camera(table)` builds. */
  function CameraOf(t: CameraTable, iso: string -> int): (c: Camera)
    ensures c.id == t.instanceId
    ensures c.firstDataUtc.None? <==> t.firstDataPackage == []
    ensures c.lastDataUtc.None? <==> t.lastDataPackage == []
    ensures forall k :: k in c.attrs ==> c.attrs[k] != JInt(-1)
  {
    Camera(
      Attributes(CameraColumns, t.items),
      t.instanceId,
      Instant(t.timeAdded, iso),
      Instant(t.timeEnd, iso),
      Instant(t.lastDataPackage, iso),
      Instant(t.firstDataPackage, iso))
  }

  /** `Camera.__init__` */
  method NewCamera(t: CameraTable, iso: string -> int) returns (c: Camera)
    ensures c == CameraOf(t, iso)
  {
    var attrs := SetAttributes(CameraColumns, t.items);
    c := Camera(attrs, t.instanceId, Instant(t.timeAdded, iso), Instant(t.timeEnd, iso),
                Instant(t.lastDataPackage, iso), Instant(t.firstDataPackage, iso));
  }

  // ---------------------------------------------------------------------
  // Segments
  // ---------------------------------------------------------------------

  /** One row of `segment_geom`: a point and its position along the segment. */
  datatype GeomPoint = GeomPoint(lon: real, lat: real, seqNo: int)

  class Segment {
    var id: int
    var lastDataUtc: Option<int>
    var lastBackupUtc: Option<int>
    var geom: seq<GeomPoint>
    var cameras: seq<Camera>
    var counts: seq<TrafficCount>

    /** `Segment.__init__`: the points of the geometry numbered 0..n-1 in order. */
    constructor (segmentId: int, lastDataPackage: string, geometry: seq<(real, real)>, iso: string -> int)
      ensures id == segmentId && lastDataUtc == Instant(lastDataPackage, iso) && lastBackupUtc.None?
      ensures |geom| == |geometry|
      ensures forall i :: 0 <= i < |geom| ==> geom[i] == GeomPoint(geometry[i].0, geometry[i].1, i)
      ensures cameras == [] && counts == []
    {
      id := segmentId;
      lastDataUtc := Instant(lastDataPackage, iso);
      lastBackupUtc := None;
      cameras := [];
      counts := [];
      geom := [];
      new;
      var i := 0;
      while i < |geometry|
        invariant 0 <= i <= |geometry| && |geom| == i
        invariant forall j :: 0 <= j < i ==> geom[j] == GeomPoint(geometry[j].0, geometry[j].1, j)
        invariant id == segmentId && lastDataUtc == Instant(lastDataPackage, iso) && lastBackupUtc.None?
        invariant cameras == [] && counts == []
      {
        geom := geom + [GeomPoint(geometry[i].0, geometry[i].1, i)];
        i := i + 1;
      }
    }

    /** `add_camera` */
    method AddCamera(t: CameraTable, iso: string -> int)
      modifies this`cameras
      ensures cameras == old(cameras) + [CameraOf(t, iso)]
    {
      var c := NewCamera(t, iso);
      cameras := cameras + [c];
    }

    /** `update`: a new `last_data_package`. */
    method Update(lastDataPackage: string, iso: string -> int)
      modifies this`lastDataUtc
      ensures lastDataUtc == Instant(lastDataPackage, iso)
    {
      lastDataUtc := Instant(lastDataPackage, iso);
    }
  }
}
