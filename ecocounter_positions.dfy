/**
  `ecocounter_positions.py`: one GeoJSON feature per counting station of the
  bicycle counters, built from the station's properties, its datastreams
  grouped by direction and its location.  The paginated requests are
  parameters: a station arrives with its datastreams and its first location.
*/
module EcocounterPositions {
  import opened Wrappers
  import opened Json
  import opened Strings
  import PyDict
  import Sorting
  import Seqs
  import Common

  /** The direction that covers both sides; its datastreams are ignored. */
  const Both: string := "Beide"

  const Timezone: string := "Europe/Berlin"

  // ---------------------------------------------------------------------
  // Datastreams grouped by direction
  // ---------------------------------------------------------------------

  /**
    One datastream with the defaults of `.get`: direction `""`, `siteID` 0,
    `periodLength` `""`; `coords` is `JNull` without an observed area.
  */
  datatype Datastream = Datastream(id: Json, direction: string, siteId: int, period: string, coords: Json)

  /** The three dicts of the loop: direction to `siteID`, to coordinates, and to period to datastream id. */
  datatype Grouping = Grouping(
    siteIds: PyDict.Dict<string, int>,
    coords: PyDict.Dict<string, Json>,
    streams: PyDict.Dict<string, PyDict.Dict<string, Json>>)

  /** One turn of the loop over the datastreams. */
  function Add(g: Grouping, ds: Datastream): Grouping {
    if ds.direction == Both then g
    else
      var d := ds.direction;
      Grouping(
        PyDict.Set(g.siteIds, d, ds.siteId),
        if Truthy(ds.coords) && !PyDict.HasKey(g.coords, d) then PyDict.Set(g.coords, d, ds.coords) else g.coords,
        PyDict.Set(g.streams, d, PyDict.Set(PyDict.Get(g.streams, d).GetOr([]), ds.period, ds.id)))
  }

  /** The loop over all datastreams of a station. */
  function Grouped(dss: seq<Datastream>): (g: Grouping)
    ensures PyDict.Valid(g.siteIds) && PyDict.Valid(g.coords)
    ensures forall d :: PyDict.Get(g.streams, d).Some? <==> PyDict.Get(g.siteIds, d).Some?
  {
    if dss == [] then Grouping([], [], [])
    else Add(Grouped(dss[..|dss| - 1]), dss[|dss| - 1])
  }

  /** The grouping loop. */
  method GroupDatastreams(dss: seq<Datastream>) returns (g: Grouping)
    ensures g == Grouped(dss)
  {
    g := Grouping([], [], []);
    for i := 0 to |dss|
      invariant g == Grouped(dss[..i])
    {
      assert dss[..i + 1][..i] == dss[..i];
      var ds := dss[i];
      if ds.direction == Both {
        continue;
      }
      var d := ds.direction;
      var periods := PyDict.Get(g.streams, d).GetOr([]);
      var coords := g.coords;
      if Truthy(ds.coords) && !PyDict.HasKey(coords, d) {
        coords := PyDict.Set(coords, d, ds.coords);
      }
      g := Grouping(PyDict.Set(g.siteIds, d, ds.siteId), coords, PyDict.Set(g.streams, d, PyDict.Set(periods, ds.period, ds.id)));
    }
    assert dss[..|dss|] == dss;
  }

  predicate HasDirection(dss: seq<Datastream>, dir: string) {
    exists i :: 0 <= i < |dss| && dss[i].direction == dir
  }

  /** Datastream `i` is the last one of direction `dir`. */
  predicate LastOfDirection(dss: seq<Datastream>, i: int, dir: string) {
    0 <= i < |dss| && dss[i].direction == dir && forall j :: i < j < |dss| ==> dss[j].direction != dir
  }

  /** One more datastream sets the `siteID` of its direction, and changes no other. */
  lemma SiteIdsStep(dss: seq<Datastream>, dir: string)
    requires dss != []
    ensures var last := dss[|dss| - 1];
      PyDict.Get(Grouped(dss).siteIds, dir) ==
        if last.direction == dir && dir != Both then Some(last.siteId)
        else PyDict.Get(Grouped(dss[..|dss| - 1]).siteIds, dir)
  {
    var init := dss[..|dss| - 1];
    assert Grouped(dss) == Add(Grouped(init), dss[|dss| - 1]);
  }

  /** The directions of `dss`: those before the last datastream, and the last one's. */
  lemma HasDirectionSplit(dss: seq<Datastream>, dir: string)
    requires dss != []
    ensures HasDirection(dss, dir) <==> HasDirection(dss[..|dss| - 1], dir) || dss[|dss| - 1].direction == dir
  {
    var init := dss[..|dss| - 1];
    if HasDirection(dss, dir) && dss[|dss| - 1].direction != dir {
      var j :| 0 <= j < |dss| && dss[j].direction == dir;
      assert init[j] == dss[j];
    }
    if HasDirection(init, dir) {
      var j :| 0 <= j < |init| && init[j].direction == dir;
      assert init[j] == dss[j];
    }
  }

  /** A direction gets a `siteID` exactly when it is not `Beide` and has a datastream. */
  lemma {:induction false} GroupedHasSiteId(dss: seq<Datastream>, dir: string)
    ensures PyDict.Get(Grouped(dss).siteIds, dir).Some? <==> dir != Both && HasDirection(dss, dir)
  {
    if dss != [] {
      GroupedHasSiteId(dss[..|dss| - 1], dir);
      SiteIdsStep(dss, dir);
      HasDirectionSplit(dss, dir);
    }
  }

  /** The `siteID` of a direction is that of its last datastream. */
  lemma {:induction false} GroupedSiteId(dss: seq<Datastream>, dir: string, i: int)
    requires dir != Both && LastOfDirection(dss, i, dir)
    ensures PyDict.Get(Grouped(dss).siteIds, dir) == Some(dss[i].siteId)
  {
    var init := dss[..|dss| - 1];
    var last := dss[|dss| - 1];
    SiteIdsStep(dss, dir);
    if i < |init| {
      assert last.direction != dir;
      assert init[i] == dss[i];
      assert LastOfDirection(init, i, dir);
      GroupedSiteId(init, dir, i);
    } else {
      assert i == |dss| - 1;
    }
  }

  /** Every direction but `Beide` gets the `siteID` of its last datastream. */
  lemma GroupedSiteIds(dss: seq<Datastream>, dir: string)
    ensures PyDict.Get(Grouped(dss).siteIds, dir).Some? <==> dir != Both && HasDirection(dss, dir)
    ensures forall i :: dir != Both && LastOfDirection(dss, i, dir) ==> PyDict.Get(Grouped(dss).siteIds, dir) == Some(dss[i].siteId)
  {
    GroupedHasSiteId(dss, dir);
    forall i | dir != Both && LastOfDirection(dss, i, dir) ensures PyDict.Get(Grouped(dss).siteIds, dir) == Some(dss[i].siteId) {
      GroupedSiteId(dss, dir, i);
    }
  }

  /** Datastream `i` is the first of direction `dir` with coordinates. */
  predicate FirstWithCoords(dss: seq<Datastream>, i: int, dir: string) {
    0 <= i < |dss| && dss[i].direction == dir && Truthy(dss[i].coords) &&
    forall j :: 0 <= j < i ==> !(dss[j].direction == dir && Truthy(dss[j].coords))
  }

  predicate HasCoords(dss: seq<Datastream>, dir: string) {
    exists i :: 0 <= i < |dss| && dss[i].direction == dir && Truthy(dss[i].coords)
  }

  /** Some datastream of `dss` has coordinates for `dir` iff one before the last does, or the last. */
  lemma HasCoordsSplit(dss: seq<Datastream>, dir: string)
    requires dss != []
    ensures var last := dss[|dss| - 1];
      HasCoords(dss, dir) <==> HasCoords(dss[..|dss| - 1], dir) || (last.direction == dir && Truthy(last.coords))
  {
    var init := dss[..|dss| - 1];
    if HasCoords(dss, dir) && !(dss[|dss| - 1].direction == dir && Truthy(dss[|dss| - 1].coords)) {
      var j :| 0 <= j < |dss| && dss[j].direction == dir && Truthy(dss[j].coords);
      assert init[j] == dss[j];
    }
    if HasCoords(init, dir) {
      var j :| 0 <= j < |init| && init[j].direction == dir && Truthy(init[j].coords);
      assert init[j] == dss[j];
    }
  }

  /** A direction has coordinates exactly when one of its datastreams has some. */
  lemma {:induction false} GroupedHasCoords(dss: seq<Datastream>, dir: string)
    ensures PyDict.Get(Grouped(dss).coords, dir).Some? <==> dir != Both && HasCoords(dss, dir)
  {
    if dss != [] {
      var init := dss[..|dss| - 1];
      var last := dss[|dss| - 1];
      GroupedHasCoords(init, dir);
      assert Grouped(dss) == Add(Grouped(init), last);
      HasCoordsSplit(dss, dir);
    }
  }

  /** Nothing before the first datastream with coordinates has any. */
  lemma NoCoordsBefore(dss: seq<Datastream>, dir: string, i: int)
    requires FirstWithCoords(dss, i, dir)
    ensures !HasCoords(dss[..i], dir)
  {
  }

  /** Every direction but `Beide` keeps the first coordinates seen for it. */
  lemma {:induction false} GroupedCoords(dss: seq<Datastream>, dir: string, i: int)
    requires dir != Both && FirstWithCoords(dss, i, dir)
    ensures PyDict.Get(Grouped(dss).coords, dir) == Some(dss[i].coords)
  {
    var init := dss[..|dss| - 1];
    if i < |init| {
      assert FirstWithCoords(init, i, dir) by {
        assert init[i] == dss[i];
        assert forall j :: 0 <= j < i ==> init[j] == dss[j];
      }
      GroupedCoords(init, dir, i);
    } else {
      assert i == |dss| - 1;
      GroupedHasCoords(init, dir);
      NoCoordsBefore(dss, dir, i);
      assert dss[..i] == init;
    }
    assert Grouped(dss) == Add(Grouped(init), dss[|dss| - 1]);
  }

  /** Datastream `i` is the last one of direction `dir` and period `period`. */
  predicate LastOfPeriod(dss: seq<Datastream>, i: int, dir: string, period: string) {
    0 <= i < |dss| && dss[i].direction == dir && dss[i].period == period &&
    forall j :: i < j < |dss| ==> !(dss[j].direction == dir && dss[j].period == period)
  }

  predicate HasPeriod(dss: seq<Datastream>, dir: string, period: string) {
    exists i :: 0 <= i < |dss| && dss[i].direction == dir && dss[i].period == period
  }

  /** The periods of `dir` in `dss`: those before the last datastream, and the last one's. */
  lemma HasPeriodSplit(dss: seq<Datastream>, dir: string, period: string)
    requires dss != []
    ensures var last := dss[|dss| - 1];
      HasPeriod(dss, dir, period) <==> HasPeriod(dss[..|dss| - 1], dir, period) || (last.direction == dir && last.period == period)
  {
    var init := dss[..|dss| - 1];
    if HasPeriod(dss, dir, period) && !(dss[|dss| - 1].direction == dir && dss[|dss| - 1].period == period) {
      var j :| 0 <= j < |dss| && dss[j].direction == dir && dss[j].period == period;
      assert init[j] == dss[j];
    }
    if HasPeriod(init, dir, period) {
      var j :| 0 <= j < |init| && init[j].direction == dir && init[j].period == period;
      assert init[j] == dss[j];
    }
  }

  /** The datastreams of a direction, by period. */
  function Periods(dss: seq<Datastream>, dir: string): PyDict.Dict<string, Json> {
    PyDict.Get(Grouped(dss).streams, dir).GetOr([])
  }

  /** One more datastream sets its period in its direction, and changes nothing else. */
  lemma PeriodsStep(dss: seq<Datastream>, dir: string, period: string)
    requires dss != []
    ensures var last := dss[|dss| - 1];
      PyDict.Get(Periods(dss, dir), period) ==
        if last.direction == dir && dir != Both && last.period == period then Some(last.id)
        else PyDict.Get(Periods(dss[..|dss| - 1], dir), period)
  {
    var init := dss[..|dss| - 1];
    assert Grouped(dss) == Add(Grouped(init), dss[|dss| - 1]);
  }

  /** A period appears for a direction exactly when one of its datastreams has it. */
  lemma {:induction false} GroupedHasPeriod(dss: seq<Datastream>, dir: string, period: string)
    requires dir != Both
    ensures PyDict.Get(Periods(dss, dir), period).Some? <==> HasPeriod(dss, dir, period)
  {
    if dss != [] {
      var init := dss[..|dss| - 1];
      var last := dss[|dss| - 1];
      GroupedHasPeriod(init, dir, period);
      PeriodsStep(dss, dir, period);
      HasPeriodSplit(dss, dir, period);
    }
  }

  /** A period maps to the id of its last datastream. */
  lemma {:induction false} GroupedPeriod(dss: seq<Datastream>, dir: string, period: string, i: int)
    requires dir != Both && LastOfPeriod(dss, i, dir, period)
    ensures PyDict.Get(Periods(dss, dir), period) == Some(dss[i].id)
  {
    var init := dss[..|dss| - 1];
    if i < |init| {
      assert LastOfPeriod(init, i, dir, period) by {
        assert init[i] == dss[i];
        assert forall j :: i < j < |init| ==> init[j] == dss[j];
      }
      GroupedPeriod(init, dir, period, i);
    } else {
      assert i == |dss| - 1;
    }
    PeriodsStep(dss, dir, period);
  }

  // ---------------------------------------------------------------------
  // The counters of a station
  // ---------------------------------------------------------------------

  /** One entry of the `counter` list. */
  datatype Counter = Counter(coordinates: Json, direction: string, bikesLeft: bool, bikesRight: bool, datastreams: PyDict.Dict<string, Json>)

  function SiteLe(a: (string, int), b: (string, int)): bool {
    a.1 <= b.1
  }

  /** `sorted(d.items())` on a dict compares the keys only, since they are distinct. */
  function PeriodLe(a: (string, Json), b: (string, Json)): bool {
    LexLe(a.0, b.0)
  }

  lemma Orders()
    ensures Sorting.TotalPreorder(SiteLe) && Sorting.TotalPreorder(PeriodLe)
  {
    LexLeTotalOrder();
  }

  /** The directions with their `siteID`, sorted by it. */
  function SortedDirections(g: Grouping): (r: seq<(string, int)>)
    ensures multiset(r) == multiset(g.siteIds)
    ensures forall i, j :: 0 <= i < j < |r| ==> r[i].1 <= r[j].1
  {
    Orders();
    var r := Sorting.SortBy(g.siteIds, SiteLe);
    assert forall i, j :: 0 <= i < j < |r| ==> SiteLe(r[i], r[j]);
    r
  }

  /**
    One counter per direction in that order; the first is the left one,
    the second the right one.  Each counter's datastreams are sorted by period.
  */
  function Counters(g: Grouping): (r: seq<Counter>)
    ensures |r| == |g.siteIds|
    ensures forall i :: 0 <= i < |r| ==> (r[i].bikesLeft <==> i == 0) && (r[i].bikesRight <==> i == 1)
  {
    Orders();
    var dirs := SortedDirections(g);
    seq(|dirs|, i requires 0 <= i < |dirs| =>
      Counter(PyDict.Get(g.coords, dirs[i].0).GetOr(JNull), dirs[i].0, i == 0, i == 1,
              Sorting.SortBy(PyDict.Get(g.streams, dirs[i].0).GetOr([]), PeriodLe)))
  }

  /** The counters come in increasing `siteID` of their direction. */
  lemma CountersBySite(g: Grouping)
    requires PyDict.Valid(g.siteIds)
    ensures var r := Counters(g);
      forall i, j :: 0 <= i < j < |r| ==>
        PyDict.Get(g.siteIds, r[i].direction).Some? && PyDict.Get(g.siteIds, r[j].direction).Some? &&
        PyDict.Get(g.siteIds, r[i].direction).value <= PyDict.Get(g.siteIds, r[j].direction).value
  {
    var dirs := SortedDirections(g);
    forall i | 0 <= i < |dirs| ensures PyDict.Get(g.siteIds, dirs[i].0) == Some(dirs[i].1) {
      assert dirs[i] in multiset(g.siteIds);
      var k :| 0 <= k < |g.siteIds| && g.siteIds[k] == dirs[i];
      PyDict.GetAt(g.siteIds, k);
    }
  }

  /** Every direction has exactly one counter. */
  lemma CountersDirections(g: Grouping)
    ensures var r := Counters(g);
      multiset(seq(|r|, i requires 0 <= i < |r| => r[i].direction)) == multiset(PyDict.Keys(g.siteIds))
  {
    var dirs := SortedDirections(g);
    var r := Counters(g);
    assert seq(|r|, i requires 0 <= i < |r| => r[i].direction) == PyDict.Keys(dirs);
    PyDict.KeysPermutation(dirs, g.siteIds);
  }

  /** Each counter's periods are sorted and are exactly the periods of its direction. */
  lemma CounterStreams(g: Grouping, i: nat)
    requires i < |Counters(g)|
    ensures var c := Counters(g)[i];
      var periods := PyDict.Get(g.streams, c.direction).GetOr([]);
      Sorting.SortedBy(c.datastreams, PeriodLe) && multiset(c.datastreams) == multiset(periods)
  {
    Orders();
  }

  // ---------------------------------------------------------------------
  // The stations
  // ---------------------------------------------------------------------

  /**
    A station: its `@iot.id`, its `description` (if any), its `properties`,
    its datastreams and the `location` of its first location (if any).
  */
  datatype Thing = Thing(id: Json, description: Option<Json>, props: Props, datastreams: seq<Datastream>, location: Option<Json>)

  /** `props.get("siteID") is not None` */
  predicate HasSite(t: Thing) {
    var s := PyDict.Get(t.props, "siteID");
    s.Some? && s.value != JNull
  }

  /** The first location is a `Point` whose `coordinates` are truthy. */
  predicate PointAt(location: Option<Json>) {
    && location.Some?
    && Field(location.value, "type") == Some(JStr("Point"))
    && Field(location.value, "coordinates").Some?
    && Truthy(Field(location.value, "coordinates").value)
  }

  /**
    The point of the first location, `JNull` unless it is a `Point`.  A
    `Point` without `coordinates` gives `JNull` too, where the program
    raises a `KeyError`.
  */
  function PointCoords(location: Option<Json>): (r: Json)
    ensures r != JNull ==> location.Some? && Field(location.value, "type") == Some(JStr("Point"))
    ensures location.Some? && Field(location.value, "type") == Some(JStr("Point")) ==>
              r == Field(location.value, "coordinates").GetOr(JNull)
  {
    if location.Some? && Field(location.value, "type") == Some(JStr("Point")) then
      Field(location.value, "coordinates").GetOr(JNull)
    else JNull
  }

  /** A point geometry when there are coordinates, else none. */
  function Geometry(coords: Json): (r: Json)
    ensures r != JNull <==> Truthy(coords)
    ensures r != JNull ==> Field(r, "type") == Some(JStr("Point")) && Field(r, "coordinates") == Some(coords)
  {
    if Truthy(coords) then
      var d := [("type", JStr("Point")), ("coordinates", coords)];
      assert d[0].0[0] != d[1].0[0];
      PyDict.GetAt(d, 0);
      PyDict.GetAt(d, 1);
      JObj(d)
    else JNull
  }

  function CounterJson(c: Counter): Json {
    JObj([("coordinates", c.coordinates), ("direction", JStr(c.direction)),
          ("bikes_left", JBool(c.bikesLeft)), ("bikes_right", JBool(c.bikesRight)),
          ("datastreams", JObj(c.datastreams))])
  }

  /** The stored properties by `segment_id`. */
  type Stored = PyDict.Dict<Json, Props>

  /** Every stored feature has a `segment_id`. */
  predicate AllHaveSegmentId(features: seq<Feature>) {
    forall i :: 0 <= i < |features| ==> PyDict.HasKey(features[i].properties, "segment_id")
  }

  /** `{f["properties"]["segment_id"]: f["properties"] for f in features}` */
  function StoredProps(features: seq<Feature>): (r: Stored)
    requires AllHaveSegmentId(features)
    ensures PyDict.Valid(r)
  {
    PyDict.FromPairs(seq(|features|, i requires 0 <= i < |features| =>
      (PyDict.Get(features[i].properties, "segment_id").value, features[i].properties)))
  }

  /** `existing.get(key)` */
  function Carried(stored: Stored, sid: Json, key: string): Json {
    var existing := PyDict.Get(stored, sid).GetOr([]);
    PyDict.Get(existing, key).GetOr(JNull)
  }

  /** `{**props, "description": ..., ...}`: the station's properties with the computed ones set over them. */
  function Overlay(props: Props, description: Json, sid: Json, id: Json, counter: Json, lastData: Json, lastAdvanced: Json): Props {
    var p := PyDict.Set(props, "description", description);
    var p := PyDict.Set(p, "segment_id", sid);
    var p := PyDict.Set(p, "thing_id", id);
    var p := PyDict.Set(p, "counter", counter);
    var p := PyDict.Set(p, "timezone", JStr(Timezone));
    var p := PyDict.Set(p, "last_data_backup", lastData);
    PyDict.Set(p, "last_advanced_backup", lastAdvanced)
  }

  /**
    The geometry of a station at `location`: a point exactly when the first
    location is a `Point` with truthy coordinates, and then that point.
  */
  function PointGeometry(location: Option<Json>): (r: Json)
    ensures r != JNull <==> PointAt(location)
    ensures PointAt(location) ==>
              Field(r, "type") == Some(JStr("Point")) && Field(r, "coordinates") == Field(location.value, "coordinates")
  {
    Geometry(PointCoords(location))
  }

  /** The feature of a station whose datastreams are grouped as `g`. */
  function FeatureFrom(t: Thing, g: Grouping, stored: Stored): (f: Feature)
    ensures f.geometry != JNull <==> PointAt(t.location)
  {
    var sid := PyDict.Get(t.props, "siteID").GetOr(JNull);
    var props := Overlay(t.props, t.description.GetOr(JStr("")), sid, t.id, JArr(Seqs.Map(Counters(g), CounterJson)),
                         Carried(stored, sid, "last_data_backup"), Carried(stored, sid, "last_advanced_backup"));
    Feature(props, PointGeometry(t.location))
  }

  function FeatureOf(t: Thing, stored: Stored): Feature {
    FeatureFrom(t, Grouped(t.datastreams), stored)
  }

  /** The keys the feature sets are distinct. */
  lemma DistinctKeys()
    ensures |"description"| == 11 && |"segment_id"| == 10 && |"thing_id"| == 8 && |"counter"| == 7
    ensures |"timezone"| == 8 && |"last_data_backup"| == 16 && |"last_advanced_backup"| == 20
    ensures "thing_id"[1] != "timezone"[1]
  {
  }

  /** Every computed property holds its computed value, whatever the station had under that key. */
  lemma OverlaySets(props: Props, description: Json, sid: Json, id: Json, counter: Json, lastData: Json, lastAdvanced: Json)
    ensures var p := Overlay(props, description, sid, id, counter, lastData, lastAdvanced);
      PyDict.Get(p, "description") == Some(description) &&
      PyDict.Get(p, "segment_id") == Some(sid) &&
      PyDict.Get(p, "thing_id") == Some(id) &&
      PyDict.Get(p, "counter") == Some(counter) &&
      PyDict.Get(p, "timezone") == Some(JStr(Timezone)) &&
      PyDict.Get(p, "last_data_backup") == Some(lastData) &&
      PyDict.Get(p, "last_advanced_backup") == Some(lastAdvanced)
  {
    DistinctKeys();
    var p1 := PyDict.Set(props, "description", description);
    var p2 := PyDict.Set(p1, "segment_id", sid);
    var p3 := PyDict.Set(p2, "thing_id", id);
    var p4 := PyDict.Set(p3, "counter", counter);
    var p5 := PyDict.Set(p4, "timezone", JStr(Timezone));
    var p6 := PyDict.Set(p5, "last_data_backup", lastData);
    var p7 := PyDict.Set(p6, "last_advanced_backup", lastAdvanced);
    assert PyDict.Get(p7, "last_data_backup") == PyDict.Get(p6, "last_data_backup");
    assert PyDict.Get(p7, "timezone") == PyDict.Get(p6, "timezone") == PyDict.Get(p5, "timezone");
    assert PyDict.Get(p7, "counter") == PyDict.Get(p6, "counter") == PyDict.Get(p5, "counter") == PyDict.Get(p4, "counter");
    assert PyDict.Get(p7, "thing_id") == PyDict.Get(p6, "thing_id") == PyDict.Get(p5, "thing_id") == PyDict.Get(p4, "thing_id") == PyDict.Get(p3, "thing_id");
    assert PyDict.Get(p7, "segment_id") == PyDict.Get(p6, "segment_id") == PyDict.Get(p5, "segment_id") == PyDict.Get(p4, "segment_id") == PyDict.Get(p3, "segment_id") == PyDict.Get(p2, "segment_id");
    assert PyDict.Get(p7, "description") == PyDict.Get(p6, "description") == PyDict.Get(p5, "description") == PyDict.Get(p4, "description") == PyDict.Get(p3, "description") == PyDict.Get(p2, "description") == PyDict.Get(p1, "description");
  }

  /** Every other property of the station is kept. */
  lemma OverlayKeeps(props: Props, description: Json, sid: Json, id: Json, counter: Json, lastData: Json, lastAdvanced: Json, k: string)
    requires k !in ["description", "segment_id", "thing_id", "counter", "timezone", "last_data_backup", "last_advanced_backup"]
    ensures PyDict.Get(Overlay(props, description, sid, id, counter, lastData, lastAdvanced), k) == PyDict.Get(props, k)
  {
  }

  /** A stored feature's backup stamps survive into the new feature of its station. */
  lemma StampsCarried(t: Thing, features: seq<Feature>, i: nat, key: string)
    requires HasSite(t) && AllHaveSegmentId(features) && i < |features|
    requires PyDict.Get(features[i].properties, "segment_id") == PyDict.Get(t.props, "siteID")
    requires forall j :: i < j < |features| ==> PyDict.Get(features[j].properties, "segment_id") != PyDict.Get(t.props, "siteID")
    requires key == "last_data_backup" || key == "last_advanced_backup"
    ensures PyDict.Get(FeatureOf(t, StoredProps(features)).properties, key) == Some(PyDict.Get(features[i].properties, key).GetOr(JNull))
  {
    var pairs := seq(|features|, j requires 0 <= j < |features| =>
      (PyDict.Get(features[j].properties, "segment_id").value, features[j].properties));
    PyDict.GetLastAt(pairs, i);
    var sid := PyDict.Get(t.props, "siteID").value;
    OverlaySets(t.props, t.description.GetOr(JStr("")), sid, t.id, JArr(Seqs.Map(Counters(Grouped(t.datastreams)), CounterJson)),
                Carried(StoredProps(features), sid, "last_data_backup"), Carried(StoredProps(features), sid, "last_advanced_backup"));
  }

  // ---------------------------------------------------------------------
  // `main`
  // ---------------------------------------------------------------------

  /** The feature of a station, given the stored properties. */
  function Build(stored: Stored): Thing -> Feature {
    (t: Thing) => FeatureOf(t, stored)
  }

  /** The features of the stations with a `siteID`, in order. */
  function FeaturesOf(things: seq<Thing>, stored: Stored): seq<Feature> {
    Seqs.Map(Seqs.Filter(things, HasSite), Build(stored))
  }

  /** The file written: its creation stamp and its features. */
  datatype EcoFile = EcoFile(createdAt: string, features: seq<Feature>)

  /**
    `main`: nothing when the stored file is under 30 minutes old and not
    cleared; otherwise one feature per station with a `siteID`, carrying the
    backup stamps of the stored file (none when cleared).
  */
  method Run(file: Option<Common.StoredJson<Feature>>, clear: bool, things: seq<Thing>, now: int, nowIso: string)
    returns (out: Option<EcoFile>)
    requires file.Some? ==> AllHaveSegmentId(file.value.features.GetOr([]))
    ensures out.None? <==> Common.LoadJsonIfStale(file, clear, now).None?
    ensures out.Some? ==>
      var stored := Common.LoadJsonIfStale(file, clear, now).value;
      AllHaveSegmentId(stored) && out.value == EcoFile(nowIso, FeaturesOf(things, StoredProps(stored)))
  {
    var previous := Common.LoadJsonIfStale(file, clear, now);
    if previous.None? {
      return None;
    }
    var features := StationFeatures(things, StoredProps(previous.value));
    out := Some(EcoFile(nowIso, features));
  }

  /** The loop over the stations. */
  method StationFeatures(things: seq<Thing>, stored: Stored) returns (features: seq<Feature>)
    ensures features == FeaturesOf(things, stored)
  {
    features := [];
    for i := 0 to |things|
      invariant features == FeaturesOf(things[..i], stored)
    {
      Seqs.FilterMapStep(things, i, HasSite, Build(stored));
      var t := things[i];
      if !HasSite(t) {
        continue;
      }
      var g := GroupDatastreams(t.datastreams);
      features := features + [FeatureFrom(t, g, stored)];
    }
    assert things[..|things|] == things;
  }
}
