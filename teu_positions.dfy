/**
  `teu_positions.py`: one GeoJSON feature per traffic detection station
  (`mq_id15`), with its datastreams organised by vehicle, measurement and
  period, its point location and the backup stamps of the previous run,
  followed by `add_osm`.  The paginated requests are parameters: a station
  arrives with its datastreams and its first location.
*/
module TeuPositions {
  import opened Wrappers
  import opened Json
  import PyDict
  import Seqs
  import Common
  import Osm
  import EcocounterPositions

  const Timezone: string := "Europe/Berlin"

  // ---------------------------------------------------------------------
  // Datastreams by vehicle, measurement and period
  // ---------------------------------------------------------------------

  /** One datastream with the defaults of `.get`: `vehicle`, `measurement` and `periodLength` default to `""`. */
  datatype Stream = Stream(id: Json, vehicle: string, measurement: string, period: string)

  type Periods = PyDict.Dict<string, Json>
  type Measurements = PyDict.Dict<string, Periods>
  type Vehicles = PyDict.Dict<string, Measurements>

  /** `datastreams.setdefault(vehicle, {}).setdefault(measurement, {})[period] = id` */
  function Add(n: Vehicles, ds: Stream): Vehicles {
    var ms := PyDict.Get(n, ds.vehicle).GetOr([]);
    var ps := PyDict.Get(ms, ds.measurement).GetOr([]);
    PyDict.Set(n, ds.vehicle, PyDict.Set(ms, ds.measurement, PyDict.Set(ps, ds.period, ds.id)))
  }

  /** The loop over all datastreams of a station. */
  function Nested(dss: seq<Stream>): (r: Vehicles)
    ensures PyDict.Valid(r)
  {
    if dss == [] then [] else Add(Nested(dss[..|dss| - 1]), dss[|dss| - 1])
  }

  /** The grouping loop. */
  method NestDatastreams(dss: seq<Stream>) returns (n: Vehicles)
    ensures n == Nested(dss)
  {
    n := [];
    for i := 0 to |dss|
      invariant n == Nested(dss[..i])
    {
      assert dss[..i + 1][..i] == dss[..i];
      var ds := dss[i];
      var ms := PyDict.Get(n, ds.vehicle).GetOr([]);
      var ps := PyDict.Get(ms, ds.measurement).GetOr([]);
      ps := PyDict.Set(ps, ds.period, ds.id);
      ms := PyDict.Set(ms, ds.measurement, ps);
      n := PyDict.Set(n, ds.vehicle, ms);
    }
    assert dss[..|dss|] == dss;
  }

  /** The measurements of a vehicle, `{}` when it has none. */
  function MeasurementsOf(n: Vehicles, vehicle: string): Measurements {
    PyDict.Get(n, vehicle).GetOr([])
  }

  /** `datastreams[vehicle][measurement][period]`, if every key is there. */
  function Lookup(n: Vehicles, vehicle: string, measurement: string, period: string): Option<Json> {
    var ms := PyDict.Get(n, vehicle);
    var ps := if ms.Some? then PyDict.Get(ms.value, measurement) else None;
    if ps.Some? then PyDict.Get(ps.value, period) else None
  }

  predicate HasVehicle(dss: seq<Stream>, vehicle: string) {
    exists i :: 0 <= i < |dss| && dss[i].vehicle == vehicle
  }

  predicate HasMeasurement(dss: seq<Stream>, vehicle: string, measurement: string) {
    exists i :: 0 <= i < |dss| && dss[i].vehicle == vehicle && dss[i].measurement == measurement
  }

  /** Datastream `i` is the last one of its vehicle, measurement and period. */
  predicate LastOf(dss: seq<Stream>, i: int, vehicle: string, measurement: string, period: string) {
    0 <= i < |dss| && dss[i].vehicle == vehicle && dss[i].measurement == measurement && dss[i].period == period &&
    forall j :: i < j < |dss| ==> !(dss[j].vehicle == vehicle && dss[j].measurement == measurement && dss[j].period == period)
  }

  predicate HasStream(dss: seq<Stream>, vehicle: string, measurement: string, period: string) {
    exists i :: 0 <= i < |dss| && dss[i].vehicle == vehicle && dss[i].measurement == measurement && dss[i].period == period
  }

  /** The vehicles of `dss` are those before the last datastream and the last one's. */
  lemma HasVehicleSplit(dss: seq<Stream>, vehicle: string)
    requires dss != []
    ensures HasVehicle(dss, vehicle) <==> HasVehicle(dss[..|dss| - 1], vehicle) || dss[|dss| - 1].vehicle == vehicle
  {
    var init := dss[..|dss| - 1];
    if HasVehicle(dss, vehicle) && dss[|dss| - 1].vehicle != vehicle {
      var j :| 0 <= j < |dss| && dss[j].vehicle == vehicle;
      assert init[j] == dss[j];
    }
    if HasVehicle(init, vehicle) {
      var j :| 0 <= j < |init| && init[j].vehicle == vehicle;
      assert init[j] == dss[j];
    }
  }

  lemma HasMeasurementSplit(dss: seq<Stream>, vehicle: string, measurement: string)
    requires dss != []
    ensures var last := dss[|dss| - 1];
      HasMeasurement(dss, vehicle, measurement) <==>
        HasMeasurement(dss[..|dss| - 1], vehicle, measurement) || (last.vehicle == vehicle && last.measurement == measurement)
  {
    var init := dss[..|dss| - 1];
    if HasMeasurement(dss, vehicle, measurement) && !(dss[|dss| - 1].vehicle == vehicle && dss[|dss| - 1].measurement == measurement) {
      var j :| 0 <= j < |dss| && dss[j].vehicle == vehicle && dss[j].measurement == measurement;
      assert init[j] == dss[j];
    }
    if HasMeasurement(init, vehicle, measurement) {
      var j :| 0 <= j < |init| && init[j].vehicle == vehicle && init[j].measurement == measurement;
      assert init[j] == dss[j];
    }
  }

  lemma HasStreamSplit(dss: seq<Stream>, vehicle: string, measurement: string, period: string)
    requires dss != []
    ensures var last := dss[|dss| - 1];
      HasStream(dss, vehicle, measurement, period) <==>
        HasStream(dss[..|dss| - 1], vehicle, measurement, period) ||
        (last.vehicle == vehicle && last.measurement == measurement && last.period == period)
  {
    var init := dss[..|dss| - 1];
    var last := dss[|dss| - 1];
    if HasStream(dss, vehicle, measurement, period) && !(last.vehicle == vehicle && last.measurement == measurement && last.period == period) {
      var j :| 0 <= j < |dss| && dss[j].vehicle == vehicle && dss[j].measurement == measurement && dss[j].period == period;
      assert init[j] == dss[j];
    }
    if HasStream(init, vehicle, measurement, period) {
      var j :| 0 <= j < |init| && init[j].vehicle == vehicle && init[j].measurement == measurement && init[j].period == period;
      assert init[j] == dss[j];
    }
  }

  /** One more datastream: what it does to the vehicles and their measurements. */
  lemma NestedStep(dss: seq<Stream>, vehicle: string, measurement: string)
    requires dss != []
    ensures var init := Nested(dss[..|dss| - 1]);
      var last := dss[|dss| - 1];
      PyDict.Get(Nested(dss), vehicle).Some? == (PyDict.Get(init, vehicle).Some? || last.vehicle == vehicle) &&
      PyDict.Get(MeasurementsOf(Nested(dss), vehicle), measurement).Some? ==
        (PyDict.Get(MeasurementsOf(init, vehicle), measurement).Some? || (last.vehicle == vehicle && last.measurement == measurement))
  {
    assert Nested(dss) == Add(Nested(dss[..|dss| - 1]), dss[|dss| - 1]);
    AddPresence(Nested(dss[..|dss| - 1]), dss[|dss| - 1], vehicle, measurement);
  }

  /** Adding a datastream makes its vehicle and its measurement present and removes nothing. */
  lemma AddPresence(n: Vehicles, ds: Stream, vehicle: string, measurement: string)
    ensures PyDict.Get(Add(n, ds), vehicle).Some? == (PyDict.Get(n, vehicle).Some? || ds.vehicle == vehicle)
    ensures PyDict.Get(MeasurementsOf(Add(n, ds), vehicle), measurement).Some? ==
      (PyDict.Get(MeasurementsOf(n, vehicle), measurement).Some? || (ds.vehicle == vehicle && ds.measurement == measurement))
  {
    var ms := PyDict.Get(n, ds.vehicle).GetOr([]);
    var ps := PyDict.Get(ms, ds.measurement).GetOr([]);
    var ms' := PyDict.Set(ms, ds.measurement, PyDict.Set(ps, ds.period, ds.id));
    if ds.vehicle == vehicle {
      assert MeasurementsOf(Add(n, ds), vehicle) == ms';
      assert MeasurementsOf(n, vehicle) == ms;
    } else {
      assert MeasurementsOf(Add(n, ds), vehicle) == MeasurementsOf(n, vehicle);
    }
  }

  /** One more datastream sets its own entry and no other. */
  lemma LookupStep(dss: seq<Stream>, vehicle: string, measurement: string, period: string)
    requires dss != []
    ensures var last := dss[|dss| - 1];
      Lookup(Nested(dss), vehicle, measurement, period) ==
        if last.vehicle == vehicle && last.measurement == measurement && last.period == period then Some(last.id)
        else Lookup(Nested(dss[..|dss| - 1]), vehicle, measurement, period)
  {
    assert Nested(dss) == Add(Nested(dss[..|dss| - 1]), dss[|dss| - 1]);
    AddLookup(Nested(dss[..|dss| - 1]), dss[|dss| - 1], vehicle, measurement, period);
  }

  lemma AddLookup(n: Vehicles, ds: Stream, vehicle: string, measurement: string, period: string)
    ensures Lookup(Add(n, ds), vehicle, measurement, period) ==
      if ds.vehicle == vehicle && ds.measurement == measurement && ds.period == period then Some(ds.id)
      else Lookup(n, vehicle, measurement, period)
  {
    var ms := PyDict.Get(n, ds.vehicle).GetOr([]);
    var ps := PyDict.Get(ms, ds.measurement).GetOr([]);
    var ps' := PyDict.Set(ps, ds.period, ds.id);
    var ms' := PyDict.Set(ms, ds.measurement, ps');
    if ds.vehicle == vehicle {
      assert PyDict.Get(Add(n, ds), vehicle) == Some(ms');
      if ds.measurement == measurement {
        assert PyDict.Get(ms', measurement) == Some(ps');
      } else {
        assert PyDict.Get(ms', measurement) == PyDict.Get(ms, measurement);
      }
    } else {
      assert PyDict.Get(Add(n, ds), vehicle) == PyDict.Get(n, vehicle);
    }
  }

  /** The vehicles are exactly those of the datastreams, and a vehicle's measurements exactly its datastreams' ones. */
  lemma {:induction false} NestedKeys(dss: seq<Stream>, vehicle: string, measurement: string)
    ensures PyDict.Get(Nested(dss), vehicle).Some? <==> HasVehicle(dss, vehicle)
    ensures PyDict.Get(MeasurementsOf(Nested(dss), vehicle), measurement).Some? <==> HasMeasurement(dss, vehicle, measurement)
  {
    if dss != [] {
      NestedKeys(dss[..|dss| - 1], vehicle, measurement);
      NestedStep(dss, vehicle, measurement);
      HasVehicleSplit(dss, vehicle);
      HasMeasurementSplit(dss, vehicle, measurement);
    }
  }

  /** An entry exists exactly when some datastream has its vehicle, measurement and period. */
  lemma {:induction false} NestedHasStream(dss: seq<Stream>, vehicle: string, measurement: string, period: string)
    ensures Lookup(Nested(dss), vehicle, measurement, period).Some? <==> HasStream(dss, vehicle, measurement, period)
  {
    if dss != [] {
      NestedHasStream(dss[..|dss| - 1], vehicle, measurement, period);
      LookupStep(dss, vehicle, measurement, period);
      HasStreamSplit(dss, vehicle, measurement, period);
    }
  }

  /** An entry holds the id of the last datastream with its vehicle, measurement and period. */
  lemma {:induction false} NestedLast(dss: seq<Stream>, vehicle: string, measurement: string, period: string, i: int)
    requires LastOf(dss, i, vehicle, measurement, period)
    ensures Lookup(Nested(dss), vehicle, measurement, period) == Some(dss[i].id)
  {
    var init := dss[..|dss| - 1];
    if i < |init| {
      assert LastOf(init, i, vehicle, measurement, period) by {
        assert init[i] == dss[i];
        assert forall j :: i < j < |init| ==> init[j] == dss[j];
      }
      NestedLast(init, vehicle, measurement, period, i);
    } else {
      assert i == |dss| - 1;
    }
    LookupStep(dss, vehicle, measurement, period);
  }

  // ---------------------------------------------------------------------
  // The feature of a station
  // ---------------------------------------------------------------------

  /**
    A station: its `@iot.id`, `name` and `description` (if any), its
    `properties` (`{}` when missing), its MQ datastreams and the `location`
    of its first location (if any).
  */
  datatype Thing = Thing(id: Json, name: Option<Json>, description: Option<Json>, props: Props,
                         datastreams: seq<Stream>, location: Option<Json>)

  /** `props.get("mq_id15") is not None` */
  predicate HasMq(t: Thing) {
    var s := PyDict.Get(t.props, "mq_id15");
    s.Some? && s.value != JNull
  }

  function PeriodsJson(m: (string, Periods)): (string, Json) {
    (m.0, JObj(m.1))
  }

  function MeasurementsJson(v: (string, Measurements)): (string, Json) {
    (v.0, JObj(Seqs.Map(v.1, PeriodsJson)))
  }

  /** The nested dict as the JSON object it is written as. */
  function NestedJson(n: Vehicles): Json {
    JObj(Seqs.Map(n, MeasurementsJson))
  }

  /** `{**props, "description": ..., "name": ..., ...}`: the station's properties with the computed ones set over them. */
  function Overlay(props: Props, description: Json, name: Json, sid: Json, id: Json, streams: Json, lastData: Json, lastAdvanced: Json): Props {
    var p := PyDict.Set(props, "description", description);
    var p := PyDict.Set(p, "name", name);
    var p := PyDict.Set(p, "segment_id", sid);
    var p := PyDict.Set(p, "thing_id", id);
    var p := PyDict.Set(p, "timezone", JStr(Timezone));
    var p := PyDict.Set(p, "datastreams", streams);
    var p := PyDict.Set(p, "last_data_backup", lastData);
    PyDict.Set(p, "last_advanced_backup", lastAdvanced)
  }

  /** The feature of a station whose datastreams are grouped as `n`. */
  function FeatureFrom(t: Thing, n: Vehicles, stored: Osm.Stored): (f: Feature)
    ensures f.geometry != JNull <==> EcocounterPositions.PointAt(t.location)
  {
    var sid := PyDict.Get(t.props, "mq_id15").GetOr(JNull);
    var props := Overlay(t.props, t.description.GetOr(JStr("")), t.name.GetOr(JStr("")), sid, t.id, NestedJson(n),
                         EcocounterPositions.Carried(stored, sid, "last_data_backup"),
                         EcocounterPositions.Carried(stored, sid, "last_advanced_backup"));
    Feature(props, EcocounterPositions.PointGeometry(t.location))
  }

  function FeatureOf(t: Thing, stored: Osm.Stored): Feature {
    FeatureFrom(t, Nested(t.datastreams), stored)
  }

  /** The keys the feature sets are distinct. */
  lemma DistinctKeys()
    ensures |"description"| == 11 && |"name"| == 4 && |"segment_id"| == 10 && |"thing_id"| == 8
    ensures |"timezone"| == 8 && |"datastreams"| == 11 && |"last_data_backup"| == 16 && |"last_advanced_backup"| == 20
    ensures "thing_id"[1] != "timezone"[1] && "description"[1] != "datastreams"[1]
  {
  }

  /** Every computed property holds its computed value, whatever the station had under that key. */
  lemma OverlaySets(props: Props, description: Json, name: Json, sid: Json, id: Json, streams: Json, lastData: Json, lastAdvanced: Json)
    ensures var p := Overlay(props, description, name, sid, id, streams, lastData, lastAdvanced);
      PyDict.Get(p, "description") == Some(description) &&
      PyDict.Get(p, "name") == Some(name) &&
      PyDict.Get(p, "segment_id") == Some(sid) &&
      PyDict.Get(p, "thing_id") == Some(id) &&
      PyDict.Get(p, "timezone") == Some(JStr(Timezone)) &&
      PyDict.Get(p, "datastreams") == Some(streams) &&
      PyDict.Get(p, "last_data_backup") == Some(lastData) &&
      PyDict.Get(p, "last_advanced_backup") == Some(lastAdvanced)
  {
    DistinctKeys();
    var p1 := PyDict.Set(props, "description", description);
    var p2 := PyDict.Set(p1, "name", name);
    var p3 := PyDict.Set(p2, "segment_id", sid);
    var p4 := PyDict.Set(p3, "thing_id", id);
    var p5 := PyDict.Set(p4, "timezone", JStr(Timezone));
    var p6 := PyDict.Set(p5, "datastreams", streams);
    var p7 := PyDict.Set(p6, "last_data_backup", lastData);
    var p8 := PyDict.Set(p7, "last_advanced_backup", lastAdvanced);
    assert PyDict.Get(p8, "last_data_backup") == PyDict.Get(p7, "last_data_backup");
    assert PyDict.Get(p8, "datastreams") == PyDict.Get(p7, "datastreams") == PyDict.Get(p6, "datastreams");
    assert PyDict.Get(p8, "timezone") == PyDict.Get(p7, "timezone") == PyDict.Get(p6, "timezone") == PyDict.Get(p5, "timezone");
    assert PyDict.Get(p8, "thing_id") == PyDict.Get(p7, "thing_id") == PyDict.Get(p6, "thing_id") == PyDict.Get(p5, "thing_id") == PyDict.Get(p4, "thing_id");
    assert PyDict.Get(p8, "segment_id") == PyDict.Get(p7, "segment_id") == PyDict.Get(p6, "segment_id") == PyDict.Get(p5, "segment_id") == PyDict.Get(p4, "segment_id") == PyDict.Get(p3, "segment_id");
    assert PyDict.Get(p8, "name") == PyDict.Get(p7, "name") == PyDict.Get(p6, "name") == PyDict.Get(p5, "name") == PyDict.Get(p4, "name") == PyDict.Get(p3, "name") == PyDict.Get(p2, "name");
    assert PyDict.Get(p8, "description") == PyDict.Get(p7, "description") == PyDict.Get(p6, "description") == PyDict.Get(p5, "description") == PyDict.Get(p4, "description") == PyDict.Get(p3, "description") == PyDict.Get(p2, "description") == PyDict.Get(p1, "description");
  }

  /** Every other property of the station is kept. */
  lemma OverlayKeeps(props: Props, description: Json, name: Json, sid: Json, id: Json, streams: Json, lastData: Json, lastAdvanced: Json, k: string)
    requires k !in ["description", "name", "segment_id", "thing_id", "timezone", "datastreams", "last_data_backup", "last_advanced_backup"]
    ensures PyDict.Get(Overlay(props, description, name, sid, id, streams, lastData, lastAdvanced), k) == PyDict.Get(props, k)
  {
  }

  /** The feature of a station is identified by its `mq_id15` and carries its datastreams. */
  lemma FeatureIdentified(t: Thing, stored: Osm.Stored)
    requires HasMq(t)
    ensures PyDict.Get(FeatureOf(t, stored).properties, "segment_id") == PyDict.Get(t.props, "mq_id15")
    ensures PyDict.Get(FeatureOf(t, stored).properties, "thing_id") == Some(t.id)
    ensures PyDict.Get(FeatureOf(t, stored).properties, "datastreams") == Some(NestedJson(Nested(t.datastreams)))
  {
    var sid := PyDict.Get(t.props, "mq_id15").value;
    OverlaySets(t.props, t.description.GetOr(JStr("")), t.name.GetOr(JStr("")), sid, t.id, NestedJson(Nested(t.datastreams)),
                EcocounterPositions.Carried(stored, sid, "last_data_backup"),
                EcocounterPositions.Carried(stored, sid, "last_advanced_backup"));
  }

  /** A stored feature's backup stamps survive into the new feature of its station. */
  lemma StampsCarried(t: Thing, features: seq<Feature>, i: nat, key: string)
    requires HasMq(t) && EcocounterPositions.AllHaveSegmentId(features) && i < |features|
    requires PyDict.Get(features[i].properties, "segment_id") == PyDict.Get(t.props, "mq_id15")
    requires forall j :: i < j < |features| ==> PyDict.Get(features[j].properties, "segment_id") != PyDict.Get(t.props, "mq_id15")
    requires key == "last_data_backup" || key == "last_advanced_backup"
    ensures PyDict.Get(FeatureOf(t, EcocounterPositions.StoredProps(features)).properties, key) ==
      Some(PyDict.Get(features[i].properties, key).GetOr(JNull))
  {
    var pairs := seq(|features|, j requires 0 <= j < |features| =>
      (PyDict.Get(features[j].properties, "segment_id").value, features[j].properties));
    PyDict.GetLastAt(pairs, i);
    var stored := EcocounterPositions.StoredProps(features);
    var sid := PyDict.Get(t.props, "mq_id15").value;
    OverlaySets(t.props, t.description.GetOr(JStr("")), t.name.GetOr(JStr("")), sid, t.id, NestedJson(Nested(t.datastreams)),
                EcocounterPositions.Carried(stored, sid, "last_data_backup"),
                EcocounterPositions.Carried(stored, sid, "last_advanced_backup"));
  }

  // ---------------------------------------------------------------------
  // `main`
  // ---------------------------------------------------------------------

  /** The feature of a station, given the stored properties. */
  function Build(stored: Osm.Stored): Thing -> Feature {
    (t: Thing) => FeatureOf(t, stored)
  }

  /** The features of the stations with an `mq_id15`, in order, before `add_osm`. */
  function FeaturesOf(things: seq<Thing>, stored: Osm.Stored): seq<Feature> {
    Seqs.Map(Seqs.Filter(things, HasMq), Build(stored))
  }

  /** The feature carries, as its `segment_id`, the `mq_id15` of one of the stations. */
  predicate IdentifiedBy(f: Feature, things: seq<Thing>) {
    exists t :: t in things && HasMq(t) && PyDict.Get(f.properties, "segment_id") == PyDict.Get(t.props, "mq_id15")
  }

  /** Every feature written is identified by the `mq_id15` of a station that has one. */
  lemma FeaturesIdentified(things: seq<Thing>, stored: Osm.Stored)
    ensures forall f :: f in FeaturesOf(things, stored) ==> IdentifiedBy(f, things)
  {
    var sites := Seqs.Filter(things, HasMq);
    var fs := FeaturesOf(things, stored);
    Seqs.FilterMembers(things, HasMq);
    forall i | 0 <= i < |fs| ensures IdentifiedBy(fs[i], things) {
      var t := sites[i];
      assert fs[i] == FeatureOf(t, stored);
      FeatureIdentified(t, stored);
    }
  }

  /** `add_osm` keeps every feature identified by its station. */
  lemma WrittenIdentified(things: seq<Thing>, stored: Osm.Stored, env: Osm.Env)
    requires Osm.ValidEdges(env)
    ensures forall f :: f in Osm.AddOsmAll(FeaturesOf(things, stored), stored, Osm.DefaultMaxUpdates, env) ==> IdentifiedBy(f, things)
  {
    var fs := FeaturesOf(things, stored);
    var written := Osm.AddOsmAll(fs, stored, Osm.DefaultMaxUpdates, env);
    FeaturesIdentified(things, stored);
    Osm.AddOsmKeeps(fs, stored, Osm.DefaultMaxUpdates, env);
    forall i | 0 <= i < |written| ensures IdentifiedBy(written[i], things) {
      assert fs[i] in fs;
      assert PyDict.Get(written[i].properties, "segment_id") == PyDict.Get(fs[i].properties, "segment_id");
    }
  }

  /** The file written: its creation stamp and its features. */
  datatype TeuFile = TeuFile(createdAt: string, features: seq<Feature>)

  /**
    `main`: nothing when the stored file is under 30 minutes old and not
    cleared; otherwise one feature per station with an `mq_id15`, carrying
    the backup stamps of the stored file, with their edges added by
    `add_osm` at its default cap.
  */
  method Run(file: Option<Common.StoredJson<Feature>>, clear: bool, things: seq<Thing>, env: Osm.Env)
    returns (out: Option<TeuFile>)
    requires file.Some? ==> EcocounterPositions.AllHaveSegmentId(file.value.features.GetOr([]))
    requires Osm.ValidEdges(env)
    ensures out.None? <==> Common.LoadJsonIfStale(file, clear, env.now).None?
    ensures out.Some? ==>
      var previous := Common.LoadJsonIfStale(file, clear, env.now).value;
      EcocounterPositions.AllHaveSegmentId(previous) &&
      var stored := EcocounterPositions.StoredProps(previous);
      out.value == TeuFile(env.nowIso, Osm.AddOsmAll(FeaturesOf(things, stored), stored, Osm.DefaultMaxUpdates, env))
  {
    var previous := Common.LoadJsonIfStale(file, clear, env.now);
    if previous.None? {
      return None;
    }
    var stored := EcocounterPositions.StoredProps(previous.value);
    var features := StationFeatures(things, stored);
    features := Osm.AddOsm(features, stored, Osm.DefaultMaxUpdates, env);
    out := Some(TeuFile(env.nowIso, features));
  }

  /** The loop over the stations. */
  method StationFeatures(things: seq<Thing>, stored: Osm.Stored) returns (features: seq<Feature>)
    ensures features == FeaturesOf(things, stored)
  {
    features := [];
    for i := 0 to |things|
      invariant features == FeaturesOf(things[..i], stored)
    {
      Seqs.FilterMapStep(things, i, HasMq, Build(stored));
      var t := things[i];
      if !HasMq(t) {
        continue;
      }
      var n := NestDatastreams(t.datastreams);
      features := features + [FeatureFrom(t, n, stored)];
    }
    assert things[..|things|] == things;
  }
}
