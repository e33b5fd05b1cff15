/**
  `maut_positions.py`: one GeoJSON feature per toll section of the latest
  date, with the section's attributes, its polyline as GeoJSON and the
  backup stamp of the previous run, followed by `add_osm`.  The two ArcGIS
  queries (the latest date and the sections of the bounding box) are
  parameters: the run receives the sections.
*/
module MautPositions {
  import opened Wrappers
  import opened Json
  import PyDict
  import Seqs
  import Common
  import Osm
  import EcocounterPositions

  const Timezone: string := "Europe/Berlin"

  // ---------------------------------------------------------------------
  // Esri polylines
  // ---------------------------------------------------------------------

  /**
    `_esri_polyline_to_geojson`: `None` without paths, a LineString for a
    single path, a MultiLineString for several.  `geom` is `JNull` when the
    section has no geometry.
  */
  function PolylineToGeoJson(geom: Json): Json {
    var paths := Field(geom, "paths").GetOr(JArr([]));
    if !Truthy(paths) then JNull
    else if paths.JArr? && |paths.items| == 1 then JObj([("type", JStr("LineString")), ("coordinates", paths.items[0])])
    else JObj([("type", JStr("MultiLineString")), ("coordinates", paths)])
  }

  /** The paths a GeoJSON line geometry describes: one for a LineString, each of a MultiLineString's. */
  function PathsOf(g: Json): Option<seq<Json>> {
    var kind := Field(g, "type");
    var coordinates := Field(g, "coordinates");
    if kind == Some(JStr("LineString")) && coordinates.Some? then Some([coordinates.value])
    else if kind == Some(JStr("MultiLineString")) && coordinates.Some? && coordinates.value.JArr? then Some(coordinates.value.items)
    else None
  }

  /**
    No geometry comes out exactly when there are no paths; a LineString
    exactly when there is one path; otherwise a MultiLineString; and the
    GeoJSON holds exactly the paths, in order.
  */
  lemma PolylineRoundTrip(geom: Json)
    ensures var paths := Field(geom, "paths").GetOr(JArr([]));
      (PolylineToGeoJson(geom) == JNull <==> !Truthy(paths)) &&
      (paths.JArr? && paths.items != [] ==> PathsOf(PolylineToGeoJson(geom)) == Some(paths.items)) &&
      (Field(PolylineToGeoJson(geom), "type") == Some(JStr("LineString")) <==> paths.JArr? && |paths.items| == 1)
  {
    var paths := Field(geom, "paths").GetOr(JArr([]));
    if Truthy(paths) && paths.JArr? && |paths.items| == 1 {
      assert paths.items == [paths.items[0]];
      TwoFields(JStr("LineString"), paths.items[0]);
    } else if Truthy(paths) {
      TwoFields(JStr("MultiLineString"), paths);
      assert JStr("MultiLineString") != JStr("LineString") by {
        assert "MultiLineString"[0] != "LineString"[0];
      }
    }
  }

  /** The two members of a GeoJSON geometry. */
  lemma TwoFields(kind: Json, coordinates: Json)
    ensures Field(JObj([("type", kind), ("coordinates", coordinates)]), "type") == Some(kind)
    ensures Field(JObj([("type", kind), ("coordinates", coordinates)]), "coordinates") == Some(coordinates)
  {
    var d := [("type", kind), ("coordinates", coordinates)];
    assert "type" != "coordinates" by {
      assert |"type"| != |"coordinates"|;
    }
    PyDict.GetAt(d, 0);
    PyDict.GetAt(d, 1);
  }

  // ---------------------------------------------------------------------
  // The feature of a section
  // ---------------------------------------------------------------------

  /** One ArcGIS record: its `attributes` and its `geometry` (`JNull` when missing). */
  datatype Section = Section(attributes: Props, geometry: Json)

  /** `attrs["abschnitt_id"]`; `main` is only given sections that have one. */
  function SectionId(s: Section): Json {
    PyDict.Get(s.attributes, "abschnitt_id").GetOr(JNull)
  }

  /** The attributes copied, in order, with `.get`. */
  const Copied: seq<string> := ["bundesfernstrasse", "laenge_km", "strassen_typ", "mautknoten_name_von", "mautknoten_name_nach"]

  /** The keys of the `properties` literal of `main`, in order. */
  const Keys: seq<string> := ["segment_id", "bundesfernstrasse", "laenge_km", "strassen_typ",
                              "mautknoten_name_von", "mautknoten_name_nach", "timezone", "last_data_backup"]

  /** The `properties` literal of `main`. */
  function Literal(sid: Json, road: Json, length: Json, kind: Json, from: Json, to: Json, stamp: Json): (r: Props)
    ensures PyDict.Keys(r) == Keys
  {
    [("segment_id", sid), ("bundesfernstrasse", road), ("laenge_km", length), ("strassen_typ", kind),
     ("mautknoten_name_von", from), ("mautknoten_name_nach", to), ("timezone", JStr(Timezone)), ("last_data_backup", stamp)]
  }

  /** `attrs.get(key)` */
  function Attr(s: Section, key: string): Json {
    PyDict.Get(s.attributes, key).GetOr(JNull)
  }

  /** The new `properties` dict of a section. */
  function SectionProps(s: Section, stored: Osm.Stored): Props {
    var sid := SectionId(s);
    Literal(sid, Attr(s, "bundesfernstrasse"), Attr(s, "laenge_km"), Attr(s, "strassen_typ"),
            Attr(s, "mautknoten_name_von"), Attr(s, "mautknoten_name_nach"),
            EcocounterPositions.Carried(stored, sid, "last_data_backup"))
  }

  function SectionFeature(s: Section, stored: Osm.Stored): Feature
  {
    Feature(SectionProps(s, stored), PolylineToGeoJson(s.geometry))
  }

  /** No key of the literal repeats: their lengths differ. */
  lemma KeysDistinct()
    ensures forall i, j :: 0 <= i < j < |Keys| ==> Keys[i] != Keys[j]
  {
    var lengths := [10, 17, 9, 12, 19, 20, 8, 16];
    assert forall i :: 0 <= i < |Keys| ==> |Keys[i]| == lengths[i];
  }

  /** Every key of the literal holds its value, and there is no other key. */
  lemma LiteralGet(sid: Json, road: Json, length: Json, kind: Json, from: Json, to: Json, stamp: Json, k: string)
    ensures PyDict.Get(Literal(sid, road, length, kind, from, to, stamp), k) ==
      if k == "segment_id" then Some(sid)
      else if k == "bundesfernstrasse" then Some(road)
      else if k == "laenge_km" then Some(length)
      else if k == "strassen_typ" then Some(kind)
      else if k == "mautknoten_name_von" then Some(from)
      else if k == "mautknoten_name_nach" then Some(to)
      else if k == "timezone" then Some(JStr(Timezone))
      else if k == "last_data_backup" then Some(stamp)
      else None
  {
    var p := Literal(sid, road, length, kind, from, to, stamp);
    KeysDistinct();
    assert PyDict.Valid(p) by {
      forall i, j | 0 <= i < j < |p| ensures p[i].0 != p[j].0 {
        assert p[i].0 == Keys[i] && p[j].0 == Keys[j];
      }
    }
    if k in Keys {
      var i :| 0 <= i < |Keys| && Keys[i] == k;
      PyDict.GetAt(p, i);
    }
  }

  /**
    The properties are identified by the section's `abschnitt_id`, copy
    its attributes (`None` when missing) and hold the stamp stored for
    that id; there is no other key.
  */
  lemma SectionPropsRules(s: Section, stored: Osm.Stored, k: string)
    ensures PyDict.Get(SectionProps(s, stored), "segment_id") == Some(SectionId(s))
    ensures k in Copied ==> PyDict.Get(SectionProps(s, stored), k) == Some(PyDict.Get(s.attributes, k).GetOr(JNull))
    ensures PyDict.Get(SectionProps(s, stored), "timezone") == Some(JStr(Timezone))
    ensures PyDict.Get(SectionProps(s, stored), "last_data_backup") == Some(EcocounterPositions.Carried(stored, SectionId(s), "last_data_backup"))
    ensures k !in Copied && k !in ["segment_id", "timezone", "last_data_backup"] ==> PyDict.Get(SectionProps(s, stored), k).None?
  {
    SectionPropsFixed(s, stored);
    SectionPropsKey(s, stored, k);
  }

  /** The three keys `main` sets itself. */
  lemma SectionPropsFixed(s: Section, stored: Osm.Stored)
    ensures PyDict.Get(SectionProps(s, stored), "segment_id") == Some(SectionId(s))
    ensures PyDict.Get(SectionProps(s, stored), "timezone") == Some(JStr(Timezone))
    ensures PyDict.Get(SectionProps(s, stored), "last_data_backup") == Some(EcocounterPositions.Carried(stored, SectionId(s), "last_data_backup"))
  {
    var sid := SectionId(s);
    var stamp := EcocounterPositions.Carried(stored, sid, "last_data_backup");
    var road, length, kind := Attr(s, "bundesfernstrasse"), Attr(s, "laenge_km"), Attr(s, "strassen_typ");
    var from, to := Attr(s, "mautknoten_name_von"), Attr(s, "mautknoten_name_nach");
    LiteralGet(sid, road, length, kind, from, to, stamp, "segment_id");
    LiteralGet(sid, road, length, kind, from, to, stamp, "timezone");
    LiteralGet(sid, road, length, kind, from, to, stamp, "last_data_backup");
  }

  /** Any other key: a copied attribute, or absent. */
  lemma SectionPropsKey(s: Section, stored: Osm.Stored, k: string)
    ensures k in Copied ==> PyDict.Get(SectionProps(s, stored), k) == Some(PyDict.Get(s.attributes, k).GetOr(JNull))
    ensures k !in Copied && k !in ["segment_id", "timezone", "last_data_backup"] ==> PyDict.Get(SectionProps(s, stored), k).None?
  {
    if k in Copied {
      SectionPropsCopied(s, stored, k);
    } else if k !in ["segment_id", "timezone", "last_data_backup"] {
      SectionPropsAbsent(s, stored, k);
    }
  }

  /** A key of `Copied` holds the attribute of that name. */
  lemma SectionPropsCopied(s: Section, stored: Osm.Stored, k: string)
    requires k in Copied
    ensures PyDict.Get(SectionProps(s, stored), k) == Some(PyDict.Get(s.attributes, k).GetOr(JNull))
  {
    var sid := SectionId(s);
    var stamp := EcocounterPositions.Carried(stored, sid, "last_data_backup");
    var road, length, kind := Attr(s, "bundesfernstrasse"), Attr(s, "laenge_km"), Attr(s, "strassen_typ");
    var from, to := Attr(s, "mautknoten_name_von"), Attr(s, "mautknoten_name_nach");
    LiteralGet(sid, road, length, kind, from, to, stamp, k);
  }

  /** A key neither copied nor set by `main` is absent. */
  lemma SectionPropsAbsent(s: Section, stored: Osm.Stored, k: string)
    requires k !in Copied && k !in ["segment_id", "timezone", "last_data_backup"]
    ensures PyDict.Get(SectionProps(s, stored), k).None?
  {
    var sid := SectionId(s);
    var stamp := EcocounterPositions.Carried(stored, sid, "last_data_backup");
    var road, length, kind := Attr(s, "bundesfernstrasse"), Attr(s, "laenge_km"), Attr(s, "strassen_typ");
    var from, to := Attr(s, "mautknoten_name_von"), Attr(s, "mautknoten_name_nach");
    LiteralGet(sid, road, length, kind, from, to, stamp, k);
  }

  /** A stored feature's `last_data_backup` survives into the new feature of its section. */
  lemma StampCarried(s: Section, features: seq<Feature>, i: nat)
    requires EcocounterPositions.AllHaveSegmentId(features) && i < |features|
    requires PyDict.Get(features[i].properties, "segment_id") == Some(SectionId(s))
    requires forall j :: i < j < |features| ==> PyDict.Get(features[j].properties, "segment_id") != Some(SectionId(s))
    ensures PyDict.Get(SectionFeature(s, EcocounterPositions.StoredProps(features)).properties, "last_data_backup") ==
      Some(PyDict.Get(features[i].properties, "last_data_backup").GetOr(JNull))
  {
    var pairs := seq(|features|, j requires 0 <= j < |features| =>
      (PyDict.Get(features[j].properties, "segment_id").value, features[j].properties));
    PyDict.GetLastAt(pairs, i);
    SectionPropsRules(s, EcocounterPositions.StoredProps(features), "timezone");
  }

  // ---------------------------------------------------------------------
  // `main`
  // ---------------------------------------------------------------------

  /** Every section has an `abschnitt_id` (`attrs["abschnitt_id"]` raises otherwise). */
  predicate AllIdentified(raw: seq<Section>) {
    forall i :: 0 <= i < |raw| ==> PyDict.HasKey(raw[i].attributes, "abschnitt_id")
  }

  /** The features of the sections, in order, before `add_osm`. */
  function FeaturesOf(raw: seq<Section>, stored: Osm.Stored): (r: seq<Feature>)
    ensures |r| == |raw|
  {
    Seqs.Map(raw, Build(stored))
  }

  /** The feature of a section, given the stored properties. */
  function Build(stored: Osm.Stored): Section -> Feature {
    (s: Section) => SectionFeature(s, stored)
  }

  /** What `main` does: nothing when the file is fresh, nothing when no section came back, else it writes. */
  datatype Outcome = Fresh | NoSections | Written(createdAt: string, features: seq<Feature>)

  /**
    `main`: nothing when the stored file is under 30 minutes old and not
    cleared, nothing written without sections; otherwise one feature per
    section, in order, with the edges `add_osm` adds at its default cap.
  */
  method Run(file: Option<Common.StoredJson<Feature>>, clear: bool, raw: seq<Section>, env: Osm.Env)
    returns (out: Outcome)
    requires file.Some? ==> EcocounterPositions.AllHaveSegmentId(file.value.features.GetOr([]))
    requires AllIdentified(raw) && Osm.ValidEdges(env)
    ensures out.Fresh? <==> Common.LoadJsonIfStale(file, clear, env.now).None?
    ensures out.NoSections? <==> !out.Fresh? && raw == []
    ensures out.Written? ==>
      var previous := Common.LoadJsonIfStale(file, clear, env.now).value;
      EcocounterPositions.AllHaveSegmentId(previous) &&
      var stored := EcocounterPositions.StoredProps(previous);
      out == Written(env.nowIso, Osm.AddOsmAll(FeaturesOf(raw, stored), stored, Osm.DefaultMaxUpdates, env))
  {
    var previous := Common.LoadJsonIfStale(file, clear, env.now);
    if previous.None? {
      return Fresh;
    }
    var stored := EcocounterPositions.StoredProps(previous.value);
    if raw == [] {
      return NoSections;
    }
    var features := SectionFeatures(raw, stored);
    features := Osm.AddOsm(features, stored, Osm.DefaultMaxUpdates, env);
    out := Written(env.nowIso, features);
  }

  /** The loop over the sections. */
  method SectionFeatures(raw: seq<Section>, stored: Osm.Stored) returns (features: seq<Feature>)
    ensures features == FeaturesOf(raw, stored)
  {
    features := [];
    for i := 0 to |raw|
      invariant features == FeaturesOf(raw[..i], stored)
    {
      Seqs.MapStep(raw, i, Build(stored));
      features := features + [SectionFeature(raw[i], stored)];
    }
    assert raw[..|raw|] == raw;
  }

  /** The file holds one feature per section, in order, each identified by its section and with its section's geometry. */
  lemma WrittenSections(raw: seq<Section>, stored: Osm.Stored, env: Osm.Env)
    requires Osm.ValidEdges(env)
    ensures var written := Osm.AddOsmAll(FeaturesOf(raw, stored), stored, Osm.DefaultMaxUpdates, env);
      |written| == |raw| &&
      forall i :: 0 <= i < |raw| ==>
        PyDict.Get(written[i].properties, "segment_id") == Some(SectionId(raw[i])) &&
        written[i].geometry == PolylineToGeoJson(raw[i].geometry)
  {
    var fs := FeaturesOf(raw, stored);
    Osm.AddOsmKeeps(fs, stored, Osm.DefaultMaxUpdates, env);
    forall i | 0 <= i < |raw| ensures PyDict.Get(fs[i].properties, "segment_id") == Some(SectionId(raw[i])) {
      SectionPropsRules(raw[i], stored, "timezone");
    }
  }
}
