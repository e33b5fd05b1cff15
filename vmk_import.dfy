/**
  `vmk_import.py`: the Berlin traffic volume map (average weekday counts
  per road edge) as one GeoJSON file per year.  The three WFS layers (KFZ,
  LKW, Rad) are read page by page; every KFZ edge becomes a feature with
  the LKW and Rad counts of its `link_id`, followed by the Rad edges the KFZ
  layer lacks.  The WFS server is a parameter: a layer either answers with
  an error status, with an OGC exception, or serves its features.
*/
module VmkImport {
  import opened Wrappers
  import opened Json
  import PyDict
  import Seqs
  import Common

  /** Features requested per page. */
  const Page: nat := 1000

  /** A file younger than 30 days is left alone. */
  const RefreshSeconds: int := 30 * 24 * 60 * 60

  // ---------------------------------------------------------------------
  // `_fetch_layer`
  // ---------------------------------------------------------------------

  /** What the WFS server holds for a layer. */
  datatype Layer = Failed(code: int) | Exception | Served(features: seq<Feature>)

  /** One answer: the status, whether the JSON holds `exceptions`, and the `features` of the page. */
  datatype Reply = Reply(code: int, exceptions: bool, batch: seq<Feature>)

  /** The answer to a `GetFeature` request with `count=1000` and `startIndex=start`. */
  function Serve(layer: Layer, start: nat): Reply {
    match layer
    case Failed(code) => Reply(code, false, [])
    case Exception => Reply(200, true, [])
    case Served(all) =>
      var lo := if start < |all| then start else |all|;
      var hi := if start + Page < |all| then start + Page else |all|;
      Reply(200, false, all[lo..hi])
  }

  /** One request: the failing status, the exception, or the next page of at most `Page` features. */
  lemma ServeReply(layer: Layer, start: nat)
    requires layer.Served? ==> start <= |layer.features|
    ensures var reply := Serve(layer, start);
      (layer.Failed? ==> reply.code == layer.code && !reply.exceptions && reply.batch == []) &&
      (layer.Exception? ==> reply.code == 200 && reply.exceptions) &&
      (layer.Served? ==>
        reply.code == 200 && !reply.exceptions &&
        (start + Page < |layer.features| ==> reply.batch == layer.features[start..start + Page]) &&
        (start + Page >= |layer.features| ==> reply.batch == layer.features[start..]))
  {
  }

  /**
    What reading a layer amounts to: nothing for a missing layer (400, 404
    or an OGC exception), an error for any other failing status
    (`raise_for_status`), otherwise every feature of the layer.
  */
  function Fetched(layer: Layer): Option<seq<Feature>> {
    match layer
    case Failed(code) => if code == 400 || code == 404 || code < 400 then Some([]) else None
    case Exception => Some([])
    case Served(all) => Some(all)
  }

  /** The `startIndex` of every request for a layer of `n` features: one more than the full pages. */
  function Starts(n: nat): (r: seq<nat>)
    ensures |r| == n / Page + 1
  {
    seq(n / Page + 1, i requires 0 <= i <= n / Page => i * Page)
  }

  /**
    `_fetch_layer`: pages are requested from `startIndex` 0 on, each
    starting where the previous one ended, until a page comes back short.
    The layer's features come back exactly once each, in order; `starts`
    are the start indexes requested.
  */
  method FetchLayer(layer: Layer) returns (r: Option<seq<Feature>>, starts: seq<nat>)
    ensures r == Fetched(layer)
    ensures layer.Served? ==> starts == Starts(|layer.features|)
    ensures !layer.Served? ==> starts == [0]
  {
    var features: seq<Feature> := [];
    var start: nat := 0;
    ghost var pages: nat := 0;
    starts := [];
    while true
      invariant start == pages * Page
      invariant starts == seq(pages, i requires 0 <= i < pages => i * Page)
      invariant layer.Served? ==> start <= |layer.features| && features == layer.features[..start]
      invariant !layer.Served? ==> pages == 0 && features == []
      decreases if layer.Served? then |layer.features| - start else 0
    {
      var reply := Serve(layer, start);
      ServeReply(layer, start);
      starts := starts + [start];
      if reply.code == 400 || reply.code == 404 {
        return Some([]), starts;
      }
      if reply.code >= 400 {
        return None, starts;
      }
      if reply.exceptions {
        return Some([]), starts;
      }
      var batch := reply.batch;
      features := features + batch;
      if |batch| < Page {
        if layer.Served? {
          var n := |layer.features|;
          assert features == layer.features;
          Common.DivMod(n, Page, pages, n - start);
        } else {
          assert layer.Failed? && features == [];
        }
        return Some(features), starts;
      }
      start := start + |batch|;
      pages := pages + 1;
    }
  }

  // ---------------------------------------------------------------------
  // The properties of an edge
  // ---------------------------------------------------------------------

  /** `f["properties"]["link_id"]` */
  function LinkId(f: Feature): Json {
    PyDict.Get(f.properties, "link_id").GetOr(JNull)
  }

  /** `p.get(key)` */
  function Prop(f: Feature, key: string): Json {
    PyDict.Get(f.properties, key).GetOr(JNull)
  }

  /** The keys `_props` sets before the extra ones, in order. */
  const BaseKeys: seq<string> := ["segment_id", "str_name", "str_bez", "bezirk", "stadtteil", "strklasse", "strklasse1", "strklasse2"]

  /** The literal part of `_props`: `segment_id` from `link_id`, the street attributes with `.get`. */
  function Base(f: Feature): (r: Props)
    ensures PyDict.Keys(r) == BaseKeys
  {
    [("segment_id", LinkId(f))] + seq(|BaseKeys| - 1, i requires 0 <= i < |BaseKeys| - 1 => (BaseKeys[i + 1], Prop(f, BaseKeys[i + 1])))
  }

  /** `_props(raw, extra)`: the literal, then the extra keys over it. */
  function PropsOf(f: Feature, extra: Props): Props {
    PyDict.Union(Base(f), extra)
  }

  /** No key of the literal repeats: their lengths or last letters differ. */
  lemma BaseKeysDistinct()
    ensures forall i, j :: 0 <= i < j < |BaseKeys| ==> BaseKeys[i] != BaseKeys[j]
  {
    var lengths := [10, 8, 7, 6, 9, 9, 10, 10];
    assert forall i :: 0 <= i < |BaseKeys| ==> |BaseKeys[i]| == lengths[i];
    var last := ['d', 'e', 'z', 'k', 'l', 'e', '1', '2'];
    assert forall i :: 0 <= i < |BaseKeys| ==> BaseKeys[i][|BaseKeys[i]| - 1] == last[i];
  }

  /**
    `_props`: an extra key wins; otherwise `segment_id` is the `link_id`,
    a street attribute is copied (`None` when missing), and no other key is
    set.
  */
  lemma PropsOfGet(f: Feature, extra: Props, k: string)
    ensures PyDict.Get(PropsOf(f, extra), k) ==
      if PyDict.HasKey(extra, k) then PyDict.GetLast(extra, k)
      else if k == "segment_id" then Some(LinkId(f))
      else if k in BaseKeys then Some(Prop(f, k))
      else None
  {
    var b := Base(f);
    BaseKeysDistinct();
    assert PyDict.Valid(b) by {
      forall i, j | 0 <= i < j < |b| ensures b[i].0 != b[j].0 {
        assert b[i].0 == BaseKeys[i] && b[j].0 == BaseKeys[j];
      }
    }
    if k in BaseKeys {
      var i :| 0 <= i < |BaseKeys| && BaseKeys[i] == k;
      PyDict.GetAt(b, i);
    }
  }

  /** The extra keys of an edge: its three counts. */
  function Counts(kfz: Json, lkw: Json, rad: Json): Props {
    [("dtvw_kfz", kfz), ("dtvw_lkw", lkw), ("dtvw_rad", rad)]
  }

  lemma CountsGet(kfz: Json, lkw: Json, rad: Json)
    ensures PyDict.HasKey(Counts(kfz, lkw, rad), "dtvw_kfz") && PyDict.GetLast(Counts(kfz, lkw, rad), "dtvw_kfz") == Some(kfz)
    ensures PyDict.HasKey(Counts(kfz, lkw, rad), "dtvw_lkw") && PyDict.GetLast(Counts(kfz, lkw, rad), "dtvw_lkw") == Some(lkw)
    ensures PyDict.HasKey(Counts(kfz, lkw, rad), "dtvw_rad") && PyDict.GetLast(Counts(kfz, lkw, rad), "dtvw_rad") == Some(rad)
  {
    var c := Counts(kfz, lkw, rad);
    assert "dtvw_kfz"[5] != "dtvw_lkw"[5] && "dtvw_kfz"[5] != "dtvw_rad"[5] && "dtvw_lkw"[5] != "dtvw_rad"[5];
    assert c[0].0 == "dtvw_kfz" && c[1].0 == "dtvw_lkw" && c[2].0 == "dtvw_rad";
    PyDict.GetLastAt(c, 0);
    PyDict.GetLastAt(c, 1);
    PyDict.GetLastAt(c, 2);
  }

  // ---------------------------------------------------------------------
  // The features of the file
  // ---------------------------------------------------------------------

  /** The pairs `(link_id, value of key)` of the features, in order. */
  function LinkPairs(features: seq<Feature>, key: string): seq<(Json, Json)> {
    seq(|features|, i requires 0 <= i < |features| => (LinkId(features[i]), Prop(features[i], key)))
  }

  /** `{f["properties"]["link_id"]: f["properties"][key] for f in features}` */
  function ByLink(features: seq<Feature>, key: string): (r: PyDict.Dict<Json, Json>)
    ensures PyDict.Valid(r)
    ensures forall id :: PyDict.Get(r, id) == PyDict.GetLast(LinkPairs(features, key), id)
  {
    PyDict.FromPairs(LinkPairs(features, key))
  }

  /** `{f["properties"]["link_id"]: f for f in rad_features}` */
  function FeaturesByLink(features: seq<Feature>): (r: PyDict.Dict<Json, Feature>)
    ensures PyDict.Valid(r)
  {
    PyDict.FromPairs(seq(|features|, i requires 0 <= i < |features| => (LinkId(features[i]), features[i])))
  }

  /** The feature of a KFZ edge: its geometry, and its counts from the three layers by `link_id`. */
  function KfzFeature(f: Feature, lkwByLink: PyDict.Dict<Json, Json>, radByLink: PyDict.Dict<Json, Json>): Feature {
    var id := LinkId(f);
    Feature(PropsOf(f, Counts(Prop(f, "dtvw_kfz"), PyDict.Get(lkwByLink, id).GetOr(JNull), PyDict.Get(radByLink, id).GetOr(JNull))), f.geometry)
  }

  /** The feature of a Rad-only edge: no KFZ or LKW count. */
  function RadFeature(entry: (Json, Feature)): Feature {
    var f := entry.1;
    Feature(PropsOf(f, Counts(JNull, JNull, Prop(f, "dtvw_rad"))), f.geometry)
  }

  function KfzIds(kfz: seq<Feature>): set<Json> {
    set i | 0 <= i < |kfz| :: LinkId(kfz[i])
  }

  function BuildKfz(lkwByLink: PyDict.Dict<Json, Json>, radByLink: PyDict.Dict<Json, Json>): Feature -> Feature {
    (f: Feature) => KfzFeature(f, lkwByLink, radByLink)
  }

  function RadOnly(ids: set<Json>): ((Json, Feature)) -> bool {
    (entry: (Json, Feature)) => entry.0 !in ids
  }

  /** The features of the file: every KFZ edge in order, then the Rad edges not in the KFZ layer. */
  function GeoFeatures(kfz: seq<Feature>, lkw: seq<Feature>, rad: seq<Feature>): seq<Feature> {
    Seqs.Map(kfz, BuildKfz(ByLink(lkw, "dtvw_lkw"), ByLink(rad, "dtvw_rad"))) +
    Seqs.Map(Seqs.Filter(FeaturesByLink(rad), RadOnly(KfzIds(kfz))), RadFeature)
  }

  /** The two loops of `main` that build the features. */
  method BuildFeatures(kfz: seq<Feature>, lkw: seq<Feature>, rad: seq<Feature>) returns (features: seq<Feature>)
    ensures features == GeoFeatures(kfz, lkw, rad)
  {
    var kfzIds;
    features, kfzIds := KfzEdges(kfz, ByLink(lkw, "dtvw_lkw"), ByLink(rad, "dtvw_rad"));
    var radOnly := RadEdges(FeaturesByLink(rad), kfzIds);
    features := features + radOnly;
  }

  /** The loop over the KFZ edges, collecting their `link_id`s. */
  method KfzEdges(kfz: seq<Feature>, lkwByLink: PyDict.Dict<Json, Json>, radByLink: PyDict.Dict<Json, Json>)
    returns (features: seq<Feature>, kfzIds: set<Json>)
    ensures features == Seqs.Map(kfz, BuildKfz(lkwByLink, radByLink))
    ensures kfzIds == KfzIds(kfz)
  {
    kfzIds := {};
    features := [];
    for i := 0 to |kfz|
      invariant features == Seqs.Map(kfz[..i], BuildKfz(lkwByLink, radByLink))
      invariant kfzIds == KfzIds(kfz[..i])
    {
      Seqs.MapStep(kfz, i, BuildKfz(lkwByLink, radByLink));
      KfzIdsStep(kfz, i);
      kfzIds := kfzIds + {LinkId(kfz[i])};
      features := features + [BuildKfz(lkwByLink, radByLink)(kfz[i])];
    }
    assert kfz[..|kfz|] == kfz;
  }

  lemma KfzIdsStep(kfz: seq<Feature>, i: nat)
    requires i < |kfz|
    ensures KfzIds(kfz[..i + 1]) == KfzIds(kfz[..i]) + {LinkId(kfz[i])}
  {
    var a, b := kfz[..i + 1], kfz[..i];
    forall x | x in KfzIds(a) ensures x in KfzIds(b) + {LinkId(kfz[i])} {
      var j :| 0 <= j < |a| && LinkId(a[j]) == x;
      if j < i {
        assert a[j] == b[j];
      }
    }
    forall x | x in KfzIds(b) ensures x in KfzIds(a) {
      var j :| 0 <= j < |b| && LinkId(b[j]) == x;
      assert a[j] == b[j];
    }
    assert LinkId(a[i]) in KfzIds(a);
  }

  /** The loop over the Rad edges by `link_id`, skipping those of the KFZ layer. */
  method RadEdges(radFeatByLink: PyDict.Dict<Json, Feature>, kfzIds: set<Json>) returns (features: seq<Feature>)
    ensures features == Seqs.Map(Seqs.Filter(radFeatByLink, RadOnly(kfzIds)), RadFeature)
  {
    features := [];
    for i := 0 to |radFeatByLink|
      invariant features == Seqs.Map(Seqs.Filter(radFeatByLink[..i], RadOnly(kfzIds)), RadFeature)
    {
      Seqs.FilterMapStep(radFeatByLink, i, RadOnly(kfzIds), RadFeature);
      var entry := radFeatByLink[i];
      if entry.0 in kfzIds {
        continue;
      }
      features := features + [RadFeature(entry)];
    }
    assert radFeatByLink[..|radFeatByLink|] == radFeatByLink;
  }

  // ---------------------------------------------------------------------
  // What the features say
  // ---------------------------------------------------------------------

  /** A KFZ feature: its geometry, `segment_id` its `link_id`, and its counts by `link_id`. */
  lemma KfzFeatureCounts(f: Feature, lkwByLink: PyDict.Dict<Json, Json>, radByLink: PyDict.Dict<Json, Json>)
    ensures var g := KfzFeature(f, lkwByLink, radByLink);
      g.geometry == f.geometry &&
      PyDict.Get(g.properties, "segment_id") == Some(LinkId(f)) &&
      PyDict.Get(g.properties, "dtvw_kfz") == Some(Prop(f, "dtvw_kfz")) &&
      PyDict.Get(g.properties, "dtvw_lkw") == Some(PyDict.Get(lkwByLink, LinkId(f)).GetOr(JNull)) &&
      PyDict.Get(g.properties, "dtvw_rad") == Some(PyDict.Get(radByLink, LinkId(f)).GetOr(JNull))
  {
    var kfz, lkw, rad := Prop(f, "dtvw_kfz"), PyDict.Get(lkwByLink, LinkId(f)).GetOr(JNull), PyDict.Get(radByLink, LinkId(f)).GetOr(JNull);
    var c := Counts(kfz, lkw, rad);
    CountsGet(kfz, lkw, rad);
    assert !PyDict.HasKey(c, "segment_id") by {
      assert forall j :: 0 <= j < |c| ==> |c[j].0| == 8;
    }
    PropsOfGet(f, c, "segment_id");
    PropsOfGet(f, c, "dtvw_kfz");
    PropsOfGet(f, c, "dtvw_lkw");
    PropsOfGet(f, c, "dtvw_rad");
  }

  /**
    The file starts with one feature per KFZ edge, in order: its geometry,
    `segment_id` its `link_id`, and the LKW and Rad counts of the last
    feature with that `link_id` in those layers (`None` when a layer lacks
    it).
  */
  lemma KfzFeatures(kfz: seq<Feature>, lkw: seq<Feature>, rad: seq<Feature>, i: nat)
    requires i < |kfz|
    ensures |GeoFeatures(kfz, lkw, rad)| >= |kfz|
    ensures var f := GeoFeatures(kfz, lkw, rad)[i];
      var id := LinkId(kfz[i]);
      f.geometry == kfz[i].geometry &&
      PyDict.Get(f.properties, "segment_id") == Some(id) &&
      PyDict.Get(f.properties, "dtvw_kfz") == Some(Prop(kfz[i], "dtvw_kfz")) &&
      PyDict.Get(f.properties, "dtvw_lkw") == Some(PyDict.GetLast(LinkPairs(lkw, "dtvw_lkw"), id).GetOr(JNull)) &&
      PyDict.Get(f.properties, "dtvw_rad") == Some(PyDict.GetLast(LinkPairs(rad, "dtvw_rad"), id).GetOr(JNull))
  {
    var lkwByLink := ByLink(lkw, "dtvw_lkw");
    var radByLink := ByLink(rad, "dtvw_rad");
    GeoFeaturesHead(kfz, lkw, rad, i);
    KfzFeatureCounts(kfz[i], lkwByLink, radByLink);
  }

  lemma GeoFeaturesHead(kfz: seq<Feature>, lkw: seq<Feature>, rad: seq<Feature>, i: nat)
    requires i < |kfz|
    ensures |GeoFeatures(kfz, lkw, rad)| >= |kfz|
    ensures GeoFeatures(kfz, lkw, rad)[i] == KfzFeature(kfz[i], ByLink(lkw, "dtvw_lkw"), ByLink(rad, "dtvw_rad"))
  {
    var head := Seqs.Map(kfz, BuildKfz(ByLink(lkw, "dtvw_lkw"), ByLink(rad, "dtvw_rad")));
    var tail := Seqs.Map(Seqs.Filter(FeaturesByLink(rad), RadOnly(KfzIds(kfz))), RadFeature);
    assert GeoFeatures(kfz, lkw, rad) == head + tail;
    assert (head + tail)[i] == head[i];
  }

  /** A Rad-only feature has no KFZ or LKW count, and its own Rad count. */
  lemma RadFeatureCounts(entry: (Json, Feature))
    ensures PyDict.Get(RadFeature(entry).properties, "dtvw_kfz") == Some(JNull)
    ensures PyDict.Get(RadFeature(entry).properties, "dtvw_lkw") == Some(JNull)
    ensures PyDict.Get(RadFeature(entry).properties, "dtvw_rad") == Some(Prop(entry.1, "dtvw_rad"))
    ensures RadFeature(entry).geometry == entry.1.geometry
  {
    var c := Counts(JNull, JNull, Prop(entry.1, "dtvw_rad"));
    CountsGet(JNull, JNull, Prop(entry.1, "dtvw_rad"));
    PropsOfGet(entry.1, c, "dtvw_kfz");
    PropsOfGet(entry.1, c, "dtvw_lkw");
    PropsOfGet(entry.1, c, "dtvw_rad");
  }

  /** The Rad layer by `link_id` has a key exactly for each `link_id` in the layer. */
  lemma ByLinkKeys(rad: seq<Feature>, id: Json)
    ensures PyDict.HasKey(FeaturesByLink(rad), id) <==> exists j :: 0 <= j < |rad| && LinkId(rad[j]) == id
  {
    var pairs := seq(|rad|, i requires 0 <= i < |rad| => (LinkId(rad[i]), rad[i]));
    var byLink := FeaturesByLink(rad);
    assert PyDict.Get(byLink, id) == PyDict.GetLast(pairs, id);
    if PyDict.HasKey(pairs, id) {
      var k :| 0 <= k < |pairs| && pairs[k].0 == id;
      assert LinkId(rad[k]) == id;
    }
    if exists j :: 0 <= j < |rad| && LinkId(rad[j]) == id {
      var j :| 0 <= j < |rad| && LinkId(rad[j]) == id;
      assert pairs[j].0 == id;
    }
  }

  /** The entries kept from a dict are those of its keys outside `ids`. */
  lemma KeptKeys(byLink: PyDict.Dict<Json, Feature>, ids: set<Json>, id: Json)
    ensures var tail := Seqs.Filter(byLink, RadOnly(ids));
      (exists j :: 0 <= j < |tail| && tail[j].0 == id) ==> PyDict.HasKey(byLink, id) && id !in ids
    ensures var tail := Seqs.Filter(byLink, RadOnly(ids));
      PyDict.HasKey(byLink, id) && id !in ids ==> exists j :: 0 <= j < |tail| && tail[j].0 == id
  {
    var p := RadOnly(ids);
    var tail := Seqs.Filter(byLink, p);
    Seqs.FilterMembers(byLink, p);
    if exists j :: 0 <= j < |tail| && tail[j].0 == id {
      var j :| 0 <= j < |tail| && tail[j].0 == id;
      assert tail[j] in byLink && p(tail[j]);
      var m :| 0 <= m < |byLink| && byLink[m] == tail[j];
      assert byLink[m].0 == id && id !in ids;
      assert PyDict.HasKey(byLink, id);
    }
    if PyDict.HasKey(byLink, id) && id !in ids {
      var m :| 0 <= m < |byLink| && byLink[m].0 == id;
      assert p(byLink[m]);
      assert byLink[m] in tail;
      var j :| 0 <= j < |tail| && tail[j] == byLink[m];
      assert tail[j].0 == id;
      assert exists i :: 0 <= i < |tail| && tail[i].0 == id;
      assert tail == Seqs.Filter(byLink, RadOnly(ids));
    }
  }

  /**
    After the KFZ edges come the Rad edges: one for each `link_id` of the
    Rad layer that the KFZ layer lacks, none for any other.
  */
  lemma RadOnlyEdges(kfz: seq<Feature>, rad: seq<Feature>, id: Json)
    ensures var tail := Seqs.Filter(FeaturesByLink(rad), RadOnly(KfzIds(kfz)));
      ((exists j :: 0 <= j < |tail| && tail[j].0 == id) <==>
        (exists j :: 0 <= j < |rad| && LinkId(rad[j]) == id) && id !in KfzIds(kfz))
  {
    ByLinkKeys(rad, id);
    KeptKeys(FeaturesByLink(rad), KfzIds(kfz), id);
  }

  // ---------------------------------------------------------------------
  // `main`
  // ---------------------------------------------------------------------

  /** The fields `main` reads with `[...]`, which raise when missing. */
  predicate WellFormed(kfz: Layer, lkw: Layer, rad: Layer) {
    (kfz.Served? ==> forall i :: 0 <= i < |kfz.features| ==> PyDict.HasKey(kfz.features[i].properties, "link_id")) &&
    (lkw.Served? ==> forall i :: 0 <= i < |lkw.features| ==>
      PyDict.HasKey(lkw.features[i].properties, "link_id") && PyDict.HasKey(lkw.features[i].properties, "dtvw_lkw")) &&
    (rad.Served? ==> forall i :: 0 <= i < |rad.features| ==>
      PyDict.HasKey(rad.features[i].properties, "link_id") && PyDict.HasKey(rad.features[i].properties, "dtvw_rad"))
  }

  /**
    `now - created_at < 30 days` for an existing file that is not being
    cleared, with a missing stamp read as the start of 1970, as the default
    `"1970-01-01"` evidently means.
  */
  predicate Fresh(existing: Option<Option<int>>, clear: bool, now: int) {
    !clear && existing.Some? && now - existing.value.GetOr(0) < RefreshSeconds
  }

  /**
    The age test as written: the default `"1970-01-01"` parses to a datetime
    without time zone, and subtracting it from the time-zone-aware current
    time raises a `TypeError`, shown as `None`.
  */
  function FreshAsWritten(existing: Option<Option<int>>, clear: bool, now: int): Option<bool> {
    if clear || existing.None? then Some(false)
    else if existing.value.None? then None
    else Some(now - existing.value.value < RefreshSeconds)
  }

  /** The two agree except on a file without `created_at`, where the test as written raises. */
  lemma FreshAsWrittenAgrees(existing: Option<Option<int>>, clear: bool, now: int)
    ensures FreshAsWritten(existing, clear, now).None? <==> !clear && existing == Some(None)
    ensures FreshAsWritten(existing, clear, now).Some? ==> FreshAsWritten(existing, clear, now).value == Fresh(existing, clear, now)
  {
  }

  /** What `main` does: skip a fresh file, fail on an HTTP error, give up without KFZ edges, or write. */
  datatype Outcome = Skipped | Raised | NoKfz | Written(year: int, createdAt: string, features: seq<Feature>)

  /**
    `main`: nothing when the file is under 30 days old (unless cleared);
    the HTTP error of a layer propagates; nothing is written without KFZ
    edges; otherwise the file of the year holds the KFZ and Rad-only edges.
  */
  method Run(year: int, existing: Option<Option<int>>, clear: bool, kfz: Layer, lkw: Layer, rad: Layer, now: int, nowIso: string)
    returns (out: Outcome)
    requires WellFormed(kfz, lkw, rad)
    ensures out.Skipped? <==> Fresh(existing, clear, now)
    ensures out.Raised? <==>
      !Fresh(existing, clear, now) && (Fetched(kfz).None? || Fetched(lkw).None? || Fetched(rad).None?)
    ensures out.NoKfz? <==>
      !Fresh(existing, clear, now) && Fetched(kfz) == Some([]) && Fetched(lkw).Some? && Fetched(rad).Some?
    ensures out.Written? ==>
      Fetched(kfz).Some? && Fetched(kfz).value != [] && Fetched(lkw).Some? && Fetched(rad).Some? &&
      out == Written(year, nowIso, GeoFeatures(Fetched(kfz).value, Fetched(lkw).value, Fetched(rad).value))
  {
    if Fresh(existing, clear, now) {
      return Skipped;
    }
    var kfzFeatures, _ := FetchLayer(kfz);
    if kfzFeatures.None? {
      return Raised;
    }
    var lkwFeatures, _ := FetchLayer(lkw);
    if lkwFeatures.None? {
      return Raised;
    }
    var radFeatures, _ := FetchLayer(rad);
    if radFeatures.None? {
      return Raised;
    }
    if kfzFeatures.value == [] {
      return NoKfz;
    }
    var features := BuildFeatures(kfzFeatures.value, lkwFeatures.value, radFeatures.value);
    out := Written(year, nowIso, features);
  }
}
