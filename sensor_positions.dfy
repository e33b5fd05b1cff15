/**
  `sensor_positions.py` of the backend: the segment file of the Telraam
  segments in the bounding box.  `update_props` refreshes the properties of
  the segments in increasing id order, keeping a known segment as it was
  when its properties are under a day old or when the run has used up its
  budget of fetches; segments that left the box are kept at the end.
  `main` then lets `add_osm` attach the OpenStreetMap edges.
*/
module SensorPositions {
  import opened Wrappers
  import opened Json
  import PyDict
  import Sorting
  import Common
  import Osm

  /** A segment's properties are fetched again after one day, in seconds. */
  const RefreshSeconds: int := 24 * 60 * 60

  /** The segments of the previous file, by segment id. */
  type Segments = PyDict.Dict<int, Feature>

  /**
    The clock and the services: `now` in seconds and as ISO text, `instant`
    the seconds of an ISO date, `fetch(id)` the features the segment request
    returns (none when the reply has no `features`), `findEdge` the
    OpenStreetMap lookup of `add_osm`.
  */
  datatype Env = Env(now: int, nowIso: string, instant: string -> int, fetch: int -> seq<Feature>, findEdge: Json -> Props)

  function OsmEnv(env: Env): Osm.Env {
    Osm.Env(env.now, env.nowIso, env.instant, env.findEdge)
  }

  function IntLe(a: int, b: int): bool {
    a <= b
  }

  lemma IntOrder()
    ensures Sorting.TotalPreorder(IntLe) && Sorting.Antisymmetric(IntLe)
  {
  }

  /** `sorted(bbox_segments)`: the ids of the box, once each, in increasing order. */
  function SortedIds(bbox: seq<int>): (r: seq<int>)
    ensures forall i, j :: 0 <= i < j < |r| ==> r[i] < r[j]
    ensures forall x :: x in r <==> x in bbox
  {
    IntOrder();
    var r := Sorting.SortedSet(bbox, IntLe);
    assert forall i, j :: 0 <= i < j < |r| ==> r[i] < r[j] by {
      forall i, j | 0 <= i < j < |r| ensures r[i] < r[j] {
        assert IntLe(r[i], r[j]) && r[i] != r[j];
      }
    }
    r
  }

  // ---------------------------------------------------------------------
  // `update_props`
  // ---------------------------------------------------------------------

  /**
    `parse_utc_dict(properties, "last_prop_fetch") > now - 1 day`; a missing
    stamp reads as 1970.  An empty or `"NaT"` stamp, which `parse_utc` turns
    into `None`, makes the comparison raise a `TypeError` in the script;
    here it reads as not recent.
  */
  predicate Recent(segment: Feature, env: Env) {
    match Common.ParseUtcDict(Common.Stamps(segment.properties), "last_prop_fetch")
    case Some(Iso(text)) => env.instant(text) > env.now - RefreshSeconds
    case _ => false
  }

  /** Whether a segment is kept as it was: it is known, and the budget is used up or it is recent. */
  predicate Kept(sid: int, count: int, stored: Segments, maxUpdates: int, env: Env) {
    var known := PyDict.Get(stored, sid);
    known.Some? && (count >= maxUpdates || Recent(known.value, env))
  }

  /** `{"segment_id": segment_id, "last_prop_fetch": now.isoformat()}` */
  function Defaults(sid: int, nowIso: string): Props {
    [("segment_id", JInt(sid)), ("last_prop_fetch", JStr(nowIso))]
  }

  lemma DefaultsGet(sid: int, nowIso: string)
    ensures PyDict.Get(Defaults(sid, nowIso), "segment_id") == Some(JInt(sid))
    ensures PyDict.Get(Defaults(sid, nowIso), "last_prop_fetch") == Some(JStr(nowIso))
    ensures forall k :: k != "segment_id" && k != "last_prop_fetch" ==> PyDict.Get(Defaults(sid, nowIso), k) == None
  {
    var base := Defaults(sid, nowIso);
    assert |base[0].0| == 10 && |base[1].0| == 15;
    assert PyDict.Valid(base);
    PyDict.GetAt(base, 0);
    PyDict.GetAt(base, 1);
    forall k | k != "segment_id" && k != "last_prop_fetch" ensures PyDict.Get(base, k) == None {
      assert !PyDict.HasKey(base, k);
    }
  }

  /**
    The fetched properties over the defaults, `{...} | segment["properties"]`:
    the fetched values win, and `segment_id` and `last_prop_fetch` default
    to the id and to now.
  */
  function Merged(sid: int, fetched: Feature, env: Env): (r: Props)
    ensures PyDict.Get(r, "segment_id") ==
      (if PyDict.HasKey(fetched.properties, "segment_id") then PyDict.GetLast(fetched.properties, "segment_id") else Some(JInt(sid)))
    ensures PyDict.Get(r, "last_prop_fetch") ==
      (if PyDict.HasKey(fetched.properties, "last_prop_fetch") then PyDict.GetLast(fetched.properties, "last_prop_fetch") else Some(JStr(env.nowIso)))
    ensures forall k :: k != "segment_id" && k != "last_prop_fetch" ==> PyDict.Get(r, k) == PyDict.GetLast(fetched.properties, k)
  {
    DefaultsGet(sid, env.nowIso);
    PyDict.Union(Defaults(sid, env.nowIso), fetched.properties)
  }

  /** The `osm` entry of the stored segment with this id, if any. */
  function StoredOsm(sid: int, stored: Segments): Option<Json> {
    var known := PyDict.Get(stored, sid);
    if known.Some? then PyDict.Get(known.value.properties, "osm") else None
  }

  /**
    A fetched segment: the fetched geometry and the merged properties,
    except that a stored `osm` entry is carried over.
  */
  function Refreshed(sid: int, fetched: Feature, stored: Segments, env: Env): (r: Feature)
    ensures r.geometry == fetched.geometry
    ensures PyDict.Get(r.properties, "osm") ==
      if StoredOsm(sid, stored).Some? then StoredOsm(sid, stored) else PyDict.Get(Merged(sid, fetched, env), "osm")
    ensures forall k :: k != "osm" ==> PyDict.Get(r.properties, k) == PyDict.Get(Merged(sid, fetched, env), k)
  {
    var props := Merged(sid, fetched, env);
    var osm := StoredOsm(sid, stored);
    Feature(if osm.Some? then PyDict.Set(props, "osm", osm.value) else props, fetched.geometry)
  }

  /** What the loop over the ids has built: the fetches made and the segments so far. */
  datatype Acc = Acc(count: int, segments: seq<Feature>)

  /** The loop body for one id. */
  function Step(acc: Acc, sid: int, stored: Segments, maxUpdates: int, env: Env): Acc {
    if Kept(sid, acc.count, stored, maxUpdates, env) then Acc(acc.count, acc.segments + [PyDict.Get(stored, sid).value])
    else
      var fetched := env.fetch(sid);
      Acc(acc.count + 1, acc.segments + if fetched == [] then [] else [Refreshed(sid, fetched[0], stored, env)])
  }

  /** The loop over `ids`, in their order. */
  function Fold(ids: seq<int>, stored: Segments, maxUpdates: int, env: Env): Acc {
    if ids == [] then Acc(0, [])
    else Step(Fold(ids[..|ids| - 1], stored, maxUpdates, env), ids[|ids| - 1], stored, maxUpdates, env)
  }

  /** The number of ids without a stored segment. */
  function Unknown(ids: seq<int>, stored: Segments): nat {
    if ids == [] then 0
    else Unknown(ids[..|ids| - 1], stored) + if PyDict.HasKey(stored, ids[|ids| - 1]) then 0 else 1
  }

  function Max0(n: int): nat {
    if n < 0 then 0 else n
  }

  /**
    Every unknown id costs a fetch, and known ones are fetched only while the
    budget lasts: the fetches number at least the unknown ids and at most the
    budget more than them.
  */
  lemma {:induction false} FetchBudget(ids: seq<int>, stored: Segments, maxUpdates: int, env: Env)
    ensures Unknown(ids, stored) <= Fold(ids, stored, maxUpdates, env).count <= Max0(maxUpdates) + Unknown(ids, stored)
  {
    if ids != [] {
      FetchBudget(ids[..|ids| - 1], stored, maxUpdates, env);
    }
  }

  /** The segments only grow, one id adding at most one. */
  lemma {:induction false} FoldGrows(ids: seq<int>, stored: Segments, maxUpdates: int, env: Env, j: nat)
    requires j <= |ids|
    ensures var small, big := Fold(ids[..j], stored, maxUpdates, env).segments, Fold(ids, stored, maxUpdates, env).segments;
      |small| <= |big| && big[..|small|] == small
    ensures |Fold(ids, stored, maxUpdates, env).segments| <= |ids|
    decreases |ids|
  {
    if ids != [] {
      var init := ids[..|ids| - 1];
      if j < |ids| {
        assert ids[..j] == init[..j];
        FoldGrows(init, stored, maxUpdates, env, j);
      } else {
        assert ids[..j] == ids;
        FoldGrows(init, stored, maxUpdates, env, |init|);
        assert init[..|init|] == init;
      }
    }
  }

  /** A known segment whose properties are under a day old comes out unchanged. */
  lemma {:induction false} RecentKept(ids: seq<int>, stored: Segments, maxUpdates: int, env: Env, sid: int)
    requires sid in ids && PyDict.Get(stored, sid).Some? && Recent(PyDict.Get(stored, sid).value, env)
    ensures PyDict.Get(stored, sid).value in Fold(ids, stored, maxUpdates, env).segments
  {
    var init := ids[..|ids| - 1];
    var last := ids[|ids| - 1];
    var acc := Fold(init, stored, maxUpdates, env);
    assert Fold(ids, stored, maxUpdates, env) == Step(acc, last, stored, maxUpdates, env);
    if last != sid {
      assert ids == init + [last];
      RecentKept(init, stored, maxUpdates, env, sid);
      StepExtends(acc, last, stored, maxUpdates, env);
    } else {
      assert Kept(sid, acc.count, stored, maxUpdates, env);
    }
  }

  /** One step keeps the segments built so far in front. */
  lemma StepExtends(acc: Acc, sid: int, stored: Segments, maxUpdates: int, env: Env)
    ensures var r := Step(acc, sid, stored, maxUpdates, env).segments; |acc.segments| <= |r| && r[..|acc.segments|] == acc.segments
  {
  }

  /** A segment not stored before is fetched whatever the budget, and comes out when the reply has it. */
  lemma {:induction false} UnknownFetched(ids: seq<int>, stored: Segments, maxUpdates: int, env: Env, sid: int)
    requires sid in ids && !PyDict.HasKey(stored, sid) && env.fetch(sid) != []
    ensures Refreshed(sid, env.fetch(sid)[0], stored, env) in Fold(ids, stored, maxUpdates, env).segments
  {
    var init := ids[..|ids| - 1];
    if ids[|ids| - 1] != sid {
      assert ids == init + [ids[|ids| - 1]];
      UnknownFetched(init, stored, maxUpdates, env, sid);
    }
  }

  /** Where an output segment comes from: the stored segment of that id, or the first feature fetched for it. */
  predicate From(x: Feature, sid: int, stored: Segments, env: Env) {
    (PyDict.Get(stored, sid).Some? && x == PyDict.Get(stored, sid).value) ||
    (env.fetch(sid) != [] && x == Refreshed(sid, env.fetch(sid)[0], stored, env))
  }

  /** Every segment of the loop is a stored or a refreshed segment of one of the ids; a fetch without features adds none. */
  lemma {:induction false} FoldSources(ids: seq<int>, stored: Segments, maxUpdates: int, env: Env)
    ensures forall x :: x in Fold(ids, stored, maxUpdates, env).segments ==> exists sid :: sid in ids && From(x, sid, stored, env)
  {
    if ids != [] {
      var init := ids[..|ids| - 1];
      var last := ids[|ids| - 1];
      FoldSources(init, stored, maxUpdates, env);
      forall x | x in Fold(ids, stored, maxUpdates, env).segments ensures exists sid :: sid in ids && From(x, sid, stored, env) {
        if x in Fold(init, stored, maxUpdates, env).segments {
          var sid :| sid in init && From(x, sid, stored, env);
          assert sid in ids;
        } else {
          assert From(x, last, stored, env);
        }
      }
    }
  }

  /**
    `set(old_data.keys()) - bbox_segments`, each with its stored segment; the
    script appends them in the set's iteration order, taken here to be the
    stored order.
  */
  function Invalid(stored: Segments, bbox: seq<int>): seq<Feature> {
    if stored == [] then []
    else
      var last := stored[|stored| - 1];
      Invalid(stored[..|stored| - 1], bbox) + if last.0 in bbox then [] else [last.1]
  }

  /** The segments that left the box are exactly the stored ones whose id is not in it. */
  lemma {:induction false} InvalidExactly(stored: Segments, bbox: seq<int>)
    ensures forall x :: x in Invalid(stored, bbox) <==> exists p :: p in stored && p.0 !in bbox && p.1 == x
  {
    if stored != [] {
      var init := stored[..|stored| - 1];
      InvalidExactly(init, bbox);
      assert stored == init + [stored[|stored| - 1]];
      assert forall p :: p in stored <==> p in init || p == stored[|stored| - 1];
    }
  }

  lemma FoldStep(ids: seq<int>, i: nat, stored: Segments, maxUpdates: int, env: Env)
    requires i < |ids|
    ensures Fold(ids[..i + 1], stored, maxUpdates, env) == Step(Fold(ids[..i], stored, maxUpdates, env), ids[i], stored, maxUpdates, env)
  {
    assert ids[..i + 1][..i] == ids[..i];
  }

  /** The body of `update_props`' loop for one id. */
  method Visit(sid: int, count: int, segments: seq<Feature>, stored: Segments, maxUpdates: int, env: Env)
    returns (count': int, segments': seq<Feature>)
    ensures Acc(count', segments') == Step(Acc(count, segments), sid, stored, maxUpdates, env)
  {
    count', segments' := count, segments;
    var known := PyDict.Get(stored, sid);
    if known.Some? && (count >= maxUpdates || Recent(known.value, env)) {
      segments' := segments' + [known.value];
      return;
    }
    count' := count' + 1;
    var fetched := env.fetch(sid);
    if fetched == [] {
      return;
    }
    segments' := segments' + [Refreshed(sid, fetched[0], stored, env)];
  }

  /**
    `update_props`: the segments of the box in increasing id order, each kept
    or refreshed, then the stored segments that left the box.
  */
  method UpdateProps(bbox: seq<int>, stored: Segments, maxUpdates: int, env: Env) returns (r: seq<Feature>)
    ensures r == Fold(SortedIds(bbox), stored, maxUpdates, env).segments + Invalid(stored, bbox)
  {
    var ids := SortedIds(bbox);
    var count := 0;
    r := [];
    for i := 0 to |ids|
      invariant Fold(ids[..i], stored, maxUpdates, env) == Acc(count, r)
    {
      FoldStep(ids, i, stored, maxUpdates, env);
      count, r := Visit(ids[i], count, r, stored, maxUpdates, env);
    }
    assert ids[..|ids|] == ids;
    ghost var kept := r;
    for j := 0 to |stored|
      invariant r == kept + Invalid(stored[..j], bbox)
    {
      assert stored[..j + 1][..j] == stored[..j];
      if stored[j].0 !in bbox {
        r := r + [stored[j].1];
      }
    }
    assert stored[..|stored|] == stored;
  }

  // ---------------------------------------------------------------------
  // `main`
  // ---------------------------------------------------------------------

  /** Every feature of the previous file has an integer `segment_id`. */
  predicate AllIdentified(features: seq<Feature>) {
    forall i :: 0 <= i < |features| ==> Osm.SegmentId(features[i]).Some?
  }

  /** `{s["properties"]["segment_id"]: s for s in old_features}`: the last feature of an id wins. */
  function OldData(features: seq<Feature>): (r: Segments)
    requires AllIdentified(features)
    ensures PyDict.Valid(r)
  {
    PyDict.FromPairs(seq(|features|, i requires 0 <= i < |features| => (Osm.SegmentId(features[i]).value, features[i])))
  }

  /** `{sid: f["properties"] for sid, f in old_data.items()}`, keyed by the JSON integer `sid`. */
  function StoredProps(stored: Segments): (r: Osm.Stored)
    ensures forall sid :: PyDict.Get(r, JInt(sid)) == if PyDict.Get(stored, sid).Some? then Some(PyDict.Get(stored, sid).value.properties) else None
    ensures forall k :: PyDict.HasKey(r, k) ==> k.JInt?
  {
    var r := seq(|stored|, i requires 0 <= i < |stored| => (JInt(stored[i].0), stored[i].1.properties));
    forall sid ensures PyDict.Get(r, JInt(sid)) == if PyDict.Get(stored, sid).Some? then Some(PyDict.Get(stored, sid).value.properties) else None {
      var a := PyDict.KeyIndex(r, JInt(sid));
      var b := PyDict.KeyIndex(stored, sid);
      if b.Some? {
        assert r[b.value].0 == JInt(sid);
      }
      if a.Some? {
        assert stored[a.value].0 == sid;
      }
    }
    r
  }

  /** The file `main` writes: its creation date and its features. */
  datatype SegmentFile = SegmentFile(createdAt: string, features: seq<Feature>)

  /**
    `main`: nothing when the previous file is under 30 minutes old;
    otherwise the segments of the box, refreshed, with their edges added.
  */
  method Run(file: Option<Common.StoredJson<Feature>>, clear: bool, bbox: seq<int>, maxUpdates: int, env: Env)
    returns (out: Option<SegmentFile>)
    requires file.Some? && file.value.features.Some? ==> AllIdentified(file.value.features.value)
    requires Osm.ValidEdges(OsmEnv(env))
    ensures out.None? <==> Common.LoadJsonIfStale(file, clear, env.now).None?
    ensures out.Some? ==>
      var stored := OldData(Common.LoadJsonIfStale(file, clear, env.now).value);
      var segments := Fold(SortedIds(bbox), stored, maxUpdates, env).segments + Invalid(stored, bbox);
      out.value == SegmentFile(env.nowIso, Osm.AddOsmAll(segments, StoredProps(stored), Osm.DefaultMaxUpdates, OsmEnv(env)))
  {
    var oldFeatures := Common.LoadJsonIfStale(file, clear, env.now);
    if oldFeatures.None? {
      return None;
    }
    var stored := OldData(oldFeatures.value);
    var segments := UpdateProps(bbox, stored, maxUpdates, env);
    var features := Osm.AddOsm(segments, StoredProps(stored), Osm.DefaultMaxUpdates, OsmEnv(env));
    out := Some(SegmentFile(env.nowIso, features));
  }
}
