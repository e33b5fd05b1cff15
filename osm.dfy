/**
  `osm.py` of the backend: `add_osm` gives every segment feature the
  OpenStreetMap edge it lies on.  A stored edge with a name, fetched within
  30 days, is reused; otherwise the edge is looked up, at most
  `max_updates` times per run.  The lookup itself (`find_edge`, with its
  street graph, spatial index and reverse geocoding) is a parameter.
*/
module Osm {
  import opened Wrappers
  import opened Json
  import PyDict
  import Common

  /** How long a stored edge is reused: 30 days, in seconds. */
  const CacheSeconds: int := 30 * 24 * 60 * 60

  /** `add_osm`'s default cap on lookups. */
  const DefaultMaxUpdates: int := 2

  /**
    The clock and the lookup: `now` in seconds and as ISO text, `instant` the
    seconds of an ISO date, `findEdge(coords)` the edge `find_edge` returns.
  */
  datatype Env = Env(now: int, nowIso: string, instant: string -> int, findEdge: Json -> Props)

  /** `find_edge` returns a dict, so no key repeats. */
  ghost predicate ValidEdges(env: Env) {
    forall coords :: PyDict.Valid(env.findEdge(coords))
  }

  /** `feature["properties"]["segment_id"]`, when it is an integer. */
  function SegmentId(f: Feature): Option<int> {
    var v := PyDict.Get(f.properties, "segment_id");
    if v.Some? && v.value.JInt? then Some(v.value.i) else None
  }

  /** The stored properties of the previous run, by `segment_id`. */
  type Stored = PyDict.Dict<Json, Props>

  /**
    `parse_utc_dict(osm_edge, "last_osm_fetch") > now - 30 days`.  An empty or
    `"NaT"` stamp makes the comparison raise a `TypeError` in the script;
    here it reads as not recent.
  */
  predicate Recent(edge: Props, env: Env) {
    match Common.ParseUtcDict(Common.Stamps(edge), "last_osm_fetch")
    case Some(Iso(text)) => env.instant(text) > env.now - CacheSeconds
    case _ => false
  }

  /** The stored edge of the feature's segment, when it has a name and is recent. */
  function Cached(f: Feature, stored: Stored, env: Env): Option<Json> {
    var sid := PyDict.Get(f.properties, "segment_id");
    var props := if sid.Some? then PyDict.Get(stored, sid.value) else None;
    var edge := if props.Some? then PyDict.Get(props.value, "osm") else None;
    if edge.Some? && edge.value.JObj? && PyDict.HasKey(edge.value.fields, "name") && Recent(edge.value.fields, env)
    then edge
    else None
  }

  /** The points looked up: `[coordinates]` of a Point, those of a LineString, else the first line's. */
  function Coords(geometry: Json): Json {
    var kind := Field(geometry, "type");
    var coordinates := Field(geometry, "coordinates").GetOr(JNull);
    if kind == Some(JStr("Point")) then JArr([coordinates])
    else if kind == Some(JStr("LineString")) then coordinates
    else if coordinates.JArr? && coordinates.items != [] then coordinates.items[0]
    else JNull
  }

  /** A freshly looked-up edge: stamped with `now`, without its geometry. */
  function FreshEdge(f: Feature, env: Env): Props
    requires ValidEdges(env)
  {
    var edge := PyDict.Set(env.findEdge(Coords(f.geometry)), "last_osm_fetch", JStr(env.nowIso));
    PyDict.Remove(edge, "geometry")
  }

  /** `feature["properties"]["osm"] = edge` */
  function WithOsm(f: Feature, edge: Json): Feature {
    Feature(PyDict.Set(f.properties, "osm", edge), f.geometry)
  }

  /** Whether the feature costs a lookup: no reusable edge, but a geometry. */
  predicate NeedsLookup(f: Feature, stored: Stored, env: Env) {
    Cached(f, stored, env).None? && Truthy(f.geometry)
  }

  /** One feature, as long as the cap is not reached. */
  function Handle(f: Feature, stored: Stored, env: Env): Feature
    requires ValidEdges(env)
  {
    var c := Cached(f, stored, env);
    if c.Some? then WithOsm(f, c.value)
    else if !Truthy(f.geometry) then f
    else WithOsm(f, JObj(FreshEdge(f, env)))
  }

  /**
    A feature with a reusable edge gets it; one without geometry is left
    alone; any other gets a looked-up edge stamped with `now` and without
    geometry.  Nothing but `osm` changes.
  */
  lemma HandleRules(f: Feature, stored: Stored, env: Env)
    requires ValidEdges(env)
    ensures Cached(f, stored, env).Some? ==> PyDict.Get(Handle(f, stored, env).properties, "osm") == Cached(f, stored, env)
    ensures Cached(f, stored, env).None? && !Truthy(f.geometry) ==> Handle(f, stored, env) == f
    ensures NeedsLookup(f, stored, env) ==>
      var edge := PyDict.Get(Handle(f, stored, env).properties, "osm");
      edge.Some? && edge.value.JObj? &&
      PyDict.Get(edge.value.fields, "last_osm_fetch") == Some(JStr(env.nowIso)) &&
      !PyDict.HasKey(edge.value.fields, "geometry")
    ensures Handle(f, stored, env).geometry == f.geometry
    ensures forall k :: k != "osm" ==> PyDict.Get(Handle(f, stored, env).properties, k) == PyDict.Get(f.properties, k)
  {
  }

  /** What the loop does with one feature: its new value and whether it cost a lookup. */
  datatype Visit = Visit(handled: Feature, lookup: bool)

  function VisitOf(f: Feature, stored: Stored, env: Env): Visit
    requires ValidEdges(env)
  {
    Visit(Handle(f, stored, env), NeedsLookup(f, stored, env))
  }

  /** The visit of every feature, as if there were no cap. */
  function Visits(features: seq<Feature>, stored: Stored, env: Env): (r: seq<Visit>)
    requires ValidEdges(env)
    ensures |r| == |features|
    ensures forall i :: 0 <= i < |features| ==> r[i] == VisitOf(features[i], stored, env)
  {
    seq(|features|, i requires 0 <= i < |features| => VisitOf(features[i], stored, env))
  }

  /**
    The loop of `add_osm` from some feature on, given each feature's visit,
    `count` lookups made so far: after the lookup that reaches the cap the
    remaining features stay as they are.
  */
  function Capped(features: seq<Feature>, visits: seq<Visit>, maxUpdates: int, count: int): seq<Feature>
    requires |visits| == |features|
    decreases |features|
  {
    if features == [] then []
    else
      var v := visits[0];
      [v.handled] +
      if v.lookup && count + 1 >= maxUpdates then features[1..]
      else Capped(features[1..], visits[1..], maxUpdates, if v.lookup then count + 1 else count)
  }

  /** `add_osm` on all features, no lookups made yet. */
  function AddOsmAll(features: seq<Feature>, stored: Stored, maxUpdates: int, env: Env): seq<Feature>
    requires ValidEdges(env)
  {
    Capped(features, Visits(features, stored, env), maxUpdates, 0)
  }

  /** One more feature of the loop, after the features `r` already handled. */
  lemma CappedStep(r: seq<Feature>, features: seq<Feature>, visits: seq<Visit>, i: int, maxUpdates: int, count: int)
    requires |visits| == |features| && 0 <= i < |features|
    ensures visits[i].lookup && count + 1 >= maxUpdates ==>
      r + Capped(features[i..], visits[i..], maxUpdates, count) == r + [visits[i].handled] + features[i + 1..]
    ensures !(visits[i].lookup && count + 1 >= maxUpdates) ==>
      r + Capped(features[i..], visits[i..], maxUpdates, count) ==
      r + [visits[i].handled] + Capped(features[i + 1..], visits[i + 1..], maxUpdates, if visits[i].lookup then count + 1 else count)
  {
    assert features[i..][0] == features[i] && features[i..][1..] == features[i + 1..];
    assert visits[i..][0] == visits[i] && visits[i..][1..] == visits[i + 1..];
    var h := [visits[i].handled];
    if visits[i].lookup && count + 1 >= maxUpdates {
      assert r + (h + features[i + 1..]) == r + h + features[i + 1..];
    } else {
      var rest := Capped(features[i + 1..], visits[i + 1..], maxUpdates, if visits[i].lookup then count + 1 else count);
      assert r + (h + rest) == r + h + rest;
    }
  }

  /** The number of visits that cost a lookup. */
  function Lookups(visits: seq<Visit>): nat {
    if visits == [] then 0
    else Lookups(visits[..|visits| - 1]) + (if visits[|visits| - 1].lookup then 1 else 0)
  }

  /** The lookups still allowed after `count`: at least the one that reaches the cap. */
  function Allowed(maxUpdates: int, count: int): int {
    if maxUpdates - count < 1 then 1 else maxUpdates - count
  }

  lemma {:induction false} LookupsFront(visits: seq<Visit>)
    requires visits != []
    ensures Lookups(visits) == (if visits[0].lookup then 1 else 0) + Lookups(visits[1..])
    decreases |visits|
  {
    if |visits| > 1 {
      LookupsFront(visits[..|visits| - 1]);
      assert visits[..|visits| - 1][1..] == visits[1..][..|visits[1..]| - 1];
      assert visits[..|visits| - 1][0] == visits[0];
    } else {
      assert visits[..0] == [] && visits[1..] == [];
    }
  }

  /**
    `r` is `features` with the first `k` replaced by their handled values,
    those `k` having cost `bound` lookups at most, and exactly `bound` when
    the loop stopped before the end.
  */
  predicate HandledUpTo(r: seq<Feature>, features: seq<Feature>, visits: seq<Visit>, k: int, bound: int)
    requires |visits| == |features|
  {
    |r| == |features| && 0 <= k <= |features| &&
    (forall i :: 0 <= i < k ==> r[i] == visits[i].handled) &&
    r[k..] == features[k..] &&
    Lookups(visits[..k]) <= bound &&
    (k < |features| ==> Lookups(visits[..k]) == bound)
  }

  /**
    The loop handles the features up to some point and leaves the rest as
    they are; it stops early only after its last allowed lookup, and never
    makes more than `max(1, max_updates - count)` of them.
  */
  lemma {:induction false} CappedPrefix(features: seq<Feature>, visits: seq<Visit>, maxUpdates: int, count: int)
    requires |visits| == |features|
    ensures exists k :: HandledUpTo(Capped(features, visits, maxUpdates, count), features, visits, k, Allowed(maxUpdates, count))
    decreases |features|
  {
    var r := Capped(features, visits, maxUpdates, count);
    var bound := Allowed(maxUpdates, count);
    if features == [] {
      assert Lookups(visits[..0]) == 0;
      assert HandledUpTo(r, features, visits, 0, bound);
    } else if visits[0].lookup && count + 1 >= maxUpdates {
      StopsHere(r, features, visits, bound);
    } else {
      var c := if visits[0].lookup then count + 1 else count;
      CappedPrefix(features[1..], visits[1..], maxUpdates, c);
      var tail := Capped(features[1..], visits[1..], maxUpdates, c);
      var k :| HandledUpTo(tail, features[1..], visits[1..], k, Allowed(maxUpdates, c));
      HandledCons(r, tail, features, visits, k, bound);
      assert HandledUpTo(r, features, visits, k + 1, bound);
    }
  }

  lemma StopsHere(r: seq<Feature>, features: seq<Feature>, visits: seq<Visit>, bound: int)
    requires |visits| == |features| && features != []
    requires r == [visits[0].handled] + features[1..]
    requires visits[0].lookup && bound == 1
    ensures HandledUpTo(r, features, visits, 1, bound)
  {
    LookupsFront(visits[..1]);
    assert visits[..1][1..] == [];
    assert r[1..] == features[1..];
  }

  lemma HandledCons(r: seq<Feature>, tail: seq<Feature>, features: seq<Feature>, visits: seq<Visit>, k: int, bound: int)
    requires |visits| == |features| && features != []
    requires r == [visits[0].handled] + tail
    requires HandledUpTo(tail, features[1..], visits[1..], k, bound - if visits[0].lookup then 1 else 0)
    ensures HandledUpTo(r, features, visits, k + 1, bound)
  {
    LookupsFront(visits[..k + 1]);
    assert visits[..k + 1][1..] == visits[1..][..k];
    assert visits[..k + 1][0] == visits[0];
    forall i | 0 <= i < k + 1 ensures r[i] == visits[i].handled {
      if i > 0 {
        assert r[i] == tail[i - 1] && visits[i] == visits[1..][i - 1];
      }
    }
    assert r[k + 1..] == tail[k..];
    assert features[k + 1..] == features[1..][k..];
  }

  /** `add_osm` changes nothing but the `osm` property of each feature, and no feature's geometry. */
  lemma AddOsmKeeps(features: seq<Feature>, stored: Stored, maxUpdates: int, env: Env)
    requires ValidEdges(env)
    ensures |AddOsmAll(features, stored, maxUpdates, env)| == |features|
    ensures forall i, k :: 0 <= i < |features| && k != "osm" ==>
      PyDict.Get(AddOsmAll(features, stored, maxUpdates, env)[i].properties, k) == PyDict.Get(features[i].properties, k)
    ensures forall i :: 0 <= i < |features| ==> AddOsmAll(features, stored, maxUpdates, env)[i].geometry == features[i].geometry
  {
    var visits := Visits(features, stored, env);
    var r := AddOsmAll(features, stored, maxUpdates, env);
    CappedPrefix(features, visits, maxUpdates, 0);
    var n :| HandledUpTo(r, features, visits, n, Allowed(maxUpdates, 0));
    forall i | 0 <= i < |features|
      ensures r[i].geometry == features[i].geometry
      ensures forall k :: k != "osm" ==> PyDict.Get(r[i].properties, k) == PyDict.Get(features[i].properties, k)
    {
      if i < n {
        HandleRules(features[i], stored, env);
      } else {
        assert r[i] == r[n..][i - n] == features[n..][i - n];
      }
    }
  }

  /** The body of `add_osm`'s loop for one feature, before the cap is checked. */
  method VisitFeature(f: Feature, stored: Stored, env: Env) returns (v: Visit)
    requires ValidEdges(env)
    ensures v == VisitOf(f, stored, env)
  {
    var c := Cached(f, stored, env);
    if c.Some? {
      v := Visit(WithOsm(f, c.value), false);
    } else if Truthy(f.geometry) {
      v := Visit(WithOsm(f, JObj(FreshEdge(f, env))), true);
    } else {
      v := Visit(f, false);
    }
  }

  /** `add_osm`: the features with their `osm` edges, as far as the cap allows. */
  method AddOsm(features: seq<Feature>, stored: Stored, maxUpdates: int, env: Env) returns (r: seq<Feature>)
    requires ValidEdges(env)
    ensures r == AddOsmAll(features, stored, maxUpdates, env)
  {
    ghost var visits := Visits(features, stored, env);
    ghost var total := Capped(features, visits, maxUpdates, 0);
    r := [];
    var count := 0;
    var i := 0;
    while i < |features|
      invariant 0 <= i <= |features|
      invariant r + Capped(features[i..], visits[i..], maxUpdates, count) == total
    {
      var v := VisitFeature(features[i], stored, env);
      assert v == visits[i];
      CappedStep(r, features, visits, i, maxUpdates, count);
      r := r + [v.handled];
      if v.lookup {
        count := count + 1;
        if count >= maxUpdates {
          r := r + features[i + 1..];
          return;
        }
      }
      i := i + 1;
    }
    assert features[i..] == [];
  }
}
