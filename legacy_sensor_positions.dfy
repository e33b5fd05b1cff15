/**
  `sensor_positions.py` of the first scripts: the Telraam segments inside
  the bounding box, taken from the live snapshot, then from the previous
  file, then fetched one by one; each gets its OpenStreetMap edge and its
  cameras.  The coordinate transformation, the time zone finder, the edge
  lookup and the requests are parameters.
*/
module LegacySensorPositions {
  import opened Wrappers
  import opened Json
  import PyDict
  import Common
  import Osm
  import SensorPositions
  import Seqs
  import Sorting

  // ---------------------------------------------------------------------
  // The segments in the bounding box
  // ---------------------------------------------------------------------

  /** A point of a segment, transformed to WGS84. */
  datatype Point = Point(lat: real, lon: real)

  /** `west,south,east,north` */
  datatype Box = Box(west: real, south: real, east: real, north: real)

  predicate StrictlyIn(p: Point, box: Box) {
    box.west < p.lon < box.east && box.south < p.lat < box.north
  }

  /** Inside the box: at least one point, and every point strictly inside. */
  predicate Inside(points: seq<Point>, box: Box) {
    points != [] && forall i :: 0 <= i < |points| ==> StrictlyIn(points[i], box)
  }

  /** The loop over the points of a segment, which stops at the first point outside. */
  method InsideBox(points: seq<Point>, box: Box) returns (inside: bool)
    ensures inside <==> Inside(points, box)
  {
    inside := false;
    var i := 0;
    while i < |points|
      invariant 0 <= i <= |points|
      invariant forall j :: 0 <= j < i ==> StrictlyIn(points[j], box)
      invariant inside <==> i > 0
    {
      inside := StrictlyIn(points[i], box);
      if !inside {
        break;
      }
      i := i + 1;
    }
  }

  /** A segment of `/v1/segments/all`: its `oidn` and the transformed points of its first line. */
  datatype RawSegment = RawSegment(oidn: int, points: seq<Point>)

  function InBox(all: seq<RawSegment>, box: Box): set<int> {
    set s | s in all && Inside(s.points, box) :: s.oidn
  }

  /** `bbox_segments`: the ids of the segments inside the box. */
  method BoxSegments(all: seq<RawSegment>, box: Box) returns (ids: set<int>)
    ensures ids == InBox(all, box)
  {
    ids := {};
    for i := 0 to |all|
      invariant ids == InBox(all[..i], box)
    {
      assert all[..i + 1] == all[..i] + [all[i]];
      var inside := InsideBox(all[i].points, box);
      if inside {
        ids := ids + {all[i].oidn};
      }
    }
    assert all[..|all|] == all;
  }

  // ---------------------------------------------------------------------
  // Live and stored segments, each id once
  // ---------------------------------------------------------------------

  function Id(f: Feature): int
    requires Osm.SegmentId(f).Some?
  {
    Osm.SegmentId(f).value
  }

  /**
    The loop over the live and then the stored segments: a segment whose id
    is still wanted is taken and its id is crossed off.  Gives the segments
    taken and the ids left.
  */
  function Combine(segs: seq<Feature>, wanted: set<int>): (r: (seq<Feature>, set<int>))
    requires SensorPositions.AllIdentified(segs)
    ensures SensorPositions.AllIdentified(r.0)
    ensures r.1 <= wanted
    ensures forall i :: 0 <= i < |r.0| ==> Id(r.0[i]) in wanted - r.1
    decreases |segs|
  {
    if segs == [] then ([], wanted)
    else
      var sid := Id(segs[0]);
      if sid in wanted then
        var rest := Combine(segs[1..], wanted - {sid});
        var r := ([segs[0]] + rest.0, rest.1);
        assert forall i :: 0 < i < |r.0| ==> r.0[i] == rest.0[i - 1];
        r
      else Combine(segs[1..], wanted)
  }

  /** Whether `x` is the first segment of `segs` with its id. */
  predicate FirstOfId(x: Feature, segs: seq<Feature>)
    requires SensorPositions.AllIdentified(segs) && Osm.SegmentId(x).Some?
  {
    exists k :: 0 <= k < |segs| && segs[k] == x && forall j :: 0 <= j < k ==> Id(segs[j]) != Id(x)
  }

  /** The first segment of `segs[1..]` with an id other than `segs[0]`'s is the first of `segs`. */
  lemma FirstOfTail(segs: seq<Feature>, x: Feature)
    requires SensorPositions.AllIdentified(segs) && |segs| > 0 && Osm.SegmentId(x).Some?
    requires FirstOfId(x, segs[1..]) && Id(x) != Id(segs[0])
    ensures FirstOfId(x, segs)
  {
    var tail := segs[1..];
    var k :| 0 <= k < |tail| && tail[k] == x && forall j :: 0 <= j < k ==> Id(tail[j]) != Id(x);
    assert segs[k + 1] == x;
    assert forall j :: 0 < j < k + 1 ==> segs[j] == tail[j - 1];
  }

  /** Every segment taken is the first one of its id. */
  lemma {:induction false} CombineFirst(segs: seq<Feature>, wanted: set<int>)
    requires SensorPositions.AllIdentified(segs)
    ensures forall i :: 0 <= i < |Combine(segs, wanted).0| ==> FirstOfId(Combine(segs, wanted).0[i], segs)
    decreases |segs|
  {
    if segs != [] {
      var sid := Id(segs[0]);
      var tail := segs[1..];
      var w := if sid in wanted then wanted - {sid} else wanted;
      CombineFirst(tail, w);
      var taken := Combine(segs, wanted).0;
      var rest := Combine(tail, w).0;
      forall m | 0 <= m < |rest| ensures FirstOfId(rest[m], segs) {
        assert FirstOfId(rest[m], tail);
        assert Id(rest[m]) in w;
        FirstOfTail(segs, rest[m]);
      }
      if sid in wanted {
        assert taken == [segs[0]] + rest;
        forall i | 0 <= i < |taken| ensures FirstOfId(taken[i], segs) {
          if i == 0 {
            assert segs[0] == taken[0];
          } else {
            assert taken[i] == rest[i - 1];
          }
        }
      }
    }
  }

  /** No id is taken twice. */
  lemma {:induction false} CombineDistinct(segs: seq<Feature>, wanted: set<int>)
    requires SensorPositions.AllIdentified(segs)
    ensures forall i, j :: 0 <= i < j < |Combine(segs, wanted).0| ==> Id(Combine(segs, wanted).0[i]) != Id(Combine(segs, wanted).0[j])
    decreases |segs|
  {
    if segs != [] {
      var sid := Id(segs[0]);
      var tail := segs[1..];
      var w := if sid in wanted then wanted - {sid} else wanted;
      CombineDistinct(tail, w);
      if sid in wanted {
        var taken := Combine(segs, wanted).0;
        var rest := Combine(tail, w).0;
        assert taken == [segs[0]] + rest;
        forall k | 0 <= k < |rest| ensures Id(rest[k]) != sid {
          assert Id(rest[k]) in w;
        }
        ConsDistinct(segs[0], rest);
      } else {
        assert Combine(segs, wanted) == Combine(tail, w);
      }
    }
  }

  /** A segment whose id none of a list of distinct ids has goes in front of it. */
  lemma ConsDistinct(x: Feature, rest: seq<Feature>)
    requires SensorPositions.AllIdentified(rest) && Osm.SegmentId(x).Some?
    requires forall i, j :: 0 <= i < j < |rest| ==> Id(rest[i]) != Id(rest[j])
    requires forall k :: 0 <= k < |rest| ==> Id(rest[k]) != Id(x)
    ensures SensorPositions.AllIdentified([x] + rest)
    ensures forall i, j :: 0 <= i < j < |[x] + rest| ==> Id(([x] + rest)[i]) != Id(([x] + rest)[j])
  {
    var r := [x] + rest;
    assert forall k :: 0 < k < |r| ==> r[k] == rest[k - 1];
  }

  /** The ids left are exactly the wanted ids no segment has. */
  lemma {:induction false} CombineLeft(segs: seq<Feature>, wanted: set<int>)
    requires SensorPositions.AllIdentified(segs)
    ensures forall sid :: sid in Combine(segs, wanted).1 <==> sid in wanted && forall k :: 0 <= k < |segs| ==> Id(segs[k]) != sid
    decreases |segs|
  {
    if segs != [] {
      var sid := Id(segs[0]);
      var tail := segs[1..];
      var w := if sid in wanted then wanted - {sid} else wanted;
      CombineLeft(tail, w);
      var left := Combine(segs, wanted).1;
      assert left == Combine(tail, w).1;
      forall s' | s' in wanted && s' !in left && s' != sid ensures exists k :: 0 <= k < |segs| && Id(segs[k]) == s' {
        var k :| 0 <= k < |tail| && Id(tail[k]) == s';
        assert segs[k + 1] == tail[k];
      }
      forall s' | s' in left ensures forall k :: 0 <= k < |segs| ==> Id(segs[k]) != s' {
        forall k | 0 < k < |segs| ensures Id(segs[k]) != s' {
          assert segs[k] == tail[k - 1];
        }
      }
    }
  }

  /** Every wanted id that is not left is taken. */
  lemma {:induction false} CombineCovers(segs: seq<Feature>, wanted: set<int>)
    requires SensorPositions.AllIdentified(segs)
    ensures var (taken, left) := Combine(segs, wanted);
      forall sid :: sid in wanted && sid !in left ==> exists i :: 0 <= i < |taken| && Id(taken[i]) == sid
    decreases |segs|
  {
    if segs != [] {
      var sid := Id(segs[0]);
      var tail := segs[1..];
      var w := if sid in wanted then wanted - {sid} else wanted;
      CombineCovers(tail, w);
      if sid in wanted {
        var (taken, left) := Combine(segs, wanted);
        var rest := Combine(tail, w).0;
        assert taken == [segs[0]] + rest;
        forall s' | s' in wanted && s' !in left ensures exists i :: 0 <= i < |taken| && Id(taken[i]) == s' {
          if s' != sid {
            var i :| 0 <= i < |rest| && Id(rest[i]) == s';
            assert taken[i + 1] == rest[i];
          } else {
            assert Id(taken[0]) == s';
          }
        }
      } else {
        assert Combine(segs, wanted) == Combine(tail, w);
      }
    }
  }

  /** The combining loop, with the set of wanted ids shrinking. */
  method CombineSegments(segs: seq<Feature>, wanted: set<int>) returns (taken: seq<Feature>, left: set<int>)
    requires SensorPositions.AllIdentified(segs)
    ensures (taken, left) == Combine(segs, wanted)
  {
    taken := [];
    left := wanted;
    assert segs[0..] == segs;
    for i := 0 to |segs|
      invariant taken + Combine(segs[i..], left).0 == Combine(segs, wanted).0
      invariant Combine(segs[i..], left).1 == Combine(segs, wanted).1
    {
      assert segs[i..][0] == segs[i] && segs[i..][1..] == segs[i + 1..];
      var sid := Id(segs[i]);
      if sid in left {
        assert taken + [segs[i]] + Combine(segs[i + 1..], left - {sid}).0 == taken + Combine(segs[i..], left).0;
        taken := taken + [segs[i]];
        left := left - {sid};
      }
    }
    assert segs[|segs|..] == [];
    assert Combine(segs[|segs|..], left) == ([], left);
    assert taken + [] == taken;
  }

  // ---------------------------------------------------------------------
  // Segments fetched one by one
  // ---------------------------------------------------------------------

  /** Properties dropped from a fetched segment. */
  const Excluded: seq<string> := ["road_speed", "road_type", "speed_histogram", "speed_buckets", "oidn"]

  /** The properties that are copied, in their order. */
  function Copied(props: Props): Props {
    if props == [] then []
    else
      var last := props[|props| - 1];
      Copied(props[..|props| - 1]) + if last.0 in Excluded then [] else [last]
  }

  /** An excluded property is never copied; any other keeps its last value. */
  lemma {:induction false} CopiedGet(props: Props, k: string)
    ensures PyDict.GetLast(Copied(props), k) == if k in Excluded then None else PyDict.GetLast(props, k)
  {
    if props != [] {
      var init := props[..|props| - 1];
      var last := props[|props| - 1];
      var c := Copied(init);
      CopiedGet(init, k);
      var r := Copied(props);
      if last.0 !in Excluded {
        assert r[..|r| - 1] == c && r[|r| - 1] == last;
      } else {
        assert r == c + [] == c;
      }
    }
  }

  /**
    The properties of a fetched segment: `segment_id` from `oidn` and the time
    zone first, then every property that is not excluded, overriding them.
  */
  function NewProps(props: Props, timezone: Json): (r: Props)
    requires PyDict.HasKey(props, "oidn")
    ensures forall k :: k in Excluded && k != "segment_id" && k != "timezone" ==> PyDict.Get(r, k).None?
    ensures PyDict.Get(r, "segment_id") ==
      if PyDict.HasKey(props, "segment_id") then PyDict.GetLast(props, "segment_id") else PyDict.GetLast(props, "oidn")
    ensures PyDict.Get(r, "timezone") == if PyDict.HasKey(props, "timezone") then PyDict.GetLast(props, "timezone") else Some(timezone)
    ensures forall k :: k !in Excluded && k != "segment_id" && k != "timezone" ==> PyDict.Get(r, k) == PyDict.GetLast(props, k)
  {
    CopiedAll(props);
    assert "segment_id" !in Excluded && "timezone" !in Excluded;
    PyDict.Union(Base(PyDict.GetLast(props, "oidn").value, timezone), Copied(props))
  }

  /** `{"segment_id": oidn, "timezone": timezone}` */
  function Base(oidn: Json, timezone: Json): (r: Props)
    ensures PyDict.Valid(r)
    ensures PyDict.Get(r, "segment_id") == Some(oidn) && PyDict.Get(r, "timezone") == Some(timezone)
    ensures forall k :: k != "segment_id" && k != "timezone" ==> !PyDict.HasKey(r, k)
  {
    var base: Props := [("segment_id", oidn), ("timezone", timezone)];
    assert |base[0].0| == 10 && |base[1].0| == 8;
    assert PyDict.Valid(base);
    PyDict.GetAt(base, 0);
    PyDict.GetAt(base, 1);
    base
  }

  /** Every key of the copy: the last value of the property, unless the key is excluded. */
  lemma CopiedAll(props: Props)
    ensures forall k :: PyDict.GetLast(Copied(props), k) == if k in Excluded then None else PyDict.GetLast(props, k)
  {
    forall k ensures PyDict.GetLast(Copied(props), k) == if k in Excluded then None else PyDict.GetLast(props, k) {
      CopiedGet(props, k);
    }
  }

  /** A fetched segment with its new properties. */
  function NewSegment(f: Feature, timezone: Json): Feature
    requires PyDict.HasKey(f.properties, "oidn")
  {
    Feature(NewProps(f.properties, timezone), f.geometry)
  }

  /**
    The services of a run: `fetch(id)` the first feature of the segment
    request (`None` when the reply has no `features`), `timezoneAt` the time
    zone of a segment's first point, `findEdge` the edge lookup, `cameras(id)`
    the cameras of a segment.
  */
  datatype Services = Services(fetch: int -> Option<Feature>, timezoneAt: Feature -> Json, findEdge: Feature -> Props, cameras: int -> Json)

  /** Every fetched segment of the ids has an `oidn`. */
  predicate Fetchable(ids: set<int>, services: Services) {
    forall sid :: sid in ids && services.fetch(sid).Some? ==> PyDict.HasKey(services.fetch(sid).value.properties, "oidn")
  }

  /** The fetched segment of an id. */
  function FetchedSegment(sid: int, services: Services): Feature
    requires services.fetch(sid).Some? && PyDict.HasKey(services.fetch(sid).value.properties, "oidn")
  {
    var f := services.fetch(sid).value;
    NewSegment(f, services.timezoneAt(f))
  }

  /** `order` visits every id of `ids` once. */
  ghost predicate Enumerates(order: seq<int>, ids: set<int>) {
    Sorting.Distinct(order) && forall sid :: sid in order <==> sid in ids
  }

  /** The values `get` has for the ids of `order`, in that order. */
  function Present<T>(order: seq<int>, get: int -> Option<T>): (r: seq<T>)
    ensures |r| <= |order|
  {
    if order == [] then []
    else
      var last := get(order[|order| - 1]);
      Present(order[..|order| - 1], get) + if last.Some? then [last.value] else []
  }

  /** Over ids visited once, one value per id that has one. */
  lemma {:induction false} PresentCount<T>(order: seq<int>, get: int -> Option<T>)
    requires Sorting.Distinct(order)
    ensures |Present(order, get)| == |set sid | sid in order && get(sid).Some?|
    decreases |order|
  {
    if order == [] {
      assert (set sid | sid in order && get(sid).Some?) == {};
    } else {
      var init, last := order[..|order| - 1], order[|order| - 1];
      assert order == init + [last];
      PresentCount(init, get);
      assert last !in init;
      var before := set sid | sid in init && get(sid).Some?;
      if get(last).Some? {
        assert (set sid | sid in order && get(sid).Some?) == before + {last};
      } else {
        assert (set sid | sid in order && get(sid).Some?) == before;
      }
    }
  }

  /** Over an enumeration of `ids`, one value per id that has one. */
  lemma EnumeratedCount<T>(order: seq<int>, ids: set<int>, get: int -> Option<T>)
    requires Enumerates(order, ids)
    ensures |Present(order, get)| == |set sid | sid in ids && get(sid).Some?|
  {
    PresentCount(order, get);
    var visited, have := set sid | sid in order && get(sid).Some?, set sid | sid in ids && get(sid).Some?;
    forall sid ensures sid in visited <==> sid in have {
      assert sid in order <==> sid in ids;
    }
    assert visited == have;
  }

  /** The new segment of an id, when the service has one with an `oidn`. */
  function FetchedOpt(sid: int, services: Services): (r: Option<Feature>)
    ensures r.Some? <==> services.fetch(sid).Some? && PyDict.HasKey(services.fetch(sid).value.properties, "oidn")
  {
    var f := services.fetch(sid);
    if f.Some? && PyDict.HasKey(f.value.properties, "oidn") then Some(FetchedSegment(sid, services)) else None
  }

  /** `FetchedOpt` as the function the loop calls for every id. */
  function FetchedFn(services: Services): int -> Option<Feature> {
    sid => FetchedOpt(sid, services)
  }

  /**
    What the loop over the ids left adds, in whatever order the set gives
    them: one new segment for every id the service has, each id visited
    once, and nothing else.
  */
  ghost predicate FetchedAll(added: seq<Feature>, ids: set<int>, services: Services)
    requires Fetchable(ids, services)
  {
    |added| <= |ids| &&
    (forall x :: x in added ==> exists sid :: sid in ids && services.fetch(sid).Some? && x == FetchedSegment(sid, services)) &&
    (forall sid :: sid in ids && services.fetch(sid).Some? ==> FetchedSegment(sid, services) in added) &&
    exists order :: Enumerates(order, ids) && added == Present(order, FetchedFn(services))
  }

  /** The segments added are as many as the ids the service has a segment for. */
  lemma FetchedCount(added: seq<Feature>, ids: set<int>, services: Services)
    requires Fetchable(ids, services) && FetchedAll(added, ids, services)
    ensures |added| == |set sid | sid in ids && services.fetch(sid).Some?|
  {
    var order :| Enumerates(order, ids) && added == Present(order, FetchedFn(services));
    EnumeratedCount(order, ids, FetchedFn(services));
    Replied(ids, services);
  }

  /** Under `Fetchable`, the ids with a new segment are those the service answers. */
  lemma Replied(ids: set<int>, services: Services)
    requires Fetchable(ids, services)
    ensures (set sid | sid in ids && FetchedFn(services)(sid).Some?) == (set sid | sid in ids && services.fetch(sid).Some?)
  {
    var have, replied := set sid | sid in ids && FetchedFn(services)(sid).Some?, set sid | sid in ids && services.fetch(sid).Some?;
    forall sid ensures sid in have <==> sid in replied {
      assert FetchedFn(services)(sid) == FetchedOpt(sid, services);
    }
    assert have == replied;
  }

  /** A set without members is empty. */
  lemma Extensional(s: set<int>)
    ensures (forall x :: x !in s) ==> s == {}
  {
    if forall x :: x !in s {
      assert s == {};
    }
  }

  /** Crossing `sid` off the ids still to do adds it to those done and shrinks what is left. */
  lemma CrossOff(ids: set<int>, todo: set<int>, sid: int)
    requires todo <= ids && sid in todo
    ensures ids - (todo - {sid}) == (ids - todo) + {sid}
    ensures |todo - {sid}| < |todo|
  {
  }

  /** The loop over the ids no live or stored segment had, in set order. */
  method FetchMissing(ids: set<int>, services: Services) returns (added: seq<Feature>)
    requires Fetchable(ids, services)
    ensures FetchedAll(added, ids, services)
  {
    ghost var order;
    added, order := CollectPresent(ids, FetchedFn(services));
    PresentFetched(added, order, ids, services);
  }

  /**
    `for sid in ids`: `get(sid)` for each id in set order, keeping the
    values there are; `order` is the order the set gave.
  */
  method CollectPresent<T>(ids: set<int>, get: int -> Option<T>) returns (added: seq<T>, ghost order: seq<int>)
    ensures |added| <= |ids|
    ensures forall x :: x in added ==> exists sid :: sid in ids && get(sid) == Some(x)
    ensures forall sid :: sid in ids && get(sid).Some? ==> get(sid).value in added
    ensures Enumerates(order, ids) && added == Present(order, get)
  {
    added, order := [], [];
    var todo := ids;
    while todo != {}
      invariant todo <= ids
      invariant |added| <= |ids - todo|
      invariant forall x :: x in added ==> exists sid :: sid in ids - todo && get(sid) == Some(x)
      invariant forall sid :: sid in ids - todo && get(sid).Some? ==> get(sid).value in added
      invariant Enumerates(order, ids - todo) && added == Present(order, get)
      decreases |todo|
    {
      Extensional(todo);
      var sid :| sid in todo;
      CrossOff(ids, todo, sid);
      Visit(order, ids, todo, sid, get);
      todo := todo - {sid};
      order := order + [sid];
      var fetched := get(sid);
      if fetched.Some? {
        added := added + [fetched.value];
      }
    }
  }

  /** One more id of those still to visit, at the end of the order. */
  lemma Visit<T>(order: seq<int>, ids: set<int>, todo: set<int>, sid: int, get: int -> Option<T>)
    requires todo <= ids && sid in todo && Enumerates(order, ids - todo)
    ensures Enumerates(order + [sid], ids - (todo - {sid}))
    ensures Present(order + [sid], get) == Present(order, get) + if get(sid).Some? then [get(sid).value] else []
  {
    assert (order + [sid])[..|order|] == order;
  }

  /** What the collecting loop keeps is what the service has for the ids. */
  lemma PresentFetched(added: seq<Feature>, order: seq<int>, ids: set<int>, services: Services)
    requires Fetchable(ids, services)
    requires |added| <= |ids|
    requires forall x :: x in added ==> exists sid :: sid in ids && FetchedFn(services)(sid) == Some(x)
    requires forall sid :: sid in ids && FetchedFn(services)(sid).Some? ==> FetchedFn(services)(sid).value in added
    requires Enumerates(order, ids) && added == Present(order, FetchedFn(services))
    ensures FetchedAll(added, ids, services)
  {
    forall x | x in added ensures exists sid :: sid in ids && services.fetch(sid).Some? && x == FetchedSegment(sid, services) {
      var sid :| sid in ids && FetchedFn(services)(sid) == Some(x);
      assert services.fetch(sid).Some?;
    }
    forall sid | sid in ids && services.fetch(sid).Some? ensures FetchedSegment(sid, services) in added {
      assert FetchedFn(services)(sid).Some?;
    }
  }

  // ---------------------------------------------------------------------
  // `add_osm` and `add_camera`
  // ---------------------------------------------------------------------

  /** Every edge `find_edge` returns is a dict, with no key twice. */
  ghost predicate ValidEdges(services: Services) {
    forall f :: PyDict.Valid(services.findEdge(f))
  }

  /** The edge of a segment: the stored one when the stored segment has one, else a looked-up one without its geometry. */
  function Edge(f: Feature, lookup: SensorPositions.Segments, services: Services): (r: Json)
    requires Osm.SegmentId(f).Some? && ValidEdges(services)
    ensures SensorPositions.StoredOsm(Id(f), lookup).Some? ==> r == SensorPositions.StoredOsm(Id(f), lookup).value
    ensures SensorPositions.StoredOsm(Id(f), lookup).None? ==>
      r.JObj? && !PyDict.HasKey(r.fields, "geometry") &&
      forall k :: k != "geometry" ==> PyDict.Get(r.fields, k) == PyDict.Get(services.findEdge(f), k)
  {
    var stored := SensorPositions.StoredOsm(Id(f), lookup);
    if stored.Some? then stored.value
    else JObj(PyDict.Remove(services.findEdge(f), "geometry"))
  }

  /** `segment["properties"]["osm"] = osm_edge` */
  function WithEdge(f: Feature, lookup: SensorPositions.Segments, services: Services): (r: Feature)
    requires Osm.SegmentId(f).Some? && ValidEdges(services)
    ensures r.geometry == f.geometry
    ensures PyDict.Get(r.properties, "osm") == Some(Edge(f, lookup, services))
    ensures forall k :: k != "osm" ==> PyDict.Get(r.properties, k) == PyDict.Get(f.properties, k)
    ensures Osm.SegmentId(r) == Osm.SegmentId(f)
  {
    assert |"osm"| == 3 && |"segment_id"| == 10;
    Osm.WithOsm(f, Edge(f, lookup, services))
  }

  /** The segments, each with its edge. */
  function WithEdges(segments: seq<Feature>, lookup: SensorPositions.Segments, services: Services): (r: seq<Feature>)
    requires SensorPositions.AllIdentified(segments) && ValidEdges(services)
    ensures |r| == |segments|
  {
    if segments == [] then []
    else
      var init := segments[..|segments| - 1];
      assert SensorPositions.AllIdentified(init) by {
        forall i | 0 <= i < |init| ensures Osm.SegmentId(init[i]).Some? {
          assert init[i] == segments[i];
        }
      }
      WithEdges(init, lookup, services) + [WithEdge(segments[|segments| - 1], lookup, services)]
  }

  /** The `i`-th segment gets its own edge. */
  lemma {:induction false} WithEdgesAt(segments: seq<Feature>, lookup: SensorPositions.Segments, services: Services, i: nat)
    requires SensorPositions.AllIdentified(segments) && ValidEdges(services) && i < |segments|
    ensures WithEdges(segments, lookup, services)[i] == WithEdge(segments[i], lookup, services)
  {
    var init := segments[..|segments| - 1];
    assert SensorPositions.AllIdentified(init) by {
      forall j | 0 <= j < |init| ensures Osm.SegmentId(init[j]).Some? {
        assert init[j] == segments[j];
      }
    }
    var last := WithEdge(segments[|segments| - 1], lookup, services);
    assert WithEdges(segments, lookup, services) == WithEdges(init, lookup, services) + [last];
    if i < |init| {
      assert init[i] == segments[i];
      WithEdgesAt(init, lookup, services, i);
      assert WithEdges(segments, lookup, services)[i] == WithEdges(init, lookup, services)[i];
      assert WithEdges(init, lookup, services)[i] == WithEdge(segments[i], lookup, services);
    } else {
      assert i == |segments| - 1;
      assert WithEdges(segments, lookup, services)[i] == last;
      assert last == WithEdge(segments[i], lookup, services);
    }
  }

  /** `add_osm`: every segment gets its edge, in place. */
  method AddOsm(segments: seq<Feature>, lookup: SensorPositions.Segments, services: Services) returns (r: seq<Feature>)
    requires SensorPositions.AllIdentified(segments) && ValidEdges(services)
    ensures |r| == |segments|
    ensures forall i :: 0 <= i < |r| ==> r[i] == WithEdge(segments[i], lookup, services)
  {
    r := [];
    for i := 0 to |segments|
      invariant SensorPositions.AllIdentified(segments[..i])
      invariant r == WithEdges(segments[..i], lookup, services)
    {
      WithEdgesStep(segments, lookup, services, i);
      r := r + [WithEdge(segments[i], lookup, services)];
    }
    assert segments[..|segments|] == segments;
    WithEdgesAll(segments, lookup, services);
  }

  /** The loop of `add_osm` one segment further on. */
  lemma WithEdgesStep(segments: seq<Feature>, lookup: SensorPositions.Segments, services: Services, i: nat)
    requires SensorPositions.AllIdentified(segments) && ValidEdges(services) && i < |segments|
    ensures SensorPositions.AllIdentified(segments[..i]) && SensorPositions.AllIdentified(segments[..i + 1])
    ensures WithEdges(segments[..i + 1], lookup, services) == WithEdges(segments[..i], lookup, services) + [WithEdge(segments[i], lookup, services)]
  {
    Seqs.TakeStep(segments, i);
  }

  /** Every segment gets its own edge. */
  lemma WithEdgesAll(segments: seq<Feature>, lookup: SensorPositions.Segments, services: Services)
    requires SensorPositions.AllIdentified(segments) && ValidEdges(services)
    ensures forall i :: 0 <= i < |segments| ==> WithEdges(segments, lookup, services)[i] == WithEdge(segments[i], lookup, services)
  {
    forall i | 0 <= i < |segments| ensures WithEdges(segments, lookup, services)[i] == WithEdge(segments[i], lookup, services) {
      WithEdgesAt(segments, lookup, services, i);
    }
  }

  /** `segment["properties"]["cameras"] = ...`: the segment with its cameras. */
  function WithCameras(f: Feature, services: Services): (r: Feature)
    requires Osm.SegmentId(f).Some?
    ensures r.geometry == f.geometry
    ensures PyDict.Get(r.properties, "cameras") == Some(services.cameras(Id(f)))
    ensures forall k :: k != "cameras" ==> PyDict.Get(r.properties, k) == PyDict.Get(f.properties, k)
    ensures Osm.SegmentId(r) == Osm.SegmentId(f)
  {
    assert |"cameras"| == 7 && |"segment_id"| == 10;
    Feature(PyDict.Set(f.properties, "cameras", services.cameras(Id(f))), f.geometry)
  }

  /** The segments, each with its cameras. */
  function EachWithCameras(segments: seq<Feature>, services: Services): (r: seq<Feature>)
    requires SensorPositions.AllIdentified(segments)
    ensures |r| == |segments|
  {
    if segments == [] then []
    else
      var init := segments[..|segments| - 1];
      assert SensorPositions.AllIdentified(init) by {
        forall i | 0 <= i < |init| ensures Osm.SegmentId(init[i]).Some? {
          assert init[i] == segments[i];
        }
      }
      EachWithCameras(init, services) + [WithCameras(segments[|segments| - 1], services)]
  }

  /** The `i`-th segment gets its own cameras. */
  lemma {:induction false} EachWithCamerasAt(segments: seq<Feature>, services: Services, i: nat)
    requires SensorPositions.AllIdentified(segments) && i < |segments|
    ensures EachWithCameras(segments, services)[i] == WithCameras(segments[i], services)
  {
    var init := segments[..|segments| - 1];
    assert SensorPositions.AllIdentified(init) by {
      forall j | 0 <= j < |init| ensures Osm.SegmentId(init[j]).Some? {
        assert init[j] == segments[j];
      }
    }
    var last := WithCameras(segments[|segments| - 1], services);
    assert EachWithCameras(segments, services) == EachWithCameras(init, services) + [last];
    if i < |init| {
      assert init[i] == segments[i];
      EachWithCamerasAt(init, services, i);
      assert EachWithCameras(segments, services)[i] == EachWithCameras(init, services)[i];
      assert EachWithCameras(init, services)[i] == WithCameras(segments[i], services);
    } else {
      assert i == |segments| - 1;
      assert EachWithCameras(segments, services)[i] == last;
      assert last == WithCameras(segments[i], services);
    }
  }

  /** `add_camera`: every segment gets its cameras, in place. */
  method AddCameras(segments: seq<Feature>, services: Services) returns (r: seq<Feature>)
    requires SensorPositions.AllIdentified(segments)
    ensures |r| == |segments|
    ensures forall i :: 0 <= i < |r| ==> r[i] == WithCameras(segments[i], services)
  {
    r := [];
    for i := 0 to |segments|
      invariant SensorPositions.AllIdentified(segments[..i])
      invariant r == EachWithCameras(segments[..i], services)
    {
      EachWithCamerasStep(segments, services, i);
      r := r + [WithCameras(segments[i], services)];
    }
    assert segments[..|segments|] == segments;
    EachWithCamerasAll(segments, services);
  }

  /** The loop of `add_camera` one segment further on. */
  lemma EachWithCamerasStep(segments: seq<Feature>, services: Services, i: nat)
    requires SensorPositions.AllIdentified(segments) && i < |segments|
    ensures SensorPositions.AllIdentified(segments[..i]) && SensorPositions.AllIdentified(segments[..i + 1])
    ensures EachWithCameras(segments[..i + 1], services) == EachWithCameras(segments[..i], services) + [WithCameras(segments[i], services)]
  {
    Seqs.TakeStep(segments, i);
  }

  /** Every segment gets its own cameras. */
  lemma EachWithCamerasAll(segments: seq<Feature>, services: Services)
    requires SensorPositions.AllIdentified(segments)
    ensures forall i :: 0 <= i < |segments| ==> EachWithCameras(segments, services)[i] == WithCameras(segments[i], services)
  {
    forall i | 0 <= i < |segments| ensures EachWithCameras(segments, services)[i] == WithCameras(segments[i], services) {
      EachWithCamerasAt(segments, services, i);
    }
  }

  // ---------------------------------------------------------------------
  // `main`
  // ---------------------------------------------------------------------

  /** How `main` ends: the js file is fresh, the snapshot has no features, or the file is written. */
  datatype Outcome = Fresh | NoLive | Written(features: seq<Feature>)

  /** Every fetched segment has an integer `segment_id` once its properties are rebuilt. */
  predicate IdentifiedWhenFetched(ids: set<int>, services: Services)
    requires Fetchable(ids, services)
  {
    forall sid :: sid in ids && services.fetch(sid).Some? ==> Osm.SegmentId(FetchedSegment(sid, services)).Some?
  }

  /** A segment as written: with its edge and its cameras. */
  function Finished(f: Feature, lookup: SensorPositions.Segments, services: Services): Feature
    requires Osm.SegmentId(f).Some? && ValidEdges(services)
  {
    WithCameras(WithEdge(f, lookup, services), services)
  }

  /** `features` are the segments `segs`, each finished. */
  ghost predicate FinishedAll(features: seq<Feature>, segs: seq<Feature>, lookup: SensorPositions.Segments, services: Services)
    requires ValidEdges(services)
  {
    |features| == |segs| &&
    forall i :: 0 <= i < |segs| ==> Osm.SegmentId(segs[i]).Some? && features[i] == Finished(segs[i], lookup, services)
  }

  /**
    `main`: `jsAge` is the age of the js file in seconds (`None` without
    one), `prior` the features of the previous file (`None` without one),
    `live` those of the live snapshot, `useNoData` the `osm` option.  The
    output holds the live and stored segments of the box, each id once, then
    the fetched ones, all with their edges and cameras.
  */
  method Run(jsAge: Option<int>, prior: Option<seq<Feature>>, all: seq<RawSegment>, box: Box, live: seq<Feature>,
             useNoData: bool, services: Services) returns (out: Outcome)
    requires SensorPositions.AllIdentified(live) && (prior.Some? ==> SensorPositions.AllIdentified(prior.value))
    requires Fetchable(InBox(all, box), services) && IdentifiedWhenFetched(InBox(all, box), services)
    requires ValidEdges(services)
    ensures out.Fresh? <==> jsAge.Some? && jsAge.value < Common.FreshSeconds
    ensures out.NoLive? <==> !out.Fresh? && live == []
    ensures out.Written? ==>
      var stored := prior.GetOr([]);
      SensorPositions.AllIdentified(live + stored) &&
      var (taken, left) := Combine(live + stored, InBox(all, box));
      var lookup := SensorPositions.OldData(if useNoData then [] else stored);
      exists added :: left <= InBox(all, box) && FetchedAll(added, left, services) &&
        FinishedAll(out.features, taken + added, lookup, services)
  {
    if jsAge.Some? && jsAge.value < Common.FreshSeconds {
      return Fresh;
    }
    var stored := prior.GetOr([]);
    var ids := BoxSegments(all, box);
    if live == [] {
      return NoLive;
    }
    IdentifiedConcat(live, stored);
    var taken, left := CombineSegments(live + stored, ids);
    var added := FetchMissing(left, services);
    FetchedIdentified(added, left, ids, services);
    IdentifiedConcat(taken, added);
    var segments := taken + added;
    var lookup := SensorPositions.OldData(if useNoData then [] else stored);
    var withEdges := AddOsm(segments, lookup, services);
    var features := AddCameras(withEdges, services);
    out := Written(features);
    FinishedFrom(features, withEdges, segments, lookup, services);
  }

  /** Two lists of identified segments one after the other. */
  lemma IdentifiedConcat(a: seq<Feature>, b: seq<Feature>)
    requires SensorPositions.AllIdentified(a) && SensorPositions.AllIdentified(b)
    ensures SensorPositions.AllIdentified(a + b)
  {
    forall i | 0 <= i < |a + b| ensures Osm.SegmentId((a + b)[i]).Some? {
      if i >= |a| {
        assert (a + b)[i] == b[i - |a|];
      }
    }
  }

  /** The segments fetched for ids of the box all have an id. */
  lemma FetchedIdentified(added: seq<Feature>, left: set<int>, ids: set<int>, services: Services)
    requires left <= ids && Fetchable(ids, services) && IdentifiedWhenFetched(ids, services)
    requires FetchedAll(added, left, services)
    ensures SensorPositions.AllIdentified(added)
  {
    forall i | 0 <= i < |added| ensures Osm.SegmentId(added[i]).Some? {
      assert added[i] in added;
    }
  }

  /** Edges added, then cameras added: each segment finished. */
  lemma FinishedFrom(features: seq<Feature>, withEdges: seq<Feature>, segs: seq<Feature>,
                     lookup: SensorPositions.Segments, services: Services)
    requires SensorPositions.AllIdentified(segs) && SensorPositions.AllIdentified(withEdges) && ValidEdges(services)
    requires |withEdges| == |segs| && forall i :: 0 <= i < |segs| ==> withEdges[i] == WithEdge(segs[i], lookup, services)
    requires |features| == |withEdges| && forall i :: 0 <= i < |features| ==> features[i] == WithCameras(withEdges[i], services)
    ensures FinishedAll(features, segs, lookup, services)
  {
  }
}
