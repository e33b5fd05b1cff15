/**
  The Kibana export that runs after each update (`update.py`; the two copies
  of the script differ only in the arguments passed to `sensor_positions`,
  which is not part of this module): the project's virtual environment is
  put in front of the module search path, and every GeoJSON feature becomes
  one JSON line for Kibana, with its identifiers as strings, keeping only
  the segments that have cameras or an eco-counter.
*/
module Update {
  import opened Wrappers
  import opened Strings
  import opened Json
  import PyDict
  import Seqs
  import opened Timestamps

  // ---------------------------------------------------------------------
  // The virtual environment in front of `sys.path`
  // ---------------------------------------------------------------------

  /** `os.path.join(a, b)`: an absolute `b` replaces `a`; otherwise one separator between them. */
  function Join(a: string, b: string): string {
    if StartsWith(b, "/") then b
    else if a == [] || a[|a| - 1] == '/' then a + b
    else a + "/" + b
  }

  /**
    The entry of the project's `venv_wecount` matching the interpreter entry
    `p`: its part from `lib/` on under `BASE/../../venv_wecount`; `None` when
    `p.index("/lib/")` raises.
  */
  function VenvFor(base: string, p: string): Option<string> {
    match IndexOf(p, "/lib/")
    case None => None
    case Some(i) => Some(Join(Join(Join(Join(base, ".."), ".."), "venv_wecount"), p[i + 1..]))
  }

  predicate SitePackages(p: string) {
    EndsWith(p, "site-packages")
  }

  /** The first entry from `i` on that ends in `site-packages`. */
  function SitePackagesFrom(path: seq<string>, i: nat): (r: Option<nat>)
    requires i <= |path|
    decreases |path| - i
    ensures r.Some? ==> i <= r.value < |path| && SitePackages(path[r.value])
    ensures r.Some? ==> forall j :: i <= j < r.value ==> !SitePackages(path[j])
    ensures r.None? <==> forall j :: i <= j < |path| ==> !SitePackages(path[j])
  {
    if i == |path| then None
    else if SitePackages(path[i]) then Some(i)
    else SitePackagesFrom(path, i + 1)
  }

  /** `sys.path` after the loop; `None` when it raises. */
  function NewPath(base: string, path: seq<string>): Option<seq<string>> {
    match SitePackagesFrom(path, 0)
    case None => Some(path)
    case Some(i) =>
      match VenvFor(base, path[i])
      case None => None
      case Some(v) => Some([v] + path)
  }

  /** The loop over `sys.path`: the first `site-packages` entry gets its venv entry in front, then the loop stops. */
  method PrependVenv(base: string, path: seq<string>) returns (r: Option<seq<string>>)
    ensures r == NewPath(base, path)
  {
    var i := 0;
    while i < |path|
      invariant 0 <= i <= |path|
      invariant forall j :: 0 <= j < i ==> !SitePackages(path[j])
    {
      if SitePackages(path[i]) {
        var first := SitePackagesFrom(path, 0);
        assert first == Some(i);
        var venv := VenvFor(base, path[i]);
        if venv.None? {
          return None;
        }
        return Some([venv.value] + path);
      }
      i := i + 1;
    }
    return Some(path);
  }

  /**
    Under a base directory other than `/`, the venv entry is
    `BASE/../../venv_wecount/` followed by the interpreter entry from its
    first `lib/` on; it raises exactly when the entry has no `/lib/`.
  */
  lemma VenvEntry(base: string, p: string)
    requires base != [] && base[|base| - 1] != '/'
    ensures VenvFor(base, p).None? <==> !Contains(p, "/lib/")
    ensures VenvFor(base, p).Some? ==>
      var i := IndexOf(p, "/lib/").value;
      StartsWith(p[i + 1..], "lib/") &&
      VenvFor(base, p).value == base + "/../../venv_wecount/" + p[i + 1..]
  {
    if Contains(p, "/lib/") {
      var i := IndexOf(p, "/lib/").value;
      LibTail(p, i);
      VenvJoins(base, p[i + 1..]);
    }
  }

  /** The part after the `/` of a found `/lib/` starts with `lib/`. */
  lemma LibTail(p: string, i: nat)
    requires i + 5 <= |p| && p[i..i + 5] == "/lib/"
    ensures StartsWith(p[i + 1..], "lib/") && !StartsWith(p[i + 1..], "/")
  {
    assert p[i + 1] == p[i..i + 5][1] == 'l';
    assert p[i + 1..][..4] == p[i..i + 5][1..];
  }

  /** `os.path.join` of the `venv_wecount` parts is plain concatenation with `/`. */
  lemma VenvJoins(base: string, tail: string)
    requires base != [] && base[|base| - 1] != '/' && !StartsWith(tail, "/")
    ensures Join(Join(Join(Join(base, ".."), ".."), "venv_wecount"), tail) == base + "/../../venv_wecount/" + tail
  {
    NotRooted("..");
    NotRooted("venv_wecount");
    var a := Join(base, "..");
    assert a == base + "/" + "..";
    var b := Join(a, "..");
    assert b == a + "/" + "..";
    var c := Join(b, "venv_wecount");
    assert c == b + "/" + "venv_wecount";
    assert c == base + "/../../venv_wecount";
  }

  /** A relative part that starts with neither `/` nor is empty. */
  lemma NotRooted(s: string)
    requires s != [] && s[0] != '/'
    ensures !StartsWith(s, "/")
  {
    assert s[..1][0] == s[0];
  }

  /**
    The search path gains exactly one entry, in front, made from the first
    `site-packages` entry, and keeps every old entry in order; without such
    an entry it is unchanged.
  */
  lemma VenvPrependedOnce(base: string, path: seq<string>)
    ensures (forall j :: 0 <= j < |path| ==> !SitePackages(path[j])) ==> NewPath(base, path) == Some(path)
    ensures NewPath(base, path).Some? && (exists j :: 0 <= j < |path| && SitePackages(path[j])) ==>
      var r := NewPath(base, path).value;
      |r| == |path| + 1 && r[1..] == path &&
      exists i :: (0 <= i < |path| && SitePackages(path[i]) && (forall j :: 0 <= j < i ==> !SitePackages(path[j])) &&
        Some(r[0]) == VenvFor(base, path[i]))
    ensures NewPath(base, path).None? <==>
      exists i :: (0 <= i < |path| && SitePackages(path[i]) && (forall j :: 0 <= j < i ==> !SitePackages(path[j])) &&
        VenvFor(base, path[i]).None?)
  {
    var first := SitePackagesFrom(path, 0);
    if first.Some? {
      var i := first.value;
      if VenvFor(base, path[i]).Some? {
        var r := NewPath(base, path).value;
        assert r[1..] == path;
      }
      forall k | 0 <= k < |path| && SitePackages(path[k]) && (forall j :: 0 <= j < k ==> !SitePackages(path[j]))
        ensures k == i
      {
      }
    }
  }

  // ---------------------------------------------------------------------
  // One Kibana record per feature
  // ---------------------------------------------------------------------

  /** `s = {"last_update": ..., "geometry": ...}` followed by `s.update(properties)`. */
  function Base(lastUpdate: string, f: Feature): Props {
    PyDict.Union([("last_update", JStr(lastUpdate)), ("geometry", f.geometry)], f.properties)
  }

  /** `k[-3:] in ("mac", "_id")` */
  predicate StringKey(k: string) {
    Slice(k, -3, |k|) == "mac" || Slice(k, -3, |k|) == "_id"
  }

  /** One camera field after the inner loop: a `mac` or `_id` value as its `str`. */
  function StrField(field: (string, Json)): (string, Json) {
    if StringKey(field.0) then (field.0, JStr(Str(field.1))) else field
  }

  /** `cs` after the loop over `c.items()`. */
  function CameraStrings(c: Props): Props {
    PyDict.FromPairs(Seqs.Map(c, StrField))
  }

  /** One camera after its inner loop. */
  function CameraCopy(c: Json): Json {
    if c.JObj? then JObj(CameraStrings(c.fields)) else c
  }

  /**
    `[f(c) for c in items]` over a list that must hold only objects: `None`
    once an item is not one.
  */
  function MapObjects<U>(items: seq<Json>, f: Json -> U): Option<seq<U>> {
    if items == [] then Some([])
    else
      match MapObjects(items[..|items| - 1], f)
      case None => None
      case Some(done) =>
        var c := items[|items| - 1];
        if c.JObj? then Some(done + [f(c)]) else None
  }

  /**
    `cams` after the loop over the cameras: each camera converted in turn;
    `None` once one is not an object (`c.items()` raises).
  */
  function Cameras(items: seq<Json>): Option<seq<Json>> {
    MapObjects(items, CameraCopy)
  }

  /** `s["osm"]["osmid"] = str(...)` when there is an `osm` entry; `None` where the subscript raises. */
  function WithOsmId(s: Props): Option<Props> {
    match PyDict.Get(s, "osm")
    case None => Some(s)
    case Some(osm) =>
      if !osm.JObj? then None
      else
        match PyDict.Get(osm.fields, "osmid")
        case None => None
        case Some(id) => Some(PyDict.Set(s, "osm", JObj(PyDict.Set(osm.fields, "osmid", JStr(Str(id))))))
  }

  /**
    The cameras replaced by their converted copies when `s.get("cameras")`
    is true; iterating anything but a list of objects raises.
  */
  function WithCameras(s: Props): Option<Props> {
    match PyDict.Get(s, "cameras")
    case None => Some(s)
    case Some(cams) =>
      if !Truthy(cams) then Some(s)
      else if !cams.JArr? then None
      else
        match Cameras(cams.items)
        case None => None
        case Some(converted) => Some(PyDict.Set(s, "cameras", JArr(converted)))
  }

  /** `s["segment_id"] = str(s["segment_id"])`; the subscript raises when there is none. */
  function WithSegmentId(s: Props): Option<Props> {
    match PyDict.Get(s, "segment_id")
    case None => None
    case Some(id) => Some(PyDict.Set(s, "segment_id", JStr(Str(id))))
  }

  /** The in-place fixes of a record, in the order the script makes them. */
  datatype Fix = SegmentIdFix | OsmIdFix | CamerasFix

  const Fixes: seq<Fix> := [SegmentIdFix, OsmIdFix, CamerasFix]

  function FixOne(fix: Fix, s: Props): Option<Props> {
    match fix
    case SegmentIdFix => WithSegmentId(s)
    case OsmIdFix => WithOsmId(s)
    case CamerasFix => WithCameras(s)
  }

  /** The fixes applied in turn; `None` from the first that raises. */
  function FixAll(s: Props, fixes: seq<Fix>): Option<Props>
    decreases |fixes|
  {
    if fixes == [] then Some(s)
    else
      match FixOne(fixes[0], s)
      case None => None
      case Some(s') => FixAll(s', fixes[1..])
  }

  /** The record for one feature; `None` where the conversion raises (no `segment_id`, say). */
  function Record(lastUpdate: string, f: Feature): Option<Props> {
    FixAll(Base(lastUpdate, f), Fixes)
  }

  /** The record is the three fixes one after the other. */
  lemma RecordStages(lastUpdate: string, f: Feature)
    ensures Record(lastUpdate, f) ==
      match WithSegmentId(Base(lastUpdate, f))
      case None => None
      case Some(s1) =>
        match WithOsmId(s1)
        case None => None
        case Some(s2) => WithCameras(s2)
  {
    var s := Base(lastUpdate, f);
    FixFirst(s, Fixes);
    var o1 := WithSegmentId(s);
    if o1.Some? {
      FixFirst(o1.value, Fixes[1..]);
      var o2 := WithOsmId(o1.value);
      if o2.Some? {
        FixFirst(o2.value, Fixes[2..]);
        var o3 := WithCameras(o2.value);
        assert Fixes[2..][1..] == [];
        if o3.Some? {
          assert FixAll(o3.value, []) == o3;
        }
      }
    }
  }

  /** The first fix, then the others. */
  lemma FixFirst(s: Props, fixes: seq<Fix>)
    requires fixes != []
    ensures FixAll(s, fixes) == match FixOne(fixes[0], s) case None => None case Some(s') => FixAll(s', fixes[1..])
  {
  }



  /** `s.get("cameras") or s.get("eco-counter")`: the record is written. */
  predicate Emitted(s: Props) {
    Truthy(PyDict.Get(s, "cameras").GetOr(JNull)) || Truthy(PyDict.Get(s, "eco-counter").GetOr(JNull))
  }

  /** The inner loop for one camera. */
  method StringifyCamera(c: Props) returns (cs: Props)
    ensures cs == CameraStrings(c)
  {
    cs := [];
    for i := 0 to |c|
      invariant cs == PyDict.FromPairs(Seqs.Map(c[..i], StrField))
    {
      var (k, v) := c[i];
      Seqs.MapStep(c, i, StrField);
      var pairs := Seqs.Map(c[..i + 1], StrField);
      assert pairs[..|pairs| - 1] == Seqs.Map(c[..i], StrField);
      cs := PyDict.Set(cs, k, if StringKey(k) then JStr(Str(v)) else v);
    }
    assert c[..|c|] == c;
  }

  /** The loop over the cameras of one segment. */
  method ConvertCameras(items: seq<Json>) returns (r: Option<seq<Json>>)
    ensures r == Cameras(items)
  {
    var cams: seq<Json> := [];
    for i := 0 to |items|
      invariant Cameras(items[..i]) == Some(cams)
    {
      assert items[..i + 1][..i] == items[..i];
      if !items[i].JObj? {
        ObjectsStayRaised(items, CameraCopy, i + 1);
        return None;
      }
      var cs := StringifyCamera(items[i].fields);
      cams := cams + [JObj(cs)];
    }
    assert items[..|items|] == items;
    return Some(cams);
  }

  /** Once an item has raised, the whole loop has. */
  lemma {:induction false} ObjectsStayRaised<U>(items: seq<Json>, f: Json -> U, i: nat)
    requires i <= |items| && MapObjects(items[..i], f).None?
    ensures MapObjects(items, f).None?
  {
    if i < |items| {
      var init := items[..|items| - 1];
      assert init[..i] == items[..i];
      ObjectsStayRaised(init, f, i);
    } else {
      assert items[..i] == items;
    }
  }

  /** The loop raises exactly when some item is not an object. */
  lemma {:induction false} ObjectsRaise<U>(items: seq<Json>, f: Json -> U)
    ensures MapObjects(items, f).None? <==> exists i :: 0 <= i < |items| && !items[i].JObj?
  {
    if items != [] {
      var n := |items| - 1;
      var init := items[..n];
      ObjectsRaise(init, f);
      if MapObjects(init, f).None? {
        var j :| 0 <= j < |init| && !init[j].JObj?;
        assert items[j] == init[j];
      } else if items[n].JObj? {
        forall i | 0 <= i < |items|
          ensures items[i].JObj?
        {
          if i < n {
            assert items[i] == init[i];
          }
        }
      }
    }
  }

  /** Otherwise it gives every item, in order, through `f`. */
  lemma {:induction false} ObjectsMapped<U>(items: seq<Json>, f: Json -> U)
    ensures MapObjects(items, f).Some? ==>
      |MapObjects(items, f).value| == |items| &&
      forall i :: 0 <= i < |items| ==> MapObjects(items, f).value[i] == f(items[i])
  {
    if items != [] && MapObjects(items, f).Some? {
      var n := |items| - 1;
      var init := items[..n];
      ObjectsMapped(init, f);
      forall i | 0 <= i < n
        ensures MapObjects(items, f).value[i] == f(items[i])
      {
        assert items[i] == init[i];
      }
    }
  }

  /**
    The cameras are converted exactly when all of them are objects, and then
    each keeps its place and has its `mac` and `_id` fields made strings.
  */
  lemma CamerasConverted(items: seq<Json>)
    ensures Cameras(items).None? <==> exists i :: 0 <= i < |items| && !items[i].JObj?
    ensures Cameras(items).Some? ==>
      |Cameras(items).value| == |items| &&
      forall i :: 0 <= i < |items| ==> Cameras(items).value[i] == JObj(CameraStrings(items[i].fields))
  {
    ObjectsRaise(items, CameraCopy);
    ObjectsMapped(items, CameraCopy);
  }

  /** The body of the loop over the features, up to the decision to write. */
  method Convert(lastUpdate: string, f: Feature) returns (r: Option<Props>)
    ensures r == Record(lastUpdate, f)
  {
    RecordStages(lastUpdate, f);
    var s := Base(lastUpdate, f);
    var id := PyDict.Get(s, "segment_id");
    if id.None? {
      return None;
    }
    s := PyDict.Set(s, "segment_id", JStr(Str(id.value)));
    var withOsm := WithOsmId(s);
    if withOsm.None? {
      return None;
    }
    s := withOsm.value;
    var cams := PyDict.Get(s, "cameras");
    if cams.Some? && Truthy(cams.value) {
      if !cams.value.JArr? {
        return None;
      }
      var converted := ConvertCameras(cams.value.items);
      if converted.None? {
        return None;
      }
      s := PyDict.Set(s, "cameras", JArr(converted.value));
    }
    return Some(s);
  }

  /** `k[-3:] in ("mac", "_id")` holds exactly for the keys that end in `mac` or `_id`. */
  lemma StringKeySuffix(k: string)
    ensures StringKey(k) <==> EndsWith(k, "mac") || EndsWith(k, "_id")
  {
    if |k| >= 3 {
      assert Slice(k, -3, |k|) == k[|k| - 3..];
    } else {
      assert |Slice(k, -3, |k|)| < 3;
    }
  }

  /**
    A camera whose keys are distinct keeps its keys in their order; the
    values of keys ending in `mac` or `_id` become strings, the others stay.
  */
  lemma CameraStringsFields(c: Props)
    requires PyDict.Valid(c)
    ensures |CameraStrings(c)| == |c|
    ensures forall i :: 0 <= i < |c| ==> CameraStrings(c)[i].0 == c[i].0
    ensures forall i :: 0 <= i < |c| ==>
      CameraStrings(c)[i].1 == if EndsWith(c[i].0, "mac") || EndsWith(c[i].0, "_id") then JStr(Str(c[i].1)) else c[i].1
  {
    var pairs := Seqs.Map(c, StrField);
    assert forall i :: 0 <= i < |c| ==> pairs[i].0 == c[i].0;
    PyDict.FromValidPairs(pairs);
    forall i | 0 <= i < |c| {
      StringKeySuffix(c[i].0);
    }
  }

  /**
    Before the conversion a record holds the feature's properties, and
    `last_update` and `geometry` where the properties do not set them.
  */
  lemma BaseFields(lastUpdate: string, f: Feature, k: string)
    ensures PyDict.Get(Base(lastUpdate, f), k) ==
      if PyDict.HasKey(f.properties, k) then PyDict.GetLast(f.properties, k)
      else if k == "last_update" then Some(JStr(lastUpdate))
      else if k == "geometry" then Some(f.geometry)
      else None
  {
    var head: Props := [("last_update", JStr(lastUpdate)), ("geometry", f.geometry)];
    assert head[0].0 != head[1].0;
    assert PyDict.Get(head, "last_update") == Some(JStr(lastUpdate));
    assert PyDict.Get(head, "geometry") == Some(f.geometry);
    assert k != "last_update" && k != "geometry" ==> !PyDict.HasKey(head, k);
  }

  /** Making `osmid` a string raises exactly when `osm` is there but is not an object with an `osmid`. */
  lemma OsmIdRaises(s: Props)
    ensures var osm := PyDict.Get(s, "osm");
      WithOsmId(s).None? <==> osm.Some? && (!osm.value.JObj? || PyDict.Get(osm.value.fields, "osmid").None?)
  {
  }

  /** It changes the `osmid` of the `osm` entry and nothing else. */
  lemma OsmIdFields(s: Props, k: string)
    requires WithOsmId(s).Some?
    ensures k != "osm" ==> PyDict.Get(WithOsmId(s).value, k) == PyDict.Get(s, k)
    ensures PyDict.Get(s, "osm").None? ==> WithOsmId(s).value == s
    ensures var osm := PyDict.Get(s, "osm");
      var osm' := PyDict.Get(WithOsmId(s).value, "osm");
      osm.Some? ==>
        osm.value.JObj? && PyDict.Get(osm.value.fields, "osmid").Some? && osm'.Some? && osm'.value.JObj? &&
        PyDict.Get(osm'.value.fields, "osmid") == Some(JStr(Str(PyDict.Get(osm.value.fields, "osmid").value))) &&
        (k != "osmid" ==> PyDict.Get(osm'.value.fields, k) == PyDict.Get(osm.value.fields, k))
  {
  }

  /** Converting the cameras raises exactly when they are true but not a list of objects. */
  lemma CamerasRaise(s: Props)
    ensures var cams := PyDict.Get(s, "cameras");
      WithCameras(s).None? <==>
        cams.Some? && Truthy(cams.value) &&
        (!cams.value.JArr? || exists i :: 0 <= i < |cams.value.items| && !cams.value.items[i].JObj?)
  {
    var cams := PyDict.Get(s, "cameras");
    if cams.Some? && cams.value.JArr? {
      CamerasConverted(cams.value.items);
    }
  }

  /**
    It changes only `cameras`: true cameras come out as a list of as many
    objects, in order, each with its fields converted.
  */
  lemma CamerasFields(s: Props, k: string)
    requires WithCameras(s).Some?
    ensures k != "cameras" ==> PyDict.Get(WithCameras(s).value, k) == PyDict.Get(s, k)
    ensures var cams := PyDict.Get(s, "cameras");
      var cams' := PyDict.Get(WithCameras(s).value, "cameras");
      if cams.Some? && Truthy(cams.value) then
        cams.value.JArr? && cams'.Some? && cams'.value.JArr? && |cams'.value.items| == |cams.value.items| &&
        forall i :: 0 <= i < |cams.value.items| ==>
          cams.value.items[i].JObj? && cams'.value.items[i] == JObj(CameraStrings(cams.value.items[i].fields))
      else cams' == cams
  {
    var cams := PyDict.Get(s, "cameras");
    if cams.Some? && cams.value.JArr? {
      CamerasConverted(cams.value.items);
    }
  }

  /** The record with its `segment_id` made a string, before `osm` and the cameras. */
  lemma Stringified(lastUpdate: string, f: Feature) returns (s1: Props)
    requires PyDict.Get(Base(lastUpdate, f), "segment_id").Some?
    ensures var s := Base(lastUpdate, f);
      s1 == PyDict.Set(s, "segment_id", JStr(Str(PyDict.Get(s, "segment_id").value))) &&
      Record(lastUpdate, f) == (match WithOsmId(s1) case None => None case Some(s2) => WithCameras(s2))
  {
    var s := Base(lastUpdate, f);
    s1 := PyDict.Set(s, "segment_id", JStr(Str(PyDict.Get(s, "segment_id").value)));
    RecordStages(lastUpdate, f);
  }

  /**
    Converting a feature raises exactly when it has no `segment_id`, when
    its `osm` entry is not an object with an `osmid`, or when its cameras
    are true but not a list of objects.
  */
  lemma RecordRaises(lastUpdate: string, f: Feature)
    ensures var s := Base(lastUpdate, f);
      var osm := PyDict.Get(s, "osm");
      var cams := PyDict.Get(s, "cameras");
      Record(lastUpdate, f).None? <==>
        PyDict.Get(s, "segment_id").None? ||
        (osm.Some? && (!osm.value.JObj? || PyDict.Get(osm.value.fields, "osmid").None?)) ||
        (cams.Some? && Truthy(cams.value) &&
          (!cams.value.JArr? || exists i :: 0 <= i < |cams.value.items| && !cams.value.items[i].JObj?))
  {
    var s := Base(lastUpdate, f);
    RecordStages(lastUpdate, f);
    if PyDict.Get(s, "segment_id").Some? {
      var s1 := Stringified(lastUpdate, f);
      OsmIdRaises(s1);
      if WithOsmId(s1).Some? {
        var s2 := WithOsmId(s1).value;
        OsmIdFields(s1, "cameras");
        CamerasRaise(s2);
      }
    }
  }

  /**
    A converted record has its `segment_id` as a string and every key other
    than `osm` and the cameras, `last_update` among them, as before.
  */
  lemma RecordKeys(lastUpdate: string, f: Feature, k: string)
    requires Record(lastUpdate, f).Some?
    ensures var s := Base(lastUpdate, f);
      var r := Record(lastUpdate, f).value;
      PyDict.Get(s, "segment_id").Some? &&
      PyDict.Get(r, "segment_id") == Some(JStr(Str(PyDict.Get(s, "segment_id").value))) &&
      (k != "segment_id" && k != "osm" && k != "cameras" ==> PyDict.Get(r, k) == PyDict.Get(s, k))
  {
    var s1 := Stringified(lastUpdate, f);
    var s2 := WithOsmId(s1).value;
    OsmIdFields(s1, k);
    OsmIdFields(s1, "segment_id");
    CamerasFields(s2, k);
    CamerasFields(s2, "segment_id");
  }

  /** The `osmid` of a record's `osm` entry becomes a string; its other fields stay. */
  lemma RecordOsm(lastUpdate: string, f: Feature, k: string)
    requires Record(lastUpdate, f).Some?
    ensures var osm := PyDict.Get(Base(lastUpdate, f), "osm");
      var osm' := PyDict.Get(Record(lastUpdate, f).value, "osm");
      osm.Some? ==>
        osm.value.JObj? && PyDict.Get(osm.value.fields, "osmid").Some? && osm'.Some? && osm'.value.JObj? &&
        PyDict.Get(osm'.value.fields, "osmid") == Some(JStr(Str(PyDict.Get(osm.value.fields, "osmid").value))) &&
        (k != "osmid" ==> PyDict.Get(osm'.value.fields, k) == PyDict.Get(osm.value.fields, k))
  {
    var s1 := Stringified(lastUpdate, f);
    var s2 := WithOsmId(s1).value;
    OsmIdFields(s1, k);
    CamerasFields(s2, "osm");
  }

  /**
    True cameras come out as a list of as many objects, in order, each with
    its fields converted; other values of `cameras` stay.
  */
  lemma RecordCameras(lastUpdate: string, f: Feature)
    requires Record(lastUpdate, f).Some?
    ensures var cams := PyDict.Get(Base(lastUpdate, f), "cameras");
      var cams' := PyDict.Get(Record(lastUpdate, f).value, "cameras");
      if cams.Some? && Truthy(cams.value) then
        cams.value.JArr? && cams'.Some? && cams'.value.JArr? && |cams'.value.items| == |cams.value.items| &&
        forall i :: 0 <= i < |cams.value.items| ==>
          cams.value.items[i].JObj? && cams'.value.items[i] == JObj(CameraStrings(cams.value.items[i].fields))
      else cams' == cams
  {
    var s1 := Stringified(lastUpdate, f);
    var s2 := WithOsmId(s1).value;
    OsmIdFields(s1, "cameras");
    CamerasFields(s2, "cameras");
  }

  /** Whether a record is written does not change with its conversion. */
  lemma RecordEmitted(lastUpdate: string, f: Feature)
    requires Record(lastUpdate, f).Some?
    ensures Emitted(Record(lastUpdate, f).value) <==> Emitted(Base(lastUpdate, f))
  {
    var s := Base(lastUpdate, f);
    var s1 := Stringified(lastUpdate, f);
    var s2 := WithOsmId(s1).value;
    SameEmitted(s, s1);
    OsmIdFields(s1, "cameras");
    OsmIdFields(s1, "eco-counter");
    SameEmitted(s1, s2);
    CamerasEmitted(s2);
  }

  /** Two records that agree on `cameras` and `eco-counter` are both written or both not. */
  lemma SameEmitted(s: Props, s': Props)
    requires PyDict.Get(s, "cameras") == PyDict.Get(s', "cameras")
    requires PyDict.Get(s, "eco-counter") == PyDict.Get(s', "eco-counter")
    ensures Emitted(s) <==> Emitted(s')
  {
  }

  /** Converting the cameras keeps them true or false. */
  lemma CamerasEmitted(s: Props)
    requires WithCameras(s).Some?
    ensures Emitted(WithCameras(s).value) <==> Emitted(s)
  {
    CamerasFields(s, "cameras");
    CamerasFields(s, "eco-counter");
  }

  // ---------------------------------------------------------------------
  // One Kibana file
  // ---------------------------------------------------------------------

  /**
    The lines written for the records of a file in turn, and whether one
    raised (`None`); the lines written before it stay in the file.
  */
  function Written(records: seq<Option<Props>>): (seq<Props>, bool) {
    if records == [] then ([], false)
    else if records[0].None? then ([], true)
    else
      var s := records[0].value;
      var rest := Written(records[1..]);
      ((if Emitted(s) then [s] else []) + rest.0, rest.1)
  }

  function RecordOf(lastUpdate: string): Feature -> Option<Props> {
    f => Record(lastUpdate, f)
  }

  /** The records of a file's features, one per feature. */
  function Records(lastUpdate: string, features: seq<Feature>): seq<Option<Props>> {
    Seqs.Map(features, RecordOf(lastUpdate))
  }

  /** What the loop over the features of one file writes. */
  function Export(lastUpdate: string, features: seq<Feature>): (seq<Props>, bool) {
    Written(Records(lastUpdate, features))
  }

  /** One step of `Written`, from position `i` on. */
  lemma WrittenStep(records: seq<Option<Props>>, i: nat)
    requires i < |records|
    ensures records[i].None? ==> Written(records[i..]) == ([], true)
    ensures records[i].Some? ==>
      Written(records[i..]).0 == (if Emitted(records[i].value) then [records[i].value] else []) + Written(records[i + 1..]).0 &&
      Written(records[i..]).1 == Written(records[i + 1..]).1
  {
    assert records[i..][0] == records[i] && records[i..][1..] == records[i + 1..];
  }

  /** The loop invariant of `ExportFile` carried past a record that did not raise. */
  lemma WrittenAdvance(records: seq<Option<Props>>, i: nat, lines: seq<Props>, s: Props)
    requires i < |records| && records[i] == Some(s)
    requires Written(records).0 == lines + Written(records[i..]).0
    requires Written(records).1 == Written(records[i..]).1
    ensures var lines' := if Emitted(s) then lines + [s] else lines;
      Written(records).0 == lines' + Written(records[i + 1..]).0 &&
      Written(records).1 == Written(records[i + 1..]).1
  {
    WrittenStep(records, i);
    var rest := Written(records[i + 1..]).0;
    if Emitted(s) {
      assert lines + ([s] + rest) == (lines + [s]) + rest;
    } else {
      assert [] + rest == rest;
    }
  }

  /** The loop over the features of one GeoJSON file, writing one line per kept record. */
  method ExportFile(lastUpdate: string, features: seq<Feature>) returns (lines: seq<Props>, failed: bool)
    ensures lines == Export(lastUpdate, features).0 && failed == Export(lastUpdate, features).1
  {
    ghost var records := Records(lastUpdate, features);
    lines := [];
    var i := 0;
    assert records[i..] == records;
    while i < |features|
      invariant 0 <= i <= |features|
      invariant Written(records).0 == lines + Written(records[i..]).0
      invariant Written(records).1 == Written(records[i..]).1
    {
      var s := Convert(lastUpdate, features[i]);
      assert s == records[i];
      if s.None? {
        WrittenStep(records, i);
        return lines, true;
      }
      WrittenAdvance(records, i, lines, s.value);
      if Emitted(s.value) {
        lines := lines + [s.value];
      }
      i := i + 1;
    }
    assert records[i..] == [];
    return lines, false;
  }

  function Value(record: Option<Props>): Props {
    record.GetOr([])
  }

  /** Writing fails exactly when some record raised. */
  lemma {:induction false} WrittenFails(records: seq<Option<Props>>)
    ensures Written(records).1 <==> exists j :: 0 <= j < |records| && records[j].None?
  {
    if records != [] && records[0].Some? {
      var rest := records[1..];
      WrittenFails(rest);
      assert forall j :: 1 <= j < |records| ==> records[j] == rest[j - 1];
    }
  }

  /** When nothing raises, the lines are the records that are written, in order. */
  lemma {:induction false} WrittenAll(records: seq<Option<Props>>)
    requires forall j :: 0 <= j < |records| ==> records[j].Some?
    ensures Written(records).0 == Seqs.Filter(Seqs.Map(records, Value), Emitted)
  {
    if records != [] {
      var rest := records[1..];
      WrittenAll(rest);
      MapFirst(records);
      var v := records[0].value;
      Seqs.FilterAppend([v], Seqs.Map(rest, Value), Emitted);
      FilterOne(v);
    }
  }

  lemma MapFirst(records: seq<Option<Props>>)
    requires records != [] && records[0].Some?
    ensures Seqs.Map(records, Value) == [records[0].value] + Seqs.Map(records[1..], Value)
  {
    var m := Seqs.Map(records, Value);
    var rest := Seqs.Map(records[1..], Value);
    assert forall i :: 1 <= i < |records| ==> m[i] == rest[i - 1];
    assert m[0] == records[0].value;
  }

  lemma FilterOne(v: Props)
    ensures Seqs.Filter([v], Emitted) == if Emitted(v) then [v] else []
  {
    assert [v][..0] == [];
  }

  /** When the record at `j` is the first to raise, the lines are those of the records before it. */
  lemma {:induction false} WrittenStops(records: seq<Option<Props>>, j: nat)
    requires j < |records| && records[j].None?
    requires forall i :: 0 <= i < j ==> records[i].Some?
    ensures Written(records) == (Written(records[..j]).0, true)
  {
    if j > 0 {
      var rest := records[1..];
      WrittenStops(rest, j - 1);
      assert records[..j][1..] == rest[..j - 1];
    }
  }

  /** A file fails exactly when one of its features cannot be converted. */
  lemma ExportFails(lastUpdate: string, features: seq<Feature>)
    ensures Export(lastUpdate, features).1 <==>
      exists j :: 0 <= j < |features| && Record(lastUpdate, features[j]).None?
  {
    var records := Records(lastUpdate, features);
    WrittenFails(records);
    assert forall j :: 0 <= j < |features| ==> records[j] == Record(lastUpdate, features[j]);
  }

  /**
    When every feature converts, the file holds the converted records that
    have cameras or an eco-counter, in the order of the features.
  */
  lemma ExportComplete(lastUpdate: string, features: seq<Feature>)
    requires forall j :: 0 <= j < |features| ==> Record(lastUpdate, features[j]).Some?
    ensures Export(lastUpdate, features).0 == Seqs.Filter(Seqs.Map(Records(lastUpdate, features), Value), Emitted)
  {
    var records := Records(lastUpdate, features);
    assert forall j :: 0 <= j < |features| ==> records[j] == Record(lastUpdate, features[j]);
    WrittenAll(records);
  }

  /**
    When the feature at `j` is the first that cannot be converted, the file
    keeps the lines of the features before it and the script stops.
  */
  lemma ExportStops(lastUpdate: string, features: seq<Feature>, j: nat)
    requires j < |features| && Record(lastUpdate, features[j]).None?
    requires forall i :: 0 <= i < j ==> Record(lastUpdate, features[i]).Some?
    ensures Export(lastUpdate, features) == (Export(lastUpdate, features[..j]).0, true)
  {
    var records := Records(lastUpdate, features);
    assert forall i :: 0 <= i < |features| ==> records[i] == Record(lastUpdate, features[i]);
    WrittenStops(records, j);
    assert records[..j] == Records(lastUpdate, features[..j]);
  }

  // ---------------------------------------------------------------------
  // Every GeoJSON file
  // ---------------------------------------------------------------------

  /** The results of files written in turn, up to and including the first that failed. */
  function Stopped<T>(results: seq<(T, bool)>): seq<(T, bool)> {
    if results == [] then []
    else [results[0]] + (if results[0].1 then [] else Stopped(results[1..]))
  }

  /**
    Every result is kept in turn until the first failure, which is the
    last one kept.
  */
  lemma {:induction false} StoppedInTurn<T>(results: seq<(T, bool)>)
    ensures var out := Stopped(results);
      |out| <= |results| &&
      (forall i :: 0 <= i < |out| ==> out[i] == results[i]) &&
      (forall i :: 0 <= i < |out| - 1 ==> !out[i].1) &&
      (|out| < |results| ==> out != [] && out[|out| - 1].1)
  {
    if results != [] {
      var rest := results[1..];
      StoppedInTurn(rest);
      assert forall i :: 1 <= i < |results| ==> results[i] == rest[i - 1];
    }
  }

  lemma StoppedStep<T>(results: seq<(T, bool)>, i: nat)
    requires i < |results|
    ensures Stopped(results[i..]) == [results[i]] + (if results[i].1 then [] else Stopped(results[i + 1..]))
  {
    assert results[i..][0] == results[i] && results[i..][1..] == results[i + 1..];
  }

  /** The loop invariant of `ExportAll` carried past a file that did not fail. */
  lemma StoppedAdvance<T>(results: seq<(T, bool)>, i: nat, out: seq<(T, bool)>)
    requires i < |results| && !results[i].1
    requires Stopped(results) == out + Stopped(results[i..])
    ensures Stopped(results) == (out + [results[i]]) + Stopped(results[i + 1..])
  {
    StoppedStep(results, i);
    assert out + ([results[i]] + Stopped(results[i + 1..])) == (out + [results[i]]) + Stopped(results[i + 1..]);
  }

  /** The loop invariant of `ExportAll` before the first file. */
  lemma StoppedStart<T>(results: seq<(T, bool)>)
    ensures Stopped(results) == [] + Stopped(results[0..])
  {
    assert results[0..] == results;
  }

  /** The loop invariant of `ExportAll` at a file that failed: the output ends with it. */
  lemma StoppedFail<T>(results: seq<(T, bool)>, i: nat, out: seq<(T, bool)>)
    requires i < |results| && results[i].1
    requires Stopped(results) == out + Stopped(results[i..])
    ensures Stopped(results) == out + [results[i]]
  {
    StoppedStep(results, i);
    assert [results[i]] + [] == [results[i]];
  }

  /** The loop invariant of `ExportAll` past the last file. */
  lemma StoppedEnd<T>(results: seq<(T, bool)>, out: seq<(T, bool)>)
    requires Stopped(results) == out + Stopped(results[|results|..])
    ensures Stopped(results) == out
  {
    assert results[|results|..] == [];
    assert out + [] == out;
  }

  function ExportOf(lastUpdate: string): seq<Feature> -> (seq<Props>, bool) {
    features => Export(lastUpdate, features)
  }

  /**
    The Kibana files written for the GeoJSON files in turn: a file that
    fails ends the script, so no later file is written.
  */
  function Exports(lastUpdate: string, files: seq<seq<Feature>>): seq<(seq<Props>, bool)> {
    Stopped(Seqs.Map(files, ExportOf(lastUpdate)))
  }

  /**
    The whole export after an update: `last_update` is taken once, then
    every GeoJSON file gets its Kibana file.
  */
  method ExportAll(now: Instant, files: seq<seq<Feature>>) returns (out: seq<(seq<Props>, bool)>)
    requires ValidInstant(now)
    ensures out == Exports(LastUpdateMinutes(now), files)
  {
    var lastUpdate := LastUpdateMinutes(now);
    ghost var results := Seqs.Map(files, ExportOf(lastUpdate));
    out := [];
    var i := 0;
    StoppedStart(results);
    while i < |files|
      invariant 0 <= i <= |files|
      invariant Stopped(results) == out + Stopped(results[i..])
    {
      var lines, failed := ExportFile(lastUpdate, files[i]);
      assert (lines, failed) == results[i];
      if failed {
        StoppedFail(results, i, out);
        return out + [(lines, true)];
      }
      StoppedAdvance(results, i, out);
      out := out + [(lines, false)];
      i := i + 1;
    }
    StoppedEnd(results, out);
  }
}
