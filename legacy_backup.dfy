/**
  The first Telraam backup script (`backup_data.py` beside the first
  datamodel): new cameras are attached to known segments, then the same
  window-by-window update, month loop and writers as the backend backup run
  over a fixed set of four modes.  What it shares with the backend is used
  from `Backup` and `BackupExport`; this module holds what differs.
*/
module LegacyBackup {
  import opened Wrappers
  import opened Datamodel
  import opened Strings
  import PyDict
  import BackupExport

  // ---------------------------------------------------------------------
  // `get_cameras`
  // ---------------------------------------------------------------------

  /** One element of the `cameras` list of `/v1/cameras`: its segment and its table. */
  datatype CameraEntry = CameraEntry(segmentId: int, table: CameraTable)

  /** Whether `get_cameras` attaches the camera of `e` to the segment `sid`. */
  predicate Attaches(e: CameraEntry, sid: int, stored: set<int>) {
    e.segmentId == sid && e.table.instanceId !in stored
  }

  /**
    The cameras `get_cameras` appends to segment `sid`, in reply order;
    `stored` holds the instance ids already in the database.
  */
  function NewCameras(entries: seq<CameraEntry>, sid: int, stored: set<int>, iso: string -> int): seq<Camera> {
    if entries == [] then []
    else
      var e := entries[|entries| - 1];
      NewCameras(entries[..|entries| - 1], sid, stored, iso) +
        (if Attaches(e, sid, stored) then [CameraOf(e.table, iso)] else [])
  }

  /**
    A camera is appended to a segment exactly when an entry names that
    segment and its instance id is not stored yet.
  */
  lemma {:induction false} NewCamerasExactly(entries: seq<CameraEntry>, sid: int, stored: set<int>, iso: string -> int)
    ensures forall c :: c in NewCameras(entries, sid, stored, iso) ==>
      c.id !in stored && exists e :: e in entries && Attaches(e, sid, stored) && c == CameraOf(e.table, iso)
    ensures forall e :: e in entries && Attaches(e, sid, stored) ==> CameraOf(e.table, iso) in NewCameras(entries, sid, stored, iso)
  {
    if entries != [] {
      var init := entries[..|entries| - 1];
      var e := entries[|entries| - 1];
      NewCamerasExactly(init, sid, stored, iso);
      assert forall x :: x in entries <==> x in init || x == e by {
        assert entries == init + [e];
      }
    }
  }

  /** No camera goes to a segment that is not in the dictionary. */
  lemma {:induction false} NewCamerasUnknown(entries: seq<CameraEntry>, segments: PyDict.Dict<int, Segment>, sid: int,
                                             stored: set<int>, iso: string -> int)
    requires forall e :: e in entries ==> PyDict.HasKey(segments, e.segmentId)
    requires !PyDict.HasKey(segments, sid)
    ensures NewCameras(entries, sid, stored, iso) == []
  {
    if entries != [] {
      var init := entries[..|entries| - 1];
      assert forall e :: e in init ==> e in entries;
      NewCamerasUnknown(init, segments, sid, stored, iso);
      assert entries[|entries| - 1] in entries;
    }
  }

  predicate DistinctSegments(segments: PyDict.Dict<int, Segment>) {
    forall i, j :: 0 <= i < j < |segments| ==> segments[i].1 != segments[j].1
  }

  /**
    `get_cameras`: every entry whose segment is in `segments` and whose
    camera is not stored yet is appended, as `Camera(entry)`, to that
    segment's cameras; nothing else changes.
  */
  method GetCameras(segments: PyDict.Dict<int, Segment>, entries: seq<CameraEntry>, stored: set<int>, iso: string -> int)
    requires PyDict.Valid(segments) && DistinctSegments(segments)
    modifies set i | 0 <= i < |segments| :: segments[i].1
    ensures forall i :: 0 <= i < |segments| ==>
      segments[i].1.cameras == old(segments[i].1.cameras) + NewCameras(entries, segments[i].0, stored, iso)
    ensures forall i :: 0 <= i < |segments| ==> CamerasOnly(segments[i].1)
  {
    var j := 0;
    while j < |entries|
      invariant 0 <= j <= |entries|
      invariant forall i :: 0 <= i < |segments| ==>
        segments[i].1.cameras == old(segments[i].1.cameras) + NewCameras(entries[..j], segments[i].0, stored, iso)
      invariant forall i :: 0 <= i < |segments| ==> CamerasOnly(segments[i].1)
    {
      assert entries[..j + 1][..j] == entries[..j];
      AttachCamera(segments, entries[j], stored, iso);
      j := j + 1;
    }
    assert entries[..j] == entries;
  }

  /** One entry of `get_cameras`: its camera goes to its segment, if known, unless stored. */
  method AttachCamera(segments: PyDict.Dict<int, Segment>, e: CameraEntry, stored: set<int>, iso: string -> int)
    requires PyDict.Valid(segments) && DistinctSegments(segments)
    modifies set i | 0 <= i < |segments| :: segments[i].1
    ensures forall i :: 0 <= i < |segments| ==>
      segments[i].1.cameras ==
        old(segments[i].1.cameras) + (if Attaches(e, segments[i].0, stored) then [CameraOf(e.table, iso)] else [])
    ensures forall i :: 0 <= i < |segments| ==> CamerasOnly(segments[i].1)
  {
    var idx := PyDict.KeyIndex(segments, e.segmentId);
    if idx.Some? && e.table.instanceId !in stored {
      AppendCamera(segments, idx.value, e.table, iso);
      forall i | 0 <= i < |segments| && i != idx.value ensures segments[i].0 != e.segmentId {
      }
    }
  }

  /** Appends the camera of `t` to the segment at position `k`; no other segment changes. */
  method AppendCamera(segments: PyDict.Dict<int, Segment>, k: nat, t: CameraTable, iso: string -> int)
    requires k < |segments| && DistinctSegments(segments)
    modifies segments[k].1
    ensures forall i :: 0 <= i < |segments| ==>
      segments[i].1.cameras == old(segments[i].1.cameras) + (if i == k then [CameraOf(t, iso)] else [])
    ensures forall i :: 0 <= i < |segments| ==> CamerasOnly(segments[i].1)
  {
    var s := segments[k].1;
    s.AddCamera(t, iso);
    forall i | 0 <= i < |segments|
      ensures segments[i].1.cameras == old(segments[i].1.cameras) + (if i == k then [CameraOf(t, iso)] else [])
      ensures CamerasOnly(segments[i].1)
    {
      if i != k {
        assert segments[i].1 != s;
      }
    }
  }

  /** Between the states before and after, only the cameras of `s` changed. */
  twostate predicate CamerasOnly(s: Segment)
    reads s
  {
    s.id == old(s.id) && s.lastDataUtc == old(s.lastDataUtc) && s.lastBackupUtc == old(s.lastBackupUtc) &&
    s.geom == old(s.geom) && s.counts == old(s.counts)
  }

  // ---------------------------------------------------------------------
  // The fixed columns
  // ---------------------------------------------------------------------

  /** The count classes of the first datamodel, as the value columns read them. */
  const Modes: seq<string> := ["pedestrian", "bike", "car", "heavy"]

  /** The 24 columns of every export of this script. */
  const Columns: seq<string> := [
    "segment_id", "date_local", "uptime",
    "ped_lft", "ped_rgt", "ped_total", "bike_lft", "bike_rgt", "bike_total",
    "car_lft", "car_rgt", "car_total", "heavy_lft", "heavy_rgt", "heavy_total",
    "v85", "car_speed0", "car_speed10", "car_speed20", "car_speed30",
    "car_speed40", "car_speed50", "car_speed60", "car_speed70"]

  /**
    `get_column_names`: the 24 columns, built by the shared column loop
    over the four modes.
  */
  method ColumnNames() returns (res: seq<string>)
    ensures res == Columns
  {
    res := BackupExport.ColumnNames(Modes);
    BackupExport.AllModeNamesFour(Modes);
    ModeNamesSpelled();
    ColumnsSplit();
  }

  /** The 24 columns, cut where the modes begin and end. */
  lemma ColumnsSplit()
    ensures Columns == BackupExport.Leading +
      (["ped_lft", "ped_rgt", "ped_total"] + ["bike_lft", "bike_rgt", "bike_total"] +
       ["car_lft", "car_rgt", "car_total"] + ["heavy_lft", "heavy_rgt", "heavy_total"]) +
      ["v85"] + BackupExport.SpeedNames
  {
  }

  lemma ModeNamesSpelled()
    ensures BackupExport.ModeNames("pedestrian") == ["ped_lft", "ped_rgt", "ped_total"]
    ensures BackupExport.ModeNames("bike") == ["bike_lft", "bike_rgt", "bike_total"]
    ensures BackupExport.ModeNames("car") == ["car_lft", "car_rgt", "car_total"]
    ensures BackupExport.ModeNames("heavy") == ["heavy_lft", "heavy_rgt", "heavy_total"]
  {
    ConcatSplit("ped", "_lft", "ped_lft");
    ConcatSplit("ped", "_rgt", "ped_rgt");
    ConcatSplit("ped", "_total", "ped_total");
    assert BackupExport.Prefix("bike") == "bike" by { assert |"bike"| != |"pedestrian"|; }
    ConcatSplit("bike", "_lft", "bike_lft");
    ConcatSplit("bike", "_rgt", "bike_rgt");
    ConcatSplit("bike", "_total", "bike_total");
    assert BackupExport.Prefix("car") == "car" by { assert |"car"| != |"pedestrian"|; }
    ConcatSplit("car", "_lft", "car_lft");
    ConcatSplit("car", "_rgt", "car_rgt");
    ConcatSplit("car", "_total", "car_total");
    assert BackupExport.Prefix("heavy") == "heavy" by { assert |"heavy"| != |"pedestrian"|; }
    ConcatSplit("heavy", "_lft", "heavy_lft");
    ConcatSplit("heavy", "_rgt", "heavy_rgt");
    ConcatSplit("heavy", "_total", "heavy_total");
  }

  /**
    `get_column_values` lines up with `get_column_names`: 24 values, the
    `ped` columns holding the `pedestrian` counts and their total, each mode
    in the columns of its name, `v85` in column 15.
  */
  lemma ValuesMatchColumns(tc: TrafficCount, localText: string, hist: seq<real>)
    requires |hist| == 8
    ensures var v := BackupExport.Values(tc, localText, Modes, hist);
      |v| == |Columns| == 24 &&
      v[3..6] == BackupExport.ModeCells(tc, "pedestrian") &&
      v[6..9] == BackupExport.ModeCells(tc, "bike") &&
      v[9..12] == BackupExport.ModeCells(tc, "car") &&
      v[12..15] == BackupExport.ModeCells(tc, "heavy") &&
      v[15] == BackupExport.OptCell(BackupExport.Attr(tc, "v85"))
  {
    BackupExport.ValuesMatchNames(tc, localText, Modes, hist);
    var v := BackupExport.Values(tc, localText, Modes, hist);
    assert v[3 + 3 * 0..6 + 3 * 0] == BackupExport.ModeCells(tc, Modes[0]);
    assert v[3 + 3 * 1..6 + 3 * 1] == BackupExport.ModeCells(tc, Modes[1]);
    assert v[3 + 3 * 2..6 + 3 * 2] == BackupExport.ModeCells(tc, Modes[2]);
    assert v[3 + 3 * 3..6 + 3 * 3] == BackupExport.ModeCells(tc, Modes[3]);
  }
}
