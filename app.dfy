/**
  The selection rules of the dashboard (`app.py`): the date range is clamped
  to the data of the selected street, the filter toggles become one SQL
  query over the traffic table, the map keeps the segments that match the
  toggles, the hardware selection is normalised, the street id is taken
  apart again, and the comparison chart falls back to two years.
  Database queries, the clock and translations are parameters.
*/
module App {
  import opened Wrappers
  import opened Strings
  import Seqs
  import BzmGetData

  // ---------------------------------------------------------------------
  // `get_min_max_str`: the date range against the street's data
  // ---------------------------------------------------------------------

  /** The dates to show, the message and whether the selection was changed. */
  datatype Clamped = Clamped(start: string, end: string, message: string, missing: bool)

  /**
    Python's `a <= b` on two strings: `b` does not sort before `a`
    (`LexCompare` shows this is `LexLe`).
  */
  predicate NotAfter(a: string, b: string) {
    !LexLess(b, a)
  }

  /**
    The selected range against the first and last date of the street's
    data (the two `SELECT min/max(date_local)` results); dates compare as
    strings.
  */
  function MinMaxStr(start: string, end: string, minDate: string, maxDate: string): Clamped {
    if LexLess(maxDate, start) || LexLess(end, minDate) then
      Clamped(minDate, maxDate, "Dates out of range", true)
    else if NotAfter(minDate, start) && NotAfter(start, maxDate) && LexLess(maxDate, end) then
      Clamped(start, maxDate, "End date out of range", true)
    else if NotAfter(minDate, end) && NotAfter(end, maxDate) && LexLess(start, minDate) then
      Clamped(minDate, end, "Start date out of range", true)
    else if LexLess(start, minDate) || LexLess(maxDate, end) then
      Clamped(minDate, maxDate, "Narrowed down range", true)
    else
      Clamped(start, end, "none", false)
  }

  /** `lo <= d <= hi` as strings. */
  predicate Within(d: string, lo: string, hi: string) {
    NotAfter(lo, d) && NotAfter(d, hi)
  }

  /** `a <= b` is `b < a` negated: the two orders agree. */
  lemma LexCompare(a: string, b: string)
    ensures NotAfter(a, b) <==> LexLe(a, b)
  {
    LexTotal(a, b);
    LexIrreflexive(a);
    if LexLess(a, b) && LexLess(b, a) {
      LexTransitive(a, b, a);
    }
  }

  /** Both dates returned lie in the street's range. */
  lemma ClampedWithin(start: string, end: string, minDate: string, maxDate: string)
    requires NotAfter(minDate, maxDate)
    ensures Within(MinMaxStr(start, end, minDate, maxDate).start, minDate, maxDate)
    ensures Within(MinMaxStr(start, end, minDate, maxDate).end, minDate, maxDate)
  {
    LexIrreflexive(minDate);
    LexIrreflexive(maxDate);
  }

  /** Nothing is reported, and the dates stay, exactly when both already lie in the range. */
  lemma ClampedUnchanged(start: string, end: string, minDate: string, maxDate: string)
    ensures var r := MinMaxStr(start, end, minDate, maxDate);
      !r.missing <==> Within(start, minDate, maxDate) && Within(end, minDate, maxDate)
    ensures var r := MinMaxStr(start, end, minDate, maxDate);
      !r.missing ==> r.start == start && r.end == end && r.message == "none"
  {
  }

  /** `'Dates out of range'` exactly when the ranges do not meet; then both dates are reset. */
  lemma ClampedDisjoint(start: string, end: string, minDate: string, maxDate: string)
    ensures var r := MinMaxStr(start, end, minDate, maxDate);
      (r.message == "Dates out of range" <==> LexLess(maxDate, start) || LexLess(end, minDate)) &&
      (r.message == "Dates out of range" ==> r.start == minDate && r.end == maxDate)
  {
  }

  /**
    `'End date out of range'` exactly when the ranges meet, the start is in
    range and the end is late; then only the end is reset.
  */
  lemma ClampedEndLate(start: string, end: string, minDate: string, maxDate: string)
    ensures var r := MinMaxStr(start, end, minDate, maxDate);
      (r.message == "End date out of range" <==>
        Within(start, minDate, maxDate) && NotAfter(minDate, end) && LexLess(maxDate, end)) &&
      (r.message == "End date out of range" ==> r.start == start && r.end == maxDate)
  {
  }

  /**
    `'Start date out of range'` exactly when the start is early and the end
    is in range; then only the start is reset.
  */
  lemma ClampedStartEarly(start: string, end: string, minDate: string, maxDate: string)
    ensures var r := MinMaxStr(start, end, minDate, maxDate);
      (r.message == "Start date out of range" <==>
        NotAfter(start, maxDate) && LexLess(start, minDate) && Within(end, minDate, maxDate)) &&
      (r.message == "Start date out of range" ==> r.start == minDate && r.end == end)
  {
  }

  /**
    `'Narrowed down range'` exactly when the ranges meet and the selection
    starts before and ends after the street's data; then both dates are
    reset.
  */
  lemma ClampedNarrowed(start: string, end: string, minDate: string, maxDate: string)
    ensures var r := MinMaxStr(start, end, minDate, maxDate);
      (r.message == "Narrowed down range" <==>
        !LexLess(maxDate, start) && !LexLess(end, minDate) && LexLess(start, minDate) && LexLess(maxDate, end)) &&
      (r.message == "Narrowed down range" ==> r.start == minDate && r.end == maxDate)
  {
  }

  // ---------------------------------------------------------------------
  // `update_graphs`: the `filtered_traffic` query
  // ---------------------------------------------------------------------

  predicate UptimeOn(toggle: seq<string>) {
    toggle == ["filter_uptime_selected"]
  }

  predicate ActiveOn(toggle: seq<string>) {
    toggle == ["filter_active_selected"]
  }

  const CreateTable := "CREATE OR REPLACE TEMP TABLE "
  const FilteredAs := "filtered_traffic AS "
  const SelectAll := "SELECT * "
  const FromAll := "FROM all_traffic "
  const QueryHead := CreateTable + FilteredAs + SelectAll + FromAll

  /** The conditions the filters can put on the traffic table. */
  datatype Condition = Uptime | Active | HardwareOne | HardwareTwo

  const LastPackage := "CAST(last_data_package_naive"
  const AsDate := " AS DATE) >= "

  /** The SQL text of a condition. */
  function Sql(c: Condition): string {
    match c
    case Uptime => "uptime > 0.7"
    case Active => LastPackage + AsDate + "?"
    case HardwareOne => "hardware_version = 1"
    case HardwareTwo => "hardware_version = 2"
  }

  /** How many values a condition binds: only the active filter takes one. */
  function Binds(c: Condition): nat {
    if c == Active then 1 else 0
  }

  /** `sum(f(c) for c in cs)` */
  function SumOf<C>(cs: seq<C>, f: C -> nat): nat {
    if cs == [] then 0 else f(cs[0]) + SumOf(cs[1..], f)
  }

  /** The conditions the toggles ask for, in the order the query states them. */
  function Conditions(uptime: seq<string>, active: seq<string>, hardware: seq<int>): seq<Condition> {
    (if UptimeOn(uptime) then [Uptime] else []) +
    (if ActiveOn(active) then [Active] else []) +
    (if hardware == [1] then [HardwareOne] else if hardware == [2] then [HardwareTwo] else [])
  }

  /** `AND c ` for each condition text. */
  function AndClauses(texts: seq<string>): string {
    if texts == [] then "" else "AND " + texts[0] + " " + AndClauses(texts[1..])
  }

  /** One `WHERE` before the first condition text and `AND` before each other one. */
  function WhereClause(texts: seq<string>): string {
    if texts == [] then "" else "WHERE " + texts[0] + " " + AndClauses(texts[1..])
  }

  /** The query for a list of conditions. */
  function Query(conds: seq<Condition>): string {
    QueryHead + WhereClause(Seqs.Map(conds, Sql))
  }

  /** Adding one more condition writes `WHERE` if it is the first, `AND` otherwise. */
  lemma {:induction false} WhereAppend(conds: seq<string>, c: string)
    ensures WhereClause(conds + [c]) == WhereClause(conds) + (if conds == [] then "WHERE " else "AND ") + c + " "
  {
    if conds != [] {
      assert (conds + [c])[1..] == conds[1..] + [c];
      AndAppend(conds[1..], c);
    }
  }

  lemma {:induction false} AndAppend(conds: seq<string>, c: string)
    ensures AndClauses(conds + [c]) == AndClauses(conds) + "AND " + c + " "
  {
    if conds != [] {
      assert (conds + [c])[1..] == conds[1..] + [c];
      AndAppend(conds[1..], c);
    }
  }

  /** The first condition is written after `WHERE`. */
  lemma FirstClause<C>(query: string, head: string, c: C, text: C -> string)
    requires query == head
    ensures query + "WHERE " + text(c) + " " == head + WhereClause(Seqs.Map([c], text))
  {
    WhereAppend([], text(c));
    assert Seqs.Map([c], text) == [text(c)];
  }

  /** Each further condition is written after `AND`. */
  lemma NextClause<C>(query: string, head: string, conds: seq<C>, c: C, text: C -> string)
    requires conds != [] && query == head + WhereClause(Seqs.Map(conds, text))
    ensures query + "AND " + text(c) + " " == head + WhereClause(Seqs.Map(conds + [c], text))
  {
    WhereAppend(Seqs.Map(conds, text), text(c));
    assert Seqs.Map(conds + [c], text) == Seqs.Map(conds, text) + [text(c)];
  }

  /** The hardware condition that `hardware` selects, if any. */
  function HardwareConds(hardware: seq<int>): seq<Condition> {
    if hardware == [1] then [HardwareOne] else if hardware == [2] then [HardwareTwo] else []
  }

  /** The hardware filter after a first condition: `AND hardware_version = n`. */
  method AndHardware(query: string, ghost conds: seq<Condition>, hardware: seq<int>)
    returns (query': string, ghost conds': seq<Condition>)
    requires conds != [] && query == Query(conds)
    ensures conds' == conds + HardwareConds(hardware) && query' == Query(conds')
  {
    query', conds' := query, conds;
    if hardware == [1] {
      NextClause(query, QueryHead, conds, HardwareOne, Sql);
      query' := query + "AND " + Sql(HardwareOne) + " ";
      conds' := conds + [HardwareOne];
    } else if hardware == [2] {
      NextClause(query, QueryHead, conds, HardwareTwo, Sql);
      query' := query + "AND " + Sql(HardwareTwo) + " ";
      conds' := conds + [HardwareTwo];
    } else {
      assert conds + [] == conds;
    }
  }

  /** The query and its parameters as `update_graphs` builds them with `+=`. */
  method FilterQuery(uptime: seq<string>, active: seq<string>, hardware: seq<int>, twoWeeksAgo: string)
    returns (query: string, params: seq<string>)
    ensures query == Query(Conditions(uptime, active, hardware))
    ensures params == if ActiveOn(active) then [twoWeeksAgo] else []
  {
    ghost var u: seq<Condition> := if UptimeOn(uptime) then [Uptime] else [];
    ghost var a: seq<Condition> := if ActiveOn(active) then [Active] else [];
    ghost var h: seq<Condition> := HardwareConds(hardware);
    query := QueryHead;
    params := [];
    ghost var conds: seq<Condition> := [];
    if UptimeOn(uptime) {
      FirstClause(query, QueryHead, Uptime, Sql);
      query := query + "WHERE " + Sql(Uptime) + " ";
      conds := conds + [Uptime];
      if ActiveOn(active) {
        NextClause(query, QueryHead, conds, Active, Sql);
        query := query + "AND " + Sql(Active) + " ";
        conds := conds + [Active];
        params := [twoWeeksAgo];
      }
      assert conds == u + a;
      query, conds := AndHardware(query, conds, hardware);
    } else {
      if ActiveOn(active) {
        FirstClause(query, QueryHead, Active, Sql);
        query := query + "WHERE " + Sql(Active) + " ";
        conds := conds + [Active];
        params := [twoWeeksAgo];
        assert conds == u + a;
        query, conds := AndHardware(query, conds, hardware);
      } else {
        assert conds == u + a;
        if hardware == [1] {
          FirstClause(query, QueryHead, HardwareOne, Sql);
          query := query + "WHERE " + Sql(HardwareOne) + " ";
          conds := conds + [HardwareOne];
        } else if hardware == [2] {
          FirstClause(query, QueryHead, HardwareTwo, Sql);
          query := query + "WHERE " + Sql(HardwareTwo) + " ";
          conds := conds + [HardwareTwo];
        }
      }
    }
    assert conds == u + a + h;
  }

  /** How often `c` occurs in `s`. */
  function Count(c: char, s: string): nat {
    multiset(s)[c]
  }

  lemma NoPlaceholder(s: string)
    requires '?' !in s
    ensures Count('?', s) == 0
  {
    assert '?' !in multiset(s);
  }

  lemma UptimePlaceholders()
    ensures Count('?', Sql(Uptime)) == 0
  {
    NoPlaceholder(Sql(Uptime));
  }

  lemma LastPackagePlaceholders()
    ensures Count('?', LastPackage) == 0
  {
    NoPlaceholder(LastPackage);
  }

  lemma AsDatePlaceholders()
    ensures Count('?', AsDate) == 0
  {
    NoPlaceholder(AsDate);
  }

  lemma ActivePlaceholders()
    ensures Count('?', Sql(Active)) == 1
  {
    LastPackagePlaceholders();
    AsDatePlaceholders();
  }

  lemma HardwareOnePlaceholders()
    ensures Count('?', Sql(HardwareOne)) == 0
  {
    NoPlaceholder(Sql(HardwareOne));
  }

  lemma HardwareTwoPlaceholders()
    ensures Count('?', Sql(HardwareTwo)) == 0
  {
    NoPlaceholder(Sql(HardwareTwo));
  }

  /** The text of a condition has one `?` for each value it binds. */
  lemma SqlPlaceholders(c: Condition)
    ensures Count('?', Sql(c)) == Binds(c)
  {
    match c
    case Uptime => UptimePlaceholders();
    case Active => ActivePlaceholders();
    case HardwareOne => HardwareOnePlaceholders();
    case HardwareTwo => HardwareTwoPlaceholders();
  }

  lemma KeywordPlaceholders()
    ensures Count('?', "WHERE ") == 0 && Count('?', "AND ") == 0 && Count('?', " ") == 0
  {
    NoPlaceholder("WHERE ");
    NoPlaceholder("AND ");
    NoPlaceholder(" ");
  }

  lemma CreateTablePlaceholders()
    ensures Count('?', CreateTable) == 0
  {
    NoPlaceholder(CreateTable);
  }

  lemma FilteredAsPlaceholders()
    ensures Count('?', FilteredAs) == 0
  {
    NoPlaceholder(FilteredAs);
  }

  lemma SelectAllPlaceholders()
    ensures Count('?', SelectAll) == 0
  {
    NoPlaceholder(SelectAll);
  }

  lemma FromAllPlaceholders()
    ensures Count('?', FromAll) == 0
  {
    NoPlaceholder(FromAll);
  }

  lemma QueryHeadPlaceholders()
    ensures Count('?', QueryHead) == 0
  {
    CreateTablePlaceholders();
    FilteredAsPlaceholders();
    SelectAllPlaceholders();
    FromAllPlaceholders();
  }

  /** The placeholders of the condition texts, one after the other. */
  function Placeholders(texts: seq<string>): nat {
    if texts == [] then 0 else Count('?', texts[0]) + Placeholders(texts[1..])
  }

  /** The keywords add no placeholder: the clauses hold those of their conditions. */
  lemma {:induction false} AndPlaceholders(texts: seq<string>)
    ensures Count('?', AndClauses(texts)) == Placeholders(texts)
  {
    if texts != [] {
      AndPlaceholders(texts[1..]);
      KeywordPlaceholders();
    }
  }

  lemma WherePlaceholders(texts: seq<string>)
    ensures Count('?', WhereClause(texts)) == Placeholders(texts)
  {
    if texts != [] {
      AndPlaceholders(texts[1..]);
      KeywordPlaceholders();
    }
  }

  /** Texts holding one `?` for each value bound hold as many together. */
  lemma {:induction false} PlaceholdersMap<C>(cs: seq<C>, text: C -> string, binds: C -> nat)
    requires forall c :: Count('?', text(c)) == binds(c)
    ensures Placeholders(Seqs.Map(cs, text)) == SumOf(cs, binds)
  {
    if cs != [] {
      PlaceholdersMap(cs[1..], text, binds);
      assert Seqs.Map(cs, text)[1..] == Seqs.Map(cs[1..], text);
    }
  }

  lemma SqlBinds()
    ensures forall c :: Count('?', Sql(c)) == Binds(c)
  {
    forall c {
      SqlPlaceholders(c);
    }
  }

  lemma {:induction false} SumConcat<C>(a: seq<C>, b: seq<C>, f: C -> nat)
    ensures SumOf(a + b, f) == SumOf(a, f) + SumOf(b, f)
  {
    if a == [] {
      assert a + b == b;
    } else {
      assert (a + b)[0] == a[0];
      assert (a + b)[1..] == a[1..] + b;
      SumConcat(a[1..], b, f);
    }
  }

  /** The query holds one `?` for each value its conditions bind. */
  lemma QueryCount(conds: seq<Condition>)
    ensures Count('?', Query(conds)) == SumOf(conds, Binds)
  {
    QueryHeadPlaceholders();
    HeadPlaceholders(QueryHead, Seqs.Map(conds, Sql));
    TextPlaceholders(conds);
  }

  lemma HeadPlaceholders(head: string, texts: seq<string>)
    requires Count('?', head) == 0
    ensures Count('?', head + WhereClause(texts)) == Placeholders(texts)
  {
    WherePlaceholders(texts);
  }

  lemma TextPlaceholders(conds: seq<Condition>)
    ensures Placeholders(Seqs.Map(conds, Sql)) == SumOf(conds, Binds)
  {
    SqlBinds();
    PlaceholdersMap(conds, Sql, Binds);
  }

  /** Only the active filter binds a value. */
  lemma ConditionsBind(uptime: seq<string>, active: seq<string>, hardware: seq<int>)
    ensures SumOf(Conditions(uptime, active, hardware), Binds) == if ActiveOn(active) then 1 else 0
  {
    var u: seq<Condition> := if UptimeOn(uptime) then [Uptime] else [];
    var a: seq<Condition> := if ActiveOn(active) then [Active] else [];
    var h: seq<Condition> := if hardware == [1] then [HardwareOne] else if hardware == [2] then [HardwareTwo] else [];
    SumConcat(u, a, Binds);
    SumConcat(u + a, h, Binds);
  }

  /**
    The query has one `?` when the active toggle is on and none otherwise:
    as many as `update_graphs` passes parameters.
  */
  lemma QueryPlaceholders(uptime: seq<string>, active: seq<string>, hardware: seq<int>)
    ensures Count('?', Query(Conditions(uptime, active, hardware))) == if ActiveOn(active) then 1 else 0
  {
    QueryCount(Conditions(uptime, active, hardware));
    ConditionsBind(uptime, active, hardware);
  }

  /** Each condition is in the query exactly when its toggle asks for it. */
  lemma ConditionsFollowToggles(uptime: seq<string>, active: seq<string>, hardware: seq<int>)
    ensures Uptime in Conditions(uptime, active, hardware) <==> UptimeOn(uptime)
    ensures Active in Conditions(uptime, active, hardware) <==> ActiveOn(active)
    ensures HardwareOne in Conditions(uptime, active, hardware) <==> hardware == [1]
    ensures HardwareTwo in Conditions(uptime, active, hardware) <==> hardware == [2]
  {
  }

  // ---------------------------------------------------------------------
  // `update_map_data`: the rows drawn on the map
  // ---------------------------------------------------------------------

  /**
    A row of the segment map joined with the colour of its bike/car ratio:
    the segment id and the date of the last data package may be missing
    (NaN), the colour is missing for segments without traffic data.
  */
  datatype MapRow = MapRow(segmentId: Option<string>, hardware: int, lastDataPackage: Option<string>, color: Option<string>)

  const Inactive := "Inactive - no data"

  predicate HasSegment(r: MapRow) {
    r.segmentId.Some?
  }

  /** Segments without camera information count as hardware version 1. */
  function Normal(r: MapRow): MapRow {
    if r.hardware == 0 then r.(hardware := 1) else r
  }

  /** A missing colour is shown as inactive. */
  function Fill(r: MapRow): MapRow {
    if r.color.None? then r.(color := Some(Inactive)) else r
  }

  /** `last_data_package >= two_weeks_ago`; a missing date compares false. */
  predicate Recent(r: MapRow, twoWeeksAgo: string) {
    r.lastDataPackage.Some? && NotAfter(twoWeeksAgo, r.lastDataPackage.value)
  }

  /** The segments with a recent data package. */
  function ActiveIds(rows: seq<MapRow>, twoWeeksAgo: string): set<Option<string>> {
    set r | r in rows && HasSegment(r) && Recent(r, twoWeeksAgo) :: r.segmentId
  }

  /** Dropping the rows without a segment and normalising the hardware version. */
  function Segmented(rows: seq<MapRow>): seq<MapRow> {
    Seqs.Map(Seqs.Filter(rows, HasSegment), Normal)
  }

  function ActiveStage(rows: seq<MapRow>, active: seq<string>, twoWeeksAgo: string): seq<MapRow> {
    if ActiveOn(active) then
      var ids := ActiveIds(rows, twoWeeksAgo);
      Seqs.Filter(rows, (r: MapRow) => r.segmentId in ids)
    else
      rows
  }

  function HardwareStage(rows: seq<MapRow>, hardware: seq<int>): seq<MapRow> {
    if hardware == [1] then Seqs.Filter(rows, (r: MapRow) => r.hardware == 1)
    else if hardware == [2] then Seqs.Filter(rows, (r: MapRow) => r.hardware == 2)
    else rows
  }

  /** `update_map_data`, the join with the colours done by the caller, the sort left out. */
  function MapData(rows: seq<MapRow>, active: seq<string>, hardware: seq<int>, twoWeeksAgo: string): seq<MapRow> {
    Seqs.Map(HardwareStage(ActiveStage(Segmented(rows), active, twoWeeksAgo), hardware), Fill)
  }

  predicate HardwareMatches(hardware: seq<int>, version: int) {
    (hardware == [1] ==> version == 1) && (hardware == [2] ==> version == 2)
  }

  /**
    Whether an input row is drawn: it has a segment, that segment has a
    recent data package when the active filter is on, and its (normalised)
    hardware version is the one selected.
  */
  predicate Kept(rows: seq<MapRow>, active: seq<string>, hardware: seq<int>, twoWeeksAgo: string, r: MapRow) {
    HasSegment(r) &&
    (ActiveOn(active) ==> r.segmentId in ActiveIds(rows, twoWeeksAgo)) &&
    HardwareMatches(hardware, Normal(r).hardware)
  }

  /** Dropping rows without a segment does not change the active segments. */
  lemma SegmentedActiveIds(rows: seq<MapRow>, twoWeeksAgo: string)
    ensures ActiveIds(Segmented(rows), twoWeeksAgo) == ActiveIds(rows, twoWeeksAgo)
  {
    var seg := Segmented(rows);
    var kept := Seqs.Filter(rows, HasSegment);
    Seqs.FilterMembers(rows, HasSegment);
    forall id | id in ActiveIds(seg, twoWeeksAgo)
      ensures id in ActiveIds(rows, twoWeeksAgo)
    {
      var x :| x in seg && HasSegment(x) && Recent(x, twoWeeksAgo) && x.segmentId == id;
      var i :| 0 <= i < |seg| && seg[i] == x;
      assert kept[i] in rows && Normal(kept[i]) == x;
    }
    forall id | id in ActiveIds(rows, twoWeeksAgo)
      ensures id in ActiveIds(seg, twoWeeksAgo)
    {
      var x :| x in rows && HasSegment(x) && Recent(x, twoWeeksAgo) && x.segmentId == id;
      var i :| 0 <= i < |rows| && rows[i] == x;
      var j :| 0 <= j < |kept| && kept[j] == x;
      assert seg[j] == Normal(x);
    }
  }

  /** How a kept row is drawn. */
  function Shown(r: MapRow): MapRow {
    Fill(Normal(r))
  }

  function KeptBy(rows: seq<MapRow>, active: seq<string>, hardware: seq<int>, twoWeeksAgo: string): MapRow -> bool {
    (r: MapRow) => Kept(rows, active, hardware, twoWeeksAgo, r)
  }

  function ActiveKeep(active: seq<string>, ids: set<Option<string>>): MapRow -> bool {
    (r: MapRow) => ActiveOn(active) ==> r.segmentId in ids
  }

  function HardwareKeep(hardware: seq<int>): MapRow -> bool {
    (r: MapRow) => HardwareMatches(hardware, r.hardware)
  }

  function BothKeep(active: seq<string>, ids: set<Option<string>>, hardware: seq<int>): MapRow -> bool {
    (r: MapRow) => ActiveKeep(active, ids)(r) && HardwareKeep(hardware)(r)
  }

  lemma ActiveStageFilter(rows: seq<MapRow>, active: seq<string>, twoWeeksAgo: string)
    ensures ActiveStage(rows, active, twoWeeksAgo) == Seqs.Filter(rows, ActiveKeep(active, ActiveIds(rows, twoWeeksAgo)))
  {
    var ids := ActiveIds(rows, twoWeeksAgo);
    if ActiveOn(active) {
      Seqs.FilterExt(rows, (r: MapRow) => r.segmentId in ids, ActiveKeep(active, ids));
    } else {
      Seqs.FilterAll(rows, ActiveKeep(active, ids));
    }
  }

  lemma HardwareStageFilter(rows: seq<MapRow>, hardware: seq<int>)
    ensures HardwareStage(rows, hardware) == Seqs.Filter(rows, HardwareKeep(hardware))
  {
    if hardware == [1] {
      Seqs.FilterExt(rows, (r: MapRow) => r.hardware == 1, HardwareKeep(hardware));
    } else if hardware == [2] {
      Seqs.FilterExt(rows, (r: MapRow) => r.hardware == 2, HardwareKeep(hardware));
    } else {
      Seqs.FilterAll(rows, HardwareKeep(hardware));
    }
  }

  /** The two filters of `update_map_data` in turn are one filter by both. */
  lemma StagesFilter(seg: seq<MapRow>, active: seq<string>, hardware: seq<int>, twoWeeksAgo: string)
    ensures HardwareStage(ActiveStage(seg, active, twoWeeksAgo), hardware) ==
      Seqs.Filter(seg, BothKeep(active, ActiveIds(seg, twoWeeksAgo), hardware))
  {
    var ids := ActiveIds(seg, twoWeeksAgo);
    ActiveStageFilter(seg, active, twoWeeksAgo);
    HardwareStageFilter(ActiveStage(seg, active, twoWeeksAgo), hardware);
    Seqs.FilterFilter(seg, ActiveKeep(active, ids), HardwareKeep(hardware), BothKeep(active, ids, hardware));
  }

  /** A row is kept when it has a segment and its normalised form passes both filters. */
  lemma KeptIsBoth(rows: seq<MapRow>, active: seq<string>, hardware: seq<int>, twoWeeksAgo: string)
    ensures forall x ::
      KeptBy(rows, active, hardware, twoWeeksAgo)(x) == (HasSegment(x) && BothKeep(active, ActiveIds(rows, twoWeeksAgo), hardware)(Normal(x)))
  {
    var ids := ActiveIds(rows, twoWeeksAgo);
    forall x: MapRow
      ensures KeptBy(rows, active, hardware, twoWeeksAgo)(x) == (HasSegment(x) && BothKeep(active, ids, hardware)(Normal(x)))
    {
      assert Normal(x).segmentId == x.segmentId;
      assert ActiveKeep(active, ids)(Normal(x)) == (ActiveOn(active) ==> x.segmentId in ids);
      assert HardwareKeep(hardware)(Normal(x)) == HardwareMatches(hardware, Normal(x).hardware);
    }
  }

  /**
    The map shows exactly the kept rows, each with its hardware version
    normalised and its colour filled in; they are in input order, as before
    the sort by colour for the legend, which is not part of this model.
  */
  lemma MapDataKept(rows: seq<MapRow>, active: seq<string>, hardware: seq<int>, twoWeeksAgo: string)
    ensures MapData(rows, active, hardware, twoWeeksAgo) ==
      Seqs.Map(Seqs.Filter(rows, KeptBy(rows, active, hardware, twoWeeksAgo)), Shown)
  {
    var seg := Segmented(rows);
    var ids := ActiveIds(rows, twoWeeksAgo);
    SegmentedActiveIds(rows, twoWeeksAgo);
    StagesFilter(seg, active, hardware, twoWeeksAgo);
    KeptIsBoth(rows, active, hardware, twoWeeksAgo);
    var kept := KeptBy(rows, active, hardware, twoWeeksAgo);
    Seqs.FilterMapFilter(rows, HasSegment, Normal, BothKeep(active, ids, hardware), kept);
    Seqs.MapMap(Seqs.Filter(rows, kept), Normal, Fill);
    Seqs.MapExt(Seqs.Filter(rows, kept), x => Fill(Normal(x)), Shown);
  }

  /**
    A row is drawn exactly when it is the drawn form of a kept input row,
    and every row drawn has a segment, a hardware version other than 0 that
    matches the selection, a colour, and a recent package when the active
    filter is on.
  */
  lemma MapDataRows(rows: seq<MapRow>, active: seq<string>, hardware: seq<int>, twoWeeksAgo: string)
    ensures forall x :: x in MapData(rows, active, hardware, twoWeeksAgo) <==>
      exists r :: r in rows && Kept(rows, active, hardware, twoWeeksAgo, r) && x == Shown(r)
    ensures forall x :: x in MapData(rows, active, hardware, twoWeeksAgo) ==>
      HasSegment(x) && x.hardware != 0 && x.color.Some? && HardwareMatches(hardware, x.hardware) &&
      (ActiveOn(active) ==> x.segmentId in ActiveIds(rows, twoWeeksAgo))
  {
    MapDataKept(rows, active, hardware, twoWeeksAgo);
    var kept := KeptBy(rows, active, hardware, twoWeeksAgo);
    Seqs.MapFilterMembers(rows, kept, Shown);
  }

  // ---------------------------------------------------------------------
  // `update_map`: the hardware selection
  // ---------------------------------------------------------------------

  const HardwareOneStreet := "Alte Jakobstraße (9000002582)"
  const HardwareTwoStreet := "Dresdener Straße (9000006667)"

  /**
    The street and the hardware selection after `update_map` has looked at
    the hardware version `currentHw` of the selected street: a street of the
    other version is replaced by a fixed street of the selected one, and a
    selection of both versions, or of none, becomes `[1, 2]`.
  */
  function SelectHardware(idStreet: string, hardware: seq<int>, currentHw: int): (string, seq<int>) {
    if hardware == [1] && currentHw == 2 then (HardwareOneStreet, hardware)
    else if hardware == [2] && currentHw == 1 then (HardwareTwoStreet, hardware)
    else if hardware == [1, 2] || hardware == [] || hardware == [2, 1] then (idStreet, [1, 2])
    else (idStreet, hardware)
  }

  /** The selection becomes `[1, 2]` exactly for `[]`, `[1, 2]` and `[2, 1]`; otherwise it stays. */
  lemma HardwareNormalised(idStreet: string, hardware: seq<int>, currentHw: int)
    ensures var r := SelectHardware(idStreet, hardware, currentHw);
      (hardware == [] || hardware == [1, 2] || hardware == [2, 1] ==> r.1 == [1, 2]) &&
      (hardware != [] && hardware != [1, 2] && hardware != [2, 1] ==> r.1 == hardware)
  {
  }

  /**
    The street changes only when one version is selected and the street is
    of the other; the new street is the fixed street of the selected version.
  */
  lemma StreetSwitched(idStreet: string, hardware: seq<int>, currentHw: int)
    ensures var r := SelectHardware(idStreet, hardware, currentHw);
      (hardware == [1] && currentHw == 2 ==> r.0 == HardwareOneStreet) &&
      (hardware == [2] && currentHw == 1 ==> r.0 == HardwareTwoStreet) &&
      (!(hardware == [1] && currentHw == 2) && !(hardware == [2] && currentHw == 1) ==> r.0 == idStreet)
  {
  }

  /** Applying the selection again to its own result changes nothing more. */
  lemma SelectHardwareIdempotent(idStreet: string, hardware: seq<int>, currentHw: int)
    requires !(hardware == [1] && currentHw == 2) && !(hardware == [2] && currentHw == 1)
    ensures var r := SelectHardware(idStreet, hardware, currentHw);
      SelectHardware(r.0, r.1, currentHw) == r
  {
  }

  /**
    The street kept selected once the dropdown offers only `options` (the
    sorted ids of the streets that are not inactive): a street not offered
    is replaced by the fixed street of its hardware version, or, for any
    other version, by the first option. `None` when that first option does
    not exist (the lookup fails).
  */
  function OfferedStreet(idStreet: string, options: seq<string>, currentHw: int): Option<string> {
    if idStreet in options then Some(idStreet)
    else if currentHw == 1 then Some(HardwareOneStreet)
    else if currentHw == 2 then Some(HardwareTwoStreet)
    else if options == [] then None
    else Some(options[0])
  }

  /**
    An offered street stays; otherwise the version's fixed street is taken,
    and for another version the first option, which fails only when nothing
    is offered. Whenever neither fixed street is taken, the result is offered.
  */
  lemma OfferedStreetKept(idStreet: string, options: seq<string>, currentHw: int)
    ensures idStreet in options ==> OfferedStreet(idStreet, options, currentHw) == Some(idStreet)
    ensures OfferedStreet(idStreet, options, currentHw).None? <==>
      idStreet !in options && currentHw != 1 && currentHw != 2 && options == []
    ensures idStreet !in options && currentHw == 1 ==> OfferedStreet(idStreet, options, currentHw) == Some(HardwareOneStreet)
    ensures idStreet !in options && currentHw == 2 ==> OfferedStreet(idStreet, options, currentHw) == Some(HardwareTwoStreet)
    ensures var r := OfferedStreet(idStreet, options, currentHw);
      r.Some? && r.value != HardwareOneStreet && r.value != HardwareTwoStreet ==> r.value in options
  {
  }

  // ---------------------------------------------------------------------
  // The street id `name (segment_id)` taken apart again
  // ---------------------------------------------------------------------

  /** `name + ' (' + segment_id + ')'`, as `update_map` puts a clicked street together. */
  function StreetId(name: string, segment: string): string {
    name + " (" + segment + ")"
  }

  /** `id_street[-11:-1]`: the ten characters before the closing parenthesis. */
  function SegmentOf(idStreet: string): string {
    Slice(idStreet, -11, -1)
  }

  /** `id_street.split(' (')[0]` */
  function StreetNameOf(idStreet: string): string {
    SplitFirst(idStreet, " (")
  }

  /**
    `street_name, segment_id = id[:-1].split(" (")`: the unpacking fails
    unless the separator occurs exactly once.
  */
  function InitialSplit(idStreet: string): Option<(string, string)> {
    var s := Slice(idStreet, 0, -1);
    match IndexOf(s, " (")
    case None => None
    case Some(i) =>
      if Contains(s[i + 2..], " (") then None else Some((s[..i], s[i + 2..]))
  }

  /** Digits hold no `" ("`. */
  lemma DigitsNoSeparator(seg: string)
    requires AllDigits(seg)
    ensures !Contains(seg, " (")
  {
    forall j | 0 <= j <= |seg|
      ensures !OccursAt(seg, " (", j)
    {
      if j + 2 <= |seg| {
        assert seg[j..j + 2][0] == seg[j];
      }
    }
  }

  /** In `name + " (" + rest` the first `" ("` is the one after the name. */
  lemma FirstSeparator(name: string, rest: string)
    requires !Contains(name, " (")
    ensures IndexOf(name + " (" + rest, " (") == Some(|name|)
  {
    var s := name + " (" + rest;
    assert s[|name|..|name| + 2] == " (";
    assert OccursAt(s, " (", |name|);
    forall j | 0 <= j < |name|
      ensures !OccursAt(s, " (", j)
    {
      if j + 2 <= |name| {
        assert s[j..j + 2] == name[j..j + 2];
        assert !OccursAt(name, " (", j);
      } else {
        assert s[j + 1] == ' ';
        assert s[j..j + 2][1] == s[j + 1];
      }
    }
  }

  /**
    A street id built from a name without `" ("` and ten digits gives the
    digits back as its segment, the name back as its street name, and both
    back from the initial split.
  */
  lemma StreetIdRoundTrip(name: string, segment: string)
    requires !Contains(name, " (") && |segment| == 10 && AllDigits(segment)
    ensures SegmentOf(StreetId(name, segment)) == segment
    ensures StreetNameOf(StreetId(name, segment)) == name
    ensures InitialSplit(StreetId(name, segment)) == Some((name, segment))
  {
    var id := StreetId(name, segment);
    assert id[|name| + 2..|id| - 1] == segment;
    var s := Slice(id, 0, -1);
    assert s == name + " (" + segment;
    FirstSeparator(name, segment + ")");
    assert id == name + " (" + (segment + ")");
    FirstSeparator(name, segment);
    assert s[|name| + 2..] == segment;
    assert s[..|name|] == name;
    assert id[..|name|] == name;
    DigitsNoSeparator(segment);
  }

  /** The ids `bzm_get_data` writes, with a ten-digit segment, take apart the same way. */
  lemma IdStreetRoundTrip(name: string, segmentId: nat)
    requires !Contains(name, " (") && |Digits(segmentId)| == 10
    ensures SegmentOf(BzmGetData.IdStreet(name, segmentId)) == Digits(segmentId)
    ensures StreetNameOf(BzmGetData.IdStreet(name, segmentId)) == name
    ensures InitialSplit(BzmGetData.IdStreet(name, segmentId)) == Some((name, Digits(segmentId)))
  {
    DigitsAreDigits(segmentId);
    assert BzmGetData.IdStreet(name, segmentId) == StreetId(name, Digits(segmentId));
    StreetIdRoundTrip(name, Digits(segmentId));
  }

  // ---------------------------------------------------------------------
  // `comparison_chart`: the two periods and their grouping
  // ---------------------------------------------------------------------

  /** The period type, the two period values, and whether to ask for exactly two. */
  datatype Periods = Periods(periodType: string, values: seq<string>, warn: bool)

  /**
    Anything but exactly two selected periods (`None` is no selection at
    all) falls back to the years 2025 and 2026.
  */
  function ComparedPeriods(periodType: string, values: Option<seq<string>>): Periods {
    if values.None? || values.value == [] || |values.value| != 2 then
      Periods("year", ["2025", "2026"], true)
    else
      Periods(periodType, values.value, false)
  }

  /** Two periods are always compared; the selection is kept exactly when it has two. */
  lemma ComparedPeriodsTwo(periodType: string, values: Option<seq<string>>)
    ensures |ComparedPeriods(periodType, values).values| == 2
    ensures var r := ComparedPeriods(periodType, values);
      !r.warn <==> values.Some? && |values.value| == 2
    ensures var r := ComparedPeriods(periodType, values);
      !r.warn ==> r.periodType == periodType && r.values == values.value
    ensures var r := ComparedPeriods(periodType, values);
      r.warn ==> r.periodType == "year" && r.values == ["2025", "2026"]
  {
  }

  /**
    The column to group by and the axis label for a period type; `tr` is
    the translation `_`, which the source applies to some of the names.
    `None` when no case applies (the variable is then never bound).
  */
  function GroupBy(periodType: string, tr: string -> string): Option<(string, string)> {
    if periodType == tr("year_month") then Some(("day", tr("Month")))
    else if periodType == "year_week" then Some((tr("weekday"), tr("Week")))
    else if periodType == "date" then Some(("hour", tr("Day")))
    else if periodType == "year" then Some((tr("month"), tr("Year")))
    else None
  }

  /**
    A grouping exists exactly for the four period types, and the fallback
    type `"year"` always has one.
  */
  lemma GroupByDefined(periodType: string, tr: string -> string)
    ensures GroupBy(periodType, tr).Some? <==>
      periodType == tr("year_month") || periodType == "year_week" || periodType == "date" || periodType == "year"
    ensures GroupBy("year", tr).Some?
  {
  }

  /** Untranslated, a year groups by month and a month by day. */
  lemma GroupByUntranslated()
    ensures GroupBy("year", s => s) == Some(("month", "Year"))
    ensures GroupBy("year_month", s => s) == Some(("day", "Month"))
    ensures GroupBy("year_week", s => s) == Some(("weekday", "Week"))
    ensures GroupBy("date", s => s) == Some(("hour", "Day"))
  {
  }
}
