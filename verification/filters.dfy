/**
 * The sidebar filters, applied in order: activity type, gear, date range,
 * distance range. Each keeps an order-preserving subsequence of its input,
 * and each is skipped when its column role was not detected.
 */
module Filters {
  import opened Wrappers
  import opened Seqs
  import opened Schema
  import opened Preprocess

  /** One activity, projected onto the columns the filters read; `None` is a missing value. */
  datatype Row = Row(
    date: Option<DateTime>,
    activity: Option<string>,
    gear: Option<string>,
    distance: Option<real>)

  /** The values the sidebar widgets return. */
  datatype FilterState = FilterState(
    activities: set<Option<string>>,   // may hold the missing value: `isin` matches NaN to NaN
    gear: set<string>,                 // chosen among the present gear values
    dateBounds: seq<int>,              // zero, one or two calendar days
    distanceLow: real,
    distanceHigh: real)

  // ---------------------------------------------------------------- activity type

  /** `df[activity_col].unique()`, the options and the default selection. */
  function ActivityOptions(rows: seq<Row>): set<Option<string>> {
    set x | x in rows :: x.activity
  }

  predicate ActivityOk(x: Row, role: Option<string>, selected: set<Option<string>>) {
    role.Some? ==> x.activity in selected
  }

  function ActivityFilter(rows: seq<Row>, role: Option<string>, selected: set<Option<string>>): (r: seq<Row>)
    ensures IsSubseq(r, rows)
    ensures role.None? ==> r == rows
    ensures role.Some? ==> forall x :: x in r <==> x in rows && x.activity in selected
    ensures role.Some? ==>
              forall x :: multiset(r)[x] == if x.activity in selected then multiset(rows)[x] else 0
  {
    if role.None? then SubseqReflexive(rows); rows
    else
      SelectCounts(rows, (x: Row) => x.activity in selected);
      Select(rows, (x: Row) => x.activity in selected)
  }

  lemma ActivityFilterIsSelect(rows: seq<Row>, role: Option<string>, selected: set<Option<string>>)
    ensures ActivityFilter(rows, role, selected) == Select(rows, x => ActivityOk(x, role, selected))
  {
    if role.None? {
      SelectAll(rows, x => ActivityOk(x, role, selected));
    } else {
      SelectExt(rows, (x: Row) => x.activity in selected, x => ActivityOk(x, role, selected));
    }
  }

  lemma ActivityFilterIdempotent(rows: seq<Row>, role: Option<string>, selected: set<Option<string>>)
    ensures ActivityFilter(ActivityFilter(rows, role, selected), role, selected)
            == ActivityFilter(rows, role, selected)
  {
    if role.Some? {
      SelectIdempotent(rows, (x: Row) => x.activity in selected);
    }
  }

  /** The default selection, every distinct value, keeps every row. */
  lemma ActivityDefaultKeepsAll(rows: seq<Row>, role: Option<string>)
    ensures ActivityFilter(rows, role, ActivityOptions(rows)) == rows
  {
    if role.Some? {
      SelectAll(rows, (x: Row) => x.activity in ActivityOptions(rows));
    }
  }

  /** Deselecting every activity type empties the table. */
  lemma ActivityEmptySelection(rows: seq<Row>, role: Option<string>)
    requires role.Some?
    ensures ActivityFilter(rows, role, {}) == []
  {
    SelectNone(rows, (x: Row) => x.activity in {});
  }

  // ---------------------------------------------------------------- gear

  /** `[x for x in df[gear_col].unique() if pd.notna(x)]`. */
  function GearOptions(rows: seq<Row>): set<string> {
    set x | x in rows && x.gear.Some? :: x.gear.value
  }

  /** The gear filter runs only when the role exists and some row has gear. */
  predicate GearActive(rows: seq<Row>, role: Option<string>) {
    role.Some? && GearOptions(rows) != {}
  }

  predicate GearOk(x: Row, active: bool, selected: set<string>) {
    active ==> x.gear.Some? && x.gear.value in selected
  }

  function GearFilter(rows: seq<Row>, role: Option<string>, selected: set<string>): (r: seq<Row>)
    ensures IsSubseq(r, rows)
    ensures !GearActive(rows, role) ==> r == rows
    ensures GearActive(rows, role) ==>
              forall x :: x in r <==> x in rows && x.gear.Some? && x.gear.value in selected
    ensures GearActive(rows, role) ==>
              forall x :: multiset(r)[x] == if x.gear.Some? && x.gear.value in selected
                                            then multiset(rows)[x] else 0
  {
    if !GearActive(rows, role) then SubseqReflexive(rows); rows
    else
      SelectCounts(rows, (x: Row) => x.gear.Some? && x.gear.value in selected);
      Select(rows, (x: Row) => x.gear.Some? && x.gear.value in selected)
  }

  lemma GearFilterIsSelect(rows: seq<Row>, role: Option<string>, selected: set<string>)
    ensures GearFilter(rows, role, selected)
            == Select(rows, x => GearOk(x, GearActive(rows, role), selected))
  {
    var active := GearActive(rows, role);
    if !active {
      SelectAll(rows, x => GearOk(x, active, selected));
    } else {
      SelectExt(rows, (x: Row) => x.gear.Some? && x.gear.value in selected, x => GearOk(x, active, selected));
    }
  }

  /** An active gear filter never keeps an activity with no gear, whatever is selected. */
  lemma GearFilterDropsMissingGear(rows: seq<Row>, role: Option<string>, selected: set<string>, x: Row)
    requires GearActive(rows, role)
    requires x in GearFilter(rows, role, selected)
    ensures x.gear.Some?
  {
  }

  /** Even the default selection, every gear option, drops the activities with no gear. */
  lemma GearDefaultDropsMissingGear(rows: seq<Row>, role: Option<string>)
    requires GearActive(rows, role)
    ensures GearFilter(rows, role, GearOptions(rows)) == Select(rows, (x: Row) => x.gear.Some?)
  {
    SelectExt(rows, (x: Row) => x.gear.Some? && x.gear.value in GearOptions(rows), (x: Row) => x.gear.Some?);
  }

  lemma GearFilterIdempotent(rows: seq<Row>, role: Option<string>, selected: set<string>)
    ensures GearFilter(GearFilter(rows, role, selected), role, selected)
            == GearFilter(rows, role, selected)
  {
    var once := GearFilter(rows, role, selected);
    if GearActive(rows, role) && GearActive(once, role) {
      SelectIdempotent(rows, (x: Row) => x.gear.Some? && x.gear.value in selected);
    }
  }

  // ---------------------------------------------------------------- date range

  /** `lo <= date.dt.date <= hi`; a missing date compares false. */
  predicate InDateRange(x: Row, lo: int, hi: int) {
    x.date.Some? && lo <= x.date.value.day <= hi
  }

  predicate DateOk(x: Row, role: Option<string>, bounds: seq<int>) {
    role.Some? && |bounds| == 2 ==> InDateRange(x, bounds[0], bounds[1])
  }

  /** Skipped unless the date picker returned exactly two days. */
  function DateFilter(rows: seq<Row>, role: Option<string>, bounds: seq<int>): (r: seq<Row>)
    ensures IsSubseq(r, rows)
    ensures role.None? || |bounds| != 2 ==> r == rows
    ensures role.Some? && |bounds| == 2 ==>
              forall x :: x in r <==> x in rows && x.date.Some?
                                      && bounds[0] <= x.date.value.day <= bounds[1]
    ensures role.Some? && |bounds| == 2 ==>
              forall x :: multiset(r)[x] == if InDateRange(x, bounds[0], bounds[1])
                                            then multiset(rows)[x] else 0
  {
    if role.None? || |bounds| != 2 then SubseqReflexive(rows); rows
    else
      var lo, hi := bounds[0], bounds[1];
      SelectCounts(rows, x => InDateRange(x, lo, hi));
      Select(rows, x => InDateRange(x, lo, hi))
  }

  lemma DateFilterIsSelect(rows: seq<Row>, role: Option<string>, bounds: seq<int>)
    ensures DateFilter(rows, role, bounds) == Select(rows, x => DateOk(x, role, bounds))
  {
    if role.None? || |bounds| != 2 {
      SelectAll(rows, x => DateOk(x, role, bounds));
    } else {
      var lo, hi := bounds[0], bounds[1];
      SelectExt(rows, x => InDateRange(x, lo, hi), x => DateOk(x, role, bounds));
    }
  }

  lemma DateFilterIdempotent(rows: seq<Row>, role: Option<string>, bounds: seq<int>)
    ensures DateFilter(DateFilter(rows, role, bounds), role, bounds) == DateFilter(rows, role, bounds)
  {
    if role.Some? && |bounds| == 2 {
      var lo, hi := bounds[0], bounds[1];
      SelectIdempotent(rows, x => InDateRange(x, lo, hi));
    }
  }

  /** The earliest and latest calendar day present, the date picker's default range. */
  function DaySpan(rows: seq<Row>): (r: Option<(int, int)>)
    ensures r.None? <==> forall x :: x in rows ==> x.date.None?
    ensures r.Some? ==> forall x :: x in rows && x.date.Some? ==> r.value.0 <= x.date.value.day <= r.value.1
    ensures r.Some? ==> exists x :: x in rows && x.date.Some? && x.date.value.day == r.value.0
    ensures r.Some? ==> exists x :: x in rows && x.date.Some? && x.date.value.day == r.value.1
  {
    if |rows| == 0 then None
    else
      assert rows == [rows[0]] + rows[1..];
      var rest := DaySpan(rows[1..]);
      match rows[0].date
      case None => rest
      case Some(t) =>
        match rest
        case None => Some((t.day, t.day))
        case Some(span) =>
          Some((if t.day < span.0 then t.day else span.0, if t.day > span.1 then t.day else span.1))
  }

  /** With the default range, every dated activity survives and the undated ones are dropped. */
  lemma DateDefaultKeepsDated(rows: seq<Row>, role: Option<string>)
    requires role.Some? && DaySpan(rows).Some?
    ensures DateFilter(rows, role, [DaySpan(rows).value.0, DaySpan(rows).value.1])
            == Select(rows, (x: Row) => x.date.Some?)
  {
    var span := DaySpan(rows).value;
    SelectExt(rows, x => InDateRange(x, span.0, span.1), (x: Row) => x.date.Some?);
  }

  // ---------------------------------------------------------------- distance range

  /** `lo <= distance <= hi`; a missing distance compares false. */
  predicate InDistanceRange(x: Row, lo: real, hi: real) {
    x.distance.Some? && lo <= x.distance.value <= hi
  }

  predicate DistanceOk(x: Row, role: Option<string>, lo: real, hi: real) {
    role.Some? ==> InDistanceRange(x, lo, hi)
  }

  function DistanceFilter(rows: seq<Row>, role: Option<string>, lo: real, hi: real): (r: seq<Row>)
    ensures IsSubseq(r, rows)
    ensures role.None? ==> r == rows
    ensures role.Some? ==>
              forall x :: x in r <==> x in rows && x.distance.Some? && lo <= x.distance.value <= hi
    ensures role.Some? ==>
              forall x :: multiset(r)[x] == if InDistanceRange(x, lo, hi) then multiset(rows)[x] else 0
  {
    if role.None? then SubseqReflexive(rows); rows
    else
      SelectCounts(rows, x => InDistanceRange(x, lo, hi));
      Select(rows, x => InDistanceRange(x, lo, hi))
  }

  lemma DistanceFilterIsSelect(rows: seq<Row>, role: Option<string>, lo: real, hi: real)
    ensures DistanceFilter(rows, role, lo, hi) == Select(rows, x => DistanceOk(x, role, lo, hi))
  {
    if role.None? {
      SelectAll(rows, x => DistanceOk(x, role, lo, hi));
    } else {
      SelectExt(rows, x => InDistanceRange(x, lo, hi), x => DistanceOk(x, role, lo, hi));
    }
  }

  lemma DistanceFilterIdempotent(rows: seq<Row>, role: Option<string>, lo: real, hi: real)
    ensures DistanceFilter(DistanceFilter(rows, role, lo, hi), role, lo, hi)
            == DistanceFilter(rows, role, lo, hi)
  {
    if role.Some? {
      SelectIdempotent(rows, x => InDistanceRange(x, lo, hi));
    }
  }

  /** The smallest and largest distance present, the slider's default range. */
  function DistanceSpan(rows: seq<Row>): (r: Option<(real, real)>)
    ensures r.None? <==> forall x :: x in rows ==> x.distance.None?
    ensures r.Some? ==> forall x :: x in rows && x.distance.Some? ==> r.value.0 <= x.distance.value <= r.value.1
    ensures r.Some? ==> exists x :: x in rows && x.distance.Some? && x.distance.value == r.value.0
    ensures r.Some? ==> exists x :: x in rows && x.distance.Some? && x.distance.value == r.value.1
  {
    if |rows| == 0 then None
    else
      assert rows == [rows[0]] + rows[1..];
      var rest := DistanceSpan(rows[1..]);
      match rows[0].distance
      case None => rest
      case Some(d) =>
        match rest
        case None => Some((d, d))
        case Some(span) =>
          Some((if d < span.0 then d else span.0, if d > span.1 then d else span.1))
  }

  /** With the default range, every activity with a distance survives; those without are dropped. */
  lemma DistanceDefaultKeepsMeasured(rows: seq<Row>, role: Option<string>)
    requires role.Some? && DistanceSpan(rows).Some?
    ensures DistanceFilter(rows, role, DistanceSpan(rows).value.0, DistanceSpan(rows).value.1)
            == Select(rows, (x: Row) => x.distance.Some?)
  {
    var span := DistanceSpan(rows).value;
    SelectExt(rows, x => InDistanceRange(x, span.0, span.1), (x: Row) => x.distance.Some?);
  }

  // ---------------------------------------------------------------- the whole pipeline

  function ApplyFilters(rows: seq<Row>, roles: Roles, st: FilterState): seq<Row> {
    var byActivity := ActivityFilter(rows, roles.activity, st.activities);
    var byGear := GearFilter(byActivity, roles.gear, st.gear);
    var byDate := DateFilter(byGear, roles.date, st.dateBounds);
    DistanceFilter(byDate, roles.distance, st.distanceLow, st.distanceHigh)
  }

  /** Whether the gear step runs: decided on the rows left after the activity step. */
  predicate PipelineGearActive(rows: seq<Row>, roles: Roles, st: FilterState) {
    GearActive(ActivityFilter(rows, roles.activity, st.activities), roles.gear)
  }

  /** A row passes every active step. */
  predicate Admits(x: Row, roles: Roles, st: FilterState, gearActive: bool) {
    && ActivityOk(x, roles.activity, st.activities)
    && GearOk(x, gearActive, st.gear)
    && DateOk(x, roles.date, st.dateBounds)
    && DistanceOk(x, roles.distance, st.distanceLow, st.distanceHigh)
  }

  /** The pipeline keeps, in order, exactly the rows every active step admits. */
  lemma PipelineIsConjunction(rows: seq<Row>, roles: Roles, st: FilterState)
    ensures ApplyFilters(rows, roles, st)
            == Select(rows, x => Admits(x, roles, st, PipelineGearActive(rows, roles, st)))
  {
    var g := PipelineGearActive(rows, roles, st);
    var byActivity := ActivityFilter(rows, roles.activity, st.activities);
    var byGear := GearFilter(byActivity, roles.gear, st.gear);
    var byDate := DateFilter(byGear, roles.date, st.dateBounds);
    var pa := x => ActivityOk(x, roles.activity, st.activities);
    var pg := x => GearOk(x, g, st.gear);
    var pd := x => DateOk(x, roles.date, st.dateBounds);
    var pn := x => DistanceOk(x, roles.distance, st.distanceLow, st.distanceHigh);
    var pag := x => pa(x) && pg(x);
    var pagd := x => pag(x) && pd(x);
    ActivityFilterIsSelect(rows, roles.activity, st.activities);
    GearFilterIsSelect(byActivity, roles.gear, st.gear);
    SelectSelect(rows, pa, pg, pag);
    DateFilterIsSelect(byGear, roles.date, st.dateBounds);
    SelectSelect(rows, pag, pd, pagd);
    DistanceFilterIsSelect(byDate, roles.distance, st.distanceLow, st.distanceHigh);
    SelectSelect(rows, pagd, pn, x => Admits(x, roles, st, g));
  }

  /** Re-applying the same filter state to its own output changes nothing. */
  lemma PipelineIdempotent(rows: seq<Row>, roles: Roles, st: FilterState)
    ensures ApplyFilters(ApplyFilters(rows, roles, st), roles, st) == ApplyFilters(rows, roles, st)
  {
    var out := ApplyFilters(rows, roles, st);
    var g := PipelineGearActive(rows, roles, st);
    var g' := PipelineGearActive(out, roles, st);
    PipelineIsConjunction(rows, roles, st);
    PipelineIsConjunction(out, roles, st);
    var first := ActivityFilter(rows, roles.activity, st.activities);
    var again := ActivityFilter(out, roles.activity, st.activities);
    if !g && roles.gear.Some? {
      forall y | y in again && y.gear.Some?
        ensures y.gear.value in GearOptions(first)
      {
        assert y in first;
      }
      assert GearOptions(again) <= GearOptions(first);
    }
    assert g' ==> g;
    forall x | x in out
      ensures Admits(x, roles, st, g')
    {
    }
    SelectAll(out, x => Admits(x, roles, st, g'));
  }
}
