/**
 * The weekly-performance count: activities per day of the week, reindexed
 * onto the fixed Monday..Sunday order with 0 for days without activities.
 */
module Weekdays {
  import opened Wrappers
  import opened Seqs
  import opened Preprocess
  import opened Filters

  const DayOrder: seq<string> :=
    ["Monday", "Tuesday", "Wednesday", "Thursday", "Friday", "Saturday", "Sunday"]

  /** Position in `DayOrder` of a day counted from 1970-01-01, which was a Thursday. */
  function DayIndex(day: int): (k: nat)
    ensures k < |DayOrder|
  {
    (day + 3) % 7
  }

  /** `.dt.day_name()` of one timestamp. */
  function DayName(t: DateTime): string {
    DayOrder[DayIndex(t.day)]
  }

  /** The derived 'Day of Week' cell; missing when the date is. */
  function WeekdayOf(x: Row): Option<string> {
    match x.date
    case None => None
    case Some(t) => Some(DayName(t))
  }

  /** `value_counts()` looked up at `name`: the rows whose weekday is `name`. */
  function CountNamed(rows: seq<Row>, name: string): nat {
    |Select(rows, (x: Row) => WeekdayOf(x) == Some(name))|
  }

  function Sum(s: seq<nat>): nat {
    if |s| == 0 then 0 else s[0] + Sum(s[1..])
  }

  lemma {:induction false} SumBump(s: seq<nat>, k: nat)
    requires k < |s|
    ensures Sum(s[k := s[k] + 1]) == Sum(s) + 1
  {
    if k > 0 {
      assert s[k := s[k] + 1][1..] == s[1..][k - 1 := s[k] + 1];
      SumBump(s[1..], k - 1);
    }
  }

  lemma DayOrderDistinct(i: int, j: int)
    requires 0 <= i < 7 && 0 <= j < 7 && i != j
    ensures DayOrder[i] != DayOrder[j]
  {
  }

  /** A row falls under `DayOrder[k]` exactly when its date lies on that weekday. */
  lemma WeekdayOfIs(x: Row, k: int)
    requires 0 <= k < 7
    ensures WeekdayOf(x) == Some(DayOrder[k]) <==> x.date.Some? && DayIndex(x.date.value.day) == k
  {
    if x.date.Some? && DayIndex(x.date.value.day) != k {
      DayOrderDistinct(DayIndex(x.date.value.day), k);
    }
  }

  /** `value_counts().reindex(day_order, fill_value=0)`, computed in one pass over the rows. */
  function WeekdayCounts(rows: seq<Row>): (counts: seq<nat>)
    ensures |counts| == |DayOrder|
    ensures forall k :: 0 <= k < |DayOrder| ==> counts[k] == CountNamed(rows, DayOrder[k])
    ensures Sum(counts) == |Select(rows, (x: Row) => x.date.Some?)|
  {
    if |rows| == 0 then [0, 0, 0, 0, 0, 0, 0]
    else
      var rest := WeekdayCounts(rows[1..]);
      assert forall k :: 0 <= k < 7 ==>
        CountNamed(rows, DayOrder[k]) ==
          CountNamed(rows[1..], DayOrder[k]) + (if WeekdayOf(rows[0]) == Some(DayOrder[k]) then 1 else 0);
      match rows[0].date
      case None =>
        rest
      case Some(t) =>
        var k := DayIndex(t.day);
        SumBump(rest, k);
        forall j | 0 <= j < 7
          ensures WeekdayOf(rows[0]) == Some(DayOrder[j]) <==> j == k
        {
          WeekdayOfIs(rows[0], j);
        }
        rest[k := rest[k] + 1]
  }

  /** 2024-01-01, day 19723 after 1970-01-01, is a Monday and is counted first. */
  lemma NewYear2024IsMonday()
    ensures DayName(DateTime(19723, 0)) == "Monday"
    ensures WeekdayCounts([Row(Some(DateTime(19723, 0)), None, None, None)])[0] == 1
  {
  }
}
