/**
 * Column-role inference: which column of the uploaded table plays the date,
 * activity-type, distance, elevation, moving-time, calorie, heart-rate and
 * gear role. Every role may be absent.
 */
module Schema {
  import opened Wrappers
  import opened Strings

  /** A keyword rule on the lower-cased column name. */
  datatype Rule =
    | AnyOf(keywords: seq<string>)   // some keyword is a substring
    | AllOf(keywords: seq<string>)   // every keyword is a substring

  predicate Matches(rule: Rule, name: string) {
    var lower := Lower(name);
    match rule
    case AnyOf(ks) => exists k :: k in ks && Contains(lower, k)
    case AllOf(ks) => forall k :: k in ks ==> Contains(lower, k)
  }

  const Distance := AnyOf(["distance"])
  const Elevation := AnyOf(["elevation"])
  const MovingTime := AnyOf(["moving time"])
  const Calories := AnyOf(["calories", "kilocalories"])
  const AvgHeartRate := AllOf(["avg", "heart rate"])
  const MaxHeartRate := AllOf(["max", "heart rate"])
  const Gear := AnyOf(["gear"])

  /** `c` is the first column in table order that satisfies `rule`; `None` when none does. */
  ghost predicate IsFirstMatch(cols: seq<string>, rule: Rule, r: Option<string>) {
    match r
    case None => forall j :: 0 <= j < |cols| ==> !Matches(rule, cols[j])
    case Some(c) =>
      exists i :: 0 <= i < |cols| && cols[i] == c && Matches(rule, c)
                  && forall j :: 0 <= j < i ==> !Matches(rule, cols[j])
  }

  /** `c` is the last column in table order that satisfies `rule`; `None` when none does. */
  ghost predicate IsLastMatch(cols: seq<string>, rule: Rule, r: Option<string>) {
    match r
    case None => forall j :: 0 <= j < |cols| ==> !Matches(rule, cols[j])
    case Some(c) =>
      exists i :: 0 <= i < |cols| && cols[i] == c && Matches(rule, c)
                  && forall j :: i < j < |cols| ==> !Matches(rule, cols[j])
  }

  /** The `for col in df.columns: if ...: role = col; break` scan. */
  function FirstIndex(cols: seq<string>, rule: Rule): (r: Option<nat>)
    ensures r.Some? ==> r.value < |cols| && Matches(rule, cols[r.value])
    ensures r.Some? ==> forall j :: 0 <= j < r.value ==> !Matches(rule, cols[j])
    ensures r.None? <==> forall j :: 0 <= j < |cols| ==> !Matches(rule, cols[j])
  {
    if |cols| == 0 then None
    else if Matches(rule, cols[0]) then Some(0)
    else match FirstIndex(cols[1..], rule)
      case None => None
      case Some(i) => Some(i + 1)
  }

  /**
   * The same scan without `break`: every later match overwrites `acc`.
   * The requires are the loop invariant after `from` columns.
   */
  function ScanLast(cols: seq<string>, rule: Rule, from: nat, acc: Option<nat>): (r: Option<nat>)
    requires from <= |cols|
    requires acc.Some? ==> acc.value < from && Matches(rule, cols[acc.value])
    requires acc.Some? ==> forall j :: acc.value < j < from ==> !Matches(rule, cols[j])
    requires acc.None? ==> forall j :: 0 <= j < from ==> !Matches(rule, cols[j])
    ensures r.Some? ==> r.value < |cols| && Matches(rule, cols[r.value])
    ensures r.Some? ==> forall j :: r.value < j < |cols| ==> !Matches(rule, cols[j])
    ensures r.None? <==> forall j :: 0 <= j < |cols| ==> !Matches(rule, cols[j])
    decreases |cols| - from
  {
    if from == |cols| then acc
    else ScanLast(cols, rule, from + 1, if Matches(rule, cols[from]) then Some(from) else acc)
  }

  function LastIndex(cols: seq<string>, rule: Rule): (r: Option<nat>)
    ensures r.Some? ==> r.value < |cols| && Matches(rule, cols[r.value])
    ensures r.Some? ==> forall j :: r.value < j < |cols| ==> !Matches(rule, cols[j])
    ensures r.None? <==> forall j :: 0 <= j < |cols| ==> !Matches(rule, cols[j])
  {
    ScanLast(cols, rule, 0, None)
  }

  function NameAt(cols: seq<string>, i: Option<nat>): Option<string>
    requires i.Some? ==> i.value < |cols|
  {
    match i
    case None => None
    case Some(k) => Some(cols[k])
  }

  /** The first column satisfying `rule`, as a name. */
  function FirstMatch(cols: seq<string>, rule: Rule): (r: Option<string>)
    ensures IsFirstMatch(cols, rule, r)
  {
    NameAt(cols, FirstIndex(cols, rule))
  }

  /** The last column satisfying `rule`, as a name. */
  function LastMatch(cols: seq<string>, rule: Rule): (r: Option<string>)
    ensures IsLastMatch(cols, rule, r)
  {
    NameAt(cols, LastIndex(cols, rule))
  }

  /** `preferred if preferred in cols else fallback if fallback in cols else None`: exact names only. */
  function ExactPriority(cols: seq<string>, preferred: string, fallback: string): (r: Option<string>)
    ensures preferred in cols ==> r == Some(preferred)
    ensures preferred !in cols && fallback in cols ==> r == Some(fallback)
    ensures r.None? <==> preferred !in cols && fallback !in cols
  {
    if preferred in cols then Some(preferred)
    else if fallback in cols then Some(fallback)
    else None
  }

  /** The date column; the same priority drives the date conversion before detection. */
  function DateRole(cols: seq<string>): Option<string> {
    ExactPriority(cols, "Activity Date", "Date")
  }

  function ActivityRole(cols: seq<string>): Option<string> {
    ExactPriority(cols, "Activity Type", "Type")
  }

  /** The role map: the detected column name, if any, for every logical role. */
  datatype Roles = Roles(
    date: Option<string>,
    distance: Option<string>,
    activity: Option<string>,
    elevation: Option<string>,
    movingTime: Option<string>,
    calories: Option<string>,
    avgHeartRate: Option<string>,
    maxHeartRate: Option<string>,
    gear: Option<string>)

  function DetectRoles(cols: seq<string>): (roles: Roles)
    ensures "Activity Date" in cols ==> roles.date == Some("Activity Date")
    ensures "Activity Date" !in cols && "Date" in cols ==> roles.date == Some("Date")
    ensures roles.date.None? <==> "Activity Date" !in cols && "Date" !in cols
    ensures "Activity Type" in cols ==> roles.activity == Some("Activity Type")
    ensures "Activity Type" !in cols && "Type" in cols ==> roles.activity == Some("Type")
    ensures roles.activity.None? <==> "Activity Type" !in cols && "Type" !in cols
    ensures IsFirstMatch(cols, Distance, roles.distance)
    ensures IsFirstMatch(cols, Elevation, roles.elevation)
    ensures IsFirstMatch(cols, MovingTime, roles.movingTime)
    ensures IsFirstMatch(cols, Calories, roles.calories)
    ensures IsLastMatch(cols, AvgHeartRate, roles.avgHeartRate)
    ensures IsLastMatch(cols, MaxHeartRate, roles.maxHeartRate)
    ensures IsFirstMatch(cols, Gear, roles.gear)
  {
    Roles(
      date := DateRole(cols),
      distance := FirstMatch(cols, Distance),
      activity := ActivityRole(cols),
      elevation := FirstMatch(cols, Elevation),
      movingTime := FirstMatch(cols, MovingTime),
      calories := FirstMatch(cols, Calories),
      avgHeartRate := LastMatch(cols, AvgHeartRate),
      maxHeartRate := LastMatch(cols, MaxHeartRate),
      gear := FirstMatch(cols, Gear))
  }

  /** The `'kilocalories'` alternative never changes the calorie test: it contains `'calories'`. */
  lemma CaloriesRuleIsCaloriesKeyword(name: string)
    ensures Matches(Calories, name) <==> Contains(Lower(name), "calories")
  {
    var lower := Lower(name);
    if Contains(lower, "kilocalories") {
      assert "kilocalories"[4..12] == "calories";
      assert OccursAt("kilocalories", "calories", 4);
      ContainsTransitive(lower, "kilocalories", "calories", 4);
    }
    assert "calories" in Calories.keywords;
  }

  /** Dropping the alternative gives the same calorie column for every table. */
  lemma CalorieRoleByCaloriesAlone(cols: seq<string>)
    ensures FirstMatch(cols, Calories) == FirstMatch(cols, AnyOf(["calories"]))
  {
    forall c | c in cols
      ensures Matches(Calories, c) == Matches(AnyOf(["calories"]), c)
    {
      CaloriesRuleIsCaloriesKeyword(c);
      assert "calories" in ["calories"];
    }
    FirstIndexSameRule(cols, Calories, AnyOf(["calories"]));
  }

  /** Rules that agree on every column find the same first index. */
  lemma {:induction false} FirstIndexSameRule(cols: seq<string>, a: Rule, b: Rule)
    requires forall c :: c in cols ==> Matches(a, c) == Matches(b, c)
    ensures FirstIndex(cols, a) == FirstIndex(cols, b)
  {
    if |cols| > 0 {
      assert cols[0] in cols;
      FirstIndexSameRule(cols[1..], a, b);
    }
  }

  /** The exact-name roles ignore near misses: no substring or case-insensitive match. */
  lemma ExactRolesIgnoreVariants()
    ensures DateRole(["Activity Date (local)", "activity type", "Dates"]) == None
    ensures ActivityRole(["Activity Date (local)", "activity type", "Dates"]) == None
  {
    var cols := ["Activity Date (local)", "activity type", "Dates"];
    assert cols[0] != "Activity Date" && cols[0] != "Date" && cols[0] != "Activity Type" && cols[0] != "Type";
    assert cols[1] != "Activity Date" && cols[1] != "Date" && cols[1] != "Activity Type" && cols[1] != "Type";
    assert cols[2] != "Activity Date" && cols[2] != "Date" && cols[2] != "Activity Type" && cols[2] != "Type";
  }

  /** The exact-name roles depend only on which names are present, never on the column order. */
  lemma ExactRolesIgnoreOrder(a: seq<string>, b: seq<string>, preferred: string, fallback: string)
    requires forall c :: c in a <==> c in b
    ensures ExactPriority(a, preferred, fallback) == ExactPriority(b, preferred, fallback)
    ensures DetectRoles(a).date == DetectRoles(b).date
    ensures DetectRoles(a).activity == DetectRoles(b).activity
  {
    assert preferred in a <==> preferred in b;
    assert fallback in a <==> fallback in b;
  }

  /** With both exact names present, the longer name wins whatever the column order. */
  lemma ActivityDateBeforeDate()
    ensures DetectRoles(["Date", "Activity Date"]).date == Some("Activity Date")
    ensures DetectRoles(["Type", "Activity Type"]).activity == Some("Activity Type")
  {
  }

  lemma AvgKeywordAtStart()
    ensures Contains("avg max heart rate", "avg")
  {
    assert "avg max heart rate"[0..3] == "avg";
    OccursContains("avg max heart rate", "avg", 0);
  }

  lemma MaxKeywordAtFour()
    ensures Contains("avg max heart rate", "max")
  {
    assert "avg max heart rate"[4..7] == "max";
    OccursContains("avg max heart rate", "max", 4);
  }

  lemma HeartRateKeywordAtEight()
    ensures Contains("avg max heart rate", "heart rate")
  {
    assert "avg max heart rate"[8..18] == "heart rate";
    OccursContains("avg max heart rate", "heart rate", 8);
  }

  lemma AvgMaxHeartRateMatchesBoth(name: string)
    requires Lower(name) == "avg max heart rate"
    ensures Matches(AvgHeartRate, name)
    ensures Matches(MaxHeartRate, name)
  {
    AvgKeywordAtStart();
    MaxKeywordAtFour();
    HeartRateKeywordAtEight();
  }

  /** Because the heart-rate scan has no `break`, one column can fill both heart-rate roles. */
  lemma OneColumnFillsBothHeartRateRoles()
    ensures DetectRoles(["Avg Max Heart Rate"]).avgHeartRate == Some("Avg Max Heart Rate")
    ensures DetectRoles(["Avg Max Heart Rate"]).maxHeartRate == Some("Avg Max Heart Rate")
  {
    assert Lower("Avg Max Heart Rate") == "avg max heart rate";
    AvgMaxHeartRateMatchesBoth("Avg Max Heart Rate");
  }

  lemma MaxHeartRateBpmMatches(name: string)
    requires Lower(name) == "max heart rate (bpm)"
    ensures Matches(MaxHeartRate, name)
  {
    var lower := Lower(name);
    assert lower[0..3] == "max";
    OccursContains(lower, "max", 0);
    assert lower[4..14] == "heart rate";
    OccursContains(lower, "heart rate", 4);
  }

  /** A later heart-rate column overrides an earlier one, unlike the distance role. */
  lemma LaterHeartRateColumnWins()
    ensures LastMatch(["Max Heart Rate", "Max Heart Rate (bpm)"], MaxHeartRate)
            == Some("Max Heart Rate (bpm)")
  {
    var cols := ["Max Heart Rate", "Max Heart Rate (bpm)"];
    assert Lower(cols[1]) == "max heart rate (bpm)";
    MaxHeartRateBpmMatches(cols[1]);
  }

  /** The first distance column wins even when a later one also matches. */
  lemma EarlierDistanceColumnWins()
    ensures DetectRoles(["Distance", "Distance.1"]).distance == Some("Distance")
  {
    var lower := Lower("Distance");
    assert lower == "distance";
    assert lower[0..8] == "distance";
    OccursContains(lower, "distance", 0);
    assert Matches(Distance, "Distance");
  }
}
