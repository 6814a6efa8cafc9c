/** The view-model layer of `wiredActivities`: a raw server response (sections
    holding activities) is turned into display sections whose activities carry
    a badge class and defaulted `forecastDate` / `financeLines`. */
module Shaping {
  import opened Wrappers
  import opened JsValues

  const Completed := "slds-badge completed"
  const InProgress := "slds-badge in-progress"
  const Overdue := "slds-badge overdue"
  const Hidden := "hidden"

  /** The three properties shaping writes over the spread copy of an activity. */
  const ShapedKeys: set<string> := {"statusClass", "forecastDate", "financeLines"}

  /** A section as the server delivers it. `fields` are its own properties other
      than `activities`; `activities` is `None` when the property is missing or
      holds something without a `map` method (`undefined`, `null`, ...). */
  datatype RawSection = RawSection(fields: Record, activities: Option<seq<Record>>)

  /** A section as the component keeps it in `projectActivities`. */
  datatype DisplaySection = DisplaySection(fields: Record, activities: seq<Record>)

  /** What `wiredActivities` stores in `error`. A shaping failure is the TypeError
      thrown by `section.activities.map`, identified here by the section it hit. */
  datatype Failure = FetchFailed(message: string) | MissingActivities(section: nat)

  /** `getActivityStatusClass`: exact (`===`) match against three status strings;
      every other value, `undefined` included, gives "hidden". */
  function ActivityStatusClass(status: Value): (cls: string)
    ensures cls == Completed <==> status == Str("Completed")
    ensures cls == InProgress <==> status == Str("In Progress")
    ensures cls == Overdue <==> status == Str("Overdue")
    ensures cls == Hidden <==> status !in {Str("Completed"), Str("In Progress"), Str("Overdue")}
    ensures cls in {Completed, InProgress, Overdue, Hidden}
  {
    if status == Str("Completed") then Completed
    else if status == Str("In Progress") then InProgress
    else if status == Str("Overdue") then Overdue
    else Hidden
  }

  /** `{...activity, statusClass: ..., forecastDate: activity.forecastDate || '',
      financeLines: activity.financeLines || []}` */
  function ShapeActivity(a: Record): (r: Record)
    ensures ShapedKeys <= r.Keys
    ensures forall k :: k !in ShapedKeys ==> (k in r <==> k in a)
    ensures forall k :: k in a && k !in ShapedKeys ==> r[k] == a[k]
    ensures r["statusClass"] == Str(ActivityStatusClass(Get(a, "activityStatus")))
    ensures Truthy(Get(a, "forecastDate")) ==> r["forecastDate"] == a["forecastDate"]
    ensures !Truthy(Get(a, "forecastDate")) ==> r["forecastDate"] == Str("")
    ensures Truthy(Get(a, "financeLines")) ==> r["financeLines"] == a["financeLines"]
    ensures !Truthy(Get(a, "financeLines")) ==> r["financeLines"] == Arr([])
    ensures Truthy(r["financeLines"])
  {
    var forecast := Get(a, "forecastDate");
    var lines := Get(a, "financeLines");
    a["statusClass" := Str(ActivityStatusClass(Get(a, "activityStatus")))]
     ["forecastDate" := if Truthy(forecast) then forecast else Str("")]
     ["financeLines" := if Truthy(lines) then lines else Arr([])]
  }

  /** `section.activities.map(activity => ...)` once the activities are known to exist. */
  function ShapeActivities(acts: seq<Record>): seq<Record> {
    seq(|acts|, j requires 0 <= j < |acts| => ShapeActivity(acts[j]))
  }

  /** `data.map(section => ({...section, activities: ...}))`: sections are shaped
      in order, and the first one without activities throws. */
  function ShapeSections(data: seq<RawSection>): (r: Result<seq<DisplaySection>, Failure>)
    ensures r.Ok? ==> |r.value| == |data|
    ensures r.Err? ==> r.error.MissingActivities? && r.error.section < |data|
  {
    if data == [] then Ok([])
    else match data[0].activities
      case None => Err(MissingActivities(0))
      case Some(acts) =>
        match ShapeSections(data[1..])
        case Ok(rest) => Ok([DisplaySection(data[0].fields, ShapeActivities(acts))] + rest)
        case Err(f) =>
          Err(if f.MissingActivities? then MissingActivities(f.section + 1) else f)
  }

  predicate AllHaveActivities(data: seq<RawSection>) {
    forall i :: 0 <= i < |data| ==> data[i].activities.Some?
  }

  /** Shaping succeeds exactly when every section has its activities. */
  lemma {:induction false} ShapeSucceedsIff(data: seq<RawSection>)
    ensures ShapeSections(data).Ok? <==> AllHaveActivities(data)
  {
    if data != [] {
      ShapeSucceedsIff(data[1..]);
      if data[0].activities.Some? {
        assert AllHaveActivities(data) <==> AllHaveActivities(data[1..]) by {
          forall i | 0 <= i < |data[1..]| ensures data[1..][i] == data[i + 1] { }
          if AllHaveActivities(data[1..]) {
            forall i | 0 <= i < |data| ensures data[i].activities.Some? {
              if i > 0 { assert data[i] == data[1..][i - 1]; }
            }
          }
        }
      }
    }
  }

  /** A failed shaping names the first section that lacks activities. */
  lemma {:induction false} ShapeFailsAtFirstMissing(data: seq<RawSection>)
    requires ShapeSections(data).Err?
    ensures ShapeSections(data).error.MissingActivities?
    ensures var i := ShapeSections(data).error.section;
      i < |data| && data[i].activities.None? &&
      forall j :: 0 <= j < i ==> data[j].activities.Some?
  {
    if data[0].activities.Some? {
      ShapeFailsAtFirstMissing(data[1..]);
      var i := ShapeSections(data[1..]).error.section;
      assert data[1..][i] == data[i + 1];
      forall j | 0 <= j < i + 1 ensures data[j].activities.Some? {
        if j > 0 { assert data[j] == data[1..][j - 1]; }
      }
    }
  }

  /** A successful shaping keeps the sections, and each section's activities, in
      number and order; section properties pass through, and each activity is the
      shaped copy of the raw one at the same place. */
  lemma {:induction false} ShapePreservesStructure(data: seq<RawSection>)
    requires ShapeSections(data).Ok?
    ensures var out := ShapeSections(data).value;
      |out| == |data| &&
      forall i :: 0 <= i < |data| ==>
        data[i].activities.Some? &&
        out[i].fields == data[i].fields &&
        |out[i].activities| == |data[i].activities.value| &&
        forall j :: 0 <= j < |out[i].activities| ==>
          out[i].activities[j] == ShapeActivity(data[i].activities.value[j])
  {
    if data != [] {
      ShapePreservesStructure(data[1..]);
      var out := ShapeSections(data).value;
      var rest := ShapeSections(data[1..]).value;
      assert out == [DisplaySection(data[0].fields, ShapeActivities(data[0].activities.value))] + rest;
      forall i | 1 <= i < |data|
        ensures out[i] == rest[i - 1] && data[i] == data[1..][i - 1]
      { }
    }
  }

  /** Every displayed activity carries the shaped properties: in particular
      `financeLines` is never absent. */
  predicate Displayable(secs: seq<DisplaySection>) {
    forall i, j :: 0 <= i < |secs| && 0 <= j < |secs[i].activities| ==>
      ShapedKeys <= secs[i].activities[j].Keys
  }

  /** A successful shaping yields displayable sections. */
  lemma ShapeYieldsDisplayable(data: seq<RawSection>)
    requires ShapeSections(data).Ok?
    ensures Displayable(ShapeSections(data).value)
  {
    ShapePreservesStructure(data);
  }

  /** The worked example: one section "S1" with one overdue activity "A1" and no
      forecast date or finance lines. */
  lemma ShapeExample()
    ensures
      var a1: Record := map["id" := Str("A1"), "activityStatus" := Str("Overdue")];
      var s1 := RawSection(map["id" := Str("S1")], Some([a1]));
      ShapeSections([s1]) == Ok([DisplaySection(map["id" := Str("S1")], [
        map["id" := Str("A1"), "activityStatus" := Str("Overdue"),
            "statusClass" := Str("slds-badge overdue"),
            "forecastDate" := Str(""), "financeLines" := Arr([])]])])
  {
    var a1: Record := map["id" := Str("A1"), "activityStatus" := Str("Overdue")];
    var s1 := RawSection(map["id" := Str("S1")], Some([a1]));
    var shaped := ShapeActivity(a1);
    assert shaped == map["id" := Str("A1"), "activityStatus" := Str("Overdue"),
      "statusClass" := Str("slds-badge overdue"),
      "forecastDate" := Str(""), "financeLines" := Arr([])];
    assert ShapeActivities([a1]) == [shaped];
    assert [s1][1..] == [];
    assert ShapeSections([s1][1..]) == Ok([]);
    assert [s1][0].activities == Some([a1]);
    var d := DisplaySection(map["id" := Str("S1")], ShapeActivities([a1]));
    assert ShapeSections([s1]) == Ok([d] + []);
    assert [d] + [] == [d];
    assert ShapeSections([s1]) == Ok([DisplaySection(map["id" := Str("S1")], [shaped])]);
  }
}
