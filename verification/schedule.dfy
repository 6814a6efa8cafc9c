/** The `ProjectSchedule` component: the state the wire handler and the date edit
    update, and the row handlers that act on the rendered table. */
module Schedule {
  import opened Wrappers
  import opened JsValues
  import opened Shaping
  import opened Editing
  import opened Rows

  class ProjectSchedule {
    /** The display sections the template renders. */
    var projectActivities: seq<DisplaySection>
    /** The last recorded failure; `None` is `undefined`. */
    var error: Option<Failure>

    /** The invariant both state-changing handlers keep. */
    ghost predicate Valid()
      reads this
    {
      Displayable(projectActivities)
    }

    constructor ()
      ensures Valid()
      ensures projectActivities == [] && error == None
    {
      projectActivities := [];
      error := None;
    }

    /** One delivery of the wire adapter. `data` is `None` when the delivery has
        none (an array, even an empty one, is truthy); `fetchError` likewise. */
    method WiredActivities(data: Option<seq<RawSection>>, fetchError: Option<string>)
      requires Valid()
      modifies this
      ensures Valid()
      ensures data.Some? && AllHaveActivities(data.value) ==>
        ShapeSections(data.value) == Ok(projectActivities) && error == None
      ensures data.Some? && !AllHaveActivities(data.value) ==>
        projectActivities == old(projectActivities) &&
        error.Some? && error.value.MissingActivities? &&
        var i := error.value.section;
        i < |data.value| && data.value[i].activities.None? &&
        forall j :: 0 <= j < i ==> data.value[j].activities.Some?
      ensures data.None? && fetchError.Some? ==>
        projectActivities == [] && error == Some(FetchFailed(fetchError.value))
      ensures data.None? && fetchError.None? ==>
        projectActivities == old(projectActivities) && error == old(error)
    {
      match data {
        case Some(sections) =>
          ShapeSucceedsIff(sections);
          match ShapeSections(sections) {
            case Ok(shaped) =>
              ShapeYieldsDisplayable(sections);
              projectActivities := shaped;
              error := None;
            case Err(failure) =>
              ShapeFailsAtFirstMissing(sections);
              error := Some(failure);
          }
        case None =>
          if fetchError.Some? {
            error := Some(FetchFailed(fetchError.value));
            projectActivities := [];
          }
      }
    }

    /** `handleDateChange` on an input whose dataset carries `activityId` and `field`.
        The persist request that follows reports back only to the console, so its
        outcome `persistSucceeded` has no bearing on the new state. */
    method HandleDateChange(activityId: Option<string>, field: Option<string>, newValue: string,
                            persistSucceeded: bool)
      requires Valid()
      modifies this
      ensures Valid()
      ensures projectActivities ==
        EditSections(old(projectActivities), DatasetValue(activityId), PropertyKey(field), newValue)
      ensures error == old(error)
    {
      var id := DatasetValue(activityId);
      var key := PropertyKey(field);
      var secs := projectActivities;
      var out: seq<DisplaySection> := [];
      var i := 0;
      while i < |secs|
        invariant 0 <= i <= |secs|
        invariant |out| == i
        invariant forall k :: 0 <= k < i ==> out[k] == EditSection(secs[k], id, key, newValue)
      {
        var acts := secs[i].activities;
        var edited: seq<Record> := [];
        var j := 0;
        while j < |acts|
          invariant 0 <= j <= |acts|
          invariant |edited| == j
          invariant forall m :: 0 <= m < j ==> edited[m] == EditActivity(acts[m], id, key, newValue)
        {
          var activity := acts[j];
          if Get(activity, "id") == id {
            activity := activity[key := Str(newValue)];
          }
          edited := edited + [activity];
          j := j + 1;
        }
        out := out + [secs[i].(activities := edited)];
        i := i + 1;
      }
      EditPreservesDisplayable(secs, id, key, newValue);
      projectActivities := out;
    }

    /** `toggleSection` fired on row `clicked` of the rendered table. `ok` is false
        when the clicked row holds no icon, where the handler throws after toggling. */
    method ToggleSection(template: array<Row>, clicked: nat) returns (ok: bool)
      requires clicked < template.Length
      modifies template
      ensures template[..] == ToggleResult(old(template[..]), BySection, clicked)
      ensures ok == old(template[clicked].icon).Some?
    {
      ok := ToggleRows(template, BySection, clicked);
    }

    /** `toggleActivity`: the same, over the rows whose `data-parent` matches. */
    method ToggleActivity(template: array<Row>, clicked: nat) returns (ok: bool)
      requires clicked < template.Length
      modifies template
      ensures template[..] == ToggleResult(old(template[..]), ByParent, clicked)
      ensures ok == old(template[clicked].icon).Some?
    {
      ok := ToggleRows(template, ByParent, clicked);
    }

    method ToggleRows(template: array<Row>, tag: Tag, clicked: nat) returns (ok: bool)
      requires clicked < template.Length
      modifies template
      ensures template[..] == ToggleResult(old(template[..]), tag, clicked)
      ensures ok == old(template[clicked].icon).Some?
    {
      ghost var before := template[..];
      var sel := SelectorValue(template[clicked].dataId);
      for k := 0 to template.Length
        invariant forall m :: 0 <= m < k ==> template[m] == ToggleRow(before[m], tag, sel)
        invariant forall m :: k <= m < template.Length ==> template[m] == before[m]
      {
        template[k] := ToggleRow(template[k], tag, sel);
      }
      ok := template[clicked].icon.Some?;
      if ok {
        template[clicked] := template[clicked].(icon := Some(FlipIcon(template[clicked].icon.value)));
      }
    }

    /** `expandAll`. `ok` is false when a section header holds no icon. */
    method ExpandAll(template: array<Row>) returns (ok: bool)
      modifies template
      ensures template[..] == BulkResult(old(template[..]), false)
      ensures ok <==> StopIndex(old(template[..])) == template.Length
    {
      ok := SetAllRows(template, false);
    }

    /** `collapseAll`. `ok` is false when a section header holds no icon. */
    method CollapseAll(template: array<Row>) returns (ok: bool)
      modifies template
      ensures template[..] == BulkResult(old(template[..]), true)
      ensures ok <==> StopIndex(old(template[..])) == template.Length
    {
      ok := SetAllRows(template, true);
    }

    /** Both bulk actions: first every section header in document order (class, then
        icon), then every activity row (class only). */
    method SetAllRows(template: array<Row>, collapsed: bool) returns (ok: bool)
      modifies template
      ensures template[..] == BulkResult(old(template[..]), collapsed)
      ensures ok <==> StopIndex(old(template[..])) == template.Length
    {
      ghost var before := template[..];
      ghost var stop := StopIndex(before);
      var n := template.Length;
      for i := 0 to n
        invariant i <= stop
        invariant forall k :: 0 <= k < i ==>
          template[k] == if before[k].kind == SectionHeader then BulkRow(before[k], k, stop, n, collapsed) else before[k]
        invariant forall k :: i <= k < n ==> template[k] == before[k]
      {
        var row := template[i];
        if row.kind == SectionHeader {
          if row.icon.None? {
            template[i] := row.(hidden := collapsed);
            assert template[..] == BulkResult(before, collapsed);
            return false;
          }
          template[i] := row.(hidden := collapsed, icon := Some(Chevron(collapsed)));
        }
      }
      for i := 0 to n
        invariant forall k :: 0 <= k < i ==> template[k] == BulkRow(before[k], k, stop, n, collapsed)
        invariant forall k :: i <= k < n ==>
          template[k] == if before[k].kind == SectionHeader then BulkRow(before[k], k, stop, n, collapsed) else before[k]
      {
        if template[i].kind == ActivityRow {
          template[i] := template[i].(hidden := collapsed);
        }
      }
      assert template[..] == BulkResult(before, collapsed);
      return true;
    }
  }
}
