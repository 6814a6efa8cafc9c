/** The local half of `handleDateChange`: the optimistic edit of one property of
    every displayed activity whose `id` matches. */
module Editing {
  import opened JsValues
  import opened Shaping

  /** `if (activity.id === activityId) { activity[field] = newValue; }`. The id
      comes from a dataset (a string or `undefined`), so `===` is equality here. */
  function EditActivity(a: Record, id: Value, key: string, v: string): Record {
    if Get(a, "id") == id then a[key := Str(v)] else a
  }

  function EditSection(s: DisplaySection, id: Value, key: string, v: string): DisplaySection {
    s.(activities := seq(|s.activities|, j requires 0 <= j < |s.activities| =>
      EditActivity(s.activities[j], id, key, v)))
  }

  /** The displayed sections after the edit. */
  function EditSections(secs: seq<DisplaySection>, id: Value, key: string, v: string): (out: seq<DisplaySection>)
    ensures |out| == |secs|
    ensures forall i :: 0 <= i < |secs| ==> |out[i].activities| == |secs[i].activities|
  {
    seq(|secs|, i requires 0 <= i < |secs| => EditSection(secs[i], id, key, v))
  }

  /** The edit keeps the sections and their activities in number and order and
      leaves section properties alone; a matching activity gets the new value under
      the edited key and keeps every other property; any other activity is unchanged. */
  lemma EditSectionsSpec(secs: seq<DisplaySection>, id: Value, key: string, v: string)
    ensures var out := EditSections(secs, id, key, v);
      |out| == |secs| &&
      forall i :: 0 <= i < |secs| ==>
        out[i].fields == secs[i].fields &&
        |out[i].activities| == |secs[i].activities| &&
        forall j :: 0 <= j < |secs[i].activities| ==>
          var a, b := secs[i].activities[j], out[i].activities[j];
          (Get(a, "id") == id ==>
             key in b && b[key] == Str(v) && b.Keys == a.Keys + {key} &&
             forall k :: k in a && k != key ==> b[k] == a[k]) &&
          (Get(a, "id") != id ==> b == a)
  {
  }

  /** Two edits of the same property of the same activity: the later value is the one
      kept. (Editing `id` itself changes which activities the second edit matches.) */
  lemma LastEditWins(secs: seq<DisplaySection>, id: Value, key: string, v1: string, v2: string)
    requires key != "id"
    ensures EditSections(EditSections(secs, id, key, v1), id, key, v2) == EditSections(secs, id, key, v2)
  {
    var once := EditSections(secs, id, key, v1);
    forall i | 0 <= i < |secs|
      ensures EditSection(once[i], id, key, v2) == EditSection(secs[i], id, key, v2)
    {
      var acts := secs[i].activities;
      forall j | 0 <= j < |acts|
        ensures EditActivity(EditActivity(acts[j], id, key, v1), id, key, v2) == EditActivity(acts[j], id, key, v2)
      {
        var a := acts[j];
        if Get(a, "id") == id {
          assert Get(a[key := Str(v1)], "id") == Get(a, "id");
        }
      }
    }
  }

  /** The edit never removes a property, so displayed activities stay displayable. */
  lemma EditPreservesDisplayable(secs: seq<DisplaySection>, id: Value, key: string, v: string)
    requires Displayable(secs)
    ensures Displayable(EditSections(secs, id, key, v))
  {
    EditSectionsSpec(secs, id, key, v);
  }

  /** An edit keyed by an id no displayed activity carries changes nothing. */
  lemma EditUnknownIdIsNoop(secs: seq<DisplaySection>, id: Value, key: string, v: string)
    requires forall i, j :: 0 <= i < |secs| && 0 <= j < |secs[i].activities| ==>
      Get(secs[i].activities[j], "id") != id
    ensures EditSections(secs, id, key, v) == secs
  {
    var out := EditSections(secs, id, key, v);
    forall i | 0 <= i < |secs| ensures out[i] == secs[i] {
      assert out[i].activities == secs[i].activities;
    }
  }
}
