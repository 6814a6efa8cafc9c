/** The rendered schedule table, abstracted from the DOM to a sequence of rows:
    the attributes the handlers select on, whether the row carries the `hidden`
    class, and the `iconName` of the `lightning-icon` inside it, if it has one. */
module Rows {
  import opened Wrappers

  const ChevronRight := "utility:chevronright"
  const ChevronDown := "utility:chevrondown"

  /** The CSS class `expandAll`/`collapseAll` select on. */
  datatype Kind = SectionHeader | ActivityRow | PlainRow

  /** `data-id`, `data-section` and `data-parent` are the row's dataset entries. */
  datatype Row = Row(
    kind: Kind,
    dataId: Option<string>,
    dataSection: Option<string>,
    dataParent: Option<string>,
    hidden: bool,
    icon: Option<string>)

  /** Which attribute a toggle selects on: `toggleSection` uses `data-section`,
      `toggleActivity` uses `data-parent`. */
  datatype Tag = BySection | ByParent

  function TagOf(r: Row, tag: Tag): Option<string> {
    match tag
    case BySection => r.dataSection
    case ByParent => r.dataParent
  }

  /** The value interpolated into the selector: a missing `data-id` prints as "undefined". */
  function SelectorValue(id: Option<string>): string {
    match id
    case Some(s) => s
    case None => "undefined"
  }

  /** The icon swap: chevron-right becomes chevron-down, anything else chevron-right. */
  function FlipIcon(name: string): (flipped: string)
    ensures flipped == ChevronDown <==> name == ChevronRight
    ensures flipped in {ChevronRight, ChevronDown}
  {
    if name == ChevronRight then ChevronDown else ChevronRight
  }

  /** `row.classList.toggle('hidden')` on the rows the selector matches. */
  function ToggleRow(r: Row, tag: Tag, sel: string): Row {
    if TagOf(r, tag) == Some(sel) then r.(hidden := !r.hidden) else r
  }

  /** The rows after `toggleSection`/`toggleActivity` fired on row `clicked`: every
      matching row is toggled, then the clicked row's icon is flipped; with no icon
      the handler throws after the toggling, leaving the rows as toggled. */
  function ToggleResult(rows: seq<Row>, tag: Tag, clicked: nat): (res: seq<Row>)
    requires clicked < |rows|
    ensures |res| == |rows|
    ensures forall k :: 0 <= k < |rows| ==> res[k].kind == rows[k].kind && res[k].dataId == rows[k].dataId
  {
    var sel := SelectorValue(rows[clicked].dataId);
    var toggled := seq(|rows|, k requires 0 <= k < |rows| => ToggleRow(rows[k], tag, sel));
    match toggled[clicked].icon
    case None => toggled
    case Some(name) => toggled[clicked := toggled[clicked].(icon := Some(FlipIcon(name)))]
  }

  /** Exactly the rows whose tag equals the clicked row's `data-id` change visibility;
      nothing else about any row changes except the clicked row's icon. */
  lemma ToggleResultSpec(rows: seq<Row>, tag: Tag, clicked: nat)
    requires clicked < |rows|
    ensures var res := ToggleResult(rows, tag, clicked);
      |res| == |rows| &&
      forall k :: 0 <= k < |rows| ==>
        (res[k].hidden != rows[k].hidden <==> TagOf(rows[k], tag) == Some(SelectorValue(rows[clicked].dataId))) &&
        res[k].(hidden := rows[k].hidden, icon := rows[k].icon) == rows[k] &&
        (k != clicked ==> res[k].icon == rows[k].icon)
    ensures var res := ToggleResult(rows, tag, clicked);
      match rows[clicked].icon
      case None => res[clicked].icon == None
      case Some(name) => res[clicked].icon == Some(FlipIcon(name))
  {
  }

  predicate IsChevron(icon: Option<string>) {
    icon == Some(ChevronRight) || icon == Some(ChevronDown)
  }

  /** Toggling the same chevron row twice restores every row. */
  lemma ToggleTwiceRestores(rows: seq<Row>, tag: Tag, clicked: nat)
    requires clicked < |rows|
    requires IsChevron(rows[clicked].icon) || rows[clicked].icon.None?
    ensures ToggleResult(ToggleResult(rows, tag, clicked), tag, clicked) == rows
  {
    var once := ToggleResult(rows, tag, clicked);
    ToggleResultSpec(rows, tag, clicked);
    ToggleResultSpec(once, tag, clicked);
    var twice := ToggleResult(once, tag, clicked);
    forall k | 0 <= k < |rows| ensures twice[k] == rows[k] {
      assert once[k].(hidden := rows[k].hidden, icon := rows[k].icon) == rows[k];
      assert twice[k].(hidden := once[k].hidden, icon := once[k].icon) == once[k];
    }
  }

  /** Where a bulk action stops: the first section header without an icon (its
      `icon.iconName = ...` throws), or the end of the rows when there is none. */
  function StopIndex(rows: seq<Row>): (stop: nat)
    ensures stop <= |rows|
    ensures forall k :: 0 <= k < stop ==> rows[k].kind != SectionHeader || rows[k].icon.Some?
    ensures stop < |rows| ==> rows[stop].kind == SectionHeader && rows[stop].icon.None?
  {
    if rows == [] then 0
    else if rows[0].kind == SectionHeader && rows[0].icon.None? then 0
    else 1 + StopIndex(rows[1..])
  }

  /** One row after `expandAll` (`collapsed` false) or `collapseAll` (`collapsed` true) that
      stopped at `stop` of `n` rows: section headers up to and including the stop
      get the visibility (and, if they have one, the icon), activity rows only when
      the first pass ran to the end. */
  function BulkRow(r: Row, k: nat, stop: nat, n: nat, collapsed: bool): Row {
    if r.kind == SectionHeader && k <= stop then
      r.(hidden := collapsed, icon := SetIcon(r.icon, Chevron(collapsed)))
    else if r.kind == ActivityRow && stop == n then
      r.(hidden := collapsed)
    else r
  }

  /** The chevron that goes with a visibility: right when hidden, down when shown. */
  function Chevron(collapsed: bool): string {
    if collapsed then ChevronRight else ChevronDown
  }

  /** `icon.iconName = name` on the icon a row has; a row without one keeps none. */
  function SetIcon(icon: Option<string>, name: string): Option<string> {
    if icon.Some? then Some(name) else None
  }

  function BulkResult(rows: seq<Row>, collapsed: bool): (res: seq<Row>)
    ensures |res| == |rows|
    ensures forall k :: 0 <= k < |rows| ==> res[k].kind == rows[k].kind && res[k].icon.Some? == rows[k].icon.Some?
  {
    var stop := StopIndex(rows);
    seq(|rows|, k requires 0 <= k < |rows| => BulkRow(rows[k], k, stop, |rows|, collapsed))
  }

  /** When every section header has its icon, a bulk action sets every section
      header and activity row to the same visibility, points every section-header
      chevron to match, and leaves every other row alone. */
  lemma BulkResultSpec(rows: seq<Row>, collapsed: bool)
    requires forall k :: 0 <= k < |rows| && rows[k].kind == SectionHeader ==> rows[k].icon.Some?
    ensures var res := BulkResult(rows, collapsed);
      |res| == |rows| &&
      forall k :: 0 <= k < |rows| ==>
        (rows[k].kind != PlainRow ==> res[k] == rows[k].(hidden := collapsed, icon := res[k].icon)) &&
        (rows[k].kind == SectionHeader ==> res[k].icon == Some(Chevron(collapsed))) &&
        (rows[k].kind != SectionHeader ==> res[k].icon == rows[k].icon) &&
        (rows[k].kind == PlainRow ==> res[k] == rows[k])
  {
    assert StopIndex(rows) == |rows|;
  }

  /** A bulk action that throws at a section header without an icon has un-hidden
      or hidden the headers up to it, and touched no activity row. */
  lemma BulkStoppedSpec(rows: seq<Row>, collapsed: bool)
    requires StopIndex(rows) < |rows|
    ensures var res := BulkResult(rows, collapsed);
      var stop := StopIndex(rows);
      |res| == |rows| &&
      res[stop] == rows[stop].(hidden := collapsed) &&
      forall k :: 0 <= k < |rows| ==>
        (k < stop && rows[k].kind == SectionHeader ==>
           res[k] == rows[k].(hidden := collapsed, icon := Some(Chevron(collapsed)))) &&
        (rows[k].kind == ActivityRow ==> res[k] == rows[k]) &&
        (rows[k].kind == PlainRow ==> res[k] == rows[k]) &&
        (k > stop ==> res[k] == rows[k])
  {
  }

  /** Applying the same bulk action twice is applying it once. */
  lemma BulkIdempotent(rows: seq<Row>, collapsed: bool)
    ensures BulkResult(BulkResult(rows, collapsed), collapsed) == BulkResult(rows, collapsed)
  {
    var once := BulkResult(rows, collapsed);
    StopIndexUnchanged(rows, once);
  }

  /** A bulk action changes no row's kind and keeps every section header's icon
      present or absent, so the second pass stops where the first one did. */
  lemma {:induction false} StopIndexUnchanged(rows: seq<Row>, other: seq<Row>)
    requires |other| == |rows|
    requires forall k :: 0 <= k < |rows| ==>
      other[k].kind == rows[k].kind && other[k].icon.Some? == rows[k].icon.Some?
    ensures StopIndex(other) == StopIndex(rows)
  {
    if rows != [] {
      StopIndexUnchanged(rows[1..], other[1..]);
    }
  }

  /** After a bulk action that ran to the end, every section header's chevron
      agrees with the visibility of every activity row: chevron-down exactly when
      the activity rows are shown. */
  lemma BulkChevronAgreesWithVisibility(rows: seq<Row>, collapsed: bool)
    requires StopIndex(rows) == |rows|
    ensures var res := BulkResult(rows, collapsed);
      forall h, m ::
        (0 <= h < |res| && 0 <= m < |res| && res[h].kind == SectionHeader && res[m].kind == ActivityRow) ==>
        (res[h].icon == Some(ChevronDown) <==> !res[m].hidden)
  {
  }

  /** A toggle keeps a chevron in step with the rows it governs: if the clicked
      row's chevron agreed with the (common) visibility of its matching rows, it
      agrees again after the rows flip. */
  lemma ToggleKeepsChevronPairing(rows: seq<Row>, tag: Tag, clicked: nat, wasHidden: bool)
    requires clicked < |rows|
    requires IsChevron(rows[clicked].icon)
    requires rows[clicked].icon == Some(ChevronDown) <==> !wasHidden
    requires forall k :: 0 <= k < |rows| && TagOf(rows[k], tag) == Some(SelectorValue(rows[clicked].dataId)) ==>
      rows[k].hidden == wasHidden
    ensures var res := ToggleResult(rows, tag, clicked);
      (res[clicked].icon == Some(ChevronDown) <==> wasHidden) &&
      forall k :: 0 <= k < |rows| && TagOf(rows[k], tag) == Some(SelectorValue(rows[clicked].dataId)) ==>
        res[k].hidden == !wasHidden
  {
    ToggleResultSpec(rows, tag, clicked);
  }
}
