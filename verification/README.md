# projectSchedule — a Dafny model of the view-model layer

The `projectSchedule` Lightning Web Component shows a project's schedule: the
server delivers sections, each holding activities (with budgets, a status, a
forecast date and finance lines); the component shapes them for display, lets
the user edit a date in place, and shows or hides table rows. This project
models the component's own logic and proves what it guarantees:

- `Shaping` — `getActivityStatusClass` and the nested `map` in `wiredActivities`
  that turns raw sections into display sections. JavaScript values are modelled
  as a JSON-like `Value` datatype and objects as maps from property names to
  values, so the spread copy (`{...activity, ...}`), the `||` defaults and
  JavaScript truthiness are written out exactly. A section whose `activities`
  cannot be mapped makes shaping fail, naming the first such section (the
  sections are mapped in order and the first failure throws).
- `Editing` — the local update in `handleDateChange`: every displayed activity
  whose `id` equals the input's `data-id` gets the input's value under the
  property named by `data-field`.
- `Rows` — the rendered table abstracted to a sequence of rows (kind, `data-id`,
  `data-section`, `data-parent`, the `hidden` class, the icon name), with the
  effect of the toggle and bulk expand/collapse handlers as functions.
- `Schedule` — the component class: `projectActivities` and `error` as fields,
  `WiredActivities` and `HandleDateChange` as methods that change them (the
  latter with the source's nested loops), and the row handlers as methods that
  update the rendered table (an `array<Row>`) in place. Every method is proved
  to leave the state described by the functions above, and both state-changing
  handlers keep the invariant that every displayed activity has `statusClass`,
  `forecastDate` and `financeLines`.

## Notes on the code

- The badge classes are `"slds-badge completed"`, `"slds-badge in-progress"`,
  `"slds-badge overdue"` and `"hidden"`. The comment at
  `projectSchedule/projectSchedule.js:64` speaks of an empty string, but the
  function returns `"hidden"`.
- The `||` defaults for `forecastDate` and `financeLines` apply to every falsy
  raw value (`undefined`, `null`, `""`, `0`, `false`), not just a missing one.
- No handler reads a row's visibility: a toggle flips the matching rows and the
  clicked chevron together, so a chevron agrees with its rows only if they
  started in agreement (`Rows.ToggleKeepsChevronPairing`).
- `collapseAll` hides the section-header rows themselves, not only the activity
  rows.
- Taking finance rows (those tagged with `data-parent`) to carry neither the
  `section-header` nor the `activity-row` class, neither bulk action touches them,
  nor an activity row's chevron. After `collapseAll`, the finance rows of an expanded
  activity stay visible while the activity row itself is hidden.
- A handler that reaches a row without a `lightning-icon` throws a TypeError
  part-way. The model keeps exactly the changes made before the throw and
  reports it (`ok == false`).

## Model

| member | source | states |
|---|---|---|
| `Shaping.ActivityStatusClass` | projectSchedule/projectSchedule.js:56-65 | each of the three badge classes is returned exactly when the status is the matching string (`===`); `"hidden"` exactly for every other value, `undefined` included |
| `Shaping.ShapeActivity` | projectSchedule/projectSchedule.js:32-40 | every property other than `statusClass`, `forecastDate` and `financeLines` is passed through unchanged and no other is added; `statusClass` is the status class of `activityStatus`; `forecastDate` is the raw value when truthy, else `""`; `financeLines` is the raw value when truthy, else `[]`, so it is always present and truthy |
| `Shaping.ShapeSucceedsIff` | projectSchedule/projectSchedule.js:28-45 | shaping succeeds if and only if every section has mappable `activities` |
| `Shaping.ShapeFailsAtFirstMissing` | projectSchedule/projectSchedule.js:29-32 | a failed shaping reports the first section, in order, that lacks `activities` |
| `Shaping.ShapePreservesStructure` | projectSchedule/projectSchedule.js:29-42 | a successful shaping keeps the number and order of sections and of each section's activities, passes section properties through, and puts at each place the shaped copy of the raw activity there |
| `Shaping.ShapeYieldsDisplayable` | projectSchedule/projectSchedule.js:35-38 | every activity of a shaped result carries `statusClass`, `forecastDate` and `financeLines` |
| `Shaping.ShapeExample` | projectSchedule/projectSchedule.js:29-42 | section `S1` with one overdue activity `A1` shapes to one section holding `A1` with class `"slds-badge overdue"`, `forecastDate` `""` and `financeLines` `[]` |
| `Editing.EditSectionsSpec` | projectSchedule/projectSchedule.js:132-140 | the edit keeps sections and activities in number and order and section properties unchanged; an activity whose `id` matches gets the new value under the edited key and keeps every other property; every other activity is unchanged |
| `Editing.LastEditWins` | projectSchedule/projectSchedule.js:132-140 | two edits of the same (non-`id`) property of the same activity leave the later value, whatever the first one was |
| `Editing.EditUnknownIdIsNoop` | projectSchedule/projectSchedule.js:132-140 | an edit whose id no displayed activity carries changes nothing |
| `Editing.EditPreservesDisplayable` | projectSchedule/projectSchedule.js:132-140 | the edit keeps every displayed activity's `statusClass`, `forecastDate` and `financeLines` present |
| `Schedule.ProjectSchedule.constructor` | projectSchedule/projectSchedule.js:20-21 | the component starts with no display sections and no error |
| `Schedule.ProjectSchedule.WiredActivities` | projectSchedule/projectSchedule.js:24-53 | data (even an empty array) wins over an error; if every section has activities the shaped result is stored and the error cleared; otherwise the previous sections are kept and the error names the first section without activities; an error alone clears the sections to `[]` and records it; a delivery with neither changes nothing |
| `Schedule.ProjectSchedule.HandleDateChange` | projectSchedule/projectSchedule.js:126-150 | the new sections are the edit of the old ones by the input's `data-id`, `data-field` and value, whatever the outcome of the persist request; the error is unchanged |
| `Schedule.ProjectSchedule.ToggleSection` | projectSchedule/projectSchedule.js:67-76 | the table becomes the toggle result over `data-section` for the clicked row; `ok` says whether the clicked row had an icon |
| `Schedule.ProjectSchedule.ToggleActivity` | projectSchedule/projectSchedule.js:78-87 | the same over `data-parent` |
| `Schedule.ProjectSchedule.ExpandAll` | projectSchedule/projectSchedule.js:90-101 | the table becomes the bulk result with visibility "shown"; `ok` exactly when every section header has an icon |
| `Schedule.ProjectSchedule.CollapseAll` | projectSchedule/projectSchedule.js:103-114 | the table becomes the bulk result with visibility "hidden"; `ok` exactly when every section header has an icon |
| `Rows.FlipIcon` | projectSchedule/projectSchedule.js:75 | the result is chevron-down exactly when the icon was chevron-right, and is always one of the two chevrons |
| `Rows.ToggleResultSpec` | projectSchedule/projectSchedule.js:67-87 | exactly the rows whose section (or parent) tag equals the clicked row's `data-id` (or `"undefined"` when it has none) change visibility; nothing else changes except the clicked row's icon, which is flipped when present |
| `Rows.ToggleTwiceRestores` | projectSchedule/projectSchedule.js:67-87 | toggling the same row twice restores the whole table when its icon is a chevron or absent |
| `Rows.StopIndex` | projectSchedule/projectSchedule.js:92-95 | a bulk action's first pass runs up to the first section header without an icon, or to the end |
| `Rows.BulkResultSpec` | projectSchedule/projectSchedule.js:90-114 | when every section header has an icon, every section header and activity row gets the same visibility, every section-header icon becomes the matching chevron, and all other rows and properties are unchanged |
| `Rows.BulkStoppedSpec` | projectSchedule/projectSchedule.js:90-114 | when a section header lacks an icon, every section header before it gets the visibility and the matching chevron, it gets only the visibility, and no activity row, plain row or later row changes |
| `Rows.BulkIdempotent` | projectSchedule/projectSchedule.js:90-114 | performing a bulk action twice is the same as once |
| `Rows.BulkChevronAgreesWithVisibility` | projectSchedule/projectSchedule.js:90-114 | after a completed bulk action every section header shows chevron-down exactly when the activity rows are shown |
| `Rows.ToggleKeepsChevronPairing` | projectSchedule/projectSchedule.js:67-87 | when the clicked chevron agreed with the common visibility of the rows it matches, after the toggle those rows have the opposite visibility and the chevron agrees with it again |
| `Rows.ToggleResult` | projectSchedule/projectSchedule.js:67-87 | the table after a toggle: same rows, kinds and ids; its full behaviour is stated by `Rows.ToggleResultSpec`, `Rows.ToggleTwiceRestores` and `Rows.ToggleKeepsChevronPairing` |
| `Rows.BulkResult` | projectSchedule/projectSchedule.js:90-114 | the table after `expandAll`/`collapseAll`: same rows and kinds, icons present where they were; its full behaviour is stated by `Rows.BulkResultSpec`, `Rows.BulkStoppedSpec`, `Rows.BulkIdempotent` and `Rows.BulkChevronAgreesWithVisibility` |
| `Shaping.ShapeSections` | projectSchedule/projectSchedule.js:29-42 | a success has one display section per raw section; a failure names a section that lacks activities; the rest is stated by `Shaping.ShapeSucceedsIff`, `Shaping.ShapeFailsAtFirstMissing` and `Shaping.ShapePreservesStructure` |
| `Editing.EditSections` | projectSchedule/projectSchedule.js:132-140 | the edit keeps the number of sections and of each section's activities; the rest is stated by `Editing.EditSectionsSpec`, `Editing.LastEditWins`, `Editing.EditUnknownIdIsNoop` and `Editing.EditPreservesDisplayable` |
| `JsValues.Truthy` | projectSchedule/projectSchedule.js:35-38 | arrays and objects, even empty ones, are truthy; a value is falsy exactly when it is `undefined`, `null`, `false`, `0` or `""`, so `true`, non-zero numbers and non-empty strings are truthy; this is what decides the `\|\|` defaults |
| `Schedule.ProjectSchedule.ToggleRows` | projectSchedule/projectSchedule.js:69-75 | the `forEach` over the matching rows, then the icon swap, leaves exactly `Rows.ToggleResult` of the old table; `ok` says whether the clicked row had an icon |
| `Schedule.ProjectSchedule.SetAllRows` | projectSchedule/projectSchedule.js:91-113 | the two `forEach` passes (section headers, then activity rows) leave exactly `Rows.BulkResult` of the old table; `ok` exactly when every section header has an icon |

## Left out

- The server calls `getProjectActivities` and `updateActivityDate` (network I/O): a wire delivery is a call of `WiredActivities` with its `data` and `error`, and the persist outcome is a parameter of `HandleDateChange` that the state does not depend on.
- `console.log`, `console.error` and `JSON.stringify` (logging only).
- The DOM queries themselves (`querySelectorAll`, `classList`, `querySelector('lightning-icon')`): the table is an array of rows, every row is taken to be a `tr`, the clicked element (`event.currentTarget`) is taken to be a row of the table, a row has at most one of the classes `section-header` and `activity-row`, finance rows carry neither of them, and ids are assumed not to contain characters that would make the attribute selector malformed.
- The re-rendering that the framework does when `projectActivities` changes: the table passed to the row handlers is independent of the display sections.
- `clickToExpandAll` and `clickToCollapseAll`: they only call the tree-grid component's own methods.
- `handleFocus` and `handleBlur`: they switch the input's type between text and date and do not touch data.
- `COLUMNS`, `treeData`, `recordId`, currency and percent formatting, and the commented-out `mapChildrenToUnderscore`.
- The `@wire`/`@api` reactivity: each delivery is one discrete method call.
- Sections and activities that are not objects (`null` elements, numbers, strings in the arrays); the server delivers objects. `Num` values have no NaN, which JavaScript treats as falsy.
- `Shaping.ShapeFailsAtFirstMissing`: the recorded error is the index of the failing section rather than the TypeError object JavaScript throws.
- Property order within an object: objects are maps.
