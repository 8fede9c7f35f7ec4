# dropsearchbar device picker — a Dafny model

The dropsearchbar editor extension reads a CMSIS-Pack device descriptor
(`devices.pdsc`) and shows its devices in a searchable picker. This project
models the two pieces of real logic in `extension.js`:

* **The catalog builder** (`CatalogBuilder.Build`). The command handler takes
  the tree the XML parser produced, checks that `package.devices[0].family`
  exists, and flattens families into an ordered list of sub-family groups.
  Each group holds its devices, and each device has a name and a description.
  A device without a `description` child gets `"No description available"`.
  The handler gives up when the list comes out empty.
* **The picker script** (`DeviceFilter`, `DeviceSelector`). Typing in the
  search box recomputes, from scratch, which device rows and group headings
  are shown. A row is shown when the lower-cased text occurs in its
  lower-cased name or in its group's lower-cased label. A group is shown when
  one of its rows is. Clicking a row moves the single selection to it and
  shows its description.

Modules:

| module | file | contents |
|---|---|---|
| `Wrappers` | wrappers.dfy | `Option`, `Result`, and `TryMap` (an in-order map that stops at the first failure) |
| `Strings` | strings.dfy | ASCII `Lower`; `Includes`, checked against a substring definition |
| `PdscTree` | pdsc_tree.dfy | the parsed XML tree: optional child arrays and optional attribute records |
| `DeviceCatalog` | device_catalog.dfy | `Text` (a string or JavaScript `undefined`), `Device`, `Group`, `Catalog`, `Pos` |
| `CatalogBuilder` | catalog_builder.dfy | `Build`, its element-wise specification, and lemmas about order and counts |
| `DeviceFilter` | device_filter.dfy | `Visibility`: search text to shown/hidden flags for every row and group |
| `DeviceSelector` | device_selector.dfy | the picker state, the `input` and `click` listeners, and their invariant |

The source calls the display name of a group or device `label`. The model
calls it `name`, because `label` is a Dafny keyword.

Behaviour of the handler and the script worth knowing:

* A `family` list that is present but empty passes the structure check,
  because an empty array is truthy in JavaScript. The handler then reports
  "no sub-families".
* A group with no devices is hidden after every input event, including one
  that empties the search box. It is visible only before the first input
  event, when the script has hidden nothing yet.
* An empty or whitespace-only file parses to `null`. Reading `package` of it
  throws, and the handler's `catch` reports a processing failure
  (`ProcessingFailed`).
* A `subFamily` or `device` element without attributes makes the projection
  read a property of `undefined`. That throws too, and is reported the same
  way. A missing `DsubFamily` or `Dname` attribute gives the value
  `undefined`, which the page renders as the text "undefined". An empty
  `description` array gives `undefined` as well.

## Model

| member | source | states |
|---|---|---|
| `Strings.Lower` | extension.js:101-111 | lower-casing keeps the length, turns each ASCII capital into its small letter, leaves every other character, and leaves no ASCII capital |
| `Strings.Includes` | extension.js:112-113 | the left-to-right `includes` scan returns true exactly when the search text occurs as a contiguous substring (the empty text occurs everywhere) |
| `CatalogBuilder.FamiliesOf` | extension.js:166-171 | the family list is absent when the root, `package`, `devices` or its first element is missing; otherwise it is the `family` children of the first `devices` element |
| `CatalogBuilder.AllSubFamilies` | extension.js:172-180 | the flattened list holds every sub-family of every family and nothing else |
| `CatalogBuilder.ProjectDevice` | extension.js:175-177 | a device element becomes a row whose name is its `Dname` (or undefined) and whose description is the first `description` child, undefined for an empty list, or exactly "No description available" when there is none; a missing attribute record fails |
| `CatalogBuilder.ProjectSubFamily` | extension.js:173-178 | a sub-family becomes a group labelled with its `DsubFamily`, holding exactly its device elements' rows in order and with the same count (none when it has no `device` children); it fails exactly when some attribute record is missing |
| `CatalogBuilder.Build` | extension.js:161-213 | a null parse result is a processing failure; otherwise "invalid structure" exactly when `package.devices[0].family` is absent; "no sub-families" exactly when the structure is valid but no family has a sub-family; a processing failure exactly when there are sub-families but some attribute record is missing; success otherwise, and then a non-empty catalog with one group per sub-family element in flattened order |
| `CatalogBuilder.FamilyContributesItsSubFamilies` | extension.js:172-180 | each family adds exactly its own sub-families after those of the earlier families; a family without `subFamily` children adds none |
| `CatalogBuilder.FamilyMajorOrder` | extension.js:172-180 | sub-family s of family f lands at position (number of sub-families in families before f) + s of the flattened list |
| `CatalogBuilder.CatalogFromUnique` | extension.js:172-180 | the element-wise description of the output leaves no freedom: two catalogs that both fit it are equal |
| `CatalogBuilder.BuildCountsDevices` | extension.js:172-180 | a built catalog has exactly as many device rows as there are device elements under all families |
| `CatalogBuilder.BuildReadsOnlyFirstDevicesElement` | extension.js:166-171 | `devices` elements after the first never affect the outcome |
| `CatalogBuilder.EmptyFamilyListHasNoSubFamilies` | extension.js:166-185 | an empty `family` list passes the structure check and ends in "no sub-families" |
| `CatalogBuilder.TwoFamilyScenario` | extension.js:172-185 | two families with sub-families Sub1 (D1, D2) and Sub2 (D3, no description) give exactly the groups Sub1 and Sub2, and D3 gets the placeholder description |
| `DeviceFilter.DeviceShown` | extension.js:110-113 | the per-row test is true exactly when the lower-cased search text occurs in the lower-cased device text or group label |
| `DeviceFilter.FilterGroup` | extension.js:104-120 | one flag per device of the group, set exactly when the search matches the device text or the group label ignoring case; the group is shown exactly when some device matches |
| `DeviceFilter.Visibility` | extension.js:100-121 | one view per catalog group, in order and with one flag per device; each flag and each group flag means what FilterGroup states, so nothing is removed or reordered |
| `DeviceFilter.GroupShownIffSomeDeviceShown` | extension.js:107-119 | a group is shown exactly when at least one of its device flags is set |
| `DeviceFilter.EmptySearchShowsEverything` | extension.js:100-117 | the empty search shows every device row and every group that has devices |
| `DeviceFilter.EmptyGroupAlwaysHidden` | extension.js:107-119 | a group with no devices is hidden for every search text, including the empty one |
| `DeviceFilter.SearchIgnoresCase` | extension.js:101-113 | a search text and its lower-cased form show the same rows and groups |
| `DeviceFilter.GroupLabelMatchShowsWholeGroup` | extension.js:111-116 | when the group label contains the search text, all of the group's devices are shown, and the group is shown exactly when it has devices |
| `DeviceFilter.NarrowingKeepsMatch` | extension.js:110-113 | a device that matches a search text, on its name or its group label, also matches every substring of that text |
| `DeviceFilter.NarrowingSearchOnlyHides` | extension.js:100-119 | if one search text is a substring of another, a row the longer text shows is also shown by the shorter, and so is its group heading |
| `DeviceFilter.M4MatchExamples` | extension.js:110-113 | with group "M4" holding "STM32F407", the searches "m4" (label), "407" and "Stm32" (name) show the device |
| `DeviceFilter.M4HideExamples` | extension.js:100-121 | in the same catalog, "xyz" hides both the device and the group, and the empty search shows the group |
| `DeviceSelector.Input` | extension.js:123-125 | an input event records the text to filter by and leaves the selection pointer, the `selected` classes and the description pane unchanged |
| `DeviceSelector.Click` | extension.js:127-138 | a click outside every device row changes nothing; a click on a row points the selection at it, gives it `selected`, takes `selected` from the previous row and from no other row, shows its description, and leaves the filter unchanged |
| `DeviceSelector.Shown` | extension.js:72-125 | before the first input event every row and group is shown, since the page is rendered without `hidden` classes; afterwards what is shown is the filter result for the last text typed |
| `DeviceSelector.StepKeepsConsistent` | extension.js:127-138 | both listeners keep the invariant: only the pointed-to row carries `selected`, and the pane shows that row's description |
| `DeviceSelector.RunKeepsConsistent` | extension.js:98-138 | any sequence of input and click events keeps that invariant |
| `DeviceSelector.AtMostOneSelected` | extension.js:131-136 | from page load on, at most one row carries `selected`, and it is the row the selection pointer refers to |
| `DeviceSelector.ClickOnSelectedChangesNothing` | extension.js:131-137 | clicking the row that is already selected leaves the whole state unchanged |
| `DeviceSelector.ClickIdempotent` | extension.js:127-137 | a second click on the same target has no further effect |
| `DeviceSelector.TypingKeepsSelection` | extension.js:123-125 | any run of input events leaves the pointer, the `selected` classes and the pane unchanged |
| `DeviceSelector.ClicksKeepFilter` | extension.js:127-138 | any run of clicks leaves the filter text, and so what is shown, unchanged |
| `DeviceSelector.ClickHasNoVisibilityGuard` | extension.js:127-137 | the click listener has no visibility guard: what a click does does not depend on the filter text |
| `DeviceSelector.LastInputDecides` | extension.js:100-125 | after any history, what is shown after an input event is the filter result for that event's text alone |
| `DeviceSelector.EmptyGroupHiddenOnceFiltered` | extension.js:100-125 | a group without devices is shown on page load, but is hidden after the first input event, even when that event's text is empty |

## Left out

- Host plumbing: command registration, the workspace-folder check, panel creation, the `close` message and `deactivate` (extension.js:144-155, 187-228). These are editor APIs with no logic of their own.
- Reading `devices.pdsc` and parsing the XML (extension.js:156-164). This is I/O and a foreign library. The parsed tree is an input (`PdscTree.Document`), and a file that fails to parse is not modelled. An empty or whitespace-only file, which parses to `null`, is modelled (`PdscTree.NoRoot`).
- Parser output details: a text-only element that the parser turns into a plain string is modelled as an element with no children and no attributes, which the code treats the same way. A `description` element with attributes, which the parser turns into an object, is not modelled. `description` children are their text.
- Page generation (extension.js:6-92). The model takes the rendered page to hold one heading per group and one row per device, with `undefined` written out as "undefined". The source does no HTML escaping, so labels containing markup or quotes would break the page. The model assumes they do not.
- Strings.Lower: only ASCII A-Z are lower-cased. JavaScript `toLowerCase` also maps other scripts, and sometimes changes the length of a string.
- DeviceFilter.Visibility: a row's text is its name. In the page it is the name surrounded by the template's line breaks and indentation (`textContent`). So in the page, a search made only of spaces or line breaks matches every row, and a search of leading spaces followed by a prefix of the name (such as " stm" for STM32F407) matches that row. The model shows neither.
- DeviceSelector.Click: the click target is a row position, or None for a click outside every row (`closest` returning null). A position the catalog does not render is ignored like an outside click. The browser cannot produce one. A row hidden by `display: none` (extension.js:61-63) cannot receive a user click in the page; the model lets any rendered row be clicked, because the listener itself does not check visibility.
