# Device Sync Dashboard — verified model of the inventory grid and its controllers

This project models the client-side logic of a React dashboard for a network
device inventory. The modelled parts are:

- the inventory grid (`DeviceList`): per-column case-insensitive filters, a
  stable single-key sort, sparse selection and expansion stores,
  select-all handlers, pagination arithmetic, and the per-device
  warranty-sync payload builder;
- the dashboard page (`App`): the sync payload and the
  `loading`/`result`/`error` state machine of its two toolbar handlers;
- the promise-based confirmation dialog hook (`useConfirmDialog`);
- the configuration viewer (`DeviceConfigOps`): the match cursor of its
  search bar and the branches of its loader.

Modules, one per concern:

| file | module | models |
|---|---|---|
| strings.dfy | `Strings` | `toLowerCase`/`toUpperCase` (ASCII), `includes`, `trim`, string `<`, decimal rendering |
| inventory.dfy | `Inventory` | device, interface and module records; `undefined`/`null`/string fields; `Array.find` by id |
| flags.dfy | `Flags` | the `{ [id]: bool }` stores, the select-all loop, `Object.keys` order |
| pipeline.dfy | `Pipeline` | device, interface and module filters; sort request; stable sort |
| pagination.dfy | `Pagination` | total pages, Prev/Next, row numbers, page-size select |
| warranty.dfy | `WarrantySync` | the module section's warranty-sync button |
| grid.dfy | `DeviceGrid` | the grid's state class and its event handlers |
| dashboard.dfy | `Dashboard` | `App.js`: payload, toolbar handlers, labels |
| confirm.dfy | `ConfirmGate` | `useConfirmDialog`: state merge, defaults, click routing, resolver slot |
| config_viewer.dfy | `ConfigViewer` | `DeviceConfig.js`: match cursor and loader |

Pure code (filters, the sort, the labels, the payloads, the index
arithmetic) is written as functions with lemmas. Code that updates state per
event is written as classes. Each class method's `ensures` gives the new
state as a function of the old one. The HTTP calls are parameters: a
request's outcome (`HttpOutcome`, `LoadOutcome`) is passed to the method
that handles its settlement. The number of `<mark>` elements in the DOM is
passed to the search handlers in the same way. The dialog's promises are
numbered in creation order, and the `settled` map records the value each
resolved promise delivered.

The model follows the code where the code differs from the component's
documented intent:

- A failed configuration load sets the error and keeps whatever texts were
  already there. They are empty only because the page starts empty.
- `confirm(opts)` builds `{ open: true, ...opts }`, so an `open` key in
  `opts` overrides the `true`.
- The module selection is one store shared by every device. The warranty
  button's label counts selected modules on all devices. A device with none
  of its own modules selected then reports "No valid serial numbers found
  for selected modules".
- The module select-all covers all modules of the device, including the
  ones the module filters hide.
- `App` renders the grid with `devices` and `onSelectionChange` only. So in
  that page the grid has no pagination bar and no `onSyncEox`/`setError`.
  The warranty button is modelled on its own terms: `WarrantySyncAction`
  says which of the two props it calls and with what.

## Model

| member | source | states |
|---|---|---|
| Strings.LowerChar | src/DeviceList.js:115-118 | ASCII upper-case letters map to lower case; every other character is kept; the result is never an upper-case letter |
| Strings.UpperChar | src/DeviceList.js:609 | ASCII lower-case letters map to upper case; every other character is kept; the result is never a lower-case letter |
| Strings.Lower | src/DeviceList.js:115-123 | same length, lower-cased character by character |
| Strings.Upper | src/DeviceList.js:609 | same length, upper-cased character by character |
| Strings.LowerIdempotent | src/DeviceList.js:115-123 | lower-casing a lower-cased string changes nothing |
| Strings.LowerOfUpper | src/DeviceList.js:115-123 | a pattern typed in upper case lower-cases to the same text as lower-case typing |
| Strings.Contains | src/DeviceList.js:120-125 | defined as `s.includes(p)`: `p` is a prefix of `s[i..]` for some position `i` from 0 to the length of `s` |
| Strings.ContainsEmpty | src/DeviceList.js:120-123 | every text includes the empty pattern, so an empty filter passes every row |
| Strings.ContainsSelf | src/DeviceList.js:120-123 | a text includes itself |
| Strings.ContainsShorter | src/DeviceList.js:120-123 | `includes` succeeds only for patterns no longer than the text |
| Strings.IsJsSpace | src/DeviceList.js:609 | defined as the characters `trim` strips: the ECMAScript WhiteSpace code points (tab, vertical tab, form feed, space, no-break space, byte order mark, the Unicode space separators) and the LineTerminator code points (line feed, carriage return, line and paragraph separator) |
| Strings.SkipSpaces | src/DeviceList.js:609 | the first non-whitespace index from a position, with only whitespace skipped |
| Strings.BackSpaces | src/DeviceList.js:609 | the end of the last non-whitespace run before a position, with only whitespace skipped |
| Strings.Trim | src/DeviceList.js:609 | `trim` gives a slice with only whitespace removed on either side, neither starting nor ending with whitespace, and is empty exactly when the input is all whitespace |
| Strings.Less | src/DeviceList.js:136-137 | defined as string `<`: the first differing characters decide, and a proper prefix is smaller; its order properties are the four lemmas below |
| Strings.LessIrreflexive | src/DeviceList.js:136-137 | no string is `<` itself |
| Strings.LessAsymmetric | src/DeviceList.js:136-137 | `a < b` excludes `b < a` |
| Strings.LessTransitive | src/DeviceList.js:136-137 | `<` on strings is transitive |
| Strings.LessTotal | src/DeviceList.js:136-137 | two different strings are ordered one way or the other |
| Strings.DigitChar | src/App.js:88 | a digit value renders as a decimal digit character |
| Strings.Decimal | src/App.js:88 | a count renders as a non-empty run of digits without a leading zero |
| Strings.DecimalRoundTrip | src/App.js:88 | reading the rendered digits back gives the count |
| Strings.DecimalInjective | src/App.js:88 | different counts render differently |
| Inventory.JsText.OrEmpty | src/DeviceList.js:115 | `x \|\| ""`: a string is kept (the empty string stays empty); `undefined` and `null` become "" |
| Inventory.JsText.Interpolated | src/DeviceList.js:497 | `${x}`: a string is kept; `undefined` and `null` are spelled out |
| Inventory.Field | src/DeviceList.js:135-136 | defined as `a[sortConfig.key]` for the four sortable columns: hostname, mgmt address, model, serial number |
| Inventory.Ids | src/DeviceList.js:182-184 | `rows.map(r => r.id)` for the device rows and for a device's modules: one id per row, position by position |
| Inventory.FindById | src/App.js:35 | `find`: nothing exactly when no row has the id; otherwise the first row with it |
| Inventory.FindDeviceUnique | src/App.js:35-36 | with unique ids, `find` returns the one device carrying the id |
| Flags.Toggled | src/DeviceList.js:105-110 | `{ ...prev, [id]: !prev[id] }` flips that id's entry and leaves every other id reading as before |
| Flags.Assigned | src/DeviceList.js:89-103 | `{ ...prev, [id]: v }` makes the id read `v` and leaves every other id reading as before |
| Flags.IsOn | src/DeviceList.js:300 | defined as `!!store[id]`: the id is a key and its entry is true (the same reading at :836 for module ids) |
| Flags.ToggleTwice | src/DeviceList.js:105-110 | flipping an entry twice restores what every id reads |
| Flags.SetEntries | src/DeviceList.js:179-186 | the copy-and-`forEach` loop makes exactly the listed ids read `checked`, adds only those keys and leaves every other entry untouched |
| Flags.AllOn | src/DeviceList.js:175-178 | defined as the header box's `checked`: the list of ids is non-empty and every listed id reads true |
| Flags.HeaderAfterSetEntries | src/DeviceList.js:175-186 | after the loop the header box reads `checked` when the list is non-empty, and unlisted ids read as before |
| Flags.SelectAll | src/DeviceList.js:175-186 | a header box over a list of ids flips; every listed id takes its new state; unlisted ids keep theirs; the box then reads its new state when the list is non-empty |
| Flags.HasMinimum | src/DeviceList.js:83-85 | a non-empty set of ids has a least element |
| Flags.MinOf | src/DeviceList.js:83-85 | the least id of a non-empty set |
| Flags.Ascending | src/DeviceList.js:83-85 | the ids of a set, strictly ascending, each exactly once |
| Flags.TrueKeys | src/DeviceList.js:83-85 | `Object.keys(...).filter(...).map(Number)`: exactly the ids reading true, ascending, each once (as many entries as true ids) |
| Flags.TrueCount | src/DeviceList.js:623-625 | the number of ids reading true; zero exactly when no id reads true |
| Pipeline.Keep | src/DeviceList.js:113-127 | `filter` keeps exactly the elements passing the predicate and never grows the list |
| Pipeline.KeepIsSelection | src/DeviceList.js:113-127 | `filter` keeps the original order, and each passing element as often as it occurs |
| Pipeline.KeepEverything | src/DeviceList.js:113-127 | a predicate every element passes keeps the list unchanged |
| Pipeline.KeepAgreeing | src/DeviceList.js:113-127 | two predicates that agree on the elements keep the same sublist |
| Pipeline.DevicePattern | src/DeviceList.js:37-42 | defined as the pattern of one column of the device filter record |
| Pipeline.WithDevicePattern | src/DeviceList.js:205-278 | `{ ...filters, <column>: e.target.value }`: the edited column reads the typed value and every other column keeps its pattern |
| Pipeline.DeviceFiltersByColumn | src/DeviceList.js:37-42 | two device filter records with the same pattern in every column are equal |
| Pipeline.ColumnMatches | src/DeviceList.js:115-123 | defined as `(text \|\| "").toLowerCase().includes(pattern.toLowerCase())` |
| Pipeline.DeviceMatches | src/DeviceList.js:113-127 | defined as all four device columns matching: hostname, mgmt address, model and serial |
| Pipeline.FilterDevices | src/DeviceList.js:113-127 | the rows are an order-preserving subsequence of the devices: exactly those whose four lower-cased fields (missing as "") include the lower-cased patterns, each with its multiplicity |
| Pipeline.NoFiltersKeepAll | src/DeviceList.js:113-127 | all-empty filters keep every device in order |
| Pipeline.FilterIgnoresCase | src/DeviceList.js:113-127 | patterns that agree once lower-cased select the same rows |
| Pipeline.UpperCasePatternFindsSame | src/DeviceList.js:113-127 | typing the patterns in upper case selects the same rows |
| Pipeline.InterfacePattern | src/DeviceList.js:56-62 | defined as the pattern of one column of the interface filter record |
| Pipeline.WithInterfacePattern | src/DeviceList.js:404-474 | `{ ...interfaceFilters, <column>: e.target.value }`: the edited column reads the typed value and every other column keeps its pattern |
| Pipeline.InterfaceFiltersByColumn | src/DeviceList.js:56-62 | two interface filter records with the same pattern in every column are equal |
| Pipeline.SfpText | src/DeviceList.js:490-498 | "none" without a resolvable `sfp_module.module_id`; otherwise the lower-cased "description part serial" of the first module of the device with that id |
| Pipeline.InterfaceMatches | src/DeviceList.js:481-517 | defined as the five interface columns matching: name, `status/line_protocol`, speed and description (missing values as ""), and the SFP text |
| Pipeline.VisibleInterfaces | src/DeviceList.js:481-517 | the interface rows are an order-preserving subsequence: exactly those whose name, status/line-protocol, speed, description and SFP text include the patterns, each as often as it occurs |
| Pipeline.NoInterfaceFiltersKeepAll | src/DeviceList.js:481-517 | all-empty interface filters keep every interface |
| Pipeline.ModulePattern | src/DeviceList.js:45-53 | defined as the pattern of one column of the module filter record |
| Pipeline.WithModulePattern | src/DeviceList.js:672-774 | `{ ...moduleFilters, <column>: e.target.value }`: the edited column reads the typed value and every other column keeps its pattern |
| Pipeline.ModuleFiltersByColumn | src/DeviceList.js:45-53 | two module filter records with the same pattern in every column are equal |
| Pipeline.WarrantyText | src/DeviceList.js:788-790 | defined as "yes" for a module under warranty, otherwise "no" |
| Pipeline.ExpiryText | src/DeviceList.js:791-795 | defined as the lower-cased expiry date text, or "" without an expiry date |
| Pipeline.ModuleSfpText | src/DeviceList.js:796-798 | defined as the lower-cased "interface_name part_number" of the module's SFP slot, or "" without one |
| Pipeline.ModuleMatches | src/DeviceList.js:781-823 | defined as the seven module columns matching: name, part number, serial and description (missing values as ""), and the warranty, expiry and SFP texts |
| Pipeline.VisibleModules | src/DeviceList.js:781-823 | the module rows are an order-preserving subsequence: exactly those whose seven columns include the patterns, each as often as it occurs |
| Pipeline.NoModuleFiltersKeepAll | src/DeviceList.js:781-823 | all-empty module filters keep every module |
| Pipeline.NoIsNotYes | src/DeviceList.js:788-790 | the text "no" does not include "yes" |
| Pipeline.YesIsNotNo | src/DeviceList.js:788-790 | the text "yes" does not include "no" |
| Pipeline.WarrantyFilterSplits | src/DeviceList.js:788-790 | a warranty filter of "yes" shows only modules under warranty; "no" shows only those out of warranty |
| Pipeline.RequestSort | src/DeviceList.js:69-79 | the clicked key becomes the sort key; the direction flips when it was already the key, and is ascending otherwise |
| Pipeline.RequestSortTwice | src/DeviceList.js:69-79 | clicking the active column twice restores the sort |
| Pipeline.SortText | src/DeviceList.js:135-136 | defined as `(d[key] \|\| "").toString().toLowerCase()` |
| Pipeline.Precedes | src/DeviceList.js:133-141 | defined as the comparator returning a negative number: ascending, `a`'s text is `<` `b`'s; descending, the reverse |
| Pipeline.PrecedesIsStrictOrder | src/DeviceList.js:133-141 | the comparator is a strict weak order that ties exactly the rows with equal lower-cased text |
| Pipeline.NotPrecedesTransitive | src/DeviceList.js:133-141 | "may come before" is transitive |
| Pipeline.Insert | src/DeviceList.js:130-145 | defined as placing a row before the first row it need not follow; its properties are `InsertPermutes`, `InsertAllAfter`, `InsertKeepsSorted` and `InsertStable` |
| Pipeline.InsertionSort | src/DeviceList.js:130-145 | defined as inserting each row into the sorted rest, standing in for `sortable.sort(...)`; its properties are `SortIsOrderedPermutation`, `SortIsStable` and `AnyStableSortAgrees` |
| Pipeline.InsertPermutes | src/DeviceList.js:130-145 | inserting a row adds exactly that row |
| Pipeline.InsertAllAfter | src/DeviceList.js:130-145 | inserting a row that need not precede `y` keeps every row not preceding `y` |
| Pipeline.InsertKeepsSorted | src/DeviceList.js:130-145 | inserting into a sorted list keeps it sorted |
| Pipeline.SortOfSorted | src/DeviceList.js:130-145 | an already sorted list is left as it is |
| Pipeline.InsertStable | src/DeviceList.js:130-145 | inserting keeps the relative order of the rows with equal sort text |
| Pipeline.SortIsStable | src/DeviceList.js:130-145 | sorting keeps the relative order of the rows with equal sort text |
| Pipeline.SortIsOrderedPermutation | src/DeviceList.js:130-145 | sorting gives a sorted permutation of its input |
| Pipeline.WithTextHead | src/DeviceList.js:130-145 | the rows with a given sort text, split at the first row |
| Pipeline.NoGroupsMeansEmpty | src/DeviceList.js:130-145 | a list with no rows of any sort text is empty |
| Pipeline.SameGroupsSameRows | src/DeviceList.js:130-145 | lists with the same rows per sort text contain the same rows |
| Pipeline.NothingBeforeFirst | src/DeviceList.js:130-145 | in a sorted list no row must precede the first row |
| Pipeline.SameFirstRow | src/DeviceList.js:130-145 | two sorted lists with the same rows per sort text start with the same row |
| Pipeline.SameTailGroups | src/DeviceList.js:130-145 | removing the shared first row keeps the rows per sort text equal |
| Pipeline.SortedStableUnique | src/DeviceList.js:130-145 | two sorted lists with the same rows in the same order per sort text are equal |
| Pipeline.SortDevices | src/DeviceList.js:130-145 | defined as `sortedDevices`: the filtered rows as they are without a sort key, otherwise the stable sort; its contract is `SortDevicesSpec` |
| Pipeline.SortDevicesSpec | src/DeviceList.js:130-145 | no key: the order is unchanged; with a key: a permutation, sorted ascending or descending by lower-cased text (missing as ""), and stable |
| Pipeline.SortIdempotent | src/DeviceList.js:130-145 | sorting the sorted rows again changes nothing |
| Pipeline.AnyStableSortAgrees | src/DeviceList.js:130-145 | every sorted, stable ordering of the rows is the model's ordering, so the result does not depend on the engine's sort algorithm |
| Pipeline.VisibleDevices | src/DeviceList.js:113-145 | the rendered rows are a permutation of the filtered devices: exactly the devices that match |
| Pagination.CeilDiv | src/DeviceList.js:154-155 | `Math.ceil(total / pageSize)`: the least page count with `(r - 1) * pageSize < total <= r * pageSize` |
| Pagination.TotalPages | src/DeviceList.js:147-155 | 1 without pagination props or with a page size that is not positive; otherwise the ceiling of total over page size |
| Pagination.TotalPagesOfCount | src/DeviceList.js:154-155 | no devices give zero pages; any device gives at least one |
| Pagination.PrevEnabled | src/DeviceList.js:888 | defined as `page > 1`, the negation of `disabled={page <= 1}` |
| Pagination.NextEnabled | src/DeviceList.js:901 | defined as `page < totalPages`, the negation of `disabled={page >= totalPages}` |
| Pagination.NavigationStaysInRange | src/DeviceList.js:887-906 | an enabled Prev or Next moves one page within the range; with both disabled there is a single page |
| Pagination.RowNumber | src/DeviceList.js:289-292 | without pagination, or with a zero page or page size, rows count from 1; the paginated numbering is fixed by `RowNumberOffset` and `RowNumbersTilePages` |
| Pagination.RowNumberOffset | src/DeviceList.js:289-292 | every row's number is the first row's number plus its index, whatever the page size and however many rows the grid holds |
| Pagination.RowNumbersTilePages | src/DeviceList.js:289-292 | page `p` numbers its rows consecutively in `((p-1)*size, p*size]`, and the next page continues at the following number |
| Pagination.PageSizeFor | src/DeviceList.js:925-934 | "all" installs 999999; a number installs itself |
| Pagination.ShownOption | src/DeviceList.js:924 | the select shows "all" exactly for page size 999999, and any other size shows that size |
| Pagination.Offered | src/DeviceList.js:936-939 | defined as the select's four options: 25, 50, 100 and all |
| Pagination.SelectRoundTrip | src/DeviceList.js:922-939 | choosing any offered option (25, 50, 100, all) makes the select show that option |
| Pagination.Pager.ClickPrev | src/DeviceList.js:887-893 | page goes down by one unless `page <= 1` disables the button |
| Pagination.Pager.ClickNext | src/DeviceList.js:900-906 | page goes up by one unless `page >= totalPages` disables the button |
| Pagination.Pager.SelectPageSize | src/DeviceList.js:925-934 | any page-size choice installs its size and returns to page 1 |
| WarrantySync.ModulesToSync | src/DeviceList.js:597-605 | no selected id: all of the device's modules; otherwise the device's modules with a selected id, in order, each as often as it occurs |
| WarrantySync.CleanSerial | src/DeviceList.js:609 | defined as `m.serial_number?.trim().toUpperCase()`: a string serial trimmed and upper-cased; nothing for a null or missing serial |
| WarrantySync.CleanSerialNormalized | src/DeviceList.js:608-610 | a non-empty cleaned serial is trimmed and has no lower-case letter |
| WarrantySync.SerialNumbers | src/DeviceList.js:608-610 | the payload serials are non-blank, trimmed, upper-cased and at most one per module |
| WarrantySync.Contribution | src/DeviceList.js:608-610 | a module contributes at most one serial: nothing exactly when its serial is not a string or cleans to the empty string, otherwise the cleaned serial, which is trimmed and upper-cased |
| WarrantySync.SerialNumbersOfOne | src/DeviceList.js:608-610 | the list for a single module is that module's contribution |
| WarrantySync.SerialNumbersConcat | src/DeviceList.js:608-610 | serials are collected module by module in order: the list for a concatenation is the concatenation of the lists |
| WarrantySync.BlankSerialDropped | src/DeviceList.js:608-610 | a blank, null or missing serial contributes nothing |
| WarrantySync.WarrantySyncAction | src/DeviceList.js:589-621 | an error with the fixed message exactly when no serial remains; otherwise `onSyncEox({ serialNumbers })` with exactly those serials |
| WarrantySync.ForeignSelectionBlocksSync | src/DeviceList.js:593-605 | modules selected only on other devices make the button report the error instead of syncing all modules |
| WarrantySync.WarrantyButtonLabel | src/DeviceList.js:623-627 | "(All Modules)" with no true entry; otherwise the count of true entries |
| WarrantySync.LabelAgreesWithAction | src/DeviceList.js:593-627 | when the label says "All Modules", the click syncs every module of the device |
| DeviceGrid.DeviceListView.constructor | src/DeviceList.js:30-67 | the grid mounts with every store empty, all filters empty and no sort key |
| DeviceGrid.DeviceListView.ReportedSelection | src/DeviceList.js:82-87 | the ids sent to `onSelectionChange` are exactly those reading true, ascending |
| DeviceGrid.DeviceListView.Rows | src/DeviceList.js:113-145 | defined as `sortedDevices` for the current filters and sort configuration; its contents are fixed by `VisibleDevices` |
| DeviceGrid.DeviceListView.HeaderChecked | src/DeviceList.js:175-178 | defined as `AllOn` over the ids of the rows on screen |
| DeviceGrid.DeviceListView.ModuleHeaderChecked | src/DeviceList.js:649-654 | defined as `AllOn` over the ids of all the device's modules |
| DeviceGrid.DeviceListView.ClickSortHeader | src/DeviceList.js:69-79 | a header click applies the sort request |
| DeviceGrid.DeviceListView.ToggleExpand | src/DeviceList.js:89-103 | the row flips; both of its sections take the row's new state; other ids are untouched; collapsed rows never show a section |
| DeviceGrid.DeviceListView.ToggleSelect | src/DeviceList.js:105-110 | exactly one device entry flips |
| DeviceGrid.DeviceListView.ToggleInterfaces | src/DeviceList.js:362-366 | exactly one interface-section entry flips, while its row is expanded |
| DeviceGrid.DeviceListView.ToggleModules | src/DeviceList.js:569-573 | exactly one module-section entry flips, while its row is expanded |
| DeviceGrid.DeviceListView.ToggleModuleSelect | src/DeviceList.js:836-842 | exactly one module entry flips |
| DeviceGrid.DeviceListView.ClickSelectAll | src/DeviceList.js:175-186 | the header box flips; exactly the rows on screen take its new state; hidden and other ids keep theirs |
| DeviceGrid.DeviceListView.ClickSelectAllModules | src/DeviceList.js:649-662 | the module header box flips; every module of the device, filtered or not, takes its new state; other ids keep theirs |
| DeviceGrid.DeviceListView.SetDeviceFilter | src/DeviceList.js:205-278 | typing in a device column filter sets that column's pattern; every other column keeps its pattern; nothing but the device filters changes |
| DeviceGrid.DeviceListView.SetInterfaceFilter | src/DeviceList.js:404-474 | typing in an interface column filter sets that column's pattern; every other column keeps its pattern; nothing but the interface filters changes |
| DeviceGrid.DeviceListView.SetModuleFilter | src/DeviceList.js:672-774 | typing in a module column filter sets that column's pattern; every other column keeps its pattern; nothing but the module filters changes |
| Dashboard.ErrorRecord | src/App.js:44-45 | the server's error body when there is a non-empty one, else `{ error: message }` |
| Dashboard.HostnamesOf | src/App.js:33-36 | when every id is found: one entry per selected id, in order, each the hostname `find` gives; nothing exactly when some id is missing |
| Dashboard.SyncPayload | src/App.js:30-38 | `hostnames: null` exactly for an empty selection; otherwise the hostnames in selection order; nothing when the lookup throws |
| Dashboard.PayloadNamesSelectedDevices | src/App.js:33-36 | with unique ids, each entry is the hostname of the device with that id |
| Dashboard.LoadedSelectionHasPayload | src/App.js:33-36 | when every selected id names a loaded device, the payload is built |
| Dashboard.SyncBegun | src/App.js:24-26 | `loading` set, `result` and `error` cleared, devices and selection kept |
| Dashboard.SyncSettled | src/App.js:41-47 | success records the response; failure records the error record; `loading` is cleared either way |
| Dashboard.SyncOutcomeSlots | src/App.js:24-47 | after a settled sync: success has the result and no error, failure has the error and no result, and `loading` is clear |
| Dashboard.SyncClickedAsWritten | src/App.js:23-49 | the click state and the request as the code orders them: payload built outside the `try` |
| Dashboard.SyncClicked | src/App.js:23-49 | corrected handler: a request is sent, or the lookup failure is recorded and `loading` cleared |
| Dashboard.SyncAlwaysFinishes | src/App.js:23-49 | with the correction, every click ends with `loading` cleared once its request settles |
| Dashboard.SyncCorrectionAgrees | src/App.js:23-49 | with every selected id loaded, the correction behaves exactly as the code |
| Dashboard.ListBegun | src/App.js:52-55 | `loading` set; `error`, `result` and `devices` cleared; selection kept |
| Dashboard.ListSettled | src/App.js:57-64 | success replaces the devices wholesale (a non-empty list remounts the grid, whose first report is an empty selection); failure records the error; `loading` is cleared |
| Dashboard.ListKeepsSelectionLoaded | src/App.js:57-64 | after a successful non-empty list every selected id names a loaded device |
| Dashboard.FailedRefreshThenSyncHangs | src/App.js:23-65 | a failed refresh leaves a stale selection, and the next Sync click as written sends nothing and leaves `loading` set |
| Dashboard.FailedRefreshThenSyncRecovers | src/App.js:23-65 | the same click under the correction reports the failure and clears `loading` |
| Dashboard.ListButtonLabel | src/App.js:81-83 | "Loading…" exactly while loading |
| Dashboard.SyncButtonLabel | src/App.js:85-89 | "Sync Devices (All)" exactly for an empty selection; otherwise "Sync (n) Selected Devices" |
| Dashboard.SyncLabelInjective | src/App.js:85-89 | different selection sizes give different labels |
| Dashboard.ToolbarWarrantyLabel | src/App.js:91-95 | "(All)" exactly for an empty selection; otherwise the count |
| Dashboard.ToolbarLabelsAgree | src/App.js:85-95 | the two toolbar labels agree on whether a selection is in effect |
| Dashboard.App.constructor | src/App.js:11-15 | idle, no result, no error, no devices, no selection |
| Dashboard.App.ClickListDevices | src/App.js:51-55 | the list click applies the list resets |
| Dashboard.App.ListResponse | src/App.js:57-64 | the list settlement applies `ListSettled` |
| Dashboard.App.ClickSync | src/App.js:23-40 | the sync click applies the corrected handler and returns the request sent |
| Dashboard.App.SyncResponse | src/App.js:41-47 | the sync settlement applies `SyncSettled` |
| Dashboard.App.SelectionChanged | src/App.js:110 | the grid's report replaces the selection |
| ConfirmGate.Opened | src/hooks/useConfirmDialog.jsx:12 | the new state is `opts` alone, open unless `opts` says `open: false` |
| ConfirmGate.Closed | src/hooks/useConfirmDialog.jsx:15 | `open` cleared, every other field kept |
| ConfirmGate.Displayed | src/hooks/useConfirmDialog.jsx:29 | a default replaces only `undefined`; `null` shows nothing; a string shows itself |
| ConfirmGate.Render | src/hooks/useConfirmDialog.jsx:27-39 | nothing while closed; otherwise the four texts with their defaults |
| ConfirmGate.DefaultDialog | src/hooks/useConfirmDialog.jsx:9-29 | `confirm()` shows "Confirm", "Are you sure?", "OK", "Cancel" |
| ConfirmGate.OpenedIsShown | src/hooks/useConfirmDialog.jsx:12-28 | `confirm(opts)` shows the dialog unless `opts` says `open: false` |
| ConfirmGate.CloseThenReopen | src/hooks/useConfirmDialog.jsx:12-28 | closing hides the dialog and keeps its texts |
| ConfirmGate.Ancestry | src/hooks/useConfirmDialog.jsx:32-39 | a click bubbles from the element clicked up to the backdrop |
| ConfirmGate.OnClick | src/hooks/useConfirmDialog.jsx:32-38 | defined as each element's `onClick`: the backdrop and Cancel run `handleCancel`, OK runs `handleConfirm`, the modal body has only `stopPropagation` |
| ConfirmGate.StopsPropagation | src/hooks/useConfirmDialog.jsx:33 | defined as: only the modal body stops propagation |
| ConfirmGate.Bubble | src/hooks/useConfirmDialog.jsx:32-39 | only handlers of elements on the path run, at most one per element |
| ConfirmGate.ClickRouting | src/hooks/useConfirmDialog.jsx:32-38 | the backdrop and Cancel run only cancel; OK runs only confirm; other clicks inside the modal run nothing |
| ConfirmGate.ConfirmDialog.constructor | src/hooks/useConfirmDialog.jsx:6-7 | closed, no resolver, no promise |
| ConfirmGate.ConfirmDialog.Confirm | src/hooks/useConfirmDialog.jsx:9-13 | a new pending promise becomes the stored resolver, replacing the previous one, and the state becomes `Opened(opts)` |
| ConfirmGate.ConfirmDialog.HandleCancel | src/hooks/useConfirmDialog.jsx:17-20 | the stored promise resolves to false and the dialog closes, keeping its texts |
| ConfirmGate.ConfirmDialog.HandleConfirm | src/hooks/useConfirmDialog.jsx:22-25 | the stored promise resolves to true and the dialog closes, keeping its texts |
| ConfirmGate.ConfirmDialog.Click | src/hooks/useConfirmDialog.jsx:32-38 | a backdrop click is exactly a cancel; a click inside the modal other than the buttons changes nothing |
| ConfigViewer.JsRem | src/DeviceConfig.js:79-87 | JavaScript's `%`: below `n` in magnitude, with the dividend's sign; the Euclidean remainder for a non-negative dividend and the negated remainder of `-a` for a negative one |
| ConfigViewer.NextIndex | src/DeviceConfig.js:79 | from any index that is not negative, the next index is in `[0, n)` |
| ConfigViewer.PrevIndex | src/DeviceConfig.js:87 | from any index in `[0, n)`, the previous index is in `[0, n)` |
| ConfigViewer.NextWraps | src/DeviceConfig.js:79 | the last match wraps to the first; others move one on |
| ConfigViewer.PrevWraps | src/DeviceConfig.js:87 | the first match wraps to the last; others move one back |
| ConfigViewer.NextPrevInverse | src/DeviceConfig.js:76-90 | Prev undoes Next and Next undoes Prev |
| ConfigViewer.ScrollTarget | src/DeviceConfig.js:64-69 | no scroll without marks; otherwise the index reduced modulo the mark count |
| ConfigViewer.EnvelopeError | src/DeviceConfig.js:26 | the envelope's message when it is a non-empty string, otherwise "Failed to load configuration" |
| ConfigViewer.ErrorShown | src/DeviceConfig.js:93 | defined as the truthiness `if (error)` tests: no error and an empty message are falsy; a non-empty message or any response body is truthy |
| ConfigViewer.DeviceConfigOps.constructor | src/DeviceConfig.js:8-14 | empty texts, loading, no error, config tab, empty search, index 0 |
| ConfigViewer.DeviceConfigOps.View | src/DeviceConfig.js:92-93 | the loading page exactly while loading; the error page exactly when a truthy error is set after loading |
| ConfigViewer.DeviceConfigOps.Load | src/DeviceConfig.js:21-37 | a failed envelope sets its message or "Failed to load configuration"; a thrown error sets the response body, or the error message when the body is missing or empty; both keep the texts; success sets both texts (missing as ""); `loading` ends false on every path |
| ConfigViewer.DeviceConfigOps.ChangeSearch | src/DeviceConfig.js:146-149 | a new search term resets the index to 0 |
| ConfigViewer.DeviceConfigOps.SelectTab | src/DeviceConfig.js:110-123 | the chosen tab becomes active; the operational tab needs operational text |
| ConfigViewer.DeviceConfigOps.HandleFind | src/DeviceConfig.js:71-74 | the index resets to 0 and the first mark, if any, is scrolled to |
| ConfigViewer.DeviceConfigOps.HandleNext | src/DeviceConfig.js:76-82 | with marks: index `(i + 1) % n`, scrolled to; without marks: nothing changes |
| ConfigViewer.DeviceConfigOps.HandlePrev | src/DeviceConfig.js:84-90 | with marks: index `(i - 1 + n) % n`, scrolled to; without marks: nothing changes |

## Left out

- HTTP and API wrappers (axios, `getDeviceConfigOps`): foreign I/O. Their results are parameters of the settling methods.
- Session, login, job pollers, `FileViewer`, `index.js` and the timezone context: navigation, timers and fetch-and-display code outside the grid and its controllers. FileViewer, the API and auth modules and the job pages are not part of this model.
- Locale-dependent text: a module's expiry column (`toLocaleDateString`) is an opaque string supplied with the module.
- Strings.Lower, Strings.Upper: only ASCII letters change case. JavaScript's full Unicode case mapping is not modelled.
- Strings.Less: compares by Unicode code point. JavaScript compares UTF-16 code units, which differs only for characters outside the Basic Multilingual Plane.
- Flags.TrueKeys: ids are taken to be array-index keys (below 2^32 - 1), which `Object.keys` lists in ascending numeric order. Larger integer keys are string keys listed in insertion order after the index keys; that order is not modelled.
- `highlightText`: it builds a regular expression from unescaped input, so its behaviour is the regex engine's. The mark count it produces is a parameter.
- DOM effects: `querySelectorAll`, `scrollIntoView`, the download link, the clipboard and its `setTimeout` revert. The scroll target is returned instead.
- JSX markup, styling, the show/hide-filter toggles and the row highlight classes: presentation only.
- The pagination parent's fetch on page or page-size change: the parent page is not part of this model, so `Pager` only records the page and size it would fetch.
- Dashboard.App.ClickSync: models the corrected handler. The handler as written is `Dashboard.SyncClickedAsWritten` (see "## Findings").
- Dashboard.ErrorRecord: response bodies are modelled as text; falsy bodies other than the empty string (`0`, `false`) are not modelled.
- ConfigViewer.DeviceConfigOps.Load: an envelope that is itself `undefined` (a TypeError caught as a thrown error) is not modelled separately. `success` is a boolean.
- ConfirmGate.DialogOptions: an `open` key whose value is not a boolean is not modelled.
- `d.interfaces` or `d.modules` absent: not modelled; devices always carry both lists, possibly empty. Only the two filter chains use `?.` (src/DeviceList.js:482 and :782). With `d.modules` absent the source throws a TypeError at src/DeviceList.js:492 (`d.modules.find`), :604-609 (`d.modules.filter`, or `.map` on `d.modules`) and :650 (`d.modules.length`).
- Stale-response tagging, the legacy response shapes and per-device scoping of module selection: the code does not implement them.
- React's batching and the asynchronous gap between a click and its request's settlement: each handler is a click step and a settle step. The toolbar buttons are disabled while loading, so at most one request is in flight.

## Findings

| source | as written | input that shows it | evidently intended | confidence | as-written member | corrected member |
|---|---|---|---|---|---|---|
| src/App.js:23-49 | `handleSync` sets `loading` and then builds the payload outside the `try`. `find` can return `undefined`, and `.hostname` on it throws, so `finally` never runs. | Select a device, then click List Devices and let the request fail (or return `[]`): the grid unmounts and `selectedDevices` keeps the stale id. Click Sync: the lookup throws, no request is sent, and `loading` stays true, disabling both toolbar buttons. | Every sync click ends with `loading` cleared; a failed lookup is reported like a failed request. | high (not executed) | Dashboard.FailedRefreshThenSyncHangs | Dashboard.SyncAlwaysFinishes |
