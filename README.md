# LocusZoom data layer: a Dafny model

LocusZoom draws genome plots. A plot holds panels, and a panel holds data
layers. A data layer owns a set of data rows and a layout. It also owns the
interactive state those rows carry:

- which elements are highlighted and which are selected, kept as two id lists
  in the plot's shared `state` object under a key of the form
  `"<panel id>.<layer id>"`;
- a registry of open tooltips, keyed by element id;
- the mouseover, mouseout and click handlers that change both.

Besides this state, the model covers two pure computations of the layer: how
a "scalable parameter" of the layout resolves to one value for a data row,
and how the extent of the x or y axis is computed.

The model follows `assets/js/app/DataLayer.js` branch by branch. JavaScript
values are the datatype `Values.Value`. A thrown exception becomes an
`Error` inside a `Result` or `Outcome`:

- `TypeError` for a property read on `null`/`undefined`;
- one error per `throw` statement in the source.

Runs cut short by an exception are modelled faithfully. For example, in
`toggleAllElementStatus(status, true)` the ids pushed before the throw stay
pushed.

Modules:

- `Values`: JavaScript values, truthiness, loose `== null`, unary `+` (NaN is
  `None`), results and outcomes.
- `Layouts`: the layout after it has been merged with the layer's defaults.
  `highlightable` defaults to `"onmouseover"`, which is truthy. `selectable`
  and `tooltip` default to `false`. Each setting is kept only as the tests
  the code applies to it. For example, `tooltip` is classified by
  `typeof == "object"` and by truthiness, which tell `null` apart from an
  object.
- `Ids`: the two id schemes.
  - `getElementId` gives `plot.panel.layer.<id>`.
  - The hover and click handlers give `panel_<id>`.
  - Both strip non-word characters (`\W`) from the id field.
  - The schemes are deliberately kept distinct, as they are in the source.
- `StatusLists`: the list operations behind a status toggle. These are
  `indexOf`, push-if-absent and splice-the-first-occurrence. The lemmas cover
  duplicates, counts, order and round trips.
- `ScalableParameters`: `resolveScalableParameter` as a recursive
  specification `Resolve` and as the source's loop, proved equal.
- `AxisExtents`: `getAxisExtent` and the `d3.extent` it relies on.
- `DataLayers`: reference functions for toggling, clicking and the tooltip
  registry, plus the classes.
  - `LayerStatus` is a layer's entry `state[state_id]`.
  - `PlotState` is the shared state object.
  - `DataLayer` has the constructor, the toggles, the tooltip operations, the
    handlers and `reMap`. Each method is proved against the reference
    functions.

The shared entry `state[state_id]` is an object that every layer with the
same key sees. The model therefore carries it as a `LayerStatus` reference,
and the methods that change the lists name it in `modifies`.

## Model

| member | source | states |
|---|---|---|
| Ids.BaseId | assets/js/app/DataLayer.js:60-62 | the base id joins the plot id, the panel id and the layer id with dots |
| Ids.StripNonWord | assets/js/app/DataLayer.js:65 | the stripped id holds only word characters: every word character keeps its count and every other character is gone |
| Ids.StripNonWordAppend | assets/js/app/DataLayer.js:65 | stripping works character by character: stripping a concatenation concatenates the stripped parts, so order is kept |
| Ids.StripNonWordKeepsWords | assets/js/app/DataLayer.js:65 | an id made only of word characters passes through unchanged |
| Ids.StrippedId | assets/js/app/DataLayer.js:65 | the id field yields an id exactly when it holds a string (otherwise `.replace` is a TypeError), and the id is word-only |
| Ids.ElementId | assets/js/app/DataLayer.js:60-66 | an element id is the base id, a dot, then exactly the id field with its non-word characters stripped; it fails with TypeError exactly when the field is not a string |
| Ids.HoverId | assets/js/app/DataLayer.js:465 | a handler id is the panel id, an underscore, then exactly the id field with its non-word characters stripped; it fails with TypeError exactly when the field is not a string |
| Ids.WordIdsAreVerbatim | assets/js/app/DataLayer.js:60-66 | for a word-only id field, both schemes embed it verbatim |
| DataLayers.DataLayer.ElementIdOf | assets/js/app/DataLayer.js:60-66 | a layer without a parent cannot form an element id (reading `parent.parent` throws) |
| DataLayers.DataLayer.HoverIdOf | assets/js/app/DataLayer.js:465 | a layer without a parent cannot form a handler id |
| ScalableParameters.ResolveObject | assets/js/app/DataLayer.js:108-112 | with a truthy `scale_function` and a truthy `field`, the object case is exactly the scale function applied to the name, to `parameters` or `{}` when that is falsy, and to the element's value of the field; without both it yields null; only the scale function's call can throw |
| ScalableParameters.ResolveConstants | assets/js/app/DataLayer.js:103-113 | numbers and strings resolve to themselves; undefined, booleans, an incomplete object and the empty array resolve to null; a complete object resolves to the scale function applied to its name, its `parameters` (or `{}`) and the element's field value; a null layout throws |
| ScalableParameters.Resolve | assets/js/app/DataLayer.js:94-116 | reference meaning of a directive, by cases on its JavaScript type: an array is the scan `ResolveFrom` from its first entry; a number or string is itself; an object goes through `ResolveObject`; `null` throws, since `typeof null` is "object"; anything else is null |
| ScalableParameters.ResolveFrom | assets/js/app/DataLayer.js:96-101 | reference meaning of the fallback scan from position i: an entry that throws ends it with that error; the first entry whose value is not null or undefined, or the last entry, gives the result; an exhausted scan is null |
| ScalableParameters.ResolveArrayStopsAt | assets/js/app/DataLayer.js:96-101 | an array resolves to its first entry that resolves to a non-null value, or to its last entry when none does; an entry that throws stops the scan with that error |
| ScalableParameters.ResolveFromStopsAt | assets/js/app/DataLayer.js:96-101 | the fallback scan from any position up to the deciding entry yields that entry's result |
| ScalableParameters.ScanStops | assets/js/app/DataLayer.js:98 | every non-empty array has a deciding entry, so the scan always ends on one |
| ScalableParameters.ResolveScalableParameter | assets/js/app/DataLayer.js:94-116 | the source's while loop over the fallbacks computes exactly the recursive specification |
| AxisExtents.D3Extent | assets/js/app/DataLayer.js:135-137 | `d3.extent` is defined exactly when some value is not NaN; then both bounds are values of the input and enclose every defined value |
| AxisExtents.AxisExtent | assets/js/app/DataLayer.js:121-123 | the extent fails exactly for a dimension other than "x" and "y", with the invalid-dimension error |
| AxisExtents.FloorAndCeilingDecide | assets/js/app/DataLayer.js:128-130 | when floor and ceiling are both numbers, the extent is [floor, ceiling] whatever the data |
| AxisExtents.DataExtentCovers | assets/js/app/DataLayer.js:133-156 | with a field and data that has a numeric value, the extent encloses every numeric data value, both buffered points and the min_extent pair, with floor and ceiling overriding its ends |
| AxisExtents.UndefinedDataExtent | assets/js/app/DataLayer.js:133-156 | when no row has a numeric value, buffers are NaN and the extent is undefined, or is min_extent sorted when that is given (floor and ceiling still override) |
| AxisExtents.BufferPoints | assets/js/app/DataLayer.js:140-142 | the points the lower and upper buffers push, each only when its buffer is a number: the data extent's ends moved outward by the buffer times the span, or NaN when the data extent is undefined |
| AxisExtents.MinExtentPoints | assets/js/app/DataLayer.js:144-147 | the two ends of `min_extent` are pushed when it is given with numeric ends, and nothing otherwise |
| AxisExtents.D3ExtentOfPair | assets/js/app/DataLayer.js:150 | the second `d3.extent` of undefined ends plus two numbers is those two numbers in order |
| AxisExtents.StateFallback | assets/js/app/DataLayer.js:160-167 | without a usable field or data, the x axis falls back to the state's start and end when both are set, and otherwise the extent is empty |
| StatusLists.IndexOf | assets/js/app/DataLayer.js:384 | `indexOf` is -1 exactly when the id is absent; otherwise it is the first position holding the id |
| StatusLists.RemoveAt | assets/js/app/DataLayer.js:389 | `splice(i, 1)` drops one element and its occurrence |
| StatusLists.Added | assets/js/app/DataLayer.js:384-387 | toggling on keeps the old list as a prefix, adds at most one element and leaves the id in the list |
| StatusLists.Toggled | assets/js/app/DataLayer.js:384-390 | the list after one toggle: pushing if absent when on, splicing out the first occurrence when off |
| StatusLists.AddedIdempotent | assets/js/app/DataLayer.js:385-387 | toggling on an id already present changes nothing, so toggling on twice is toggling on once |
| StatusLists.AddedCounts | assets/js/app/DataLayer.js:385-387 | toggling on raises the id's count only when it was absent and leaves every other id's count alone |
| StatusLists.AddedExactlyOnce | assets/js/app/DataLayer.js:385-387 | an id absent before a toggle on occurs exactly once after it |
| StatusLists.AddedNoDup | assets/js/app/DataLayer.js:385-387 | toggling on never introduces a duplicate |
| StatusLists.RemoveFirst | assets/js/app/DataLayer.js:388-390 | toggling off an absent id changes nothing; toggling off a present id removes one occurrence |
| StatusLists.RemoveFirstKeepsOrder | assets/js/app/DataLayer.js:388-390 | toggling off removes the first occurrence and keeps the rest in order |
| StatusLists.RemoveAtNoDup | assets/js/app/DataLayer.js:389 | removing a position from a duplicate-free list gives a duplicate-free list |
| StatusLists.RemoveFirstNoDup | assets/js/app/DataLayer.js:388-390 | in a duplicate-free list, toggling off leaves the id absent and the list duplicate-free |
| StatusLists.AddRemoveRoundTrip | assets/js/app/DataLayer.js:384-390 | toggling an absent id on and then off gives back the list |
| StatusLists.RemoveFirstOfHead | assets/js/app/DataLayer.js:413-416 | removing a list's first element by value leaves its tail, which is why the clearing loop can walk a copy |
| DataLayers.IsOn | assets/js/app/DataLayer.js:372 | the toggle flag: an omitted toggle means on, any other value counts by its truthiness (the same test guards the branch at :402-404) |
| DataLayers.ToggleAllOn | assets/js/app/DataLayer.js:405-411 | toggling all on keeps the old list as a prefix; it can only throw if some id or the tooltip logic throws |
| DataLayers.ToggleAllOnCovers | assets/js/app/DataLayer.js:405-411 | after a run that does not throw, every row's id is in the list and the list holds nothing but old ids and row ids |
| DataLayers.ToggleAllOnPasses | assets/js/app/DataLayer.js:405-411 | when every row has an id and the tooltip logic does not throw, toggling all on does not throw |
| DataLayers.ToggleAllOnNoDup | assets/js/app/DataLayer.js:405-411 | toggling all on never introduces a duplicate |
| DataLayers.ClickSelection | assets/js/app/DataLayer.js:496-539 | a click on an unselected id selects it; a click on a selected id removes one occurrence unless it is a closed tooltip in "multiple" mode |
| DataLayers.ClickSelects | assets/js/app/DataLayer.js:517-531 | a click on an unselected id appends it, and in "one" mode it replaces the current selection |
| DataLayers.ClickDeselects | assets/js/app/DataLayer.js:500-514 | a click on a selected id removes its first occurrence (in a duplicate-free selection the id is then absent), except that in "multiple" mode a closed tooltip is only unclosed |
| DataLayers.ClickOneKeepsSingle | assets/js/app/DataLayer.js:519-531 | in "one" mode the selection never grows beyond one element |
| DataLayers.ClickNoDup | assets/js/app/DataLayer.js:496-539 | clicks never introduce a duplicate selection |
| DataLayers.ClickTwiceRestores | assets/js/app/DataLayer.js:496-539 | outside "one" mode, a second click on a newly selected element whose tooltip is not closed undoes the first |
| DataLayers.Created | assets/js/app/DataLayer.js:172-192 | creating a tooltip throws without an object tooltip layout or a string id; it keeps every existing record; a new id with a parent always gets a record (the datum, not closed) and adds nothing else; it succeeds exactly when the id is already registered or a parent exists and the tooltip layout is a real object (a `null` layout registers the record and then throws) |
| DataLayers.Destroyed | assets/js/app/DataLayer.js:220-230 | destroying throws exactly for a non-string id; otherwise the id is gone and every other record is kept |
| DataLayers.CreateIdempotent | assets/js/app/DataLayer.js:179-182 | creating a tooltip for an id already registered does not replace its record |
| DataLayers.CreateDestroyRoundTrip | assets/js/app/DataLayer.js:172-230 | destroying a tooltip just created for a new id gives back the registry |
| DataLayers.DataLayer.constructor | assets/js/app/DataLayer.js:16-48 | a layer with a parent shares its state, reuses or creates the entry `panel.layer`, and adds an empty highlighted/selected list only where the layout enables it and none exists yet; without a parent the state is a fresh empty object |
| DataLayers.DataLayer.ShowOrHideThrows | assets/js/app/DataLayer.js:268-326 | the tooltip logic run after every toggle throws exactly when the tooltip layout is `null` (it reads `null.show`), or is an object and the layer's highlighted or selected list is missing (`indexOf` on undefined); a layout that is not an object returns at once |
| DataLayers.DataLayer.SetList | assets/js/app/DataLayer.js:386-389 | writing one status list leaves the other list alone |
| DataLayers.DataLayer.ToggleElementStatus | assets/js/app/DataLayer.js:367-395 | an unknown status name or a non-string id changes nothing; a missing list throws; otherwise the list becomes its toggled version, the tooltip logic may throw afterwards, and duplicates never appear |
| DataLayers.DataLayer.ToggleAllElementStatus | assets/js/app/DataLayer.js:398-419 | toggling all on meets `ToggleAllOn`; toggling all off empties the list, or removes only its head when the tooltip logic throws; the other list is untouched and duplicates never appear |
| DataLayers.DataLayer.ApplyStatusToAll | assets/js/app/DataLayer.js:405-411 | the forEach over the rows computes `ToggleAllOn` on the list as it was |
| DataLayers.DataLayer.ApplyStatusToElement | assets/js/app/DataLayer.js:406-411 | one forEach callback: an id error or missing list throws, a present id is skipped, an absent id is pushed |
| DataLayers.DataLayer.ClearStatusFromAll | assets/js/app/DataLayer.js:412-417 | the forEach over a copy of the list removes each id in turn, leaving the list empty unless the first call's tooltip logic throws |
| DataLayers.DataLayer.CreateTooltip | assets/js/app/DataLayer.js:172-192 | the registry and outcome are those of `Created` |
| DataLayers.DataLayer.DestroyTooltip | assets/js/app/DataLayer.js:220-230 | the registry and outcome are those of `Destroyed` |
| DataLayers.DataLayer.DestroyAllTooltips | assets/js/app/DataLayer.js:233-237 | afterwards no tooltip is registered |
| DataLayers.DataLayer.OnMouseOver | assets/js/app/DataLayer.js:464-476 | hovering an element that is not selected opens its tooltip as `Created` does, when the layout has a truthy tooltip; a selected element is left alone; a missing parent or selected list throws |
| DataLayers.DataLayer.OnMouseOut | assets/js/app/DataLayer.js:477-489 | leaving an element that is not selected removes its tooltip, when the layout has a truthy tooltip; a selected element keeps its tooltip |
| DataLayers.DataLayer.OnClick | assets/js/app/DataLayer.js:496-541 | a missing parent or selected list throws; otherwise the selection becomes `ClickSelection`, with the closed flag read from the registry; in "one" mode the previous selection's tooltip is destroyed; a closed tooltip in "multiple" mode keeps its key, while its record is left to `uncloseTooltip`; no other record changes; highlights are untouched; duplicates never appear; "one" mode keeps at most one selection |
| DataLayers.DataLayer.ClickElement | assets/js/app/DataLayer.js:498-539 | once the id is known, the click dispatches on whether it is selected: the selection becomes `ClickSelection` and the registry changes only as the branch taken says |
| DataLayers.DataLayer.ClickSelectedElement | assets/js/app/DataLayer.js:500-514 | for a selected id: a closed tooltip in "multiple" mode leaves the selection alone and keeps every other record; otherwise one occurrence is spliced out and the registry is untouched |
| DataLayers.DataLayer.ClickUnselectedElement | assets/js/app/DataLayer.js:517-531 | for an unselected id: in "one" mode a current selection is dropped and its head's tooltip destroyed; then the id is appended |
| DataLayers.DataLayer.ReMap | assets/js/app/DataLayer.js:586-599 | all tooltips are cleared first; with a parent, the fetched rows become the data and the layer is initialized; without one, the fetch throws and the data stays |

## Left out

- Drawing and the DOM are not modelled: the SVG groups, classes set with
  `d3.select(...).attr`/`classed`, the tooltip `div`s and arrows. That removes
  `initialize`, `draw`, `positionTooltip`, `positionAllTooltips` and
  `getPageOrigin`. `positionTooltip` on an already registered id is taken to
  have no effect, although it reads `d3.event`, which is null outside an
  event.
- `updateTooltip`: only its failure on a `null` tooltip layout is modelled,
  because it reads `layout.tooltip.html`. The HTML it renders from
  `LocusZoom.parseFields` and the close button are not.
- `showOrHideTooltip`: only whether it throws (`DataLayer.ShowOrHideThrows`)
  is modelled, because its computed `show_tooltip` is never used. Its
  `typeof directive == "array"` branch can never be taken.
- DataLayers.DataLayer.OnClick: leaves the record of a reopened tooltip
  unconstrained. `uncloseTooltip` is defined outside this file, so the model
  does not fix its effect. The selection is taken to be left alone, and the registry is
  taken to keep its keys and every other record. The record of the tooltip
  it reopens may end up as anything, so a later click on that element may
  find it closed or not.
- `closeTooltip` and `onUpdate` also call code outside this file. The model
  takes them to change neither the selection nor the registry.
- `LocusZoom.mergeLayouts` and the defaults: the layer receives the layout
  after merging.
- `LocusZoom.ScaleFunctions.get` is defined elsewhere. It is a parameter of the
  resolving functions that returns a value or throws, and its error ends the
  resolution.
- The restore loop run when a selectable layer gets its click handler is not
  modelled, because it consults the DOM (`d3.select(...).empty()`, `datum()`)
  and replays handlers. Note that it splices the array its `forEach` is
  walking, so the element after each removed one is skipped.
- `reMap`'s data fetch through `lzd.getData` and its promise are not
  modelled: `DataLayer.ReMap` takes the fetched rows as a parameter and runs
  the promise's callback at once.
- The wrappers `highlightElement`, `unhighlightElement`,
  `highlightAllElements`, `unhighlightAllElements`, `selectElement`,
  `unselectElement`, `selectAllElements` and `unselectAllElements` are left
  out. Each only passes a fixed status name to the toggles.
- The handler installation in `applyHighlight`, `applySelectability` and
  `enableTooltips` (its checks on the selection and `id_field`) is left out:
  the model calls the handlers directly. `DataLayer.OnClick` requires a
  selectable layout, because the click handler is bound only then.
- `AxisExtents.AxisExtent`: numeric coercion of strings and arrays is not
  modelled. Unary `+` of such a value is taken as NaN.
- `AxisExtents.AxisExtent`: the layout's floor, ceiling, buffers and
  min_extent are given after coercion. This means a `null` floor counts as 0,
  whereas the data branch would return it unconverted. A `null` entry of
  min_extent passes the code's `isNaN` test and is then ignored by
  `d3.extent`; the model reads it as the number 0 instead. A `null`
  min_extent, which throws, is not represented.
- `AxisExtents.AxisExtent`: a state start or end that is not a number is not
  represented.
- `ScalableParameters.Resolve`: a `field` that is not a string is read as
  undefined. JavaScript would convert it to a key.
- `DataLayer.CreateTooltip`: keys inherited from `Object.prototype` in the
  tooltip dictionary are not modelled.
- Status lists are values held inside the shared entry, and ids in the lists
  are strings. Aliasing of the arrays themselves, for example two entries
  sharing one array, is not modelled.
