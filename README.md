# Canyoning web map — a verified model of its page logic

The page shows canyon pins and canyon-region polygons on a map of New South
Wales. Clicking a pin selects its `ID` and fills a detail panel with its
properties: title, description, image, and one attribute row per remaining
property. An Edit/Save button unlocks the panel's fields. Saving writes the
edited values back into every pin whose `ID` matches the selection and
rebuilds that pin's popup. The pins' radius and opacity, the regions' fill
opacity and the region labels all react to the zoom level.

This project models all of that logic in five modules:

- `Zoom` (`zoom.dfy`) holds the zoom-dependent styling rules as pure
  functions over exact reals.
- `Properties` (`properties.dfy`) holds a pin's property object: an ordered
  sequence of key/value entries with distinct keys. Reading a key gives an
  `Option`. Assignment keeps an existing key in place and appends a new one.
- `Sidebar` (`sidebar.dfy`) holds the panel's title, description and image
  texts, and the attribute rows built by the key loop. It also holds the
  `attr-value-<key>` field ids and how they decode.
- `Popups` (`popups.dfy`) holds the popup text bound when the pins are
  ready, and the text rebuilt after a save.
- `Editor` (`editor.dfy`) holds the page state as the class `CanyonMap`:
  - the pin layers, as an array updated in place;
  - the selection (`None` stands for `null` and for a pin without `ID`);
  - the button's mode;
  - the panel's fields.

  Its methods are the page's handlers: `OnReady`, `OnCanyonClick`,
  `Populate` and `Click`, with the save loop `SaveToPins`. Each loop method
  is proved against a recursive function on sequences (`BoundLayers`,
  `SavedLayers`, `UpdatesOf`, `AssignAll`, `Rows`). The lemmas are stated
  about those functions.

Saving the panel unchanged leaves a pin's properties unchanged only if the
pin already has a `Description`.
Otherwise the save adds `Description: ""`
(`Editor.PopulatedSaveAddsMissingDescription`). A save also always rebinds
the popup, with the region label "Canyon Region:" where the load-time popup
says "Region:".

## Model

| member | source | states |
|---|---|---|
| Zoom.PinRadius | index.js:51-69 | The radius always lies in [3, 6]. It is 3 at zoom 12 and below, 6 at zoom 16 and above, and strictly between the two in between. |
| Zoom.PinRadiusMonotone | index.js:51-69 | The radius never decreases as the zoom grows. |
| Zoom.PinRadiusSlope | index.js:63-67 | Between zoom 12 and 16 the radius grows by exactly 3/4 per zoom level. |
| Zoom.PinRadiusAtFourteen | index.js:51-69 | At zoom 14 the radius is 4.5. |
| Zoom.Max | index.js:84 | `Math.max` on reals: the result is one of its arguments and at least both. |
| Zoom.Min | index.js:84 | `Math.min` on reals: the result is one of its arguments and at most both. |
| Zoom.RegionFillOpacity | index.js:74-85 | The fill opacity always lies in [0, 0.8]. It is 0.8 at zoom 3 and below, 0 at zoom 13 and above, and strictly between the two in between. |
| Zoom.RegionFillOpacityAntitone | index.js:74-85 | The fill opacity never increases as the zoom grows. |
| Zoom.RegionFillOpacitySlope | index.js:80-84 | Between zoom 3 and 13 the opacity falls by exactly 0.08 per zoom level. |
| Zoom.RegionFillOpacityAtEight | index.js:74-85 | At zoom 8 the fill opacity is 0.4. |
| Zoom.LabelDisplay | index.js:338 | A region label's display is always "none" or "block". |
| Zoom.PinStyleAt | index.js:343-349 | The radius comes from the radius rule. Fill opacity and outline opacity are equal, and each is 0 or 1. |
| Zoom.LabelsShownIff | index.js:338 | Labels are shown exactly when the zoom is at least 10, and hidden ("none") otherwise. |
| Zoom.PinsVisibleIff | index.js:346-347 | Pins are visible exactly when the zoom is above 10, and then they are fully opaque. |
| Zoom.VisibilityThresholds | index.js:338-347 | Visible pins always come with visible labels. Labels show while pins are hidden at exactly zoom 10. |
| Zoom.HiddenPinsHaveMinRadius | index.js:345-347 | Whenever pins are hidden, their radius is the minimum, 3. |
| Properties.Truthy | index.js:172-173 | A helper with no contract of its own: a property value is truthy when it is defined and not the empty string, as the `||` at index.js:172-173, 260-261 and 277-280 and the `if (updates["Name"])` at index.js:249 test it. |
| Properties.OrDefault | index.js:277-280 | `v || d` on a property value: the result is the default, or the defined value itself. |
| Properties.Get | index.js:305 | Reading `p[k]` gives a value exactly when `k` is an own key, and that value is the one stored under `k`. |
| Properties.SetProp | index.js:256 | `p[k] = v` grows the object by at most one entry. What it reads and its key order are stated by `SetPropGet` and `SetPropKeys`. |
| Properties.SetPropGet | index.js:256 | After `p[k] = v`, `k` reads `v` and every other key reads what it read before. |
| Properties.SetPropKeys | index.js:256 | Assignment keeps the key order. A new key is appended last. |
| Properties.SetPropDistinct | index.js:256 | Assignment keeps the keys distinct. |
| Properties.SetPropSame | index.js:256 | Assigning a key the value it already holds leaves the object unchanged. |
| Properties.SetPropNew | index.js:252 | Assigning an absent key appends exactly that entry. |
| Sidebar.Reserved | index.js:290 | A helper with no contract of its own: the keys the table skips are exactly `Description`, `Image` and `ID`. `RowsSound` and `RowsComplete` state how the rows use it. |
| Sidebar.HasFieldIdPrefix | index.js:236 | A helper with no contract of its own: the `[id^="attr-value-"]` selector's test. `FieldIdFromKey` states what it matches. |
| Sidebar.FieldId | index.js:308 | A value field's id starts with `attr-value-` and is exactly that prefix plus the key. |
| Sidebar.KeyOfFieldId | index.js:240 | Stripping the prefix removes exactly its length. A shorter id gives "", because `substring` clamps its start. |
| Sidebar.FieldIdRoundTrip | index.js:240 | Decoding the id made from a key gives back that key. |
| Sidebar.FieldIdFromKey | index.js:236-240 | Every id the `[id^="attr-value-"]` selector matches is the id of the key it decodes to. |
| Sidebar.FieldIdInjective | index.js:308 | Distinct keys get distinct value-field ids. |
| Sidebar.Rows | index.js:287-316 | The row list the table shows, defined by recursion over the keys. It has no contract of its own; `RowsSound`, `RowsOrdered` and `RowsComplete` state its properties. |
| Sidebar.RowFor | index.js:293-309 | One key's row: it copies the key and the value, and its value field's id decodes back to the key. |
| Sidebar.PopulateRows | index.js:287-316 | The key loop yields exactly `Rows(p)`. |
| Sidebar.RowsSound | index.js:287-309 | Every row is for an own key other than `Description`, `Image` and `ID`. It shows that key's value, with the id made from the key. |
| Sidebar.RowsOrdered | index.js:287-316 | Rows appear in the object's key order, strictly, so no key gets two rows. |
| Sidebar.RowsComplete | index.js:287-290 | Every own key other than `Description`, `Image` and `ID` gets a row. |
| Sidebar.NameAndRegionGetRows | index.js:290 | `Name` and `Canyon Region` get rows when present. `ID`, `Description` and `Image` never do. |
| Sidebar.DifficultyExample | index.js:287-316 | A pin with an extra `Difficulty` column gets rows for `Name`, `Canyon Region` and `Difficulty`, in that order, with their ids. |
| Sidebar.TitleText | index.js:277 | The title is `Name` when it is non-empty, and "Unknown Canyon" otherwise. |
| Sidebar.DescriptionText | index.js:278 | The description field holds the stored `Description` (possibly empty), and "" when there is none. |
| Sidebar.ImageSource | index.js:280 | The image is `Image` when it is non-empty, and "placeholder.jpg" otherwise. |
| Popups.NameText | index.js:172 | The popup name is `Name` when it is non-empty, and "N/A" otherwise. |
| Popups.RegionText | index.js:173 | The popup region is `Canyon Region` when it is non-empty, and "N/A" otherwise. |
| Popups.LoadPopup | index.js:171-174 | The load-time text: the name line and the "Region:" line joined by "<br>". It has no contract of its own; the lemmas below state its properties. |
| Popups.SavePopup | index.js:260-262 | The rebuilt text: the name line and the "Canyon Region:" line joined by "<br>". It has no contract of its own; the lemmas below state its properties. |
| Popups.LoadPopupShowsNameAndRegion | index.js:171-174 | The load-time popup contains the name text and the region text. |
| Popups.SavePopupShowsNameAndRegion | index.js:260-262 | The rebuilt popup contains the name text and the region text. |
| Popups.PopupsDependOnNameAndRegionOnly | index.js:260-262 | Two pins that agree on `Name` and `Canyon Region` get the same popups. |
| Popups.SavePopupDiffersFromLoadPopup | index.js:260-262 | The rebuilt popup is always exactly 7 characters longer than the load-time one, so a save always changes the popup. |
| Editor.UpdatesOf | index.js:237-242 | `updates` has at most one entry per value field. `UpdatesOfEntries` and `UpdatesOfDistinct` state its contents. |
| Editor.CollectUpdates | index.js:236-242 | The `forEach` over the value fields builds exactly `UpdatesOf(rows)`. |
| Editor.UpdatesOfEntries | index.js:237-242 | When the fields decode to distinct keys, `updates` holds one entry per field, in field order. Each entry is the decoded key paired with the field's text. |
| Editor.UpdatesOfDistinct | index.js:237-242 | `updates` is an object: its keys are distinct. |
| Editor.AssignAll | index.js:255-257 | The loop adds at most one entry per key of `updates` and removes none. `AssignAllSpec` and `AssignAllKeys` state its contents. |
| Editor.AssignAllLoop | index.js:255-257 | The `for…in` loop computes `AssignAll(p, updates)`. |
| Editor.AssignAllSpec | index.js:255-257 | After the loop every key of `updates` reads its new value, and every other key reads its old one. |
| Editor.AssignAllKeys | index.js:255-257 | The loop keeps the old keys in order, and only adds keys of `updates`. |
| Editor.AssignAllDistinct | index.js:255-257 | The loop keeps the keys distinct. |
| Editor.AssignAllSame | index.js:255-257 | Updates that repeat the stored values change nothing. |
| Editor.SavedProps | index.js:249-257 | A save never shrinks the object; it grows by at most two entries (`Name`, `Description`) plus one per entry of `updates`. `SavedPropsSpec` and `SavedPropsKeys` state its contents. |
| Editor.SaveProps | index.js:248-257 | The statements run on a matching feature compute `SavedProps`. |
| Editor.SavedPropsSpec | index.js:249-257 | After a save, every key of `updates` reads its updated value. `Description` becomes the edited description unless `updates` has that key. Every other key is untouched. |
| Editor.SavedPropsKeys | index.js:249-257 | A save never removes or reorders a key. It adds only `Description` and keys of `updates`. |
| Editor.SavedPropsDistinct | index.js:249-257 | A save keeps the keys distinct. |
| Editor.SavedPropsAppendsDescription | index.js:249-257 | Saving stored values into an object without `Description` only appends `Description` with the edited text. |
| Editor.SavedPropsUnchanged | index.js:249-257 | Saving the stored description and stored values changes nothing. |
| Editor.SavePin | index.js:246-263 | A matching layer's popup is always the rebuilt popup of its new properties. |
| Editor.SaveLayer | index.js:246-264 | A layer whose `ID` equals the selection gets the saved properties and the rebuilt popup. Any other layer stays as it was. Keys stay distinct. |
| Editor.SavedLayers | index.js:246-265 | A save keeps the number of layers. `SavedLayersAt` and `SavedLayersOthers` state each layer. |
| Editor.SavedLayersAt | index.js:246-264 | Each layer of the collection is saved on its own. |
| Editor.SavedLayersOthers | index.js:246-247 | A save leaves every layer whose `ID` differs from the selection unchanged. |
| Editor.BoundLayers | index.js:169-177 | Binding the popups keeps the number of layers. `BoundLayersAt` states each layer. |
| Editor.BindLoadPopup | index.js:170-176 | The layer keeps its properties and gets the load-time popup, `LoadPopup` of those properties. |
| Editor.BoundLayersAt | index.js:169-177 | Once the pins are ready, each layer keeps its properties and carries the load-time popup of those properties. |
| Editor.RowsDecode | index.js:236-241 | Every row's field id decodes to the row's own key, so the decoded keys are distinct. |
| Editor.EditedUpdates | index.js:236-242 | After row `i`'s value field is edited to `v`, `updates` holds exactly one entry per row, in row order. Row `i`'s entry holds `v`; every other entry holds the stored value. |
| Editor.SaveAssignsOne | index.js:249-257 | Suppose the pin has a `Description`, and `updates` agrees with the pin everywhere except that key `k` holds `v`, and adds no key. Then saving it is the single assignment `p[k] = v`. |
| Editor.SaveOfEditedValue | index.js:236-257 | For a pin with a `Description`, editing one value field and saving assigns that one key. Every other property keeps its value, and the key order is unchanged. |
| Editor.PopulatedUpdates | index.js:237-242 | The updates read back from a panel populated from a pin repeat values stored in the pin, and never carry `Description`. |
| Editor.PopulatedSaveChangesNothing | index.js:237-257 | Saving the panel exactly as populated leaves the pin's properties unchanged when it has a `Description`. |
| Editor.PopulatedSaveAddsMissingDescription | index.js:249-257 | For every pin without a `Description`, that same save appends `Description: ""` and changes nothing else. |
| Editor.RenameExampleRows | index.js:287-316 | For pin 5, the table shows `Name` then `Canyon Region`, and leaves out `ID` and `Description`. |
| Editor.RenameExampleNamed | index.js:249-251 | Setting `Name` to "New" on pin 5 replaces that entry in place. |
| Editor.RenameExamplePopup | index.js:257-262 | The renamed pin's popup reads Name "New" and Canyon Region "North". |
| Editor.RenameExampleProps | index.js:229-263 | Editing the first row of pin 5 to "New" and saving yields exactly the renamed pin's properties. |
| Editor.RenameExample | index.js:246-263 | Renaming pin 5 from "Old" to "New" changes only its `Name`. Its popup then reads Name "New" and Canyon Region "North". |
| Editor.ClickMode | index.js:215-228 | As intended, every click changes the label. |
| Editor.ClickModeAsWritten | index.js:215-228 | As written, a click changes the label as intended exactly when the label reads "Save" or no textarea is on the page. A `CanyonMap` always has the description field, so on the page the as-written button never leaves "Edit". |
| Editor.EditBranchAsWritten | index.js:217-219 | The Edit branch as written throws exactly when there is at least one textarea. |
| Editor.AsWrittenNeverSaves | index.js:215-220 | As written, the label stays "Edit" however often the button is clicked while a textarea is on the page, so the Save branch never runs. |
| Editor.ClicksAlternate | index.js:215-228 | As intended, the label alternates: after n clicks from "Edit" it reads "Edit" exactly when n is even. |
| Editor.CanyonMap.constructor | index.js:139 | The pins are as loaded, with no popup, and nothing is selected. The label "Edit", the empty, read-only panel and the empty row list are assumptions about index.html, which is not part of this model. So is the description container holding at least one textarea, the description field: the constructor requires it, so the selection at index.js:213 is never empty. |
| Editor.CanyonMap.TextareaCount | index.js:213 | How many textareas the button's selection finds: the description container's own plus two per row. It is zero exactly when the description container has none and there are no rows. |
| Editor.CanyonMap.BindLayerAt | index.js:169-176 | Layer `j` gets the load-time popup of its properties. No other layer changes. |
| Editor.CanyonMap.OnReady | index.js:164-178 | Every layer gets its load-time popup: the new layers are `BoundLayers` of the old ones. |
| Editor.CanyonMap.Populate | index.js:275-317 | The panel shows the title, description, image and `Rows(p)`. The rows are read-only. The selection and the mode are unchanged. |
| Editor.CanyonMap.OnCanyonClick | index.js:90-97 | The selection becomes the clicked pin's `ID`, and the panel shows that pin. |
| Editor.CanyonMap.TypeDescription | index.js:216-224 | Models the user typing into the description field, gated by the readonly flips at index.js:216-224: the text changes only while the field is unlocked, and nothing else changes. |
| Editor.CanyonMap.TypeValue | index.js:304-306 | Typing into a row's value field changes only that row's value, and only while the rows are unlocked. |
| Editor.CanyonMap.SaveLayerAt | index.js:246-264 | Layer `j` becomes `SavePin` of itself. No other layer changes. |
| Editor.CanyonMap.SaveToPins | index.js:246-265 | The layer loop turns the pins into `SavedLayers` of the old pins for the current selection. |
| Editor.CanyonMap.Click | index.js:211-268 | The intended handler. From "Edit" it unlocks the fields, reads "Save", and changes no pin. From "Save" it locks the fields, reads "Edit", and saves the panel's description and `UpdatesOf(rows)` from the time of the click into the pins matching the selection. The panel and the selection are kept in both cases. |
| Editor.CanyonMap.ClickAsWritten | index.js:211-268 | The handler as written. From "Edit" it throws at the first textarea and changes nothing. The description field is always a textarea (the constructor requires it), so on the page the label stays "Edit"; the no-textarea case of `ClickModeAsWritten` never arises for a `CanyonMap`. From "Save" it does what `Click` does: it locks the fields, keeps the panel and the selection, and saves the panel's values from the time of the click. |
| Editor.SelectAndEdit | index.js:211-220 | Clicking a pin and then Edit (as intended) shows that pin's title, image, description and rows, with the fields unlocked. The selection is its `ID`, and no pin changes. |
| Editor.PopulatedSaveLayer | index.js:246-263 | Saving the panel as populated from layer `j` keeps that layer's properties and rebinds the rebuilt popup, when the layer has a `Description`. |
| Editor.SelectEditSave | index.js:221-265 | Pin, Edit, then Save without typing. The clicked pin keeps its properties and shows the rebuilt popup, when it has a `Description`. Every pin with another `ID` is untouched. |

## Left out

- The Leaflet map, panes, tile layers and layer control (index.js:13-41, 372-382) are library configuration with no logic.
- Remote loading through `omnivore` and the `fitBounds` call (index.js:107-166) are asynchronous I/O into library code. The loaded pins are the constructor's parameter, as property objects.
- The region layer's tooltip binding (index.js:121-130) calls into the library. The `tooltip && tooltip._container` guard at index.js:337 is also omitted.
- `updateZoomDependentElements` (index.js:327-350) loops over layers calling `setStyle`. Every layer gets the same style for a given zoom, so the model keeps the style as a function of the zoom (`Zoom.PinStyleAt`, `Zoom.RegionFillOpacity`, `Zoom.LabelDisplay`).
- The zoom readout text (index.js:355-365) is DOM output only.
- Opening and closing the panel (index.js:188-199, 96) is a CSS class toggle with no state that the model reads.
- The button lookup and `console` diagnostics (index.js:205-209, 267) have no effect on the data.
- Building rows with `createElement`/`appendChild` (index.js:293-314) is modelled only as the value `Rows(p)` the table shows.
- Editing a row's key cell is not modelled. The key cell is unlocked like every textarea, but a save reads keys from the value fields' ids, so nothing an edit there does reaches the pins.
- index.html is not part of this model. These things become assumptions:
  - the starting label "Edit";
  - the description field starting read-only;
  - the title, description, image and row list starting empty. On the page, a Save before any pin is selected writes the page's initial description into every pin without an `ID`, because `undefined == null` at index.js:247; the model keeps that match, because a missing `ID` and no selection are both `None`, but it writes the empty description it starts from;
  - the number of textareas in the description container, which is a constructor parameter of at least one;
  - the description field being one of the textareas of `.description-container`, so that container has at least one. The constructor requires this;
  - `attributes-table-body` sitting inside `.attributes-container`, so that each row adds two textareas to the index.js:213 selection (`TextareaCount`);
  - the `[id^="attr-value-"]` selector finding exactly the rows' value fields, in row order.
- A zoom read before the map has a view is `undefined`, and `getRegionFillOpacity` then returns NaN (the region style at index.js:118 can run before `fitBounds`). The zoom rules take a real zoom, so this case lies outside the model.
- IEEE-754 rounding is not modelled: the zoom rules are over exact reals, an idealisation of the page's doubles. The sample values 4.5 and 0.4 hold over the reals.
- Property objects enumerate keys in insertion order. JavaScript lists integer-like keys first, in ascending order, and the model does not capture that; CSV column names are normally not integer-like.
- Loose equality `ID == selectedFeatureId` (index.js:247) is modelled as equality on `Option<string>`. This matches JavaScript for the values that occur: string IDs, and `undefined`/`null` for a missing ID or no selection. JavaScript's other type coercions are not modelled.
- The `layer.feature && layer.feature.properties` guard (index.js:247) is dropped: every pin layer has a feature with properties.
- Editor.CanyonMap.Populate: a textarea's `value` turns CR LF and a lone CR into LF when it is set or read (index.js:278, 305, 232, 241). The model copies text into and out of the fields verbatim.
- Sidebar.Rows: a row's value is the stored value verbatim, without the textarea's newline normalisation.
- Editor.UpdatesOf: the values read back from the fields are taken verbatim, without the newline normalisation.
- Editor.PopulatedSaveChangesNothing: because newlines are not normalised, this promises more than the page does for a stored value or `Description` containing CR. On the page such a value comes back with LF line ends after an Edit and Save with no typing.
- Editor.PopulatedSaveLayer: promises more than the page does for values containing CR, for the same reason.
- Editor.SelectEditSave: promises more than the page does for values containing CR, for the same reason.
- Editor.CanyonMap.ClickAsWritten: a thrown TypeError is modelled only as an `Outcome` and its effect on the state. Error propagation to the browser console is not modelled.

## Findings

| source | as written | input that shows it | evidently intended | confidence | as-written member | corrected member |
|---|---|---|---|---|---|---|
| index.js:218 | The Edit branch calls `textarea.hremoveAttribute("readonly")`, which is not a function. It throws at the first textarea, before the label becomes "Save" (`Editor.AsWrittenNeverSaves`). The description field is always one of those textareas, so on the page the button never leaves "Edit" and nothing is ever saved. | Click the button while it reads "Edit" and the page has at least one textarea. | `removeAttribute("readonly")`: unlock the fields and switch the label to "Save", so the next click saves. | not executed | Editor.CanyonMap.ClickAsWritten | Editor.CanyonMap.Click |
