# Neighborhood layout core, modelled in Dafny

The neighborhood layout editor lets a user place buildings, roads and
business markers on a canvas, edit their properties, and save or export the
layout. This project models the data logic underneath the editor, and
proves properties about it:

- `js.dfy` (module `Js`): the JavaScript values the editor passes around.
  These are JSON values plus `undefined`. The module also gives JavaScript
  truthiness, `a || b`, own-property reads, and the TypeError thrown when a
  property of `null` or `undefined` is read (`Outcome.ThrewTypeError`).
- `element_structure.dfy` (module `ElementStructure`): `createElement` with its
  per-type defaults, `getDefaultColor`, the structural `validateElement`, and
  `fabricToElement`. That last one merges a canvas shape's position, colour
  and size back onto an element.
- `validate_json.dfy` (module `ValidateJson`): the import-side checks
  `validateLayoutJson` and `validateElement`.
- `undo_redo.dfy` (module `UndoRedoHook`): the `useUndoRedo` hook, a list of
  snapshots with a cursor. The datatype `Timeline` is the value of the hook's
  state and specifies the class `UndoRedo`. That class updates `history` and
  `currentIndex` in place, as the hook's setters do.
- `properties_panel.dfy` (module `PropertiesPanel`): the copy-on-write update
  of the selected element (`handlePropertyChange`) and the values the form
  displays.
- `app.dfy` (module `App`): the application state (element list and selected
  element). It has the load-on-mount rule and the effect that clears a
  selection whose element was deleted. The class `AppState` applies them. It offers the panel edit twice: `ChangePropertyAsWritten`, the edit the app makes, and `ChangeProperty`, the corrected edit of the second finding below.
- `consistency.dfy` (module `Consistency`): how the elements `createElement`
  builds fare against the import checks.

Two inputs are nondeterministic: the element id (`Date.now() + Math.random()`)
and the timestamp in a default name. Both are parameters of `CreateElement`.
The storage collaborator's loaded layout is a parameter of
`AppState.LoadSavedLayout`.

## Model

| member | source | states |
|---|---|---|
| `ElementStructure.DefaultColor` | src/utils/elementStructure.js:49-56 | gray for building, orange for business, black for road and for any other type; never empty |
| `ElementStructure.CreateElement` | src/utils/elementStructure.js:9-42 | the record has the base fields plus exactly the fields of its type (width/height, points/width, radius, or none); id and type are the given ones; colour is a non-empty string; x and y are non-zero numbers |
| `ElementStructure.CreateCommonDefaults` | src/utils/elementStructure.js:10-18 | x and y default to 50 and colour to the type's default whenever the prop is absent or falsy (so an explicit 0 becomes 50); name defaults to "type stamp"; description to '' |
| `ElementStructure.CreateBuildingDefaults` | src/utils/elementStructure.js:22-27 | width and height take the given non-zero prop, else 40 |
| `ElementStructure.CreateRoadDefaults` | src/utils/elementStructure.js:28-33 | points default to [x, y, x+100, y]; given points are kept as given (even empty); stroke width defaults to 5 |
| `ElementStructure.CreateBusinessDefaults` | src/utils/elementStructure.js:34-38 | radius takes the given non-zero prop, else 20; no width or height is added |
| `ElementStructure.CreatedUnknownKindIsInvalid` | src/utils/elementStructure.js:39-40 | an unknown type gets only the base fields, and validateElement rejects the result |
| `ElementStructure.ValidElement` | src/utils/elementStructure.js:63-83 | rejects non-objects, any element missing one of id/type/x/y/color/name, and any unknown type; an accepted value is a plain object |
| `ElementStructure.ValidElementExactly` | src/utils/elementStructure.js:72-82 | for an object with the required fields: valid iff building has width and height, road has an array of at least 4 points, business has radius |
| `ElementStructure.CreatedElementsValidate` | src/utils/elementStructure.js:73-80 | createElement output validates for building, business, and for a road with default points or at least 4 given points |
| `ElementStructure.CreatedRoadWithShortPointsIsInvalid` | src/utils/elementStructure.js:76-77 | a road created with fewer than 4 given points fails validateElement |
| `ElementStructure.FabricToElement` | src/utils/elementStructure.js:91-97 | keys are the original keys plus the ones written for the type; every key not overwritten keeps its value; x/y come from left/top; colour is fill, or stroke when fill is falsy |
| `ElementStructure.FabricKeepsIdentity` | src/utils/elementStructure.js:92-97 | id, type, name and description are kept (present iff present before, same value) |
| `ElementStructure.FabricKindFields` | src/utils/elementStructure.js:99-119 | building gets width*scaleX and height*scaleY; road gets points [x1,y1,x2,y2] and width = strokeWidth; business gets radius*scaleX; an unknown type gets only x, y, color |
| `ElementStructure.FabricIdempotent` | src/utils/elementStructure.js:91-120 | merging the same shape twice equals merging it once |
| `ElementStructure.FabricPreservesValidity` | src/utils/elementStructure.js:91-120 | a valid element is still valid after a shape is merged onto it |
| `ValidateJson.LayoutEntryOk` | src/utils/validateJson.js:4-30 | an accepted entry has a number or string id, a known type and a string colour; a road has exactly 4 numeric points and a numeric width; other types have numeric x, y, width, height; null is rejected |
| `ValidateJson.LayoutEntryOkExactly` | src/utils/validateJson.js:6-30 | an entry passes iff its id is a number or string, its type is known, its colour is a string, and (road) points are 4 numbers with a numeric width, or (otherwise) x, y, width, height are numbers |
| `ValidateJson.LayoutEntryAsWritten` | src/utils/validateJson.js:4-30 | one callback of the every-loop as written: it throws exactly on a null or undefined entry, and otherwise returns the entry test's verdict |
| `ValidateJson.EveryAsWritten` | src/utils/validateJson.js:4-31 | the every-loop as written: its verdict is "all entries pass", and it throws exactly when a null or undefined entry comes before any failing entry |
| `ValidateJson.ValidateLayoutJsonAsWritten` | src/utils/validateJson.js:1-32 | validateLayoutJson as written: false for a non-array; a verdict, when it returns one, is "array whose every entry passes"; a throw needs a null or undefined entry |
| `ValidateJson.ValidateLayoutJson` | src/utils/validateJson.js:1-32 | false for any non-array, true for the empty array, and for an array true iff every entry passes |
| `ValidateJson.OneBadEntryRejectsLayout` | src/utils/validateJson.js:4-31 | one failing entry rejects the whole layout |
| `ValidateJson.LayoutAsWrittenAgrees` | src/utils/validateJson.js:1-32 | when the code as written returns, its verdict equals the intended one; without null or undefined entries it always returns |
| `ValidateJson.NullEntryThrows` | src/utils/validateJson.js:4-7 | `[null]` makes the code as written throw; the intended check rejects it |
| `ValidateJson.ValidElement` | src/utils/validateJson.js:34-59 | throws exactly when the object has its own "hasOwnProperty" key (the call at line 39 then hits a non-function); an accepted value is an object whose id, type, name and color are own, non-null, defined properties, with a known type; a road has a 4-item points array and numeric width; building and business have numeric x, y, width, height |
| `ValidateJson.ValidElementExactly` | src/utils/validateJson.js:38-58 | for an object with the required properties, the per-type rule decides, both ways, unless an own "hasOwnProperty" key makes it throw |
| `ValidateJson.ShadowedHasOwnPropertyThrows` | src/utils/validateJson.js:38-39 | a road entry with its own "hasOwnProperty" key passes the layout check and makes validateElement throw |
| `ValidateJson.LayoutEntryWithNameIsValidElement` | src/utils/validateJson.js:6-11 | an accepted layout entry that also has a non-null name passes validateElement, or throws when it has its own "hasOwnProperty" key |
| `ValidateJson.NamelessEntrySplitsTheChecks` | src/utils/validateJson.js:37-40 | a nameless building entry passes validateLayoutJson and fails validateElement |
| `ValidateJson.RoadPointTypesUnchecked` | src/utils/validateJson.js:52-55 | a road whose points are not numbers passes validateElement but fails the layout check |
| `Consistency.CreatedBuildingPassesEveryCheck` | src/utils/validateJson.js:23-29 | a new building passes both element checks and the layout entry check |
| `Consistency.CreatedRoadPassesEveryCheck` | src/utils/validateJson.js:16-22 | a new road passes all three checks iff its points are the default or exactly 4 |
| `Consistency.CreatedBusinessFailsImportChecks` | src/utils/validateJson.js:46-51 | a new business marker (radius, no width/height) passes the element module's check and fails both import checks |
| `UndoRedoHook.Start` | src/hooks/useUndoRedo.js:4-5 | the initial history holds only the initial state, the cursor is on it, and neither undo nor redo can act |
| `UndoRedoHook.Timeline.Commit` | src/hooks/useUndoRedo.js:7-12 | the cursor stays valid and moves one past its old position; the new state is current; entries up to the old cursor are kept; nothing is left to redo |
| `UndoRedoHook.Timeline.Undo` | src/hooks/useUndoRedo.js:14-16 | history unchanged; the cursor moves back one when above 0, else nothing changes; validity kept |
| `UndoRedoHook.Timeline.Redo` | src/hooks/useUndoRedo.js:18-20 | history unchanged; the cursor moves forward one when before the last entry, else nothing changes; validity kept |
| `UndoRedoHook.CommitDiscardsRedoBranch` | src/hooks/useUndoRedo.js:8-11 | after a commit, redo is a no-op; a commit made after an undo does not lengthen the history |
| `UndoRedoHook.UndoRedoInverse` | src/hooks/useUndoRedo.js:14-20 | an effective undo followed by redo, or redo followed by undo, restores the timeline |
| `UndoRedoHook.CommitAllAppends` | src/hooks/useUndoRedo.js:7-12 | commits made from the newest entry append in order and move the cursor to the end |
| `UndoRedoHook.UndoTimesSteps` | src/hooks/useUndoRedo.js:14-16 | n undos with n at most the cursor move the cursor back n and keep the history |
| `UndoRedoHook.RedoTimesSteps` | src/hooks/useUndoRedo.js:18-20 | n redos that stay inside the history move the cursor forward n and keep the history |
| `UndoRedoHook.UndoAllRedoAll` | src/hooks/useUndoRedo.js:7-22 | after N commits from the initial state, N undos give the initial state back, and N redos restore exactly the state after the N-th commit |
| `UndoRedoHook.UndoRedo.constructor` | src/hooks/useUndoRedo.js:4-5 | history is [initialState] and the index 0 |
| `UndoRedoHook.UndoRedo.CurrentState` | src/hooks/useUndoRedo.js:22 | the current state is the timeline's current entry, an entry of the history |
| `UndoRedoHook.UndoRedo.SetState` | src/hooks/useUndoRedo.js:7-12 | the new fields are the committed timeline: the prefix up to the old index plus the new state, with the index on it |
| `UndoRedoHook.UndoRedo.Undo` | src/hooks/useUndoRedo.js:14-16 | the fields follow Timeline.Undo; history untouched |
| `UndoRedoHook.UndoRedo.Redo` | src/hooks/useUndoRedo.js:18-20 | the fields follow Timeline.Redo; history untouched |
| `PropertiesPanel.UpdateEntry` | src/components/PropertiesPanel.js:6 | an entry with another id is returned as is; the entry with the selected id becomes an object with `key` set to `value` and every other field as before |
| `PropertiesPanel.HandlePropertyChange` | src/components/PropertiesPanel.js:4-9 | same length and order; entries with another id are returned unchanged; the entry with the selected id becomes its spread copy with `key` set; throws exactly when an entry is null/undefined or the selection is missing while the list is non-empty |
| `PropertiesPanel.EditSetsOnlyKey` | src/components/PropertiesPanel.js:6 | in the selected element only `key` changes, to `value`; every other field is present iff it was before, with its old value |
| `PropertiesPanel.NoMatchIsIdentity` | src/components/PropertiesPanel.js:5-7 | when no entry has the selected id, the result equals the input list |
| `PropertiesPanel.EditKeepsIds` | src/components/PropertiesPanel.js:5-7 | an edit of any field but id keeps, entry by entry, the id each entry answers to |
| `PropertiesPanel.Render` | src/components/PropertiesPanel.js:11-51 | placeholder iff there is no (truthy) selection; otherwise a truthy field is shown as is, and a falsy name, colour, width or height shows '', '#000000', 0 or 0; the colour shown is never falsy |
| `PropertiesPanel.FalsyFieldsShowFallbacks` | src/components/PropertiesPanel.js:22-46 | falsy name, colour, width, height show '', '#000000', 0, 0 |
| `PropertiesPanel.NoSelectionNoUpdate` | src/components/PropertiesPanel.js:11-13 | with no selection only the placeholder shows, and the handler cannot update a non-empty list |
| `App.LoadedElements` | src/App.js:14-17 | a saved array replaces the elements; anything else leaves them as they were |
| `App.Find` | src/App.js:27 | find returns undefined iff no entry has the id, else the first entry with that id; it throws exactly when a null or undefined entry comes before any match |
| `App.SelectionAfterEffect` | src/App.js:26-30 | a falsy selection is kept; otherwise the selection is kept or cleared to null, and cleared whenever its id is gone; a kept truthy selection's id is present; a throw needs a null or undefined entry |
| `App.FalsyFirstMatchClears` | src/App.js:27 | the effect tests the first match for truthiness: a falsy first match (`0`) clears a selection whose id a later entry carries |
| `App.SelectionKeptExactlyWhenFirstMatchTruthy` | src/App.js:27-29 | when the effect returns, a truthy selection is kept exactly when the first entry carrying its id is truthy, and cleared otherwise |
| `App.SelectionNeverDangles` | src/App.js:26-30 | after the effect the selection is falsy or its id is present in the elements |
| `App.SelectionClearedExactlyWhenDeleted` | src/App.js:26-30 | for a list of objects the effect returns; it clears a selection whose id is gone and leaves a present or empty selection untouched |
| `App.StalePanelAfterEdit` | src/components/PropertiesPanel.js:4-9 | after renaming the selected element as written, the list holds the new name but the selection and the panel keep the old one |
| `App.EditAsWritten` | src/components/PropertiesPanel.js:4-9 | the edit as written: throws exactly as handlePropertyChange does; otherwise the list is handlePropertyChange's result and the selection is left as it was |
| `App.EditSelected` | src/components/PropertiesPanel.js:4-9 | the corrected edit: same throw condition; the list is handlePropertyChange's result; the selection becomes its own spread copy with `key` set to `value`, and every list entry equal to the old selection becomes exactly the new selection |
| `App.EditSelectedIsShown` | src/App.js:41-45 | with the corrected edit the selection is the updated entry, survives the clearing effect, and the panel shows the new value |
| `App.AppState.constructor` | src/App.js:9-10 | elements start empty and the selection null |
| `App.AppState.LoadSavedLayout` | src/App.js:14-17 | elements become LoadedElements of the saved layout; selection untouched |
| `App.AppState.Select` | src/components/Canvas.js:14-20 | `setSelectedElement`: the selection becomes the given value (a shape, or null when the canvas selection is cleared); the elements are untouched |
| `App.AppState.ClearDeletedSelection` | src/App.js:26-30 | the selection becomes the effect's result (or stays, when the effect throws); afterwards it is falsy or present in the elements |
| `App.AppState.ChangePropertyAsWritten` | src/components/PropertiesPanel.js:4-9 | the edit App makes: elements become the as-written edit's list, or stay when it throws; the selection never changes |
| `App.AppState.ChangeProperty` | src/App.js:41-45 | elements and selection become the result of the corrected edit, or stay as they were when it throws |

## Findings

| source | as written | input that shows it | evidently intended | confidence | as-written member | corrected member |
|---|---|---|---|---|---|---|
| src/utils/validateJson.js:4-7 | the every-callback reads `element.id` before any check, so a null or undefined entry throws a TypeError instead of making the validator return false | `validateLayoutJson([null])` | a boolean verdict that rejects a null entry like any malformed one | high, not executed | `ValidateJson.NullEntryThrows` | `ValidateJson.ValidateLayoutJson` |
| src/components/PropertiesPanel.js:4-9 | the handler replaces the list but not `selectedElement`, and App.js:27 keeps the old object because its id is still present, so the form keeps showing the values from before the edit | the panel's props: `selectedElement` `{id: 1, name: "a"}` from the list, and a name change to `"b"`. The app's only selection path (Canvas.js:15) stores a fabric shape without an `id`, which App.js:27 keeps only while some element also lacks an id, so this premise comes from the panel's props and not from the app as wired | the selection follows the edited element, so the form shows the new value | low, not executed | `App.StalePanelAfterEdit` | `App.EditSelected` |

## Left out

- `src/components/Canvas.js`, `Road.js`, `Building.js`, `BusinessMarker.js`, `LayoutElement.js`, `Toolbar.js`: these are fabric.js calls, JSX and styling. The canvas is rebuilt on every change rather than diffed, and road geometry uses floating-point `sqrt`/`atan2`. None of it is part of this model.
- `src/components/ExportImport.js` and `src/utils/localStorageManager.js`: file, Blob and `localStorage` I/O and `JSON.parse`/`stringify`. The loaded layout is a parameter of `AppState.LoadSavedLayout`, and the save effect (App.js:21-23) is not modelled.
- React mechanics: hook scheduling, effect ordering, re-renders, and closures over a stale `history`. Each setter and effect is one sequential transition.
- Numbers are reals. NaN (from `parseInt` in the panel, or from arithmetic on non-numbers), floating-point rounding and `Infinity` are not modelled.
- ElementStructure.CreateElement: the `props` argument is typed (string, number and number-array fields). In the source, a truthy non-number `x` would make the default road end point a string concatenation. Calling it without `props` is the all-`None` value.
- ElementStructure.DefaultColor: in the source, a type named like an `Object.prototype` member (`constructor`, `toString`, `__proto__`) looks up an inherited non-string. The model treats such a type like any other unknown one and returns black.
- Js.HasOwn sees only the keys of plain objects, so the `in` test of `validateElement` never sees inherited keys. The keys the core asks for are not inherited by plain objects and are not own keys of arrays, so no verdict changes. The method call `element.hasOwnProperty(...)` in validateJson.js is modelled: an own key of that name throws.
- Js.Spread: spreading a string or an array copies its indices in JavaScript. The model spreads such values as an empty object. This matters only when the selection has no id and the list holds such entries.
- Strict equality `===` on ids is modelled as value equality. Ids are numbers or strings, where the two agree, but for object-valued ids JavaScript compares references.
- Key order of object literals (visible in exported JSON) is not modelled; records are maps.
- Canvas.js rebuilds the whole scene on every change and ExportImport.js imports a file without validating it, so there is no keyed scene reconciler, drag/resize handling or per-entry import report to model.
