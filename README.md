# Slice control and markdown-LaTeX tracker, modelled in Dafny

This project models two small stateful pieces of a Jupyter extension for VS Code.

**The data explorer's slice control** (`src/datascience-ui/data-explorer/sliceControl.tsx`).
The control lets a user view a slice of an N-dimensional array. It holds the slice in
two forms and keeps them in step:

- the free text of the slice box, `inputValue` (for example `[0, :, 5]`);
- `max(ndim - 2, 1)` dropdown rows, or "slots". Each slot is an optional axis
  (`selectedAxisN`) and an optional index (`selectedIndexN`).

When a new slice should take effect, the control calls its caller's `handleSliceRequest`.
The model is the class `DataExplorer.SliceControl`:

- `inputValue` and `isEnabled` are fields.
- The slots are two arrays of `Option<int>`, `axes` and `indices`, one entry per slot.
- The caller's `sliceExpression` prop is a field.
- Every request made so far is kept in a ghost log, `requests`. `None` means "no slicing".

The two derivations the control runs are stated as functions of values in module `SliceSync`:

- text to slots: `TextToSlots`;
- slots to text: `ComponentsFromSlots` and `Render`.

Each handler is a method whose contract gives the new state in terms of these functions.
The component defers these derivations with `setTimeout`. In the model they run at the end
of the handler that scheduled them, after the handler's own state update, so they read the
updated state. The functions the control imports from `./helpers` are:

- `fullSliceExpression`
- `preselectedSliceExpression`
- `isValidSliceExpression`
- `sliceRegEx`

That module is not part of this model. The control receives the four functions as values in
a `Helpers` record, and nothing is assumed about their grammar. `sliceRegEx.exec` on one
component becomes a classifier with three results:

- `Point(start)`: group `Start` present and `Stop` absent;
- `RangeLike`: `StartRange` or `StopRange` defined;
- `Other`.

Properties proved:

- The slot count is the same everywhere.
- Text to slots assigns slots by order of appearance. It clears every slot when there is a
  range component or the wrong number of point components.
- Slots to text starts from `:` on every axis. It writes each specified slot's index at its
  axis, and the later slot wins.
- The exact conditions under which each handler makes a request.
- The option lists of the dropdowns.
- A round trip: text derived from fully specified slots with increasing axes derives the same
  slots back. This assumes the classifier reads `:`, and the decimal text of each slot's own index,
  as the control writes them.

**The markdown-LaTeX usage tracker** (`src/client/datascience/jupyter/jupyterCellLatexTracker.ts`).
`hasLatexContent` is modelled as `CellLatex.HasLatexContent`. It holds when a string contains
`$` or `begin{`, or when some line of a list of lines does. The class `CellLatex.CellLatexTracker`
has these fields:

- the two telemetry flags;
- the set of tracked models;
- a ghost log of the telemetry events sent;
- a ghost count of `dispose` calls.

Separately, the latch the two flags form is given as pure functions of the flags (`Send`,
`After`, `EventsOf`), with lemmas about any series of checks:

- The flags are monotone.
- Once both flags are set, nothing more is sent.
- The events sent are the check results in order, cut off exactly where the latch saturates:
  every check made while it was not saturated sends its event.
- Each flag ends up set exactly when it was set at the start or an event with its value was sent.
  From a fresh tracker, with neither flag set, that is exactly when such an event was sent.

Where the code and the component's documented behaviour differ, the model follows the code:

- `applyDropdownsToInputBox` stores the derived text in `inputValue` only when it also makes
  the request (sliceControl.tsx:352-359). When not every slot is set, or the text is not new,
  the box keeps its old text.
- Enabling the checkbox requests the current text without checking that it is valid
  (sliceControl.tsx:249-250).
- Text to slots does not validate the text when it runs after the checkbox is toggled. A text
  with more components than the array has axes can give a slot an axis past the last one. Slots
  to text then writes past the end of the component array, and JavaScript pads the gap with holes
  that `join` prints as empty strings. `SliceSync.Place` models this. The exactly-`ndim`-components
  result (`ComponentsFromSlotsInRange`) is stated for slots whose axes are axes of the array.
- An unset slot may hold `undefined` (never set) or `null` (cleared). Both are `None`. For the
  index options this is faithful: a `null` axis passes the `!== undefined` test, but `shape[null]`
  is `undefined`, so the list is empty as well.

## Model

| member | source | states |
|---|---|---|
| `SliceSync.SlotCount` | src/datascience-ui/data-explorer/sliceControl.tsx:183 | there is at least one slot; exactly `ndim - 2` slots above two dimensions and one otherwise; never more slots than axes |
| `SliceSync.Components` | src/datascience-ui/data-explorer/sliceControl.tsx:293-295 | the text between the brackets split at commas: at least one component, none containing a comma, and joined with commas they give that text back |
| `SliceSync.PointsInOrder` | src/datascience-ui/data-explorer/sliceControl.tsx:296-306 | the collected entries are exactly the point components, each once, with its position as axis and the classifier's start as index, in increasing position (order of appearance) |
| `SliceSync.NoRanges` | src/datascience-ui/data-explorer/sliceControl.tsx:302-305 | `numRangeObjects` stays 0 exactly when no component has range syntax |
| `SliceSync.TextToSlots` | src/datascience-ui/data-explorer/sliceControl.tsx:290-324 | an unbracketed text leaves the slots as they are; a bracketed one fills them exactly when there is no range component and one point component per slot, slot i from the i-th point component in order of appearance; every other bracketed text clears all slots |
| `SliceSync.Place` | src/datascience-ui/data-explorer/sliceControl.tsx:345 | JavaScript element assignment: overwrites an index inside the array, grows the array with empty holes for an index past its end, ignores a negative index, and leaves every other element alone |
| `SliceSync.SpecifiedCount` | src/datascience-ui/data-explorer/sliceControl.tsx:334-348 | the count of slots with both axis and index never exceeds the slots examined and equals it exactly when all of them are specified |
| `SliceSync.Render` | src/datascience-ui/data-explorer/sliceControl.tsx:350 | the text is bracketed and what lies between the brackets is the components joined with `", "` |
| `SliceSync.ComponentsFromSlotsInRange` | src/datascience-ui/data-explorer/sliceControl.tsx:331-348 | with slot axes inside the array, the derived text has exactly `ndim` components; an axis no specified slot names stays `:`; a named axis holds the decimal index of the last specified slot naming it |
| `SliceSync.SlotsTextRoundTrip` | src/datascience-ui/data-explorer/sliceControl.tsx:290-350 | for fully specified slots whose axes are distinct array axes in increasing slot order, deriving the text and then the slots from it assigns the same selections back, provided the classifier reads `:` and the decimal text of each slot's own index as written |
| `Strings.Split` | src/datascience-ui/data-explorer/sliceControl.tsx:295 | `split(',')` yields at least one piece, no piece contains the separator, and joining the pieces gives the string back |
| `Strings.SplitJoin` | src/datascience-ui/data-explorer/sliceControl.tsx:295 | splitting undoes joining for separator-free pieces |
| `Strings.JoinCommaSpace` | src/datascience-ui/data-explorer/sliceControl.tsx:350 | joining with `", "` is joining with `","` after a space is put before every component but the first, which is what the text-to-slots pass then sees |
| `Strings.IntToString` | src/datascience-ui/data-explorer/sliceControl.tsx:345 | `toString` of an integer is non-empty, has a leading minus exactly for negatives, and contains no comma, space or colon |
| `Strings.IntToStringRoundTrip` | src/datascience-ui/data-explorer/sliceControl.tsx:345 | reading the decimal text back as `parseInt` does gives the integer, so distinct indices print differently |
| `DataExplorer.SliceControl.constructor` | src/datascience-ui/data-explorer/sliceControl.tsx:107-111 | the control starts disabled, showing `preselectedSliceExpression(shape)`, with `max(ndim - 2, 1)` slots, none of them set, and no request made |
| `DataExplorer.SliceControl.ReceiveSliceExpression` | src/datascience-ui/data-explorer/sliceControl.tsx:93-98 | the caller's `sliceExpression` prop becomes the one the control compares against |
| `DataExplorer.SliceControl.OnIndexSelected` | src/datascience-ui/data-explorer/sliceControl.tsx:163-170 | only the slot's index changes, then the text is derived from all slots: the box and the log change exactly as `applyDropdownsToInputBox` decides |
| `DataExplorer.SliceControl.OnAxisSelected` | src/datascience-ui/data-explorer/sliceControl.tsx:172-179 | only the slot's axis changes, then the text is derived from all slots as for an index change |
| `DataExplorer.SliceControl.ToggleEnablement` | src/datascience-ui/data-explorer/sliceControl.tsx:242-260 | the checkbox flips; enabling requests the unvalidated text iff it differs from both the slice in effect and the full slice; disabling requests no slicing iff the text is not the full slice; at most one request; then the slots follow the text |
| `DataExplorer.SliceControl.HandleChange` | src/datascience-ui/data-explorer/sliceControl.tsx:262-267 | the box holds the new value, or `""` when there is none, unvalidated, and no request is made |
| `DataExplorer.SliceControl.HandleSubmit` | src/datascience-ui/data-explorer/sliceControl.tsx:269-281 | the text is requested and the slots follow it exactly when it differs from the slice in effect and is valid; otherwise nothing changes |
| `DataExplorer.SliceControl.SelectionsFromInputBox` | src/datascience-ui/data-explorer/sliceControl.tsx:288-309 | the loop over the components computes exactly the slot update `TextToSlots` gives for the current text |
| `DataExplorer.SliceControl.ApplyInputBoxToDropdowns` | src/datascience-ui/data-explorer/sliceControl.tsx:287-327 | the slots become what the current text gives: unchanged, assigned in order of appearance, or all cleared |
| `DataExplorer.SliceControl.ExpressionFromDropdowns` | src/datascience-ui/data-explorer/sliceControl.tsx:331-350 | the loop over the slots builds exactly the text `ComponentsFromSlots`/`Render` describe and counts exactly the fully specified slots |
| `DataExplorer.SliceControl.ApplyDropdownsToInputBox` | src/datascience-ui/data-explorer/sliceControl.tsx:329-361 | the derived text is stored and requested exactly when every slot is set and it differs from both the slice in effect and the full slice; otherwise the box and the log are unchanged |
| `DataExplorer.SliceControl.AxisDropdownOptions` | src/datascience-ui/data-explorer/sliceControl.tsx:363-375 | one option per axis, keyed and labelled by the axis number, disabled exactly when some slot has that axis |
| `DataExplorer.SliceControl.IndexDropdownOptions` | src/datascience-ui/data-explorer/sliceControl.tsx:377-388 | for a slot with an axis of the array, the options are exactly the indices `0 .. shape[axis] - 1`; for any other slot there are none |
| `Strings.Includes` | src/client/datascience/jupyter/jupyterCellLatexTracker.ts:21 | `includes` holds exactly when the substring occurs at some position |
| `CellLatex.TextHasLatex` | src/client/datascience/jupyter/jupyterCellLatexTracker.ts:21 | a string has LaTeX exactly when `$` or `begin{` occurs in it |
| `CellLatex.SomeLineHasLatex` | src/client/datascience/jupyter/jupyterCellLatexTracker.ts:18-20 | a list of lines has LaTeX exactly when some line does |
| `CellLatex.HasLatexContent` | src/client/datascience/jupyter/jupyterCellLatexTracker.ts:17-22 | a string is judged by its text, a list by whether some element has LaTeX, so the empty list has none |
| `CellLatex.SomeMarkdownCellHasLatex` | src/client/datascience/jupyter/jupyterCellLatexTracker.ts:68-70 | a document or model has LaTeX exactly when some markdown cell's source does |
| `CellLatex.FlagsMonotone` | src/client/datascience/jupyter/jupyterCellLatexTracker.ts:88-98 | over any series of checks, a set flag is never reset |
| `CellLatex.SaturatedIsSilent` | src/client/datascience/jupyter/jupyterCellLatexTracker.ts:89-92 | once both flags are set, no check sends an event or changes a flag |
| `CellLatex.EventsArePrefix` | src/client/datascience/jupyter/jupyterCellLatexTracker.ts:88-98 | the events sent are the check results in order; every check made while the latch is not saturated sends its event, and the events stop before the end of the checks only once the latch is saturated |
| `CellLatex.FlagsRecordEvents` | src/client/datascience/jupyter/jupyterCellLatexTracker.ts:93-97 | each flag ends up set exactly when it was set before or an event with its value was sent |
| `CellLatex.RunConcat` | src/client/datascience/jupyter/jupyterCellLatexTracker.ts:88-98 | two series of checks run one after the other behave as their concatenation |
| `CellLatex.SilentAfterBothSent` | src/client/datascience/jupyter/jupyterCellLatexTracker.ts:74-77 | after events with both values have gone out, no later check sends anything |
| `CellLatex.CellLatexTracker.constructor` | src/client/datascience/jupyter/jupyterCellLatexTracker.ts:25-27 | a new tracker has neither flag set, tracks no model and has sent nothing |
| `CellLatex.CellLatexTracker.Dispose` | src/client/datascience/jupyter/jupyterCellLatexTracker.ts:51-53 | each call releases the subscriptions once more |
| `CellLatex.CellLatexTracker.SendTelemetry` | src/client/datascience/jupyter/jupyterCellLatexTracker.ts:88-99 | with both flags set only disposes; otherwise sets exactly the flag for `hasLatex` and sends one event carrying it |
| `CellLatex.CellLatexTracker.TrackModel` | src/client/datascience/jupyter/jupyterCellLatexTracker.ts:60-66 | the model is tracked afterwards, and it is subscribed to only if it was not tracked before |
| `CellLatex.CellLatexTracker.OnCheckNotebookDocument` | src/client/datascience/jupyter/jupyterCellLatexTracker.ts:67-72 | sends the telemetry for whether some markdown cell of the document has LaTeX |
| `CellLatex.CellLatexTracker.OnModelChanged` | src/client/datascience/jupyter/jupyterCellLatexTracker.ts:73-82 | with both flags set only disposes; otherwise sends the telemetry for whether some markdown cell of the model has LaTeX |

## Left out

- Rendering, in sliceControl.tsx: the style objects, `render`, the JSX and `measureText` width in
  `generateDropdowns`, and `renderReadonlyIndicator`. This is presentation only.
- Localized strings (`getLocString`) and the `loadingData` disabled attributes. These gate the UI
  and are not part of the synchronisation.
- `handleGetErrorMessage` (`validateSliceExpression`): it only feeds the text field's error display.
- `event.preventDefault()` in the submit handler.
- `./helpers` is not part of this model. `fullSliceExpression`, `preselectedSliceExpression`,
  `isValidSliceExpression` and `sliceRegEx` are parameters with no assumed behaviour. Their grammar
  and error messages are not modelled.
- `sliceRegEx.exec` is taken to be a pure function of the component. Any `lastIndex` state of a
  global regular expression is not modelled.
- A `Start` group that `parseInt` reads as `NaN` is not modelled: the classifier always returns an
  integer start.
- `setTimeout` and React's asynchronous `setState` are not modelled as such. The deferred body runs
  at the end of the handler that scheduled it. Interleavings where two handlers run before a
  deferred body are not captured.
- `SliceSync.SlotsTextRoundTrip`: holds only under the stated assumption about how `sliceRegEx`
  reads `:` and the decimal text of the slots' own indices, because that regular expression lives in
  `./helpers`. A classifier built on `parseInt` meets it only for indices JavaScript prints in plain
  decimal and reads back exactly (below 2^53 in magnitude).
- `Strings.IntToString`: indices are unbounded integers, but JavaScript numbers are doubles.
  From 1e21 in magnitude up, `toString` writes exponent form (`1e+21`), and above 2^53 `parseInt`
  no longer reads every integer exactly. The model always writes plain decimal digits. Such an index
  can reach a slot only through text that is never validated, when the checkbox is toggled.
- `DataExplorer.SliceControl.ExpressionFromDropdowns`: for an index of 1e21 or more in magnitude, the
  model's text holds the plain decimal digits where the source writes exponent form, because
  `Strings.IntToString` does not model double formatting.
- In the tracker: dependency injection, the choice of event source in the constructor, `activate`,
  and the event subscriptions themselves. These are plumbing around the latch.
- `onOpenedOrClosedNotebook`, the editor-type and `instanceof` test before `trackModel`. This is
  plumbing around `trackModel`, which is modelled.
- `disposeAllDisposables`: each `dispose` call is counted, but what it releases is not modelled.
- `WeakSet` garbage collection: the tracked models are a plain set.
- The telemetry transport `sendTelemetryEvent`: events are a ghost log of their `hasLatex` values.
- pythonFiles/vscode_datascience_helpers/dataframes/vscodeDataFrame.py: pandas and numpy conversions
  and float handling, with no self-contained logic.
