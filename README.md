# Climbing-route segmentation front end: interaction model

This project models the interactive core of a browser front end. The front end
lets a user mark climbing holds on a wall photograph with a promptable
segmentation model. The user places point prompts (positive or negative) or drags
a box. The model predicts a mask for the last prompt, the mask is traced into
SVG outline pieces, and each outline is kept with the colour of the selected
hold type.

The model is organised in these modules:

- `Prompts` (prompts.dfy) turns pointer input into model-space prompts. It covers:
  - the label a button gives;
  - point and box prompts;
  - the bounding range of the positive points;
  - growing a drag to cover that range;
  - the drag-move counter that recomputes the box every fourth move.
- `CanvasGeometry` (canvas.dfy) covers:
  - the canvas clamp that keeps the drawing surface under 1677721 pixels;
  - where prompt markers are drawn, and their colours;
  - the merge of a pending click into the prompt list;
  - the guard on the canvas mouse-up.
- `AppModel` (app.dfy) covers:
  - the prompt sent to inference (`slice(-1)`);
  - the scale record of a loaded image;
  - the image name.
- `Interaction` (session.dfy) is a class, `Session`, holding the stage and application state that the handlers update in place. This state includes:
  - the prompt list and its redo history;
  - the mask list and its redo history;
  - the freehand lines and their history;
  - the drag and the flags.

  Its methods are the mouse handlers, undo and redo, the two resets, the inference bookkeeping and the outline truncation. The laws of the history are methods that call them: undo then redo restores, and a mouse-down drops the redo history.
- `SvgOutlines` (outlines.dfy) covers:
  - cutting a traced path before each `M` command;
  - the update of the list of coloured outlines.
- `HoldColours` (hexcolour.dfy) covers:
  - the light/dark decision for a hold colour;
  - the text colour;
  - the darkening of a `#rrggbb` colour;
  - the difficulty label.

  The JavaScript `parseInt(…, 16)`, `toString(16)` and `padStart` are written out.
- `InputSelect` (autocomplete.dfy) covers:
  - the autocomplete filter of the free-text select;
  - selecting an item.
- `JsText` (jstext.dfy) and `Options` (options.dfy) hold the JavaScript string primitives the above use, and the nullable-value idiom. `JsText` covers:
  - `lastIndexOf`;
  - `substring`, with its clamping and argument swap;
  - `includes`, `startsWith`, `padStart` and ASCII `toLowerCase`.

Numbers are `real`. The host's `Math.sqrt` enters as a parameter constrained by `CanvasGeometry.IsClampRoot`. The predicted mask, its traced outline, and whether the model and the feeds are ready are parameters of `Interaction.Session.RunModel`.

Behaviour of the code that a reader might not expect, modelled as written:

- `handleResetInteraction` clears the prompt and mask histories but keeps the line history.
- `handleResetState` does not touch any history.
- An emptied history is `[]`, which JavaScript treats as truthy. So after undo the re-predicted mask is not appended to the mask list, and redo stays possible.
- In `findClickRange`, a bound of 0 counts as unset (`Prompts.ZeroCoordinateIsUnset`).
- The box-mode branch of redo is dead (`prevAnnotaiton` is never set), so redo always goes through the points path.
- The canvas calls the stage mouse-up without `shouldSetClick`.

## Model

| member | source | states |
|---|---|---|
| Prompts.ClickLabel | src/components/Stage.tsx:198-210 | buttons 0/none give a positive prompt and button 2 a negative one; any other button gives none (iff); the negative toggle turns every produced prompt negative |
| Prompts.GetClick | src/components/Stage.tsx:198-214 | a prompt exists iff the button gives a label, with that label and no box corner; both coordinates are scaled by scale/canvasScale, so the inverse factor recovers the pointer position |
| Prompts.ScaledSpan | src/components/Stage.tsx:227-236 | a box axis is ordered, and its ends map back to the display-space minimum and maximum of the drag |
| Prompts.BoxClick | src/components/Stage.tsx:222-237 | a box prompt has label 2 and holds its minimum corner in (x, y) and its maximum corner in (width, height); both map back to the drag's min/max |
| Prompts.PlaceBox | src/components/Stage.tsx:238-247 | the box is always first; it is inserted before a leading point prompt (falsy width) and replaces a leading box; otherwise the list is unchanged |
| Prompts.GetAnnotation | src/components/Stage.tsx:250-258 | the drawn rectangle starts at the drag start and reaches the pointer, with label 2 |
| Prompts.FindClickRange | src/components/Stage.tsx:307-341 | the loop returns null iff there is no prompt list; otherwise it returns the four running bounds over the counted prompts (boxes and negatives skipped, an unset or zero bound always replaced), mapped back to display space |
| Prompts.RunningSetIffCounted | src/components/Stage.tsx:320-335 | a bound is set iff some prompt counts |
| Prompts.RunningIsCoordinate | src/components/Stage.tsx:320-335 | a set bound is the coordinate of a counted prompt |
| Prompts.RunningIsExtreme | src/components/Stage.tsx:320-335 | with no counted prompt at 0, the bound is the true minimum/maximum over the counted prompts |
| Prompts.ZeroCoordinateIsUnset | src/components/Stage.tsx:323-334 | a prompt at x = 0 is overwritten by a later larger x: the minimum of {0, 5} comes out as 5 |
| Prompts.GrowAxis | src/components/Stage.tsx:268-304 | the grown axis spans from min(old span, lo) to max(old span, hi) |
| Prompts.AdjustPointsToRange | src/components/Stage.tsx:260-305 | without a usable range (missing or any bound falsy) the drag is unchanged; otherwise it becomes the smallest rectangle holding both the drag and the range |
| Prompts.AdjustedContainsRange | src/components/Stage.tsx:260-305 | the grown drag never shrinks and contains the range |
| Prompts.DragStep | src/components/Stage.tsx:82 | a move advances the counter modulo the threshold 4 and fires exactly when it reaches 4 |
| Prompts.MovesFireEveryThreshold | src/components/Stage.tsx:149-163 | n moves from counter c leave (c+n) mod 4 and fire (c+n) div 4 box recomputes |
| Prompts.FiveMovesOneRecompute | src/components/Stage.tsx:156-163 | five moves of a fresh drag recompute the box once |
| CanvasGeometry.CanvasScale | src/components/Canvas.tsx:78-83 | the scale is 1 when the image fits the maximum area; otherwise it is in (0,1) and its square times the area equals the maximum |
| CanvasGeometry.CanvasDimensions | src/components/Canvas.tsx:78-87 | the floored scaled size never exceeds 1677721 pixels, and an image that fits keeps its size |
| CanvasGeometry.ClampedAreaFits | src/components/Canvas.tsx:84-87 | flooring both scaled sides keeps the area within the maximum |
| CanvasGeometry.MarkerPosition | src/components/Canvas.tsx:343-358 | the marker position times scale/canvasScale is the prompt coordinate |
| CanvasGeometry.MarkerInvertsGetClick | src/components/Canvas.tsx:343-358 | a point prompt's marker is drawn at the pointer position it came from |
| CanvasGeometry.ClickColour | src/components/Canvas.tsx:113-122 | negative means pink, positive means turquoise, and any other label has no colour (each an iff) |
| CanvasGeometry.PointerPromptsHaveColour | src/components/Canvas.tsx:113-123 | every pointer prompt gets the colour of its label |
| CanvasGeometry.MergeClick | src/components/Canvas.tsx:182-192 | with a pending click, the list is the old list (or none) plus that click at the end; without one there is no update |
| AppModel.LastClick | src/App.tsx:93 | at most one prompt is sent, none iff the list is empty, and it is a suffix of the list |
| AppModel.MergedPromptIsSent | src/App.tsx:93 | after a merge, exactly the merged click is sent |
| AppModel.MakeModelScale | src/App.tsx:225-233 | onnxScale × uploadScale = scale, and the mask size divided by uploadScale is the image size |
| AppModel.ImageName | src/App.tsx:205-217 | the name is the stem after its last '/', so it never holds '/'; the stem is a URL's path, or a text's part before its last '.' (empty when there is no '.') |
| AppModel.Stem | src/App.tsx:205-215 | a URL gives its path; a text gives its part before the last '.', and the empty text when there is no '.' (`substring(0, -1)`) |
| AppModel.GalleryImageName | src/App.tsx:214-217 | "/a/cave.jpeg" is named "cave" |
| Interaction.AppliedPrompts | src/components/Stage.tsx:417-427 | without a drag, the prompts are kept as given; with a drag, the head is the box of the drag grown to the range of the new prompts, and the rest follow the box-placement rule |
| Interaction.Session.constructor | src/components/Stage.tsx:66-78 | a fresh stage: click mode, no prompts, masks, histories, lines or drag, canvas scale 1 |
| Interaction.Session.SetCanvasScale | src/components/Canvas.tsx:78-87 | the stage's canvas scale becomes the clamp factor, in (0,1] |
| Interaction.Session.MouseDown | src/components/Stage.tsx:119-131 | outside the sticker tab all three histories are dropped; in box mode the counter restarts and a drag opens at the pointer unless one is open; nothing else changes |
| Interaction.Session.SegmentByBox | src/components/Stage.tsx:222-248 | the prompt list becomes the given (or current) list plus the extra prompt, with the drag's box placed first |
| Interaction.Session.MouseMove | src/components/Stage.tsx:139-163 | hovering in click mode before a click makes the hovered point the only prompt; otherwise an open drag follows the pointer, clears the drawn rectangles, and every fourth move places its box; the sticker tab blocks everything; each branch states every field it may change |
| Interaction.Session.MouseUp | src/components/Stage.tsx:165-188 | outside the sticker tab it marks loading and clicked; in click mode the pointer prompt either becomes the pending click (recording a negative) or is appended to the list |
| Interaction.Session.CanvasMouseUp | src/components/Canvas.tsx:298-307 | the sticker tab ends closed; a click while it is open only closes it; All mode and multi-mask with prompts change nothing else; otherwise loading starts and the stage's mouse-up runs |
| Interaction.Session.MouseOut | src/components/Stage.tsx:190-196 | leaving with only a hover prompt and no click resets prompts, masks, histories, outlines, drag and lines and clears the clicked flag; otherwise no field changes |
| Interaction.Session.MergePendingClick | src/components/Canvas.tsx:182-192 | a pending click is appended to the prompt list; without one the list is unchanged |
| Interaction.Session.ApplyPrompts | src/components/Stage.tsx:417-427 | the list becomes the applied prompts; with a drag, the drawn rectangle is the drag grown to the range of the new prompts |
| Interaction.Session.UndoLine | src/components/Stage.tsx:380-391 | the last line moves to the end of the line history; with no lines only a null history becomes empty |
| Interaction.Session.UndoPrompt | src/components/Stage.tsx:393-428 | the last mask and the last prompt move onto their histories. Undoing the only prompt clears prompts, mask, outlines and drag and keeps loading as it was. Otherwise loading starts, the previous mask is shown, the remaining prompts are applied, a drag is redrawn grown to their range, and the outlines, clicked and erased flags stay |
| Interaction.Session.Undo | src/components/Stage.tsx:379-429 | drawing mode undoes a line and leaves every prompt, mask and drag field alone; otherwise a prompt is undone when both lists are non-empty, else no field changes |
| Interaction.Session.RedoLine | src/components/Stage.tsx:432-443 | the last line of the history is restored; a null history becomes empty |
| Interaction.Session.RedoPrompt | src/components/Stage.tsx:454-481 | the last history mask and prompt move back, the mask is shown, the restored prompts are applied, and a drag is redrawn grown to their range |
| Interaction.Session.Redo | src/components/Stage.tsx:431-482 | drawing mode redoes a line and leaves every prompt, mask and drag field alone; otherwise a prompt is redone when both histories are non-empty, else no field changes |
| Interaction.Session.ResetInteraction | src/components/Stage.tsx:343-377 | prompts, masks, outlines, drag, lines and the prompt/mask histories are cleared. The clicked flag survives only a soft reset in click mode with multi-mask on. A hard or non-click reset leaves multi-mask mode |
| Interaction.Session.ClearInteraction | src/components/Stage.tsx:344-359 | the unconditional part of the reset clears every listed field |
| Interaction.Session.ResetState | src/App.tsx:324-341 | prompts, masks, outlines and the clicked flag are cleared and the mode returns to clicks; when there were prompts, the effect of the list becoming null (src/components/Stage.tsx:371-377) also clears the drag, otherwise the drag is kept |
| Interaction.Session.RunModel | src/App.tsx:81-139 | it runs iff ready, prompts exist, the sticker tab is closed and the feeds were built; it sends only the last prompt; after a click it shows the mask, appends it only with a null mask history, and appends the outline; otherwise nothing changes |
| Interaction.Session.ShowPrediction | src/App.tsx:112-125 | the prediction is shown and its outline appended; it is appended to the mask list only while there is no mask history |
| Interaction.Session.SyncSvgToClicks | src/App.tsx:141-146 | with fewer prompts than outlines, the outlines are cut to the prompt count; otherwise unchanged |
| Interaction.UndoThenRedo | src/components/Stage.tsx:379-482 | with no drag, undo then redo restores the prompt and mask lists and shows the last mask; drawing mode stays off and there is still no drag, so the law can be chained |
| Interaction.UndoWithoutDrag | src/components/Stage.tsx:393-428 | with no drag, undo drops the last prompt (the list becomes null with the only one), drops the last mask and puts both on their histories, so redo is possible |
| Interaction.UndoThenRun | src/App.tsx:112-129 | inference after an undo leaves both lists alone and keeps redo possible |
| Interaction.UndoRunRedo | src/components/Stage.tsx:379-482 | undo, inference, redo restores the prompt and mask lists, with drawing mode still off and no drag |
| Interaction.UndoRedoSteps | src/components/Stage.tsx:379-482 | with no drag, k undos followed by k redos (k at most the number of prompts and of masks) restore the prompt and mask lists, and for k > 0 each history returns to what it was (a null one as empty) |
| Interaction.UndoStep | src/components/Stage.tsx:393-428 | one more undo puts the next prompt and mask from the end onto the histories |
| Interaction.RedoStep | src/components/Stage.tsx:454-481 | one redo takes back the prompt and mask the last undo pushed |
| Interaction.UndoThenRedoLines | src/components/Stage.tsx:380-443 | undo then redo in drawing mode restores the lines |
| Interaction.MouseDownThenRedo | src/components/Stage.tsx:119-131 | after a mouse-down there is nothing to redo, and redo changes no prompt or mask |
| SvgOutlines.Split | src/components/SvgMask.tsx:51-52 | cutting a non-empty path gives at least one piece, each non-empty |
| SvgOutlines.SplitJoins | src/components/SvgMask.tsx:51-52 | joining the pieces gives back the path |
| SvgOutlines.SplitCutsAtMoves | src/components/SvgMask.tsx:51 | every piece after the first starts with 'M', and no piece holds an 'M' after its first character |
| SvgOutlines.NonEmpty | src/components/SvgMask.tsx:52 | the filter keeps only non-empty pieces, and keeps everything when all are non-empty |
| SvgOutlines.Pieces | src/components/SvgMask.tsx:51-52 | an empty path has no pieces; otherwise the pieces are the cut |
| SvgOutlines.LastPiece | src/components/SvgMask.tsx:53 | the last outline is a non-empty suffix of the path with no inner 'M', starting with 'M' when there are several pieces |
| SvgOutlines.UpdateOutlines | src/components/SvgMask.tsx:48-78 | an empty path changes nothing; a new last outline is appended with the colour; a known one drops the last entry when there are fewer pieces than outlines; the count moves by at most one |
| SvgOutlines.UpdateKeepsEarlierOutlines | src/components/SvgMask.tsx:55-76 | every outline but the last survives an update |
| HoldColours.HexDigit | src/components/RouteDifficulty.tsx:63-65 | a value below 16 prints as one lowercase hex digit that reads back as that value |
| HoldColours.ParseDigits | src/components/RouteDifficulty.tsx:3-5 | parsing a run of hex digits gives its value |
| HoldColours.ParsePair | src/components/RouteDifficulty.tsx:3-5 | two hex digits parse as 16a+b |
| HoldColours.NoDigitIsNaN | src/components/RouteDifficulty.tsx:3-5 | a lone non-digit parses as NaN, whether it is a space, a sign or any other character |
| HoldColours.NatToHex | src/components/RouteDifficulty.tsx:63-65 | it prints a non-empty run of lowercase digits, with no leading zero for n > 0, whose value is n |
| HoldColours.HexRoundTrip | src/components/RouteDifficulty.tsx:59-65 | parsing the printed hex of n gives n |
| HoldColours.Body | src/components/RouteDifficulty.tsx:57 | a leading '#' is stripped, otherwise the text is kept |
| HoldColours.ReadWellFormed | src/components/RouteDifficulty.tsx:59-61 | six hex digits read as three channel values below 256 |
| HoldColours.IsLightColor | src/components/RouteDifficulty.tsx:1-8 | light iff all three channels parse and 299r+587g+114b ≥ 128000; an unparsable channel is dark |
| HoldColours.LightIffWeighted | src/components/RouteDifficulty.tsx:1-8 | a colour whose six digits read as r, g, b is light iff 299r+587g+114b ≥ 128000 |
| HoldColours.WhiteIsLight | src/components/RouteDifficulty.tsx:1-8 | #ffffff is light |
| HoldColours.BlackIsDark | src/components/RouteDifficulty.tsx:1-8 | #000000 is dark |
| HoldColours.TextColour | src/components/RouteDifficulty.tsx:18-19 | dark text iff the colour is light, white text iff it is not |
| HoldColours.DarkenBounds | src/components/RouteDifficulty.tsx:63-65 | a darkened channel lies between 0 and the original |
| HoldColours.TwoDigits | src/components/RouteDifficulty.tsx:63-65 | a channel below 256, padded to two, is its high and low hex digit |
| HoldColours.DarkenedIsPairs | src/components/RouteDifficulty.tsx:56-68 | a well-formed colour darkens to '#' and three two-digit channels, each no larger than the original |
| HoldColours.HashPairs | src/components/RouteDifficulty.tsx:63-67 | '#' and three two-digit channels make seven characters whose six lowercase digits read back as the channels |
| HoldColours.DarkenHexColor | src/components/RouteDifficulty.tsx:56-68 | the output starts with '#' and has at least seven characters |
| HoldColours.DarkenedShape | src/components/RouteDifficulty.tsx:56-68 | a well-formed colour darkens to exactly '#' plus six lowercase hex digits, each channel no larger than before |
| HoldColours.DarkenByZeroRoundTrip | src/components/RouteDifficulty.tsx:56-68 | darkening by 0 keeps every channel value |
| HoldColours.DarkenedNeverLighter | src/components/RouteDifficulty.tsx:1-8 | if the darkened colour is light, so was the original |
| HoldColours.DifficultyLabel | src/components/RouteDifficulty.tsx:38 | the label is the first three characters, or the whole text when it is shorter |
| InputSelect.Filter | src/components/InputSelectGeneric.tsx:22 | it keeps exactly the items whose lowercase form contains the lowercase value, each as many times as it occurs, in their order |
| InputSelect.FilteredItems | src/components/InputSelectGeneric.tsx:20-30 | a non-empty value not among the items is offered first, before the filtered items; otherwise only the filtered items are offered |
| InputSelect.FilterEmptyKeepsAll | src/components/InputSelectGeneric.tsx:22 | the empty value keeps every item |
| InputSelect.EmptyValueOffersAll | src/components/InputSelectGeneric.tsx:20-30 | an empty input offers every item |
| InputSelect.OfferedMatch | src/components/InputSelectGeneric.tsx:20-30 | every offered entry is the typed value or an item matching it |
| InputSelect.ExactValueOffersSubsequence | src/components/InputSelectGeneric.tsx:25-27 | a value that is an item offers only items, in order |
| InputSelect.SelectItem | src/components/InputSelectGeneric.tsx:36-39 | selecting sets the value to the item and hides the list, so no dropdown shows |
| InputSelect.SelectedItemStaysOffered | src/components/InputSelectGeneric.tsx:20-39 | after selecting an item, that item is offered |
| JsText.LastIndexOf | src/App.tsx:215-217 | -1 iff the character is absent; otherwise the index of its last occurrence |
| JsText.Substring | src/App.tsx:215-217 | within range it is the slice; reversed ends are swapped; a negative end counts as 0 (so `substring(0, -1)` is empty) and an end past the text is clamped |
| JsText.PadStart | src/components/RouteDifficulty.tsx:63-65 | the text is right-aligned to the width, padded with the fill character |
| JsText.Lower | src/components/InputSelectGeneric.tsx:22 | characters are lowered one by one, ASCII letters only |

## Left out

- The segmentation model, ONNX runtime, tensors, the image embedding and the feed builder are left out. Their outcomes are the parameters `ready`, `feedsBuilt` and `out` of `Interaction.Session.RunModel`.
- Mask tracing and run-length decoding are left out; the traced outline is the parameter `traced`.
- The `try`/`catch` of `runModel` is not modelled; an inference failure is not modelled.
- Image loading, file fetching, the gallery, LZString and the Supabase storage calls are left out. These are I/O, and only the derived image name and scale record are modelled.
- `AppModel.ImageName`: the `String`-object branch (a URL rebuilt from a string) is not modelled. It needs URL parsing; the name is modelled for URL objects and for plain values.
- DOM events, `ResizeObserver`, `getBBox`, the `_.defer`/`setTimeout` scheduling and lodash throttling are left out. Every handler and effect runs as one synchronous step. The effect that clears the drag when the prompt list becomes null is folded into the handlers that make it null (`UndoPrompt`, `ResetInteraction`, `ResetState`), and the drag-threshold effect into `MouseMove`. The outline-truncation effect (`SyncSvgToClicks`) and the inference effect (`RunModel`) are separate methods, run by the caller after the handler that changed the prompts. The order of concurrent React state updates is not modelled.
- Touch handlers, hover state, the mask image, the colour picker, sticker creation and the remaining pure-layout components are left out. These are rendering only.
- Floating point is modelled as real arithmetic. `Math.sqrt` is a parameter satisfying `IsClampRoot`, and rounding of JavaScript numbers is not modelled.
- `HoldColours.ParseHex`: whitespace other than ASCII is not skipped, and NaN is `None`.
- `JsText.Lower`: `toLowerCase` is modelled for ASCII letters only.
- `Interaction.Session.Redo`: the box-mode branch that depends on a never-set previous annotation is dead code in the component and is not modelled.
- `Interaction.Session.RunModel`: the setters run in order within one step. The mask-image update is not modelled.
- `SvgOutlines.UpdateOutlines`: the outline list is local state of the mask component. It is modelled as a pure update of that list, not as a field of `Session`.
