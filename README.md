# Step Tools: keyframe schedules, marker file and pause planner

Step Tools is a Blender add-on. It keys blink and transparency animations on custom object properties and inserts freeze-frame pauses into an image sequence at saved timeline markers. This project models the integer core of `step_tools.py` in Dafny and proves properties of it:

- **Keyframe operators** (`schedule.dfy`, `keyframing.dfy`):
  - StepToolsBlink and StepToolsTransparent run their loops over the selected objects.
  - StepToolsFadeIn, StepToolsFadeOut and StepToolsFadeInOut set the transparency mode and run the transparent loop.
  - StepToolsCursor moves the frame and may drop a marker.
  - `Schedule` holds the pure part: the per-index value choice, the frame formula, the mode table and the fade_inout delay offsets, all as functions.
  - `Keyframing.KeyframeOperator` is a class with the operator's own fields `objects` and `curent_frame`. Its methods run the source's loops over a `Timeline.Scene`, whose `keyframes` field logs every `keyframe_insert` call in order.
- **Scene** (`timeline.dfy`): the current frame, the timeline markers, the keyframe log and the add-on settings, plus StepToolsMarker.
- **Marker file** (`marker_file.dfy`):
  - StepToolsMarkerSave collects the frames of the markers named "P" and writes them as text.
  - StepToolsPause.get_markers reads them back.
  - A round-trip lemma connects the writer and the reader.
- **Pause planner** (`pause.dfy`): StepToolsPause.create_pause, with each strip reduced to its `(frame_final_start, frame_final_end)` bounds.

Values keyed on properties are opaque, because the code only ever chooses between them:
- `Zero` is 0.0.
- `BlinkBlend` is `blend_blink`, which the blink loop keys.
- `TransparentBlend` is `blend_transparent`, which the transparent loop keys.
- `Colour` is `color_blink`.

The two blends are separate settings, so the model keeps them apart.

Parameter minimums come from the property declarations, not from the operators, so they appear as `requires` clauses:
- `Timeline.Settings.Valid` holds them for the keyframe operators.
- `5 <= pause <= 50` is required by `Pause.CreatePause`.

### Assumption about the host's strip calls

Blender's `split` and `frame_start` are modelled as follows:
- `split(f)` succeeds exactly when `start < f < end`.
  - The strip it was called on keeps `(start, f)`.
  - The right part `(f, end)` is returned and becomes `selected_sequences[-1]`.
  - Otherwise `split` returns None and changes nothing.
- `frame_start += d` moves a whole strip by `d`.
- New image strips are deselected, so they never become the tail.

Under this assumption the undo test of `create_pause` (step_tools.py:527-528) fires exactly when:
- the split failed;
- the marker has the value of the last marker;
- its offset is the tail's end frame.

The reason is that after a failed split, `end_strip` and `next_strip` are the same strip, which has just been shifted. `Pause.PauseStepCases` proves this.

### Behaviour worth noting

- **No bounds checks in the operators.** The lower bounds on durations, counts, delay and pause live only in the property declarations (step_tools.py:64-130). The operators check none of them, so the model takes them as preconditions rather than as an error path.
- **Cursor after fade_inout.** In fade_inout the cursor stays on the third key, `start + duration*(delay+2)`. That is the latest keyed frame but not the last key inserted. `Schedule.CursorIsLatestKey` states both facts.
- **Pause undo.** The undo test compares the offset with the end of `end_strip` after the split and the shift. Under the strip assumption above, it fires when a marker with the last marker's value sits on the tail's end frame. The comparison with `markers[-1]` is by value, so a repeated value can trigger it before the last marker.
- **Negative frames.** The reader drops negative frames, because their minus sign fails `isdigit()`. Writing and reading the markers is therefore exact only for non-negative frames (`MarkerFile.RoundTrip`, `MarkerFile.NegativeFrameDropped`). What is read back is still strictly ascending (`MarkerFile.SaveAndRead`).

## Model

| member | source | states |
|---|---|---|
| Schedule.BlinkKeys | step_tools.py:341-347 | the first n keys of the blink loop; there are exactly n |
| Schedule.BlinkKeysAt | step_tools.py:341-343 | key i of the loop is at frame_current + i*duration_blink and holds 0.0 on even i, blend on odd i |
| Schedule.BlinkScheduleShape | step_tools.py:341-347 | the blink schedule has 2*count+1 keys, key i at start + i*duration alternating 0.0/blend, first and last 0.0, frames strictly increasing |
| Schedule.BlinkLastIsLatest | step_tools.py:341-344 | the last blink key, where `curent_frame` ends, is at start + 2*count*duration and no key is later |
| Schedule.BlinkExample | step_tools.py:341-344 | from frame 10 with duration 12 and count 2 the keys are at 10, 22, 34, 46, 58, alternating 0.0/blend |
| Schedule.ModeRange | step_tools.py:367-375 | `range_data`: every mode alternates between 0.0 and blend_transparent; only blink mode has an odd number of keys; blink and fade_out start on 0.0, fade_in and fade_inout on the blend |
| Schedule.TransparentFrame | step_tools.py:379-386 | key i is at start + i*d, except in fade_inout, where key 2 is at start + d*(delay+2) and key 3 at start + d*(delay+1) |
| Schedule.CursorAfter | step_tools.py:380-387 | after step i, `curent_frame` is key i's frame outside fade_inout; after fade_inout's key 3 it is the frame of key 2 |
| Schedule.TransparentCursor | step_tools.py:377-387 | when the loop ends, `curent_frame` is the last key's frame, except in fade_inout, where it is the third key's frame |
| Schedule.TransparentKeys | step_tools.py:377-392 | the first n keys of the transparent loop; there are exactly n |
| Schedule.TransparentKeysAt | step_tools.py:377-387 | key i of the transparent loop is the mode table's value for i at its (possibly delayed) frame |
| Schedule.TransparentBlinkKeys | step_tools.py:367-369 | for equal start, duration and count, blink mode of the transparent loop keys the same frames and the same 0.0/blend alternation as the blink loop, each loop keying its own blend (blend_transparent in place of blend_blink) |
| Schedule.ModeTable | step_tools.py:367-387 | the mode table: blink = 2*count+1 keys at start + i*d alternating 0.0/blend_transparent; fade_in = [blend@s, 0@s+d]; fade_out = [0@s, blend@s+d]; fade_inout = [blend@s, 0@s+d, blend@s+d(delay+2), 0@s+d(delay+1)] |
| Schedule.FadeKeys | step_tools.py:370-380 | fade_in and fade_out key the mode table's even value at start and its odd value at start + duration |
| Schedule.FadeInOutKeys | step_tools.py:374-387 | fade_inout keys blend at start, 0 at start+d, blend at start+d(delay+2) and 0 at start+d(delay+1), in that order |
| Schedule.FadeInMirrorsFadeOut | step_tools.py:370-373 | fade_in and fade_out key the same frames with their values in reverse order |
| Schedule.FadeInOutTimeline | step_tools.py:383-387 | in fade_inout the 4th key lies one step before the 3rd; in frame order the values are blend, 0, 0, blend at four distinct frames |
| Schedule.CursorIsLatestKey | step_tools.py:380-388 | in every mode the final `curent_frame` is the latest keyed frame: the last key in blink/fade_in/fade_out, start + d*(delay+2) in fade_inout |
| Timeline.Settings.Valid | step_tools.py:64-130 | the declared minimums, which make both durations and the blink count positive and the delay at least 2 |
| Timeline.Scene.constructor | step_tools.py:45-153 | a scene with the given frame, markers and settings and no keyframes yet |
| Timeline.Scene.AddMarker | step_tools.py:445-448 | StepToolsMarker appends a marker "P" at the current frame and changes nothing else |
| Keyframing.PerObject | step_tools.py:337-353 | the object loop: one block per object in object order; when each block is on its own object, every insertion is on a selected object |
| Keyframing.BlinkStep | step_tools.py:341-353 | one blink iteration: the factor key first, a colour key only at i = 0 and i = 2*count, all on the one object at the step's frame |
| Keyframing.KeysOfTagged | step_tools.py:390-392 | the keys inserted on one property of one object are exactly the keys tagged with that property |
| Keyframing.PerObjectKeysOf | step_tools.py:337-353 | with distinct objects, the keys an object receives over the whole object loop are exactly those of its own block |
| Keyframing.BlinkStepKeys | step_tools.py:341-353 | one blink step keys the factor once, and the colour only at i = 0 and i = 2*count, at the same frame |
| Keyframing.BlinkFactorKeys | step_tools.py:341-347 | the factor keys the blink loop inserts on an object are the blink schedule |
| Keyframing.BlinkColourKeys | step_tools.py:349-353 | exactly two colour keys per object, at the first and at the last blink frame |
| Keyframing.LastBlinkColour | step_tools.py:349-353 | the last blink step keys the colour at start + 2*count*duration |
| Keyframing.BlinkNoTransparentKeys | step_tools.py:336-353 | the blink loop never keys the transparency property |
| Keyframing.BlinkEveryObject | step_tools.py:336-353 | every selected object gets the identical blink schedule, the same two colour keys and no transparency key |
| Keyframing.TransparentEveryObject | step_tools.py:365-392 | every selected object gets the identical transparent schedule and no blink key |
| Keyframing.KeyframeOperator.constructor | step_tools.py:171-196 | an operator over the collected objects, each present once (`Valid`), with `curent_frame` set; every operator method keeps `Valid`, so the per-object lemmas apply to each run |
| Keyframing.KeyframeOperator.Cursor | step_tools.py:401-406 | the frame moves to `curent_frame` only if some object was processed and move_cursor is on; a "P" marker is added there only if set_marker is also on; otherwise nothing changes |
| Keyframing.KeyframeOperator.BlinkObject | step_tools.py:341-353 | one object's blink loop appends exactly BlinkSteps for it and leaves `curent_frame` on the last blink key |
| Keyframing.KeyframeOperator.Blink | step_tools.py:336-354 | the log grows by each object's blink block in object order; `curent_frame` ends on the last blink key (frame_current if no objects); then the cursor rule |
| Keyframing.KeyframeOperator.TransparentObject | step_tools.py:367-392 | one object's transparent loop appends exactly the mode's schedule and leaves `curent_frame` at TransparentCursor |
| Keyframing.KeyframeOperator.Transparent | step_tools.py:365-393 | the log grows by each object's transparent block in object order; `curent_frame` ends at TransparentCursor (frame_current if no objects); then the cursor rule |
| Keyframing.KeyframeOperator.Fade | step_tools.py:408-436 | the fade operators set transparent_type to their mode, which stays set, and then behave as Transparent in that mode |
| MarkerFile.PauseFrames | step_tools.py:465-467 | the frame of every marker named "P" is collected, at most one frame per marker |
| MarkerFile.PauseFramesMembers | step_tools.py:465-467 | a frame is collected exactly when some marker named "P" sits on it |
| MarkerFile.Insert | step_tools.py:468 | insertion into an ascending list keeps it ascending and adds exactly one element |
| MarkerFile.SortAscending | step_tools.py:468 | `sorted` returns an ascending permutation of its input |
| MarkerFile.AscendingWithoutDuplicates | step_tools.py:466-468 | a sorted list without duplicates is strictly ascending |
| MarkerFile.CollectPauseFrames | step_tools.py:464-468 | the collected frames are strictly ascending and are exactly the frames of the "P" markers |
| MarkerFile.WriteMarkers | step_tools.py:471-473 | the text written is Serialize(frames): each frame in decimal followed by one space |
| MarkerFile.NatDecimal | step_tools.py:473 | the decimal text of a natural number is non-empty and all digits |
| MarkerFile.IntDecimal | step_tools.py:473 | `f"{x}"` is non-empty, starts with '-' exactly when x < 0, and is otherwise all digits |
| MarkerFile.Serialize | step_tools.py:471-473 | the written text has at least two characters per frame and holds only digits, minus signs and spaces |
| MarkerFile.IsSpace | step_tools.py:507 | the separators of `str.split()` include both line breaks and no digit or minus sign |
| MarkerFile.FirstLine | step_tools.py:507 | `readline()` gives the longest prefix without a line break; a line break follows it unless the text ends |
| MarkerFile.Words | step_tools.py:507 | `str.split()` gives non-empty words without whitespace |
| MarkerFile.IsDigits | step_tools.py:508 | a string that passes `isdigit()` has no minus sign and no whitespace |
| MarkerFile.DigitsValue | step_tools.py:509 | `int` of a digit string is 0 exactly when every digit is '0' |
| MarkerFile.DigitTokens | step_tools.py:507-509 | the loop keeps at most one marker per token |
| MarkerFile.ParseMarkers | step_tools.py:504-510 | get_markers returns at most one marker per word of the first line |
| MarkerFile.GetMarkers | step_tools.py:504-510 | the markers read are ParseMarkers(text): the all-digit tokens of the first line, as numbers, in file order |
| MarkerFile.Word | step_tools.py:507 | a word is the longest whitespace-free prefix of the text: non-empty when the text starts with a non-space, and followed by whitespace unless the text ends |
| MarkerFile.NatDecimalRoundTrip | step_tools.py:508-509 | the decimal text of a natural number passes `isdigit()` and `int` reads the number back |
| MarkerFile.IntDecimalRoundTrip | step_tools.py:508-509 | `f"{x}"` passes `isdigit()` exactly when x >= 0, and then `int` gives x back |
| MarkerFile.WordsAfterWord | step_tools.py:507 | splitting "w " + rest gives w followed by the words of rest |
| MarkerFile.WordsOfSerialize | step_tools.py:471-473 | splitting the written text gives the decimal text of each frame, in order |
| MarkerFile.SerializeIsOneLine | step_tools.py:471-473 | the written text has no line break, so `readline()` returns all of it |
| MarkerFile.DigitTokensOfDecimals | step_tools.py:507-509 | filtering the frames' decimal texts by `isdigit()` and converting gives the non-negative frames in order |
| MarkerFile.RoundTrip | step_tools.py:504-510 | reading what the writer wrote gives back the frames in order, minus the negative ones |
| MarkerFile.RoundTripExact | step_tools.py:504-510 | reading the written text gives exactly the saved frames if and only if no frame is negative |
| MarkerFile.NonNegativesMembers | step_tools.py:508-509 | the frames read back are exactly the written frames that are not negative |
| MarkerFile.NonNegativesAscending | step_tools.py:508-509 | dropping the negative frames keeps strictly ascending frames strictly ascending |
| MarkerFile.SaveAndRead | step_tools.py:464-510 | saving the markers and reading the file back gives the non-negative frames of the "P" markers, each once, strictly ascending |
| MarkerFile.NegativeFrameDropped | step_tools.py:506-509 | frames [-12, 5] are written as "-12 5 " and read back as [5] |
| MarkerFile.OnlyFirstLine | step_tools.py:507 | whatever follows the first line break does not change what is read |
| Pause.Shift | step_tools.py:525-528 | `frame_start += d` moves the strip by d and keeps its length |
| Pause.CreatePause | step_tools.py:512-542 | the loop computes PauseRun; step ends as pause times the number of images; frame_start is the strip start and frame_end = original frame_final_end + step - 1 |
| Pause.Accepts | step_tools.py:520 | the bounds test includes both ends: every frame the split cuts at is accepted, and a strip ending before it starts accepts nothing |
| Pause.PauseStep | step_tools.py:518-539 | one iteration: an accepted marker adds one pause to step and one image at its offset; any other marker changes nothing |
| Pause.PauseRun | step_tools.py:517-539 | the loop over the markers adds at most one image per marker |
| Pause.PauseStepCases | step_tools.py:517-541 | a marker outside the tail's inclusive bounds changes nothing; inside, step grows by pause and an image starts at the offset; strictly inside, the right part starts right after the image; the tail stays put exactly when the marker equals the last one and sits on the tail's end |
| Pause.StepCountsImages | step_tools.py:519-541 | step is always pause times the number of markers acted on |
| Pause.TailAfterStep | step_tools.py:518-539 | a marker other than the last either changes nothing, or adds a pause, moves the tail's end back by it and leaves the tail starting no later than offset + pause |
| Pause.AscendingTail | step_tools.py:517-539 | for strictly ascending markers, before the last marker the tail ends `step` frames after the active strip did and starts no later than any later marker's offset |
| Pause.AscendingAccepts | step_tools.py:517-539 | for strictly ascending markers, exactly the markers no later than the strip length are acted on, and the k-th image is at marker + start + k*pause |
| Pause.AcceptedMarkers | step_tools.py:512-542 | for strictly ascending markers, exactly those within the strip's length are acted on; image k is at marker_k + start + k*pause; the scene ends on the last frame of the material: the pushed-back tail, or the final image after an undone shift |
| Pause.SavedMarkersAscending | step_tools.py:504-510 | the markers read from a file the save operator wrote are strictly ascending, negative frames or not, so AcceptedMarkers applies |
| Pause.TwoPauses | step_tools.py:517-541 | markers 5 and 20 on a strip over 0-100 with pause 24 give images at 5 and 44 and step 48 |
| Pause.PauseAtEnd | step_tools.py:519-530 | a single marker on the strip's end frame leaves the tail where it was, with the image right after it |

## Left out

- StepToolsMain.execute (step_tools.py:161-228), which collects the selected objects with materials: the object list is an input (`KeyframeOperator.objects`, each object at most once, as `KeyframeOperator.Valid` states).
- Shader node-group construction and linking (step_tools.py:230-295), custom-property UI setup (step_tools.py:298-325), single-user copying and unused-action cleanup: these only wire host-owned object graphs.
- The property writes and `update_tag` before each `keyframe_insert` (step_tools.py:338-339, 345-346, 351-352, 390-391): only the inserted keys are modelled, not the live property values they leave behind.
- Floating-point values (blends, colour): opaque, because the code never computes with them.
- File I/O and dialogs: the directory check, `open`, the file-name suffix and encoding, `report`, and the `invoke` methods (step_tools.py:458-461, 471, 474, 477-480, 506, 544-551). The file is modelled as its text.
- MarkerFile.IsDigit: `str.isdigit()` also accepts non-ASCII digit characters. The reader is modelled on ASCII digits only, which is all the writer produces.
- StepToolsPause.execute's guard (one selected strip of type IMAGE, a non-empty marker list) and `bpy.path.abspath` (step_tools.py:495-502).
- Image file names, `strip_elem_from_frame`, `new_image`, the channel and colour tag (step_tools.py:531-537): an image is recorded only by its start frame, and it lasts the pause length.
- Pause.CreatePause: the host's `split` and strip selection are replaced by the stated assumption, and the host's resolution of overlapping strips is not modelled.
- Pause.CreatePause: the host's range limits on `frame_start` and `frame_end` (0 to 1048574) are not modelled; frames are unbounded integers, so a strip starting before frame 0 gives a negative `frameStart` where the host stores 0.
- Keyframing.KeyframeOperator.Cursor: the host's `frame_set` clamping to its frame limits is not modelled; the new frame, and the marker added on it, is `curent_frame` as an unbounded integer.
- UI panels, menus and register/unregister (step_tools.py:554-722).
