# Glitch text: a verified model of the `glitcher` core

This project models the animation and distortion engine of a canvas "glitch text" page, the `glitcher` object in `js/app.js`. It is one class, `Glitch.Glitcher`, whose fields are the ones the object updates in place:

- the step list `sequence`, the shown index `activeStep`, the pending step timer `pending` and the fragment writes `published`;
- the fitted text `text`, `fontSize` and `textWidth`;
- the modulation clock `phase`, `channel` and `amplitude`.

Its methods are the object's operations. Pure modules beside it hold the arithmetic and the specifications that the methods are proved against:

- `Sequencer` holds the step list, the `slice` and `splice` arithmetic, and the index each run of the sequencer shows.
- `HashDecode` holds the starting list chosen from the location fragment.
- `Modulation` holds the per-frame clock.
- `Positions` holds the centred position in `render` and the rotation of the colour channels.
- `Fitter` holds the two font-size walks of `changeText`, stated as predicates over an abstract text measurement.
- `Scanline` holds the byte clamp of a `Uint8ClampedArray` (ToUint8Clamp, section 7.1.11 of ECMAScript 2015), the in-place brightening loop over one pixel row, and the clipped write-back of `putImageData`.

What the model abstracts:

- A timer is the continuation it would run. `pending == Some(rest)` means a step timer is set. The invariant `Valid()` says that `rest` is always the list after the active step. `Fire` is the timer going off.
- Random draws are parameters: the amplitude draw `r`, the offset `x0` after the glitch multiplication, and the scanline row `y`, offset `s` and shift `x`.
- The canvas measurement is a function `measure(text, fontSize)`. It gives the rounded-up width that `measureText` returns.
- The decoder is a parameter `parsed`, which is `None` when decoding throws.
- A rewrite of the location fragment appends the list to `published`.

Behaviours of the code that the model keeps, although one might expect otherwise:

- `removeStep` can remove the last step, although a sequence should always keep at least one step (see Findings).
- `addStep` does not rewrite the fragment; only removals and edits do.
- `putImageData` overwrites the clipped row; it does not blend with what was there.
- The fitted text is never wider than 80% of the viewport, but it need not be 12% wide. Only when one font-size step takes the width from below 12% to above 80% (a jump of more than 68% of the viewport) does the increment walk overshoot, and the decrement walk then stops below 12% (`Fitter.FitCanEndBelowMinimum`).

## Model

| member | source | states |
|---|---|---|
| `Sequencer.Slice` | js/app.js:167 | `slice(k)` is the trailing part of the list from `k`, and is empty from the end on |
| `Sequencer.Removed` | js/app.js:135 | `splice(k, 1)` deletes exactly element `k`: one element shorter, earlier steps in place, later steps moved down one, the same steps less `s[k]`; an index past the end changes nothing |
| `Sequencer.Effective` | js/app.js:146-152 | the list a run walks is its argument when that is present and non-empty, else the whole sequence; it is empty only when both are |
| `Sequencer.ActiveIndexOfSuffix` | js/app.js:150-157 | a run given `sequence[k..]` with `k < length` sets `activeStep = k` and shows `sequence[k]`, leaving `sequence[k+1..]` to follow; the empty suffix wraps to step 0 |
| `Sequencer.SuffixStartsAtActive` | js/app.js:154-157 | for any suffix argument the first step walked is the step at the stored active index, and the rest is the list after it |
| `Sequencer.ActiveIndex` | js/app.js:156 | `activeStep = sequence.length - steps.length` for the list the run walks; what the index means is stated by `ActiveIndexOfSuffix`, `SuffixStartsAtActive` and `RunIsConsistent` |
| `Sequencer.Scheduled` | js/app.js:159-163 | a timer is set exactly when the shown step exists and its duration is positive, and it carries the trailing part of the list after that step |
| `Sequencer.RunIsConsistent` | js/app.js:150-162 | any run, from any suffix, stores an index that names a step of the list (0 for an empty list) and leaves a timer only for the steps after it |
| `Sequencer.RestartFrom` | js/app.js:166 | `step || activeStep`: a step of 0 (or none) stands for the active step, any other step for itself |
| `Sequencer.RestartLandsOn` | js/app.js:165-168 | `restartStep(k)` lands on `k || activeStep` when that is a step of the list and on step 0 otherwise; `k = 0` means the active step |
| `Sequencer.ContinuationAdvances` | js/app.js:159-162 | the continuation scheduled while step `a` shows, once run, shows step `(a + 1) mod length` |
| `Sequencer.RemovingOnlyStepEmpties` | js/app.js:131-137 | removing the only step leaves the empty list, and the restart after it has no first step |
| `Sequencer.RemovedKeepingOne` | js/app.js:131-135 | corrected removal: a non-empty list stays non-empty; with more than one step it is the `splice` |
| `Sequencer.RemovalsNeverEmpty` | js/app.js:131-135 | any number of corrected removals keeps at least one step and never lengthens the list, and a one-step list stays as it is |
| `HashDecode.InitialSequence` | js/app.js:44-71 | no fragment keeps `[{t:'ô', s:-1}]`; a decoded fragment gives the decoded list; a failed decode gives `[{t:hash, s:-1}]` without the `~` marker and `[{t:'<you failed/>', s:-1}]` with it |
| `HashDecode.FallbackIsOneHeldStep` | js/app.js:58-70 | every fallback is a single step held forever, and it shows the raw fragment exactly when the fragment does not start with `~` |
| `HashDecode.EmptyOnlyFromEmptyDecode` | js/app.js:53-57 | the starting list is empty only when a fragment decodes to the empty list |
| `HashDecode.FallbackExamples` | js/app.js:59-69 | `not-encoded-but-plain` shows itself; `~garbled` shows the failure text |
| `Modulation.NextChannel` | js/app.js:175 | the channel rotation is `(channel + 1) mod 3` on 0, 1, 2 and stays among them |
| `Modulation.Advance` | js/app.js:171-177 | past 1 the phase resets to 0, the channel rotates and the amplitude becomes `amplitudeBase + amplitudeRange * r`; otherwise only the phase moves; phase in [0, 1] and channel in {0, 1, 2} are kept |
| `Modulation.RedrawnAmplitudeInRange` | js/app.js:176 | a redrawn amplitude lies in `[amplitudeBase, amplitudeBase + amplitudeRange)` |
| `Modulation.NoWrapUpToOne` | js/app.js:171-173 | while the accumulated phase stays at or below 1, frames only add to the phase; channel and amplitude are untouched |
| `Modulation.WrapsAfterThreshold` | js/app.js:171-177 | from phase 0 the first wrap is the first frame whose accumulated phase passes 1; it rotates the channel once and redraws the amplitude from that frame's draw |
| `Modulation.ChannelCycleIsThree` | js/app.js:175 | three rotations return to the starting channel, one never does |
| `Positions.Centre` | js/app.js:192 | `width - textWidth >> 1` is the floor of half the difference |
| `Positions.Candidates` | js/app.js:192-194 | `x2 = x1 + x0` and `x3 = x1 - x0` lie symmetrically about the centre: `x2 + x3 = 2 * x1` |
| `Positions.ChannelPositions` | js/app.js:199-209 | channel `k` in {0, 1, 2} gives red, green and blue the candidates `k`, `k+1`, `k+2` cyclically; any other channel value draws nothing |
| `Positions.PositionsArePermutation` | js/app.js:199-209 | the drawn triple is a cyclic rotation of `(x1, x2, x3)`, so a permutation of it |
| `Positions.RotationShiftsColours` | js/app.js:199-209 | for channels 0 to 2, the next channel (2 wrapping round to 0) gives each colour the position the next colour had; with no offset all copies sit at the centre |
| `Fitter.Grown` | js/app.js:234-241 | where `fitByIncrement` stops: the least size from the start whose width is at least 12% of the viewport |
| `Fitter.Shrunk` | js/app.js:242-249 | where `fitByDecrement` stops: the greatest size from the start whose width is at most 80% of the viewport |
| `Fitter.Fitted` | js/app.js:227-231 | `changeText` leaves the empty text's size alone, and fits any other text by the increment walk followed by the decrement walk |
| `Fitter.WalksAreDeterministic` | js/app.js:234-249 | each font walk has exactly one stopping point |
| `Fitter.FittedBounds` | js/app.js:227-249 | after both walks the width is at most 80% of the viewport, and the decrement walk never returns above where the increment walk stopped; when the increment walk already stops within 80%, the decrement walk leaves the size alone and the width lies between 12% and 80% |
| `Fitter.WalksAreMonotone` | js/app.js:234-249 | the increment walk only raises the size, the decrement walk only lowers it, and a size already inside its bound is left alone |
| `Fitter.FitCanEndBelowMinimum` | js/app.js:227-249 | a measurement that lets both walks terminate and measures the empty text as 0 wide, under which a text fitted from size 5 grows to 10, past 80%, and shrinks back to 9, below 12% |
| `Scanline.Clamp` | js/app.js:268 | a store into the pixel buffer keeps the byte nearest to the sum, which is the sum itself when it is a byte |
| `Scanline.Brightened` | js/app.js:267-269 | the row after the loop has the same length and every byte is `clamp(old + s)` |
| `Scanline.BrightenedComposes` | js/app.js:268 | two non-negative offsets saturate exactly as their sum does |
| `Scanline.BrightenedRaises` | js/app.js:264-269 | a non-negative offset never darkens a byte; a positive one leaves only bytes at 255 unchanged; an offset of 255 or more saturates the row |
| `Scanline.Shifted` | js/app.js:271 | the written row keeps the destination's length |
| `Scanline.ShiftedEdges` | js/app.js:265-271 | at offset 0 the brightened row replaces the row entirely; at an offset of a whole row width or more nothing of it lands |
| `Scanline.ReadRow` | js/app.js:261-262 | `getImageData` of one full-width row of a canvas at least one pixel wide is a fresh copy of that row |
| `Scanline.Brighten` | js/app.js:263-269 | the `while (i-- > 0)` loop visits every index once, keeps the length and stores `clamp(old + s)` at each index |
| `Scanline.PutRow` | js/app.js:271 | only row `y` changes; its byte `j` takes source byte `j - 4x` where that exists, which is pixel column `c` taking source column `c - x`, clipped to the canvas; every other byte is unchanged |
| `Scanline.Corrupt` | js/app.js:259-272 | `renderScanline` on a canvas at least one pixel wide: row `y` becomes its brightened copy shifted by `x`, and no other row changes |
| `Glitch.Glitcher.constructor` | js/app.js:18-73 | the defaults of `initOptions` and the starting list decoded from the fragment, with the step state valid; `text == ""` and `textWidth == 0` are the model's starting values, because the source leaves both unset until the first run |
| `Glitch.Glitcher.Tick` | js/app.js:171-177 | the clock fields advance as `Modulation.Advance`: on a wrap, phase 0, channel `(old + 1) mod 3` and an amplitude in `[base, base + range)`; otherwise channel and amplitude are unchanged |
| `Glitch.Glitcher.FitByIncrement` | js/app.js:234-241 | the size ends at the least size from the start whose width reaches 12% of the viewport |
| `Glitch.Glitcher.FitByDecrement` | js/app.js:242-249 | the size ends at the greatest size from the start whose width is within 80% of the viewport |
| `Glitch.Glitcher.ChangeText` | js/app.js:223-233 | the text is set; an empty text keeps its font size; a non-empty one goes through the increment then the decrement walk and ends no wider than 80%; the width is measured afterwards, and is 0 for the empty text |
| `Glitch.Glitcher.RunSequence` | js/app.js:143-164 | the old timer is cancelled; `activeStep = length - steps.length`, wrapping an empty argument to the whole list; the step there is shown; a timer for the steps after it is pending exactly when its duration is positive; on an empty list the run throws and nothing is shown |
| `Glitch.Glitcher.Fire` | js/app.js:160-162 | the step timer going off shows step `(activeStep + 1) mod length`, fits and measures its text, and schedules again only if that step's duration is positive |
| `Glitch.Glitcher.RestartStep` | js/app.js:165-168 | runs from `step || activeStep`, landing on step 0 past the end; the step there is shown with its text fitted and measured, and scheduled as in `RunSequence` |
| `Glitch.Glitcher.AddStep` | js/app.js:123-130 | appends exactly `{t:'', s:1}` and keeps the active step shown, its text refitted and measured, now with a timer into the new step when due; the fragment is not rewritten |
| `Glitch.Glitcher.RemoveStep` | js/app.js:131-139 | an empty list is left alone; otherwise exactly the step at the index is spliced out, the list is published and the sequencer restarts at the old index, or step 0 past the end, refitting and measuring the shown text; removing the only step empties the list and the restart throws before the text, size or width change |
| `Glitch.Glitcher.RemoveStepKeepingOne` | js/app.js:131-139 | corrected removal: the list never becomes empty; with more than one step it is the `splice`, the list is published, and the restart at the old index (or step 0) always shows a step, refits and measures it, and schedules as in `RunSequence` |
| `Glitch.Glitcher.EditStep` | js/app.js:108-118 | an edit replaces one step; the pending continuation sees it; when the edited step is the active one it restarts, refitting and measuring the new text, and otherwise text, size and width are unchanged; the list is published |
| `Glitch.Glitcher.Render` | js/app.js:184-212 | the triple handed to `renderChannels` is `Positions.ChannelPositions` of the channel; on the canvas as it stands after the frame is cleared and the three copies drawn, the scanline pass changes only row `y`, as `Scanline.Corrupt` states; on a canvas of width 0, where `getImageData` throws, `scanned` is false and the canvas is unchanged |
| `Glitch.TwoStepsAlternate` | js/app.js:143-163 | two one-second steps show "A", then "B", then "A" again as the timer fires |
| `Glitch.FirstRunShowsFirst` | js/app.js:143-163 | the first run over two one-second steps shows "A" and schedules "B" |
| `Glitch.FirstStepGivesWay` | js/app.js:159-163 | with the first of two steps shown, the timer shows "B" and leaves the empty rest pending |
| `Glitch.LastStepWraps` | js/app.js:146-163 | with the last of two steps shown, the timer wraps to "A" and schedules "B" again |
| `Glitch.HeldStepSchedulesNothing` | js/app.js:159-163 | a step of duration 0 is shown and leaves no timer pending |

## Left out

- Canvas drawing and styling are not modelled, because they are a foreign rendering API with no checkable logic: `clearRect`, `fillText`, `globalCompositeOperation`, `setFont` and the colours (js/app.js:196, 213-222, 253-258).
- The opacity `globalAlpha` (js/app.js:197) is not modelled. It is floating-point, and it reads `alphaBase`, which is never assigned, so its value is NaN.
- `Math.sin`, `Math.random` and the floating-point glitch multiplication (js/app.js:176, 185-189, 260-265) are not modelled. Their outcomes are parameters: `r`, `x0`, `y`, `s` and `x`.
- The encoder and decoder of the fragment format (js/app.js:56, 141) are not part of this model. Decoding is the `parsed` parameter. Encoding is the list appended to `published`. The round trip between them is not stated.
- `measureText` (js/app.js:232, 250-252) is the abstract `measure`. Every operation that fits text requires `Measurable()`: the width never shrinks as the size grows, every non-empty text can be made at least 12% and at most 80% of the viewport wide, and the empty text is 0 wide. Without the first two the source's recursion need not end.
- The timing is not modelled: the start-up delay, the frame loop of `tick` and the real-time length of step timers (js/app.js:4-16, 169-170, 178-182). Only the pending continuation and its firing (`Fire`) are.
- The control panel (`initControls`, `addStepControls`, js/app.js:74-122) is out of scope as UI. Only its edit callback is modelled, as `EditStep`. The tunable constants (`phaseStep`, `amplitudeBase`, `amplitudeRange`, the scanline constants) are fixed at their `initOptions` values.
- `resize`, `window.onresize` and the Escape-key toggle (js/app.js:273-294) are not modelled, because they are DOM event handling.
- Glitch.Glitcher.ChangeText: `textWidth` is the rounded-up integer width that the fitter compares, not the fractional width the canvas reports.
- Modulation.Advance: phases are exact reals, so the model's channel turns over every `n + 1` frames, where `n` is the largest count with `n * phaseStep <= 1`: 21 frames for the step 0.05. The source sums doubles, and twenty additions of 0.05 already exceed 1, so it turns over every 20 frames.
- Positions.Centre: `>> 1` is modelled on the integer difference. The 32-bit truncation of very large or fractional differences is not modelled.
- The canvas stores colours premultiplied by alpha, so a pixel written with alpha below 255 may read back as different bytes. The pixel grid of `Scanline` is an exact byte store.
- Glitch.Glitcher.Render: `x0` is an integer. A fractional glitch multiplier from the control panel would make it fractional in the source.
- Scanline.Corrupt: the canvas must be at least one pixel wide and the row must exist. For width 0, `Glitch.Glitcher.Render` models the throw of `getImageData` instead. For height 0, `renderScanline` reads row 0 outside the canvas, gets transparent pixels and draws nothing visible; `Render` requires `0 <= y < height`, so that case is not modelled.

## Findings

| source | as written | input that shows it | evidently intended | confidence | as-written member | corrected member |
|---|---|---|---|---|---|---|
| js/app.js:132 | `removeStep` refuses only when the list is already empty | a one-step list and `removeStep(0)`: `splice` leaves `[]`, and the restart reads `t` of `undefined` (js/app.js:154-157) | refuse when one step or fewer remains, so the list always keeps a step | high; not executed | `Glitch.Glitcher.RemoveStep`, `Sequencer.RemovingOnlyStepEmpties` | `Glitch.Glitcher.RemoveStepKeepingOne`, `Sequencer.RemovalsNeverEmpty` |
