# Dipsea split calculator — a verified model of its arithmetic

The Dipsea split calculator (`js/app.js`) answers two questions for a runner
of the Dipsea race, a handicapped race in which every age and sex group starts
some minutes after the gun:

* **Split Targets.** For each target place of the runner's section, what
  actual running time that place needs, and what the elapsed time at each of
  the eight checkpoints should be. A pacing bias slider moves time between
  the climb from Muir Woods to Cardiac and the leg from Cardiac to
  the Stile, and each segment shows how much the bias changed it.
* **Predict Placement.** From one split time at a chosen checkpoint, the
  finishing place. It is found with three fixed-point passes, each going from
  place to pacing proportions to actual time to clock time and back to place,
  seeded at place 500. One final evaluation follows, and a badge classifies
  the place.

The model keeps the calculator's structure, one Dafny module per concern:

| file | module | what it holds |
|---|---|---|
| `numeric.dfy` | `Numeric` | `Math.round`, absolute values, linear interpolation and sums, over exact reals |
| `format.dfy` | `Format` | `fmt`, `fmtDelta`, `startTime` and the text choice of `deltaHtml`, each with a reader that recovers the number it wrote |
| `pacing.dfy` | `Pacing` | the four leg proportions, `biasProps` and `segFrac` |
| `interpolation.dfy` | `Interpolation` | the search loops `clockToPlace` and `getPropsForPlace`, as methods proved against a clamped interpolation function |
| `calibration.dfy` | `Calibration` | the `D`/`CHECKPOINTS` calibration as a parameter, and `getHsGrp` |
| `targets.dfy` | `Targets` | the arithmetic of `computeTargets`: actual time, elapsed times, segments, deltas, one card per target |
| `predict.dfy` | `Predict` | the arithmetic of `computePredict` and `getBadge` |

The calibration (`data.js`) is not part of this model. Its tables and the
checkpoints' `cumFn` functions are the fields of `Calibration.Data`. Every
operation states in its `requires` what it relies on:

* `Calibration.Valid`: the finish curve and the list of pacing tiers are
  sorted and non-empty, which is what the two search loops rely on.
* `Targets.HasTargets`: every target key has a clock time and proportions.
* `Predict.PacingPositive`: under the bias, every tier row gives the chosen
  segment a positive share, so the division by that share is defined and its
  result positive. `Predict.TiersPositiveForEveryKey` shows that valid
  sub-segment ratios and positive biased legs at every tier imply it for every
  segment.

The form fields (sex, age, section, bias, checkpoint, split fields) are
parameters. Numbers are exact reals. JavaScript's `Math.round` is
`(x + 0.5).Floor`, which rounds halves towards +infinity as it does.

## Model

| member | source | states |
|---|---|---|
| Numeric.Round | js/app.js:8 | `Math.round`: the result is the integer within half a unit of x, with a half going up |
| Numeric.RoundReal | js/app.js:82 | the rounded place is a whole number within half a unit of the interpolated value |
| Numeric.Lerp | js/app.js:82 | `a + f·(b − a)`; no contract of its own, Numeric.LerpBetween, Numeric.LerpShift and Numeric.LerpScale state its properties |
| Numeric.LerpBetween | js/app.js:81-82 | a fraction in [0, 1] gives a value between the two ends, whichever is larger |
| Numeric.LerpShift | js/app.js:98-99 | shifting both ends by c shifts the interpolated value by c |
| Numeric.LerpScale | js/app.js:94-100 | scaling both ends by r scales the interpolated value by r |
| Numeric.Abs | js/app.js:17 | `Math.abs` of an integer is that integer or its negation, never negative |
| Numeric.AbsReal | js/app.js:174 | `Math.abs` of a delta is non-negative and equal to the delta or its negation |
| Format.NatToString | js/app.js:12 | `String(n)`: a non-empty digit string whose value is n, with no leading zero except for 0 itself; one digit exactly below 10, at most two below 100 |
| Format.IntToString | js/app.js:28 | `String(i)` for any integer: the digits of i, preceded by `-` when i is negative |
| Format.PadStart2 | js/app.js:12 | `padStart(2, "0")`: longer strings unchanged, a one-character string gets one leading `0` |
| Format.PadTwoDigits | js/app.js:12 | a number below 100, padded, is two digits reading back as that number |
| Format.ClockText | js/app.js:8-13 | the `H:MM:SS` / `M:SS` text; no contract of its own, Format.ClockFields and Format.ClockTextRoundTrip state its properties |
| Format.Fmt | js/app.js:6-14 | `fmt`; no contract of its own, Format.FmtRoundTrip states its properties |
| Format.DeltaSign | js/app.js:20 | the sign of `fmtDelta`; no contract of its own, Format.FmtDeltaRoundTrip states both directions of each sign rule |
| Format.MinSecText | js/app.js:17-21 | the unsigned `M:SS` of `fmtDelta`; no contract of its own, Format.MinSecRoundTrip states its properties |
| Format.FmtDelta | js/app.js:16-22 | `fmtDelta`; no contract of its own, Format.FmtDeltaRoundTrip states its properties |
| Format.StartBase | js/app.js:27 | the base start minute, 25 for INV and 52 otherwise; no contract of its own, Format.StartTimeReadsBack states it |
| Format.StartTime | js/app.js:26-29 | `startTime`; no contract of its own, Format.StartTimeReadsBack states its properties |
| Format.ClockFields | js/app.js:8-13 | the hour, minute and second fields recombine to s, minutes and seconds below 60, hour field only from 3600 s |
| Format.ClockTextRoundTrip | js/app.js:8-13 | the `H:MM:SS` / `M:SS` text reads back as the same number of seconds, with an hour field exactly from 3600 s |
| Format.FmtRoundTrip | js/app.js:6-14 | `fmt` gives `---` for non-positive input; otherwise its text reads back as the rounded seconds; the hour field is present exactly when those are 3600 or more |
| Format.MinSecRoundTrip | js/app.js:17-21 | the unsigned `M:SS` of `fmtDelta` reads back as the magnitude, minutes unbounded |
| Format.FmtDeltaRoundTrip | js/app.js:16-22 | `fmtDelta` starts with `-` exactly below -2 s and with `+` exactly above 2 s; after the sign it reads back as the magnitude of the rounded value |
| Format.StartTimeReadsBack | js/app.js:26-29 | `startTime` is `8:` and then the base minute (25 for INV, 52 otherwise) less the head start: two digits for 0..99, a minus sign and the magnitude when the head start exceeds the base |
| Format.DeltaHtml | js/app.js:173-178 | `deltaHtml` as written (class and text); no contract of its own, Format.DeltaHtmlDoublePlus, Format.DeltaHtmlDoublePlusExample and Format.DeltaHtmlDiffers state its properties |
| Format.DeltaHtmlIntended | js/app.js:173-178 | the corrected delta cell; no contract of its own, Format.DeltaHtmlIntendedSigned states its properties |
| Format.DeltaHtmlDoublePlus | js/app.js:173-177 | as written: every delta of 3 s or more is a "slower" cell whose text starts `++`, and then the rounded magnitude follows |
| Format.DeltaHtmlDoublePlusExample | js/app.js:173-177 | as written: a 65 s delta is written `++1:05` |
| Format.DeltaHtmlIntendedSigned | js/app.js:173-177 | corrected cell: neutral exactly below 3 s; otherwise one sign (`-` faster, `+` slower) and then the rounded magnitude |
| Format.DeltaHtmlDiffers | js/app.js:173-177 | the written cell and the corrected cell share their class and differ only by one extra leading `+` on deltas of 3 s or more |
| Calibration.Lookup | js/app.js:37 | an object lookup is defined exactly for keys in the table, and gives the table's value |
| Calibration.HsTable | js/app.js:35 | the head-start table of the selected sex; no contract of its own, Calibration.NonMaleReadsWomen states which table is read and Calibration.GetHsGrp and Calibration.HandicapLookup that its entry is the head start |
| Calibration.GrpTable | js/app.js:36 | the group table of the selected sex; no contract of its own, Calibration.NonMaleReadsWomen states which table is read and Calibration.GetHsGrp that its entry is the group |
| Calibration.GetHsGrp | js/app.js:31-38 | `getHsGrp` is null exactly for a missing age or an age outside 6..100; otherwise the head start and group are present exactly when the selected sex's tables list the age, and are then that table's entries |
| Calibration.Handicap | js/app.js:48 | the `!info \|\| info.hs == null` guard passes exactly when there is an info with a head start |
| Calibration.HandicapLookup | js/app.js:31-38 | a head start is available exactly for an in-range age in the selected table, and it is that table's entry |
| Calibration.NonMaleReadsWomen | js/app.js:35-36 | any sex value other than exactly "M" reads the women's tables |
| Pacing.BiasProps | js/app.js:66-73 | `biasProps` keeps p1 and p4; p2 grows by bias·p2Sd and p3 shrinks by bias·p3Sd |
| Pacing.BiasZero | js/app.js:66-73 | a zero bias returns the proportions unchanged |
| Pacing.BiasInverse | js/app.js:66-73 | the opposite bias undoes a bias |
| Pacing.BiasCompose | js/app.js:66-73 | two biases in turn equal their sum applied once |
| Pacing.BiasTotal | js/app.js:66-73 | the bias changes the total share by bias·(p2Sd − p3Sd), so it keeps the total exactly when the deviations are equal |
| Pacing.BiasLerp | js/app.js:66-73 | biasing interpolated proportions equals interpolating biased ones |
| Pacing.LerpProps | js/app.js:95-100 | the four proportions interpolated with one fraction; no contract of its own, Pacing.BiasLerp, Pacing.LerpPositive, Pacing.SegFracLerp and Interpolation.PropsAreColumnwise state its properties |
| Pacing.LerpPositive | js/app.js:94-100 | interpolating between rows with positive legs keeps every leg positive |
| Pacing.SegKeyOf | js/app.js:109-123 | the checkpoint menu value maps to a named segment (not the default) exactly when it is one of the twelve keys the switch lists |
| Pacing.SegKeyOfListed | js/app.js:110-121 | each of the twelve keys selects its own case, in the order the switch lists them |
| Pacing.SegFrac | js/app.js:107-124 | `segFrac`; no contract of its own, Pacing.SegmentsPartitionLegs, Pacing.FineSegmentsCoverRace, Pacing.UnknownKeyIsFirstLeg and Pacing.SegFracPositive state its properties |
| Pacing.UnknownKeyIsFirstLeg | js/app.js:122 | an unlisted key is priced as the first leg, p1 |
| Pacing.SegmentsPartitionLegs | js/app.js:110-121 | s_wg + wg_mw = seg_s_m = p1; mw_dy + dy_bc + bc_ca = seg_m_c = p2; ca_sr + sr_st = seg_c_s = p3; st_fi = seg_s_f = p4 |
| Pacing.FineSegmentsCoverRace | js/app.js:110-117 | the eight fine segments add up to the total of the four legs |
| Pacing.SegFracLerp | js/app.js:94-124 | the share of a segment in interpolated proportions is the interpolation of the two rows' shares |
| Pacing.SegFracLerpPositive | js/app.js:94-124 | when both rows give a segment a positive share, every proportions between them do too |
| Pacing.SegFracPositive | js/app.js:107-124 | with valid ratios and positive legs every segment's share is positive, so the division that follows is defined |
| Interpolation.FirstBracket | js/app.js:79-80 | for an interior x of sorted breakpoints there is a pair xs[k] < x ≤ xs[k+1], so the loop's fallback return is unreachable; all earlier breakpoints lie below x |
| Interpolation.FirstBracketUnique | js/app.js:79-80 | the pair the source's loop stops at is exactly that pair |
| Interpolation.FracInUnit | js/app.js:81 | the fraction of the gap is in (0, 1], and the gap is never zero |
| Interpolation.Interpolate | js/app.js:75-104 | clamped interpolation: the first y at or below the first breakpoint, the last y at or beyond the last |
| Interpolation.InterpolateBetween | js/app.js:79-82 | inside the breakpoints the unrounded value lies between the values at the two ends of the bracketing pair |
| Interpolation.InterpolateAtBreakpoint | js/app.js:79-82 | with strictly increasing breakpoints the value at a breakpoint is that breakpoint's y |
| Interpolation.InterpolateRange | js/app.js:75-86 | with sorted values the result lies between the first and the last value |
| Interpolation.InterpolateBounded | js/app.js:88-104 | any bound all the values respect is respected by the result |
| Interpolation.PlaceOfClock | js/app.js:75-86 | the place of a clock time is the interpolated place, rounded inside the curve and unrounded at the clamped ends |
| Interpolation.ClockToPlace | js/app.js:75-86 | the search loop with its early returns computes that place for every clock time |
| Interpolation.PlaceOfClockRange | js/app.js:75-86 | with sorted curve places whose ends are whole numbers, the place always lies within them |
| Interpolation.PlaceOfClockExample | js/app.js:81-82 | halfway between places 1 and 50 the place is 25.5 rounded up to 26 |
| Interpolation.PropsOfPlace | js/app.js:88-104 | the proportions `getPropsForPlace` returns; no contract of its own, Interpolation.GetPropsForPlace, Interpolation.PropsAreColumnwise and Interpolation.PropsOfPlacePositive state its properties |
| Interpolation.GetPropsForPlace | js/app.js:88-104 | the search loop with its early returns computes the clamped, interpolated proportions of every place |
| Interpolation.PropsAreColumnwise | js/app.js:94-100 | each proportion of the result is that proportion's own column interpolated, all with one shared fraction |
| Interpolation.PropsOfPlacePositive | js/app.js:88-104 | tier rows with positive legs give positive legs at every place |
| Targets.SectionOf | js/app.js:212 | the section is the Invitational exactly for the menu value "INV" |
| Targets.TargetsOf | js/app.js:161-171 | the section's target list (the `INV_TARGETS`/`DR_TARGETS` constants, line 212); no contract of its own, Targets.ComputeTargets makes one card per entry |
| Targets.ActualOfClock | js/app.js:218-220 | the target formula, clock to actual; no contract of its own, Targets.ClockActualInverse and Targets.ActualOfHeadStart state its properties |
| Targets.ClockOfActual | js/app.js:290-292 | the predictor's formula, actual to clock; no contract of its own, Targets.ClockActualInverse states that it undoes the target formula |
| Targets.ClockActualInverse | js/app.js:218-220 | the target formula (clock to actual) and the predictor's formula at lines 290-292 (actual to clock) undo each other in both orders |
| Targets.ActualOfHeadStart | js/app.js:218-220 | each minute of head start adds 60 s of actual time, and a Dipsea Runner has `dr_offset` seconds less than an Invitational runner |
| Targets.Elapsed | js/app.js:231 | one elapsed time per checkpoint |
| Targets.Segments | js/app.js:233 | one segment time per elapsed time |
| Targets.Deltas | js/app.js:235 | one delta per segment |
| Targets.SegmentsPrefixSums | js/app.js:233 | the segments up to any checkpoint add up to that checkpoint's elapsed time |
| Targets.SegmentsTelescope | js/app.js:233 | the first segment is the first elapsed time, and all segments add up to the last |
| Targets.SegmentsNonNegative | js/app.js:233 | sorted elapsed times that start at or after zero give no negative segment |
| Targets.DeltasSum | js/app.js:235 | the deltas add up to the difference of the two rows' totals |
| Targets.DeltasTelescope | js/app.js:233-235 | the deltas of two elapsed rows add up to the difference of their finish entries |
| Targets.TargetCard | js/app.js:216-246 | a card is unachievable exactly when the actual time is not positive, and then has no rows; otherwise its actual time is the section's formula, its rows are that time scaled by every checkpoint's share under the biased and the unbiased proportions, its segments are the adjacent differences of the biased row and its deltas the differences of the biased and unbiased segments, one per checkpoint |
| Targets.CardTelescopes | js/app.js:230-235 | on a card the first segment is the first split, and the segments add up to the finish split |
| Targets.CardDeltasSum | js/app.js:230-235 | on a card the deltas add up to what the bias does to the finish split |
| Targets.CardNoBiasNoDeltas | js/app.js:230-235 | with the bias at zero every delta is exactly zero |
| Targets.ComputeTargets | js/app.js:194-249 | the no-results notice exactly when there is no head start; otherwise one card per target of the section, in order, an unachievable one included |
| Predict.GetBadge | js/app.js:343-354 | the Invitational badges exactly for the Invitational section |
| Predict.BadgeLabel | js/app.js:345-353 | the badge texts; no contract of its own, Predict.BadgeIntervals states which place gets which badge |
| Predict.BadgeClass | js/app.js:345-353 | the badge style classes; no contract of its own, Predict.BadgeMiss states when the class is "miss" |
| Predict.BadgeIntervals | js/app.js:343-354 | INV: ≤1 Winner, ≤35 Black Shirt, ≤100 Top 100, ≤450 INV Qualifying, beyond that a miss; DR: ≤540 DR Section Winner pace, ≤750 Qualifying, beyond that a miss; each in both directions |
| Predict.BadgeMiss | js/app.js:349 | the badge is a "miss" exactly beyond 450 (INV) or 750 (DR) |
| Predict.BadgeMonotone | js/app.js:343-354 | a smaller place never gets a worse badge |
| Predict.BiasedPropsPositive | js/app.js:286-287 | when every tier row has positive biased legs, so do the biased proportions of every place |
| Predict.TiersPositiveForEveryKey | js/app.js:286-288 | valid sub-segment ratios and positive biased legs at every tier row give every segment a positive share at every tier row |
| Predict.BiasedSharePositive | js/app.js:286-288 | when every tier row gives the chosen segment a positive biased share, so do the biased proportions of every place, clamped or interpolated |
| Predict.PassFromSound | js/app.js:288-293 | from biased proportions with a positive share: the actual time spends exactly the split on the segment, the clock time converts back to it, and the place is the curve's for that clock |
| Predict.Evaluate | js/app.js:286-293 | one pass; no contract of its own, Predict.EvaluateSound states its properties and Predict.Step computes it |
| Predict.EvaluateSound | js/app.js:286-293 | one pass uses the biased proportions of the current place; the segment share is positive; the actual time spends exactly the split on that segment; the clock time converts back to it; the new place is the curve's place for that clock |
| Predict.Step | js/app.js:286-293 | the loop body's statements compute exactly one pass |
| Predict.IterateFixedPoint | js/app.js:284-294 | once a pass leaves a value unchanged, every later pass does too |
| Predict.NextPlace | js/app.js:285-294 | one pass of the solver as a map from place to place; no contract of its own, Predict.Step computes it and Predict.EvaluateSound states its properties |
| Predict.PlaceAfter | js/app.js:284-294 | the place after n passes from place 500; no contract of its own, Predict.PlaceAfterStep, Predict.FixedPointStays, Predict.PlaceAfterInRange and Predict.Converge state its properties |
| Predict.PlaceAfterStep | js/app.js:285-294 | the place after n + 1 passes is one pass from the place after n |
| Predict.FixedPointStays | js/app.js:284-294 | once a pass of the solver leaves the place unchanged, all further passes do |
| Predict.PlaceAfterInRange | js/app.js:284-294 | after any positive number of passes the place lies within the curve's places (sorted, whole-numbered ends) |
| Predict.Converge | js/app.js:284-294 | the loop ends at the place after exactly three passes from place 500 |
| Predict.FieldOrZero | js/app.js:267-269 | `parseInt(...) \|\| 0`: an empty or unreadable field counts as zero, and otherwise as its value |
| Predict.SplitSeconds | js/app.js:270 | the split h·3600 + m·60 + s; no contract of its own, Predict.ComputePredict states that a split not above zero gives no prediction |
| Predict.PredictionSound | js/app.js:297-309 | the final actual time spends exactly the split on the chosen segment of the biased proportions; the clock time converts back to it; the final place is the curve's place for that clock; the splits are that time scaled by the checkpoints' shares; the badge is the final place's |
| Predict.PredictionAt | js/app.js:297-309 | the final evaluation at a place; no contract of its own, Predict.PredictionSound states its properties and Predict.FinalEvaluation computes it |
| Predict.PredictionOf | js/app.js:284-309 | the final evaluation after three passes; no contract of its own, Predict.PredictionIsFourthPass and Predict.PredictionInRange state its properties and Predict.ComputePredict computes it |
| Predict.FinalEvaluation | js/app.js:297-309 | the statements after the loop compute the final prediction at the converged place |
| Predict.PredictionIsFourthPass | js/app.js:284-304 | the final place is a fourth pass from the seed |
| Predict.PredictionInRange | js/app.js:297-304 | with sorted curve places whose ends are whole numbers, the predicted place lies within them |
| Predict.ComputePredict | js/app.js:253-309 | nothing exactly when there is no head start or the split h·3600 + m·60 + s is not positive; otherwise the final evaluation after three passes from place 500 |

## Left out

- DOM access, `innerHTML`/`style` writes, tab switching and event listeners: these are I/O. The form fields are parameters and the results are values.
- HTML assembly in `buildSplitRow`, `buildPredRow`, `updateShared`, `updateBiasLabel` and the card templates: this is markup. Only the numbers and the small texts it embeds (`fmt`, `fmtDelta`, `startTime`, the text and class of `deltaHtml`, the badge) are modelled. They are modelled on their own, and the model does not assemble them into a card.
- The contents of `data.js` (`D` and the bodies of `CHECKPOINTS[i].cumFn`): they are not shown. They are the fields of `Calibration.Data`, and the preconditions say what is required of them.
- IEEE-754 rounding, `NaN`, `Infinity` and the exact behaviour of `parseInt`/`parseFloat`: numbers are exact reals. An unreadable age or split field is `None`. `Format.Fmt` does not model the `secs == null` case, because every caller passes a number.
- Format.ParseClock, Format.ParseMinSec: these readers are not in the source. They exist to state the round trips of the serialisers.
- Interpolation.GetPropsForPlace: at the clamped ends the source returns the tier object itself, with its `place` field. The model returns its four proportions, which is all any caller reads.
- Predict.ComputePredict: only when there is a head start and a positive split does it require `Valid` and `PacingPositive`: at every tier row the chosen segment's biased share is positive, which is what the division at line 289 relies on for every place the solver can visit. With a zero or negative share the source would go on with `Infinity`, `NaN` or a negative time. That path is not modelled.
- Targets.ComputeTargets: requires `HasTargets`. A key missing from `D.clocks` gives `undefined` and the source goes on with `NaN`. A key missing from `D.props` with a positive actual time makes `biasProps` (line 68, called at line 230) throw a `TypeError`; that ends `computeTargets`, and through `computeAll` (lines 358-361) `computePredict` is then skipped. Neither path is modelled.
- Predict.PlaceAfterInRange, Predict.PredictionInRange and Interpolation.PlaceOfClockRange:
  - They require the first and last curve places to be whole numbers.
  - The reason: inside the curve `clockToPlace` rounds the interpolated place, and rounding can step past an end place that is not whole (places 0.3 and 10.7 at clock times 0 and 100 give 10.596 at 99, which rounds to 11). Outside the curve the end places come back exactly.

## Findings

| source | as written | input that shows it | evidently intended | confidence | as-written member | corrected member |
|---|---|---|---|---|---|---|
| js/app.js:176-177 | for a delta of 3 s or more, `deltaHtml` writes its own `"+"` in front of `fmtDelta(d)`, and `fmtDelta` already starts with `+` above 2 s (line 20) | d = 65; the cell reads `++1:05` | a single sign, `+1:05` | not executed | Format.DeltaHtmlDoublePlus, Format.DeltaHtmlDoublePlusExample | Format.DeltaHtmlIntendedSigned |
