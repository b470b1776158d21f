# Athlete wellness and recovery app — verified model of its core logic

This project is a Dafny model of the client-side logic of an athlete-monitoring web
application. Athletes score their post-match recovery on a checklist, estimate their
one-repetition maximum, track strength sessions, keep a profile with a date of birth,
browse trend charts, read their wellness log and record fitness-test results. Each
screen's state is modelled as a class whose methods are proved against pure functions,
and the properties the screens rely on are proved as lemmas about those functions.

Modules, one per source file:

- `RecoveryAssessment`: the recovery checklist (`pages/RecoveryAssessment.tsx`). The
  activity table, the `category-index` selection keys, the selection map and the running
  total that toggling maintains. Also the 105-point badge, and the fact that any total
  lies in [-105, 265].
- `GeminiService`: the pure parts of the AI-feedback service (`services/geminiService.ts`).
  These are the truncation of a response to a 1000-character budget, and the decoding of
  selection keys into "category: activity" lines.
- `OneRMCalculator`: the Epley estimate, relative strength, the per-lift rating ladders
  and the reference-range texts (`components/OneRMCalculator.tsx`).
- `StrengthTracker`: the intensity of a workout and the chart series with its padded
  bounds (`pages/StrengthTracker.tsx`). Also the set-entry list and the
  main → categories → exercises → track/log navigation with its Back button.
- `ProfileSettings`: the DD/MM/YY date of birth (`pages/ProfileSettings.tsx`). That covers
  its conversion to a YYYY-MM-DD text, its reading as a calendar date with the same
  two-digit-year pivot, the age computed from it, and the profile form.
- `Trends`: the MM:SS label of the time-trial chart, the lookup of the selected test's
  points and the wellness-chart component flags (`pages/Trends.tsx`).
- `WellnessLogs`: the colour bands of the score cells, the newest-first ordering of the
  fetched entries (an in-place sort on an array) and the row whose notes are open
  (`pages/WellnessLogs.tsx`).
- `FitnessTests`: the test table per category, the value a submission records and the
  form's reset rules (`pages/FitnessTests.tsx`).
- `JsText`: the JavaScript string built-ins the code relies on. These are `trim`,
  `padStart`, `split` with a one-character separator, `lastIndexOf`, `parseInt` and
  `Number.prototype.toString`. A JavaScript `NaN` is `None`.
- `Wrappers`: `Option`.

JavaScript behaviour is written out where it matters:

- `Math.round` is floor(x + 1/2).
- `Math.min()` and `Math.max()` with no arguments are the infinities of an extended-integer type.
- `reduce` without an initial value on an empty array throws; it is modelled as `None`.
- `%` truncates toward zero for negative operands.
- `new Date(y, …)` reads a year 0..99 as 1900 + y.
- A `Date` holds at most 10^8 days either side of 1 January 1970, so from -271821-04-20 to
  275760-09-13; arguments outside that range give an Invalid Date.
- An Invalid Date gives the age text "NaN".
- Destructuring a `split` result with too few pieces makes the date helpers fall back to
  1990-01-15 (by way of the `catch`).

## Model

| member | source | states |
|---|---|---|
| RecoveryAssessment.ItemKey | client/src/pages/RecoveryAssessment.tsx:76 | the key starts with the category name followed by '-' |
| RecoveryAssessment.ItemKeySplits | client/src/pages/RecoveryAssessment.tsx:76 | for a dash-free category, splitting the key at '-' gives back the category and the index text |
| RecoveryAssessment.ItemKeyInjective | client/src/pages/RecoveryAssessment.tsx:76 | distinct (category, index) pairs give distinct keys |
| RecoveryAssessment.EntryAt | client/src/pages/RecoveryAssessment.tsx:163-172 | item i of category k is the entry at offset(k) + i of the flattened table, with its key and points |
| RecoveryAssessment.EntriesDistinct | client/src/pages/RecoveryAssessment.tsx:27-73 | a table with distinct, dash-free category names has pairwise distinct keys |
| RecoveryAssessment.TableWellFormed | client/src/pages/RecoveryAssessment.tsx:27-73 | the screen's four category names are distinct and contain no '-' |
| RecoveryAssessment.ToggleKey | client/src/pages/RecoveryAssessment.tsx:77-87 | the toggled key's selection flips; every other key is untouched |
| RecoveryAssessment.ToggleTotal | client/src/pages/RecoveryAssessment.tsx:79-85 | with distinct keys, toggling entry j moves the selected total by ± its points (minus when it was selected) |
| RecoveryAssessment.ToggleTwice | client/src/pages/RecoveryAssessment.tsx:79-84 | toggling a key twice restores a selection map whose values are all true |
| RecoveryAssessment.ToggleCommutes | client/src/pages/RecoveryAssessment.tsx:75-88 | two toggles commute |
| RecoveryAssessment.SelectedTotalBetween | client/src/pages/RecoveryAssessment.tsx:75-88 | any selection totals between the sum of the negative and the sum of the positive points |
| RecoveryAssessment.TableParts | client/src/pages/RecoveryAssessment.tsx:27-73 | the negative and positive sums of the flattened table are the per-category sums |
| RecoveryAssessment.FourCategorySums | client/src/pages/RecoveryAssessment.tsx:27-73 | a four-category table's sums are the sum of its categories' sums |
| RecoveryAssessment.TableExtremes | client/src/pages/RecoveryAssessment.tsx:27-73 | the screen's table has negative points summing to -105 and positive points to 265 |
| RecoveryAssessment.TotalRange | client/src/pages/RecoveryAssessment.tsx:27-88 | every total the screen can show lies in [-105, 265] |
| RecoveryAssessment.ToggleItemTotal | client/src/pages/RecoveryAssessment.tsx:75-88 | clicking an item of the table changes the total of the selected items by exactly that item's points |
| RecoveryAssessment.DecodeItemKey | client/src/services/geminiService.ts:171-176 | in any table with distinct, dash-free category names, the key of item i of category k decodes to "category: item text" |
| RecoveryAssessment.DecodeIndexOutOfRange | client/src/services/geminiService.ts:174-177 | the key of an index past the end of its category's items is passed through unchanged |
| RecoveryAssessment.DecodeUnknownCategory | client/src/services/geminiService.ts:173-177 | the key of a category the table does not have is passed through unchanged |
| RecoveryAssessment.RequestListsTickedItems | client/src/services/geminiService.ts:169-178 | the request lists exactly the ticked checkboxes of the screen, in order, each as "category: item text" |
| RecoveryAssessment.FirstCategory | client/src/services/geminiService.ts:173 | in a table with distinct names, `find` by a category's name returns that category |
| RecoveryAssessment.Assessment.constructor | client/src/pages/RecoveryAssessment.tsx:18-19 | nothing selected, total 0, and the total equals the selected points |
| RecoveryAssessment.Assessment.ToggleItem | client/src/pages/RecoveryAssessment.tsx:75-88 | the new map is the toggled map; the total moves by ± points and still equals the selected points |
| RecoveryAssessment.Assessment.ScoreBadge | client/src/pages/RecoveryAssessment.tsx:230-233 | green exactly when the selected points reach 105 |
| GeminiService.Max3 | client/src/services/geminiService.ts:31 | the result is one of the three and at least each of them |
| GeminiService.LastSentenceEnd | client/src/services/geminiService.ts:27-31 | the index of the last '.', '!' or '?', or -1 exactly when there is none |
| GeminiService.TruncateToMaxLength | client/src/services/geminiService.ts:22-39 | text within the budget is unchanged; a result is at most budget + 3 long, and one over budget ends in "..." |
| GeminiService.LateEnoughIsIntegerTest | client/src/services/geminiService.ts:33 | `i > maxLength * 0.8` is the integer test 5i > 4·maxLength |
| GeminiService.SentenceBranch | client/src/services/geminiService.ts:26-35 | a late sentence break gives a prefix of the text, within budget, ending at a sentence end, with no later sentence end in the budget |
| GeminiService.EllipsisBranch | client/src/services/geminiService.ts:37-38 | otherwise the result is the trimmed budget-sized prefix followed by "..." |
| GeminiService.SentenceCutIsFixedPoint | client/src/services/geminiService.ts:22-35 | truncating a sentence-cut result again leaves it unchanged |
| GeminiService.FindCategory | client/src/services/geminiService.ts:173 | the found category has the name and is in the table; None exactly when no category has it |
| GeminiService.DecodeActivity | client/src/services/geminiService.ts:171-178 | the line is the key itself or "category: item text" for some item of the table |
| GeminiService.DecodeKeyWithoutDash | client/src/services/geminiService.ts:172 | a key with no '-' has no index part and is passed through unchanged |
| GeminiService.DecodeIndexNaN | client/src/services/geminiService.ts:172-177 | a key whose index part does not parse as a number is passed through unchanged |
| GeminiService.SelectedKeys | client/src/services/geminiService.ts:169-170 | exactly the keys mapped to true are kept |
| GeminiService.SelectedKeysAppend | client/src/services/geminiService.ts:169-170 | keys keep their order: an entry added at the end contributes its key, if selected, at the end |
| GeminiService.SelectedActivitiesCons | client/src/services/geminiService.ts:169-178 | the first entry's line, if it is selected, comes before the lines of all later entries |
| OneRMCalculator.OneRM | client/src/components/OneRMCalculator.tsx:21-23 | zero reps gives the load; a non-negative load and reps never estimate below the load |
| OneRMCalculator.OneRMMonotoneInReps | client/src/components/OneRMCalculator.tsx:21-23 | more repetitions never lower the estimate |
| OneRMCalculator.OneRMMonotoneInWeight | client/src/components/OneRMCalculator.tsx:21-23 | a heavier load never lowers the estimate |
| OneRMCalculator.RelativeStrength | client/src/components/OneRMCalculator.tsx:25-27 | ratio × body weight is the estimate |
| OneRMCalculator.ShowsAccuracyWarning | client/src/components/OneRMCalculator.tsx:136-138 | the warning shows exactly when the estimate for a unit load exceeds 1.2 |
| OneRMCalculator.AccuracyWarningMeansLargeCorrection | client/src/components/OneRMCalculator.tsx:136-138 | the "more than 6 reps" warning shows exactly when the estimate exceeds 1.2 × the load |
| OneRMCalculator.RelativeStrengthRating | client/src/components/OneRMCalculator.tsx:29-63 | the colour is always the level's colour |
| OneRMCalculator.RatingFollowsLadder | client/src/components/OneRMCalculator.tsx:29-63 | each lift is rated on its (good, excellent) ladder with inclusive thresholds; a lower-body lift with an unknown exercise is average |
| OneRMCalculator.RatingMonotone | client/src/components/OneRMCalculator.tsx:29-63 | a higher ratio never earns a lower rating |
| OneRMCalculator.FrontSquatRatedLikeChins | client/src/components/OneRMCalculator.tsx:41-44 | front squat and chins share one ladder |
| OneRMCalculator.GetReferenceRanges | client/src/components/OneRMCalculator.tsx:84-104 | the average-band text is never empty for the three lift types |
| OneRMCalculator.RangesNameLadder | client/src/components/OneRMCalculator.tsx:84-104 | the three range texts name exactly the thresholds the rating uses |
| OneRMCalculator.UnknownLowerBodyShowsHexbarRanges | client/src/components/OneRMCalculator.tsx:96-97 | a lower-body lift with an unknown exercise shows the hex-bar texts |
| StrengthTracker.LowestRirSet | client/src/pages/StrengthTracker.tsx:799 | None exactly for no sets; otherwise the first set of least RIR (ties go to the earliest) |
| StrengthTracker.ReduceFromFirstLowest | client/src/pages/StrengthTracker.tsx:799 | the reduce step keeps the first minimum of everything folded so far |
| StrengthTracker.SetIntensity | client/src/pages/StrengthTracker.tsx:800 | a non-negative set's intensity is at least its load |
| StrengthTracker.WorkoutIntensity | client/src/pages/StrengthTracker.tsx:798-801 | None exactly for no sets; otherwise the intensity of the first set of least RIR |
| StrengthTracker.JsRound | client/src/pages/StrengthTracker.tsx:808 | the rounded value is within half of x, halves rounding up |
| StrengthTracker.MinOf | client/src/pages/StrengthTracker.tsx:813 | +Infinity exactly for no values; otherwise a member no larger than any value |
| StrengthTracker.MaxOf | client/src/pages/StrengthTracker.tsx:814 | -Infinity exactly for no values; otherwise a member no smaller than any value |
| StrengthTracker.Intensities | client/src/pages/StrengthTracker.tsx:813-814 | the i-th value is the i-th point's intensity |
| StrengthTracker.ChartPoints | client/src/pages/StrengthTracker.tsx:806-809 | None exactly when a log has no sets; otherwise one rounded point per log, in order |
| StrengthTracker.GetChartData | client/src/pages/StrengthTracker.tsx:804-816 | a chart exactly when every log of the exercise has sets; then one point per log, in order, dated as the log with its rounded intensity; bounds are min − 10 and max + 10 |
| StrengthTracker.ChartBounds | client/src/pages/StrengthTracker.tsx:811-815 | every point lies at least 10 inside the bounds; an empty chart has bounds +Infinity and -Infinity |
| StrengthTracker.WithField | client/src/pages/StrengthTracker.tsx:826-829 | the named field takes the value and the others are kept |
| StrengthTracker.GoBackNav | client/src/pages/StrengthTracker.tsx:832-847 | Back either leaves the screen with nothing changed or moves exactly one level up, clearing that level's selection |
| StrengthTracker.GoBackLeavesWhen | client/src/pages/StrengthTracker.tsx:832-847 | the screen is left from the main view, or from a deeper view whose selection is missing |
| StrengthTracker.SelectExerciseNav | client/src/pages/StrengthTracker.tsx:992-995 | the exercise is selected, the category kept, and the view is tracking exactly in tracking mode and the logs otherwise |
| StrengthTracker.SelectCategoryNav | client/src/pages/StrengthTracker.tsx:1017-1019 | the category is selected, the exercise kept, and the exercise list shown |
| StrengthTracker.BackUndoesSelectExercise | client/src/pages/StrengthTracker.tsx:832-838 | Back after choosing a named exercise returns to the exercise list |
| StrengthTracker.BackUndoesSelectCategory | client/src/pages/StrengthTracker.tsx:839-841 | Back after choosing a named category returns to the category grid |
| StrengthTracker.Tracker.constructor | client/src/pages/StrengthTracker.tsx:23-31 | main view, nothing selected, not tracking, one set of 6 × 80 at RIR 4 |
| StrengthTracker.Tracker.AddSet | client/src/pages/StrengthTracker.tsx:817-823 | appends the default 6 × 100 at RIR 4 and keeps the earlier sets |
| StrengthTracker.Tracker.UpdateSet | client/src/pages/StrengthTracker.tsx:824-831 | only the named field of the indexed set changes |
| StrengthTracker.Tracker.GoBack | client/src/pages/StrengthTracker.tsx:832-847 | the new navigation state is the Back function's |
| StrengthTracker.Tracker.SelectExercise | client/src/pages/StrengthTracker.tsx:992-995 | the exercise is selected and the view is track or logs by mode |
| StrengthTracker.Tracker.SelectCategory | client/src/pages/StrengthTracker.tsx:1017-1019 | the category is selected and the exercise list shown |
| StrengthTracker.Tracker.ChooseMode | client/src/pages/StrengthTracker.tsx:1033-1047 | sets the tracking mode and opens the category grid |
| ProfileSettings.FullYearText | client/src/pages/ProfileSettings.tsx:86 | two characters get the century 19 exactly when their value exceeds 30 and 20 otherwise; other years are kept |
| ProfileSettings.Century | client/src/pages/ProfileSettings.tsx:86 | "19" exactly above the pivot, otherwise "20" |
| ProfileSettings.ConvertToIsoDate | client/src/pages/ProfileSettings.tsx:83-91 | text with fewer than two '/' converts to the fallback 1990-01-15 |
| ProfileSettings.SplitThreeFields | client/src/pages/ProfileSettings.tsx:85 | splitting d/m/y with '/'-free fields gives the three fields |
| ProfileSettings.ConvertToIsoDateShape | client/src/pages/ProfileSettings.tsx:83-91 | digit fields convert to a YYYY-MM-DD text holding the pivoted year and the '0'-padded month and day |
| ProfileSettings.TwoDigitYearPivot | client/src/pages/ProfileSettings.tsx:86 | a two-digit year lands in 1931..2030 and keeps its last two digits |
| ProfileSettings.PivotOfDigits | client/src/pages/ProfileSettings.tsx:86 | on digits the pivot test compares the value with 30 |
| ProfileSettings.DateConstructorYear | client/src/pages/ProfileSettings.tsx:97 | years 0..99 are read as 1900 + y; others are kept |
| ProfileSettings.ParseFullYear | client/src/pages/ProfileSettings.tsx:96 | the parsed year is the value of the converted year text, so both helpers pivot alike |
| ProfileSettings.ParseFullYearOfDigits | client/src/pages/ProfileSettings.tsx:96 | a two-digit year parses to the value of its converted four-digit text |
| ProfileSettings.DateArguments | client/src/pages/ProfileSettings.tsx:93-101 | the (year, month index, day) passed to `new Date`: 1990, 0, 15 for text with fewer than two '/'; none exactly when the day, the month or the year is NaN |
| ProfileSettings.NewDate | client/src/pages/ProfileSettings.tsx:97 | the constructor's arguments are missing exactly when one parsed field is NaN |
| ProfileSettings.ParseDateFromString | client/src/pages/ProfileSettings.tsx:93-101 | text with fewer than two '/' reads as 15 January 1990; a NaN field gives an Invalid Date; otherwise the date is the constructor's arguments when they lie between -271821-04-20 and 275760-09-13, and invalid outside that range |
| ProfileSettings.ParseDateOfDigits | client/src/pages/ProfileSettings.tsx:93-101 | digit day and month with a two-digit year read as the date whose year is the value of the converted four-digit year text, month counted from 0 |
| ProfileSettings.ParseDateAgreesWithIsoDate | client/src/pages/ProfileSettings.tsx:83-101 | for the same DD/MM/YY text, the parsed date's year is the year `convertToISODate` writes |
| ProfileSettings.ParseDateOutOfRange | client/src/pages/ProfileSettings.tsx:93-101 | well-formed fields whose date lies outside the range a `Date` can hold give an Invalid Date |
| ProfileSettings.ParseDateBeyondLastDay | client/src/pages/ProfileSettings.tsx:93-101 | "01/01/300000" gives an Invalid Date |
| ProfileSettings.AgeBeyondLastDay | client/src/pages/ProfileSettings.tsx:104-120 | the age of "01/01/300000" is "NaN" |
| ProfileSettings.Age | client/src/pages/ProfileSettings.tsx:109-114 | the year difference, or one less; the full difference exactly when this year's birthday is on or before today |
| ProfileSettings.AgeIsCompletedYears | client/src/pages/ProfileSettings.tsx:109-114 | the age is the number of completed years: the last anniversary is on or before today and the next one is not |
| ProfileSettings.AgeNonNegative | client/src/pages/ProfileSettings.tsx:109-114 | nobody born on or before today has a negative age |
| ProfileSettings.CalculateAge | client/src/pages/ProfileSettings.tsx:105-120 | "NaN" exactly for an invalid date; otherwise a text that `parseInt` reads back as the age |
| ProfileSettings.AgeOfPastBirth | client/src/pages/ProfileSettings.tsx:105-120 | a date of birth on or before today shows as the digits of the non-negative age |
| ProfileSettings.WithField | client/src/pages/ProfileSettings.tsx:128-133 | the named field takes the value and the others are kept |
| ProfileSettings.FieldsDetermineProfile | client/src/pages/ProfileSettings.tsx:18-26 | two profiles with equal fields are equal |
| ProfileSettings.WithFieldLaws | client/src/pages/ProfileSettings.tsx:128-133 | writing a field's own value changes nothing; a second write overrides the first |
| ProfileSettings.ProfileForm.constructor | client/src/pages/ProfileSettings.tsx:17-26 | date of birth 15/01/90; the user's name, e-mail and photo; age computed from the date |
| ProfileSettings.ProfileForm.HandleInputChange | client/src/pages/ProfileSettings.tsx:128-133 | only the named field changes |
| ProfileSettings.ProfileForm.ChangeDateOfBirth | client/src/pages/ProfileSettings.tsx:104-126 | the new date of birth, and the age recomputed from it |
| Trends.FormatTimeToMmss | client/src/pages/Trends.tsx:180-184 | the label has at least five characters; for non-negative seconds ':' is the third character from the end |
| Trends.JsRemainder60 | client/src/pages/Trends.tsx:182 | the JavaScript remainder: Euclidean for non-negative input, in (-60, 0] with the dividend's sign otherwise |
| Trends.PaddedNat | client/src/pages/Trends.tsx:183 | a padded number is digits of width at least 2 (exactly 2 below 100) reading back as the number |
| Trends.LeadingZeros | client/src/pages/Trends.tsx:183 | leading zeros do not change a digit string's value |
| Trends.FormatTimeRoundTrip | client/src/pages/Trends.tsx:180-184 | for non-negative seconds the label is two digit fields around ':', the seconds field has two digits, and minutes·60 + seconds gives back the input |
| Trends.IsFitnessTest | client/src/pages/Trends.tsx:172-187 | exactly the two time trials are formatted as times; no power or speed test is |
| Trends.StrengthScores | client/src/pages/Trends.tsx:151-154 | one point per entry, in order, dated as the entry and scored by its weight |
| Trends.GetCurrentFitnessData | client/src/pages/Trends.tsx:140-158 | a name with no series in either data set charts nothing |
| Trends.FitnessSeriesFirst | client/src/pages/Trends.tsx:143-146 | a name with a series in both data sets is charted from the fitness tests' series |
| Trends.PickerChartsOwnSeries | client/src/pages/Trends.tsx:140-177 | every name the picker offers is charted from its own series: a test from the fitness tests' data, a lift from its strength entries |
| Trends.FlipFlag | client/src/pages/Trends.tsx:160-165 | the named flag flips (a missing flag reads false) and the others are kept |
| Trends.FlipFlagTwice | client/src/pages/Trends.tsx:160-165 | flipping a present flag twice restores the flags |
| Trends.FlipFlagCommutes | client/src/pages/Trends.tsx:160-165 | flips of different flags commute |
| Trends.TrendsView.constructor | client/src/pages/Trends.tsx:11-16 | the four components are on and the 1.2K time trial is selected |
| Trends.TrendsView.ToggleComponent | client/src/pages/Trends.tsx:160-165 | the flags become the flipped flags |
| Trends.TrendsView.SelectTest | client/src/pages/Trends.tsx:167-170 | the test is selected and the flags are kept |
| WellnessLogs.ScoreColor | client/src/pages/WellnessLogs.tsx:56-68 | each of the thresholds 4, 6 and 8 reached makes the colour one step worse, or one step better in reverse mode |
| WellnessLogs.MirrorInvolution | client/src/pages/WellnessLogs.tsx:56-68 | mirroring a colour twice gives it back |
| WellnessLogs.NormalIsMirroredReverse | client/src/pages/WellnessLogs.tsx:56-68 | normal mode is the mirror image of reverse mode at every score |
| WellnessLogs.ReverseBands | client/src/pages/WellnessLogs.tsx:57-61 | reverse mode's four bands, each threshold inclusive |
| WellnessLogs.ScoreColorMonotone | client/src/pages/WellnessLogs.tsx:56-68 | a higher score is never worse in reverse mode and never better in normal mode |
| WellnessLogs.CellColor | client/src/pages/WellnessLogs.tsx:122-141 | sleep, quality, energy and mood cells use reverse mode; stress and soreness cells use normal mode |
| WellnessLogs.CellColorModes | client/src/pages/WellnessLogs.tsx:122-141 | stress and soreness cells show the mirror image of the higher-is-better colour |
| WellnessLogs.SwapStep | client/src/pages/WellnessLogs.tsx:25 | one swap of an insertion pass keeps the pass's ordering state and the multiset |
| WellnessLogs.PassDone | client/src/pages/WellnessLogs.tsx:25 | a finished pass leaves the prefix newest first |
| WellnessLogs.SortNewestFirst | client/src/pages/WellnessLogs.tsx:25 | in place, the entries end newest first and are a permutation of the input |
| WellnessLogs.ClickRow | client/src/pages/WellnessLogs.tsx:119 | a click closes the open row and opens any other |
| WellnessLogs.ClickRowTwice | client/src/pages/WellnessLogs.tsx:119 | a second click on the same row restores the state only if that row was open |
| WellnessLogs.LogsView.constructor | client/src/pages/WellnessLogs.tsx:14-15 | no rows and no open row |
| WellnessLogs.LogsView.Load | client/src/pages/WellnessLogs.tsx:23-26 | the rows are the fetched entries, newest first, as a permutation |
| WellnessLogs.LogsView.RowClicked | client/src/pages/WellnessLogs.tsx:119 | the open row follows the click rule; the rows are kept |
| WellnessLogs.LogsView.AtMostOneNotesPanel | client/src/pages/WellnessLogs.tsx:145 | at most one notes panel is open |
| FitnessTests.FindTest | client/src/pages/FitnessTests.tsx:61-62 | the found option has the name and is in the list; None exactly when no option has it |
| FitnessTests.IsTimed | client/src/pages/FitnessTests.tsx:61-62 | a timed test is an option of the category with that name and the unit "time" |
| FitnessTests.TimedTestsAreTrials | client/src/pages/FitnessTests.tsx:24-40 | exactly the Fitness category's two time trials are timed |
| FitnessTests.SubmittedValue | client/src/pages/FitnessTests.tsx:61-64 | the recorded value is the typed value or minutes:seconds, and the typed value when no test is chosen |
| FitnessTests.SubmittedValueCases | client/src/pages/FitnessTests.tsx:61-64 | the recorded value is minutes:seconds exactly for the time trials, and the typed value otherwise |
| FitnessTests.LogButtonVisible | client/src/pages/FitnessTests.tsx:132 | the Log button shows exactly when a category is chosen |
| FitnessTests.TestForm.constructor | client/src/pages/FitnessTests.tsx:14-20 | today's date, no category, form hidden, fields empty |
| FitnessTests.TestForm.ChangeCategory | client/src/pages/FitnessTests.tsx:42-49 | the new category, with the form hidden and all fields cleared |
| FitnessTests.TestForm.LogClick | client/src/pages/FitnessTests.tsx:51-53 | shows the form and changes nothing else |
| FitnessTests.TestForm.SelectTest | client/src/pages/FitnessTests.tsx:143-151 | with the form open for a category, selects the test |
| FitnessTests.TestForm.EnterValues | client/src/pages/FitnessTests.tsx:186-206 | the typed value, minutes and seconds are stored and nothing else changes |
| FitnessTests.TestForm.Submit | client/src/pages/FitnessTests.tsx:55-73 | returns the recorded value; hides and clears the form, keeping the category and date |
| FitnessTests.TestForm.Cancel | client/src/pages/FitnessTests.tsx:221-223 | hides the form and keeps every field |
| JsText.Trim | client/src/services/geminiService.ts:38 | the result is an infix of the text with only white space around it and none at either of its ends |
| JsText.PadStart | client/src/pages/ProfileSettings.tsx:87 | the result has the width (or the text's length if longer), ends with the text and is filled with the fill character in front |
| JsText.LastIndexOf | client/src/services/geminiService.ts:27-29 | the index of the last occurrence, or -1 exactly when there is none |
| JsText.Split | client/src/services/geminiService.ts:172 | at least one piece, no piece holds the separator, and joining the pieces with it gives the text back |
| JsText.SplitJoin | client/src/services/geminiService.ts:172 | splitting a join of separator-free pieces gives the pieces back |
| JsText.SplitCount | client/src/pages/ProfileSettings.tsx:85 | a string splits into one more piece than it has separators |
| JsText.DigitsValueOfNatToString | client/src/pages/Trends.tsx:183 | a number's decimal text reads back as the number |
| JsText.NatToString | client/src/pages/Trends.tsx:183 | at least one decimal digit, a single digit exactly below 10, and no leading zero |
| JsText.IntToString | client/src/pages/ProfileSettings.tsx:116 | a minus sign exactly for negative numbers, a digit first otherwise |
| JsText.ParseIntIntToString | client/src/pages/ProfileSettings.tsx:116 | `parseInt` reads back what `toString` wrote, minus sign included |
| JsText.ParseIntNatToString | client/src/services/geminiService.ts:174 | `parseInt` of a number's decimal text is the number |
| JsText.ParseInt | client/src/pages/ProfileSettings.tsx:86 | a digit string parses to its value; text without digits is NaN |

## Left out

- Firestore reads and writes, the Gemini HTTP request and the prompt texts, authentication,
  toasts, navigation to other pages, image upload, charts and all rendering. The data they
  would supply is passed in as parameters: fetched wellness entries, the mock workout logs,
  the fitness and strength data of the trends page, and today's date.
- Floating point: numbers are exact reals or integers. `toFixed` display rounding, IEEE
  `Infinity` and `NaN` arithmetic, and the 2^53 limit of `parseInt` are not modelled.
- Strings are sequences of code points. JavaScript's UTF-16 code-unit lengths are not
  modelled, so the 1000-character budget counts code points.
- `parseInt` is decimal only. The "0x" hexadecimal prefix it also accepts is not modelled.
- JavaScript `Date`: time zones are not modelled, nor the normalisation of an out-of-range
  month or day. The age reads the fields as given. Timestamps are integers.
- `ParseDateFromString`: the range limit is checked on the (year, month index, day) arguments
  against the first and last day in UTC. The local time zone, which moves the exact limit by
  up to a day, and a month or day outside its usual range, which `Date` carries into the
  neighbouring month or year, can put a date on the other side of the limit than the model does.
- The ISO-to-DD/MM/YY display conversions are not modelled (profile loading, and the date
  column of the wellness log).
- The profile-loading effect and the `catch` returning "25" in the age calculation are not
  modelled. Nothing inside that calculation throws once the date parser has caught its own
  errors.
- OneRMCalculator.RelativeStrength: requires a non-zero body weight. Division by zero
  gives `Infinity` or `NaN` in JavaScript.
- OneRMCalculator: the dialog titles (`getLiftTitle`) are display text and are not modelled.
  The lift type is one of the three the calculator is opened with. The default branch of
  `getReferenceRanges` (empty texts) is unreachable.
- StrengthTracker.Tracker.UpdateSet: requires an index inside the list. Writing past the end
  of a JavaScript array would extend it; the screen only edits existing rows.
- StrengthTracker: `navigate('/')` is the `leaves` result of `GoBack`, not a page change.
- ProfileSettings.ProfileForm.HandleInputChange: the field is one of the seven profile
  fields. JavaScript would also accept an arbitrary new key.
- FitnessTests.TestForm.ChangeCategory: the category is one of the three the select offers.
  An unknown name would make the test-list lookup throw.
- FitnessTests: `handleSubmit` only logs to the console; the model returns the recorded value.
- GeminiService.SelectedKeys: `Object.keys` order is modelled as a given sequence of
  (key, value) entries.
- Trends.GetCurrentFitnessData: lookups are by own keys only. Inherited property names
  such as "constructor" are not modelled.
- Trends.FormatTimeToMmss: takes integer seconds; fractional seconds are not modelled.
- WellnessLogs.SortNewestFirst: the result is ordered and a permutation. Stability and the
  engine's particular sort algorithm are not modelled.
- RecoveryAssessment.Assessment.constructor: takes the activity table as a parameter (the
  screen passes its fixed table). The date picker and the analysis dialog state are not
  modelled.
