# Daily planner — a verified model of its core

This project models the logic of a React Native daily planner in Dafny and proves properties about it.

**What the planner keeps.** A day's plan is an ordered list of tasks, keyed by its date string "YYYY-MM-DD". A task has an id, a title, a done flag and an optional priority. All plans live in one dictionary, which is written as a single JSON blob to the device's key-value store (AsyncStorage).

**What is modelled**, one Dafny module per source file:

- **Types** (`src/types/index.ts`): the task record and the plans dictionary.
- **KeyValue**: the store itself, as a class over a map. Every write may fail.
- **Storage** (`src/utils/storage.ts`): the plan repository. Every mutation reads the whole dictionary, changes it and writes it back.
- **AppContext** (`src/context/AppContext.tsx`): the in-memory state provider. It holds `plans`, `username` and `isLoading`, and writes every change through to the store.
- **DateUtils** (`src/utils/dateUtils.ts`): formatting, parsing and day arithmetic on date strings. JavaScript's `Date` is modelled as proleptic Gregorian calendar arithmetic on (year, month, day) triples. This includes `new Date(y, m - 1, d)` with its day and month roll-over and its reading of years 0..99 as 1900 + y.
- **CreatePlan** (`src/screens/CreatePlanScreen.tsx`): the draft task list, its handlers, and the search for the first day without a plan.
- **PlanOverview** (`src/screens/PlanOverviewScreen.tsx`): which four neighbouring days are shown around the centre day, and the priority-ordered preview of a day.
- **SettingsScreen** (`src/screens/SettingsScreen.tsx`): plan statistics and the success rate, the name form, `parseInt`, and validating and storing the notification time.
- **CalendarModal** (`src/components/CalendarModal.tsx`): the year/month/day picker limited to 2025..2030.
  - React state updates are modelled as queued setter calls. They are committed when the handler returns, and the last call of each setter wins.
  - This matters for the day arrow; see Findings.
- **CopyPlanModal** (`src/components/CopyPlanModal.tsx`): the task selection and the unbounded target-date arrows.
- **AiService** (`src/utils/aiService.ts`), on the text the AI service returns:
  - code-fence stripping;
  - the filter / trim / truncate / limit pipeline;
  - the mapping of errors to user-facing messages;
  - the fallbacks of the voice-transcript correction.

**Supporting module.** Strings holds the JavaScript string operations the planner relies on: `trim`, `padStart`, `split`, `includes`, `String(n)` and `<` on strings.

**How the store is modelled.** Storage failures are boolean parameters of each operation. The store keeps the plans text as the dictionary it encodes, or as `Corrupt` when it does not parse. The clock, fresh ids, the parsed AI reply and notification permission are parameters too.

## Model

| member | source | states |
|---|---|---|
| Strings.Trim | src/screens/CreatePlanScreen.tsx:62 | the result of `trim` is empty iff the input is all white space, otherwise it starts and ends with a non-space |
| Strings.TrimIsInfix | src/screens/CreatePlanScreen.tsx:62 | `trim` removes white space at the two ends and nothing else: the result is a slice `s[i..j]` of the input with only white space before `i` and after `j` |
| Strings.TrimUnchanged | src/utils/aiService.ts:92 | trimming a string that has no white space at either end returns it unchanged |
| Strings.PadStart2 | src/utils/dateUtils.ts:6-7 | `padStart(2, '0')` keeps strings of two or more characters and otherwise left-fills with '0' to exactly two, ending in the input |
| Strings.Prefix | src/utils/aiService.ts:92-93 | `substring(0, n)` / `slice(0, n)`: min(n, length) elements, a prefix of the input |
| Strings.Split | src/utils/dateUtils.ts:15 | `split` on one character always yields at least one piece, and a string without the separator splits to itself |
| Strings.NatToString | src/utils/dateUtils.ts:5-8 | `String(n)` is a non-empty digit string whose decimal value is n, with no leading zero |
| Types.Ids | src/components/CopyPlanModal.tsx:30 | `tasks.map(task => task.id)`: same length, the i-th id is the i-th task's id |
| KeyValue.ReadAfterWrite | src/utils/storage.ts:54 | `getItem` after `setItem` reads the written value back, and every other key reads as before |
| KeyValue.Store.Get | src/utils/storage.ts:18 | `getItem` on a key the store does not hold reads as null |
| KeyValue.Store.constructor | src/utils/storage.ts:5-9 | the store starts with the given contents |
| KeyValue.Store.SetItem | src/utils/storage.ts:54 | `setItem` replaces exactly that key, or changes nothing and reports failure |
| KeyValue.Store.Clear | src/utils/storage.ts:156 | `clear` empties the store, or changes nothing and reports failure |
| Storage.MergeLaws | src/utils/storage.ts:89 | `{ ...task, ...updates }`: an empty patch and a patch repeating the task's own fields change nothing, and applying a patch twice is applying it once |
| Storage.ApplyPatch | src/utils/storage.ts:88-90 | same length; a task with the matching id is merged with the patch, every other task is unchanged and in place |
| Storage.ReadText | src/utils/storage.ts:116-123 | getUserName: a value exactly when the read succeeds and a text is stored, and the value is that stored text |
| Storage.GetAllPlans | src/utils/storage.ts:16-27 | returns the stored dictionary when the read succeeds and one is stored; {} when the key is absent, the read fails or the text does not parse |
| Storage.GetPlanByDate | src/utils/storage.ts:34-42 | returns the date's list from the read dictionary, [] when absent |
| Storage.SavePlan | src/utils/storage.ts:50-60 | returns true iff the write succeeds, and then the store holds the read dictionary with `date ↦ tasks`; on failure the store is unchanged |
| Storage.DeletePlan | src/utils/storage.ts:66-76 | returns true iff the write succeeds, and then the store holds the read dictionary without `date` |
| Storage.UpdateTask | src/utils/storage.ts:85-97 | always returns true, even when the inner savePlan could not write; when the write succeeds the store holds the patched list of that date, and when it fails the store is unchanged |
| Storage.SaveUserName | src/utils/storage.ts:103-111 | writes the name under '@daily_planner_user_name' and reports success |
| Storage.GetUserName | src/utils/storage.ts:116-123 | returns the stored name, or None when it is absent or the read fails |
| Storage.SaveGender | src/utils/storage.ts:128-136 | writes 'male' or 'female' under the gender key and reports success |
| Storage.GetGender | src/utils/storage.ts:141-149 | returns what ReadGender specifies for the current store |
| Storage.ClearAllData | src/utils/storage.ts:154-162 | empties the store, or leaves it unchanged and returns false |
| Storage.SaveThenRead | src/utils/storage.ts:50-60 | after savePlan, getAllPlans maps the date to exactly the saved tasks and keeps every other date of the previous dictionary |
| Storage.PlanAfterSave | src/utils/storage.ts:34-60 | getPlanByDate after savePlan gives the saved list for that date and the previous list for every other date |
| Storage.SaveOverCorruptBlob | src/utils/storage.ts:22-26 | over a corrupt blob or after a failed read, savePlan leaves a dictionary holding only the saved date |
| Storage.DeleteRemovesKey | src/utils/storage.ts:66-76 | after deletePlan the date is absent, and deleting twice gives the same store as deleting once |
| Storage.DeleteAbsentDate | src/utils/storage.ts:69 | deleting a date that is not present leaves the dictionary unchanged |
| Storage.PatchIsolation | src/utils/storage.ts:88-90 | tasks with another id keep every field and position; an id that matches nothing leaves the list unchanged |
| Storage.DonePatchChangesOnlyDone | src/utils/storage.ts:88-90 | a `{ done }` patch changes only `done`, and only on the matching tasks |
| Storage.UpdateOnMissingDate | src/utils/storage.ts:87-91 | updateTask on a date with no plan writes an empty list under that date |
| Storage.GenderFallback | src/utils/storage.ts:141-149 | getGender is 'female' iff the read succeeds and the stored text is exactly "female"; otherwise 'male' |
| Storage.GenderRoundTrip | src/utils/storage.ts:128-149 | saveGender followed by getGender gives the saved gender back |
| Storage.UserNameRoundTrip | src/utils/storage.ts:103-123 | saveUserName followed by getUserName gives the saved name back, and the plans are untouched |
| Storage.EveryDictionaryReadsBack | src/utils/storage.ts:50-60 | every plans dictionary is what getAllPlans returns after some sequence of saves into an empty store |
| Storage.SaveToggleDeleteScenario | src/utils/storage.ts:50-97 | saving one task, marking it done and deleting the day leaves that day with the done task after the update and absent after the delete |
| AppContext.Load | src/context/AppContext.tsx:31-49 | loadData: a failed read sets nothing; plans are set exactly when a parsable plans text is stored; a corrupt text throws before the name is read; the name is set exactly when a non-empty name text is stored |
| AppContext.SetDone | src/context/AppContext.tsx:66-69 | same length; tasks with the id get the new `done` and keep every other field; the rest are unchanged |
| AppContext.AppProvider.constructor | src/context/AppContext.tsx:22-24 | initial state: plans {}, username null, isLoading true |
| AppContext.AppProvider.LoadData | src/context/AppContext.tsx:31-49 | isLoading ends false whatever failed; plans and username change only where Load says so |
| AppContext.AppProvider.SavePlan | src/context/AppContext.tsx:52-61 | memory gets `date ↦ tasks` before the write and keeps it if the write fails; on success the store holds the whole new dictionary |
| AppContext.AppProvider.UpdateTask | src/context/AppContext.tsx:64-78 | memory gets the toggled list of that date ([] for an absent date) with no roll-back on failure; on success the whole dictionary is written |
| AppContext.AppProvider.SetUsername | src/context/AppContext.tsx:81-89 | the name is set in memory whatever happens, and written under '@daily_planner_username' when the write succeeds |
| AppContext.SetDoneIsDonePatch | src/context/AppContext.tsx:66-69 | the provider's toggle equals the repository's updateTask patch with only `done` set |
| AppContext.SetDoneKeepsOrder | src/context/AppContext.tsx:66-69 | the toggle keeps the ids, titles and priorities of the list in order |
| AppContext.PersistedPlansReadBack | src/context/AppContext.tsx:56 | what the provider writes is read back unchanged by loadData and by the repository's getAllPlans |
| AppContext.UsernameKeysDiffer | src/context/AppContext.tsx:18 | the provider's name key differs from the repository's, so neither ever reads the name the other wrote |
| AppContext.CorruptPlansHideUsername | src/context/AppContext.tsx:38-43 | with a corrupt plans text, a stored user name is not restored and neither field is set |
| DateUtils.DaysInMonth | src/components/CalendarModal.tsx:53-55 | month lengths 28..31; February has 29 days exactly in leap years; April, June, September and November have 30 |
| DateUtils.NextDay | src/utils/dateUtils.ts:40 | the next day is a calendar day after the given one |
| DateUtils.PrevDay | src/utils/dateUtils.ts:40 | the previous day is a calendar day before the given one |
| DateUtils.NextDayIsSuccessor | src/utils/dateUtils.ts:40 | no calendar day lies strictly between a day and its next day |
| DateUtils.PrevNextInverse | src/utils/dateUtils.ts:40 | next day and previous day undo each other |
| DateUtils.Shift | src/utils/dateUtils.ts:40 | moving n days from a calendar day gives a calendar day |
| DateUtils.ShiftAdd | src/utils/dateUtils.ts:38-42 | moving a days then b days is moving a + b days |
| DateUtils.ShiftWithinMonth | src/utils/dateUtils.ts:40 | inside a month, moving k days adds k to the day |
| DateUtils.MakeDate | src/utils/dateUtils.ts:16 | `new Date(y, m - 1, d)` always gives a calendar day; its day and month carries are stated by MakeDateRollsOver, DecemberRolls, MonthCarries and MonthBorrows |
| DateUtils.MakeDateOfValid | src/utils/dateUtils.ts:16 | a calendar date outside years 0..99 is rebuilt unchanged |
| DateUtils.MakeDateRollsOver | src/utils/dateUtils.ts:16 | the day after a month's last day rolls into day 1 of the next month, and after December 31 into January 1 of the next year |
| DateUtils.MonthCarries | src/utils/dateUtils.ts:16 | a month 13..24 carries into the following year: month m + 12 of year y is month m of year y + 1 |
| DateUtils.MonthBorrows | src/utils/dateUtils.ts:16 | month 0 borrows from the year: it is December of the year before |
| DateUtils.DecemberRolls | src/utils/dateUtils.ts:16 | December 32 is January 1 of the next year |
| DateUtils.MakeDateInMonth | src/utils/dateUtils.ts:16 | day d of month m is d - 1 days after the first of that month, for any integer d |
| DateUtils.LastDayViaDateIsMonthLength | src/components/CalendarModal.tsx:53-55 | `new Date(y, m, 0).getDate()` is the Gregorian length of month m |
| DateUtils.IntToString | src/utils/dateUtils.ts:5-8 | `String(n)` starts with '-' exactly when n is negative, and the digits after any sign have the value |n| |
| DateUtils.FormatDateShape | src/utils/dateUtils.ts:4-9 | formatDate of a four-digit year is "YYYY-MM-DD": ten characters, '-' at 4 and 7, and digit fields holding the year, month and day |
| DateUtils.ToNumber | src/utils/dateUtils.ts:15 | `Number` of a non-empty digit string is its decimal value |
| DateUtils.ParseDate | src/utils/dateUtils.ts:14-17 | a successful parse always gives a calendar day |
| DateUtils.AddDays | src/utils/dateUtils.ts:38-42 | an unparsable string gives the Invalid Date text "NaN-NaN-NaN" |
| DateUtils.SplitThree | src/utils/dateUtils.ts:15 | splitting three '-'-free parts joined by '-' gives the parts back |
| DateUtils.ParseDigitParts | src/utils/dateUtils.ts:14-17 | three digit strings joined by '-' parse to the day `new Date` builds from their values, rolling over out-of-range months and days |
| DateUtils.ParseFormatRoundTrip | src/utils/dateUtils.ts:4-17 | parseDate(formatDate(d)) == d for every calendar day from year 100 on |
| DateUtils.AddZeroDays | src/utils/dateUtils.ts:38-42 | addDays(s, 0) == s for every formatted date from year 100 on |
| DateUtils.AddOneDay | src/utils/dateUtils.ts:38-42 | addDays(s, 1) is the next calendar day, across months, years and Feb 29 |
| DateUtils.AddDaysCompose | src/utils/dateUtils.ts:38-42 | addDays(addDays(s, a), b) == addDays(s, a + b) whenever s parses and the intermediate year is at least 100 |
| DateUtils.UnpaddedSpellingDiffers | src/utils/dateUtils.ts:60-62 | an unpadded month spelling parses to the same day, yet isSameDate tells it apart from formatDate's spelling |
| DateUtils.SameDateIffSameDay | src/utils/dateUtils.ts:60-62 | on formatDate's texts of calendar days from year 100 on, isSameDate holds exactly for the same day |
| DateUtils.TwoDigitField | src/utils/dateUtils.ts:6-7 | a padded month or day field is two digits with the field's value |
| DateUtils.FormatOrder | src/utils/dateUtils.ts:4-9 | for four-digit years, string order of formatted dates is calendar order |
| CreatePlan.AllTakenMeans | src/screens/CreatePlanScreen.tsx:44-51 | the loop's invariant means every one of the first n candidates holds tasks |
| CreatePlan.SearchFrom | src/screens/CreatePlanScreen.tsx:38-55 | the while loop returns the first of the 365 candidates whose plan is absent or empty, or the fallback when all hold tasks |
| CreatePlan.FindFirstEmptyDate | src/screens/CreatePlanScreen.tsx:38-55 | the same, stepping with addDays(current, 1) |
| CreatePlan.CyclePriority | src/screens/CreatePlanScreen.tsx:85-96 | same length; only tasks with the id change, and only their priority, to the next in low → medium → high → low |
| CreatePlan.NextPriority | src/screens/CreatePlanScreen.tsx:88-91 | a press always changes the priority, and it becomes low exactly from high or from no priority |
| CreatePlan.RemoveById | src/screens/CreatePlanScreen.tsx:80-82 | the result holds exactly the tasks whose id differs |
| CreatePlan.OccupiedDates | src/screens/CreatePlanScreen.tsx:147-149 | exactly the dates whose plan holds at least one task |
| CreatePlan.AiTasks | src/screens/CreatePlanScreen.tsx:169-173 | one task per title, in order, not done, no priority, with a fresh id |
| CreatePlan.CreatePlanScreen.constructor | src/screens/CreatePlanScreen.tsx:26-34 | the screen's initial state: empty inputs and draft, priority low |
| CreatePlan.CreatePlanScreen.PickDefaultDate | src/screens/CreatePlanScreen.tsx:37-58 | the selected date is the first free day from today (today when none); nothing else changes |
| CreatePlan.CreatePlanScreen.AddTask | src/screens/CreatePlanScreen.tsx:61-77 | a blank input adds nothing; otherwise the trimmed task, not done and with the selected priority, is appended, the input cleared and the priority reset to low |
| CreatePlan.CreatePlanScreen.RemoveTask | src/screens/CreatePlanScreen.tsx:80-82 | the draft becomes RemoveById of the old draft; nothing else changes |
| CreatePlan.CreatePlanScreen.ChangePriority | src/screens/CreatePlanScreen.tsx:85-96 | the draft becomes CyclePriority of the old draft; nothing else changes |
| CreatePlan.CreatePlanScreen.SavePlan | src/screens/CreatePlanScreen.tsx:99-113 | an empty draft never reaches the provider; otherwise the draft is saved under the selected date, and the success modal opens only when the write succeeds |
| CreatePlan.CreatePlanScreen.SuccessModalClose | src/screens/CreatePlanScreen.tsx:116-139 | the form is cleared and the date is the first free day from addDays(today, 0) |
| CreatePlan.CreatePlanScreen.AiGenerate | src/screens/CreatePlanScreen.tsx:152-184 | a blank paragraph, a missing key or a failed conversion leave the draft unchanged; on success the new tasks follow the existing ones and the paragraph is cleared |
| CreatePlan.NextPriorityCycle | src/screens/CreatePlanScreen.tsx:88-91 | three presses bring a priority back; no priority becomes low |
| CreatePlan.ThreeCyclesRestore | src/screens/CreatePlanScreen.tsx:85-96 | three presses on one id restore a list whose matching tasks all have a priority |
| CreatePlan.RemoveDistributes | src/screens/CreatePlanScreen.tsx:81 | removal distributes over concatenation, so survivors keep their order |
| CreatePlan.RemoveAbsentId | src/screens/CreatePlanScreen.tsx:81 | removing an id nobody has changes nothing; removing twice is removing once |
| CreatePlan.OccupiedIsNotFree | src/screens/CreatePlanScreen.tsx:45 | a date is occupied iff the empty-date search skips it |
| CreatePlan.FirstFreeNotOccupied | src/screens/CreatePlanScreen.tsx:38-55 | the search never picks an occupied date, unless it falls back to today |
| CreatePlan.IterateTracksShift | src/screens/CreatePlanScreen.tsx:49 | k steps of a one-day string step walk k days through the calendar |
| CreatePlan.StepIsShift | src/screens/CreatePlanScreen.tsx:49 | from a formatted date, the k-th candidate is the k-th day after it |
| CreatePlan.SearchCandidates | src/screens/CreatePlanScreen.tsx:125 | the k-th candidate is addDays(today, k), and the second search starts where the first does |
| PlanOverview.AheadTotal | src/screens/PlanOverviewScreen.tsx:19 | string order (either direction) is total |
| PlanOverview.AheadTransitive | src/screens/PlanOverviewScreen.tsx:19 | string order (either direction) is transitive |
| PlanOverview.FirstExists | src/screens/PlanOverviewScreen.tsx:19 | every non-empty set of dates has a first element in either order |
| PlanOverview.Sorted | src/screens/PlanOverviewScreen.tsx:17-23 | the sorted dates are exactly the set's elements, strictly ascending (or descending) |
| PlanOverview.Candidates | src/screens/PlanOverviewScreen.tsx:15 | exactly the dates other than the centre whose plan holds tasks |
| PlanOverview.LayoutIndex | src/screens/PlanOverviewScreen.tsx:25-34 | each shown date is the i-th future date, or a past date used only when there are fewer than four future dates |
| PlanOverview.LayoutLength | src/screens/PlanOverviewScreen.tsx:25-34 | min(4, future + past) dates are shown |
| PlanOverview.CandidatesSplit | src/screens/PlanOverviewScreen.tsx:17-23 | the candidates split into disjoint future and past dates |
| PlanOverview.SurroundingShape | src/screens/PlanOverviewScreen.tsx:14-35 | min(4, number of candidates) dates are shown, each a candidate: never the centre, never a day without tasks |
| PlanOverview.SurroundingDays | src/screens/PlanOverviewScreen.tsx:14-35 | at most four dates are shown |
| PlanOverview.SidesOfCentre | src/screens/PlanOverviewScreen.tsx:18-22 | future dates are after the centre, past dates before it |
| PlanOverview.SurroundingOrder | src/screens/PlanOverviewScreen.tsx:17-31 | future dates come first, ascending; past dates follow, descending |
| PlanOverview.SurroundingPastOnlyToFill | src/screens/PlanOverviewScreen.tsx:28-31 | a past date is shown only when every future date is shown |
| PlanOverview.SurroundingNearestFuture | src/screens/PlanOverviewScreen.tsx:17-19 | a future date left out lies after every future date shown |
| PlanOverview.PriorityWeight | src/screens/PlanOverviewScreen.tsx:37-42 | high 3, medium 2, low 1, none 0, and only none weighs 0 |
| PlanOverview.WithWeight | src/screens/PlanOverviewScreen.tsx:49 | the tasks of one weight are never more than the stored tasks |
| PlanOverview.WithWeightInOrder | src/screens/PlanOverviewScreen.tsx:49 | the tasks of one weight are the stored list with the other tasks left out, in stored order |
| PlanOverview.SortByWeight | src/screens/PlanOverviewScreen.tsx:49 | the sorted copy holds exactly the stored tasks |
| PlanOverview.WithWeightMultiset | src/screens/PlanOverviewScreen.tsx:49 | the four weight classes together hold exactly the stored tasks |
| PlanOverview.WithWeightAll | src/screens/PlanOverviewScreen.tsx:49 | every task of a weight class has that weight |
| PlanOverview.SortIsPermutation | src/screens/PlanOverviewScreen.tsx:49 | the sorted copy is a permutation of the stored list |
| PlanOverview.SortIsOrdered | src/screens/PlanOverviewScreen.tsx:49 | weights never increase along the sorted copy |
| PlanOverview.WithWeightAppend | src/screens/PlanOverviewScreen.tsx:49 | a weight class of a concatenation is the concatenation of the classes |
| PlanOverview.SortIsStable | src/screens/PlanOverviewScreen.tsx:49 | tasks of equal weight keep their stored order in the sorted copy |
| PlanOverview.PreviewShape | src/screens/PlanOverviewScreen.tsx:44-67 | the placeholder appears iff the plan is absent or empty; otherwise min(limit, n) tasks taken from the plan are shown, none lighter than a hidden one, and "+N" appears iff n > limit, with N = n - limit |
| PlanOverview.PreviewOf | src/screens/PlanOverviewScreen.tsx:44-67 | the placeholder appears iff the plan is absent or empty, and "+N" iff the plan holds more than the limit |
| PlanOverview.ShownPart | src/screens/PlanOverviewScreen.tsx:53 | the first `limit` tasks of a heaviest-first permutation are a sub-multiset, each at least as heavy as any hidden task |
| SettingsScreen.DoneCount | src/screens/SettingsScreen.tsx:70 | never more done tasks than tasks |
| SettingsScreen.SumOverRemove | src/screens/SettingsScreen.tsx:67-71 | the per-date sum does not depend on the order of `Object.keys` |
| SettingsScreen.CalculateStats | src/screens/SettingsScreen.tsx:60-74 | totalPlans counts every date key (empty plans included); totalTasks and completedTasks are the sums of list lengths and of done tasks |
| SettingsScreen.SumOverDominated | src/screens/SettingsScreen.tsx:69-70 | summed done counts never exceed summed lengths |
| SettingsScreen.CompletedAtMostTotal | src/screens/SettingsScreen.tsx:64-71 | completedTasks ≤ totalTasks |
| SettingsScreen.SuccessRate | src/screens/SettingsScreen.tsx:284-292 | shown iff there are tasks; then the nearest integer to 100·completed/total, halves rounded up |
| SettingsScreen.SuccessRateIsPercentage | src/screens/SettingsScreen.tsx:292 | with completed ≤ total the rate lies in 0..100: 0 with nothing done, 100 with everything done |
| SettingsScreen.StatsRate | src/screens/SettingsScreen.tsx:60-74 | the rate computed from any plans dictionary is at most 100 |
| SettingsScreen.DigitPrefix | src/screens/SettingsScreen.tsx:111 | the longest prefix of radix digits: it stops at the first non-digit |
| SettingsScreen.ParseMagnitude | src/screens/SettingsScreen.tsx:111 | nothing to read (NaN) for an empty input or one not starting with a digit |
| SettingsScreen.ParseSigned | src/screens/SettingsScreen.tsx:111 | an empty input reads as NaN |
| SettingsScreen.ParseInt | src/screens/SettingsScreen.tsx:111-112 | `parseInt` of an all-white-space input is NaN |
| SettingsScreen.ParseIntUnsigned | src/screens/SettingsScreen.tsx:111 | without leading space or sign, parseInt reads the magnitude |
| SettingsScreen.MagnitudeOfDigits | src/screens/SettingsScreen.tsx:111 | decimal digits followed by a non-digit read as the digits' value |
| SettingsScreen.ParseIntDecimal | src/screens/SettingsScreen.tsx:111-112 | plain decimal digits read as their decimal value |
| SettingsScreen.ParseIntStopsAtNonDigit | src/screens/SettingsScreen.tsx:111-112 | reading stops at the first non-digit ("12abc" is 12) |
| SettingsScreen.ValidateTime | src/screens/SettingsScreen.tsx:111-122 | an accepted time is an hour in 0..23 and a minute in 0..59; a rejection carries the hour's or the minute's message |
| SettingsScreen.ValidateTimeExactly | src/screens/SettingsScreen.tsx:111-122 | accepted iff both inputs parse into range, then with the parsed values; the hour's complaint comes first |
| SettingsScreen.SplitTime | src/screens/SettingsScreen.tsx:36-38 | both fields are non-empty; a time with no ':' is all hour (or '08' when empty) with minute '00' |
| SettingsScreen.SplitTimeFields | src/screens/SettingsScreen.tsx:36-38 | for a time "h:m" or "h:m:...", the hour is the text before the first ':' and the minute the text up to the next ':', with '08' and '00' for empty fields |
| SettingsScreen.FormatTime | src/screens/SettingsScreen.tsx:124 | inputs of at most two characters give "HH:MM": five characters, ':' in the middle, each side the padded input |
| SettingsScreen.OneCharAccepted | src/screens/SettingsScreen.tsx:111-112 | a one-character input that is not a digit is rejected |
| SettingsScreen.LoneSign | src/screens/SettingsScreen.tsx:111-112 | a lone '+' or '-' reads as NaN |
| SettingsScreen.SavedTimeReadsBack | src/screens/SettingsScreen.tsx:124 | an accepted time of short inputs is saved so that the screen reads back the padded inputs, which validate to the same time |
| SettingsScreen.PaddedParsesAlike | src/screens/SettingsScreen.tsx:124 | padding an accepted input of at most two characters does not change what parseInt reads |
| SettingsScreen.SettingsScreen.constructor | src/screens/SettingsScreen.tsx:18-22 | initial inputs: empty name, not editing, "08" and "00", not initialised |
| SettingsScreen.SettingsScreen.SyncName | src/screens/SettingsScreen.tsx:25-31 | no (or an empty) user name opens the editor; a name fills the input |
| SettingsScreen.SettingsScreen.InitFromSettings | src/screens/SettingsScreen.tsx:34-41 | the time inputs are taken once from the split stored time; later runs change nothing |
| SettingsScreen.SettingsScreen.SaveName | src/screens/SettingsScreen.tsx:44-57 | a blank name changes nothing; otherwise the trimmed name goes to the provider and the editor closes only if the write succeeds |
| SettingsScreen.SettingsScreen.ToggleNotifications | src/screens/SettingsScreen.tsx:87-107 | enabling without permission records nothing; enabling schedules then records; disabling cancels then records |
| SettingsScreen.SettingsScreen.SaveNotificationTime | src/screens/SettingsScreen.tsx:110-134 | an invalid time records nothing; otherwise the padded time is recorded and rescheduled when notifications are on |
| CalendarModal.DaysInMonthIsGregorian | src/components/CalendarModal.tsx:53-55 | getDaysInMonth is the Gregorian month length, February 29 days in leap years |
| CalendarModal.GetDaysInMonth | src/components/CalendarModal.tsx:53-55 | getDaysInMonth is a day number of a month, 1..31, for any year and month |
| CalendarModal.ParseSelected | src/components/CalendarModal.tsx:26-38 | an empty string opens on today; fewer than three parts give NaN fields |
| CalendarModal.ParseSelectedParts | src/components/CalendarModal.tsx:36-37 | three digit strings open the picker on their values, with no range check |
| CalendarModal.ParseSelectedOfFormatted | src/components/CalendarModal.tsx:26-38 | the picker opens on the day formatDate wrote |
| CalendarModal.SaveText | src/components/CalendarModal.tsx:120-124 | on a calendar day, handleSave's text is formatDate's text |
| CalendarModal.SaveTextReadsBack | src/components/CalendarModal.tsx:120-124 | the emitted text parses back, through dateUtils' parseDate, to the picked day |
| CalendarModal.MonthTarget | src/components/CalendarModal.tsx:68-89 | changeMonth moves within the year, wraps 12→1 and 1→12 carrying the year, and is blocked iff the wrap would leave 2025..2030 |
| CalendarModal.Clamp | src/components/CalendarModal.tsx:94-96 | the day is lowered to the month length and never raised |
| CalendarModal.YearArrowMovesOnlyYear | src/components/CalendarModal.tsx:60-65 | changeYear changes only the year, and only within 2025..2030 |
| CalendarModal.PressKeepsBounds | src/components/CalendarModal.tsx:62 | every press keeps the year in 2025..2030 and the month in 1..12 |
| CalendarModal.Pressed | src/components/CalendarModal.tsx:60-117 | the committed state after a press keeps the year in 2025..2030 and the month in 1..12 |
| CalendarModal.MonthArrowClamps | src/components/CalendarModal.tsx:90-96 | an unblocked month press lowers the day to the new month's length and keeps it otherwise, so the picked day stays a calendar day |
| CalendarModal.MonthArrowBlocked | src/components/CalendarModal.tsx:75-87 | a blocked month press changes nothing |
| CalendarModal.DayArrowKeepsRange | src/components/CalendarModal.tsx:100-117 | day presses keep a picked day a calendar day of an allowed year |
| CalendarModal.DayForwardWithinMonth | src/components/CalendarModal.tsx:114-116 | forward inside the month is the next calendar day |
| CalendarModal.DayBackwardIsPrevDay | src/components/CalendarModal.tsx:107-113 | backward is the previous calendar day, from day 1 to the previous month's last day, except on Jan 1, 2025 |
| CalendarModal.BackwardFromFirstDayOf2025 | src/components/CalendarModal.tsx:107-113 | as written, backward from Jan 1, 2025 lands on Jan 31, 2025 |
| CalendarModal.YearArrowKeepsLeapDay | src/components/CalendarModal.tsx:60-65 | the year arrow does not lower the day: Feb 29, 2028 becomes the non-existent Feb 29, 2029 |
| CalendarModal.ForwardPastMonthEnd | src/components/CalendarModal.tsx:103-106 | as written, forward from a month's last day commits changeMonth(1)'s clamped day, not day 1, when that month is shorter |
| CalendarModal.ForwardFromJanuary31 | src/components/CalendarModal.tsx:103-106 | as written, Jan 31, 2026 goes forward to Feb 28, while the next calendar day is Feb 1 |
| CalendarModal.ForwardFromLastDay | src/components/CalendarModal.tsx:103-106 | as written, Dec 31, 2030 goes forward to Dec 1, 2030 |
| CalendarModal.IntendedDayPress | src/components/CalendarModal.tsx:100-117 | the corrected day press keeps the picked day a calendar day of an allowed year |
| CalendarModal.IntendedForwardPastMonthEnd | src/components/CalendarModal.tsx:104 | corrected: forward from a month's last day lands on day 1 of the next month |
| CalendarModal.IntendedStaysAtRangeEnds | src/components/CalendarModal.tsx:107-113 | corrected: at Jan 1, 2025 backward and at Dec 31, 2030 forward, the day does not move |
| CalendarModal.IntendedAgreesElsewhere | src/components/CalendarModal.tsx:100-117 | the corrected and the written press agree everywhere else |
| CalendarModal.Calendar.constructor | src/components/CalendarModal.tsx:40-44 | the picker mounts on the parsed fields with nothing queued |
| CalendarModal.Calendar.SetSelectedYear | src/components/CalendarModal.tsx:42 | a setter call only queues its value; the rendered fields stay |
| CalendarModal.Calendar.SetSelectedMonth | src/components/CalendarModal.tsx:43 | a setter call only queues its value; the rendered fields stay |
| CalendarModal.Calendar.SetSelectedDay | src/components/CalendarModal.tsx:44 | a setter call only queues its value; the rendered fields stay |
| CalendarModal.Calendar.ChangeYear | src/components/CalendarModal.tsx:60-65 | queues the new year only when it stays within 2025..2030 |
| CalendarModal.Calendar.ChangeMonth | src/components/CalendarModal.tsx:68-97 | queues what MonthTarget gives, plus the rendered day lowered to the new month's length when it exceeds it; nothing when blocked |
| CalendarModal.Calendar.ChangeDay | src/components/CalendarModal.tsx:100-117 | from nothing queued, the committed result is the press described by `Pressed` |
| CalendarModal.Calendar.Render | src/components/CalendarModal.tsx:42-44 | every queued value replaces its field; the queue empties |
| CalendarModal.Calendar.Press | src/components/CalendarModal.tsx:60-117 | one handler plus render gives exactly `Pressed` |
| CalendarModal.Calendar.HandleSave | src/components/CalendarModal.tsx:120-126 | emits SaveText of the picked fields, which parses back to the picked day |
| CopyPlanModal.Without | src/components/CopyPlanModal.tsx:47 | the result holds exactly the ids other than x |
| CopyPlanModal.Toggle | src/components/CopyPlanModal.tsx:44-50 | x is ticked afterwards iff it was not before; every other id keeps its state |
| CopyPlanModal.WithoutAbsent | src/components/CopyPlanModal.tsx:47 | filtering out an absent id changes nothing |
| CopyPlanModal.ToggleTwice | src/components/CopyPlanModal.tsx:44-50 | toggling twice restores membership; an unticked id restores the list exactly, a ticked one moves to the end |
| CopyPlanModal.Chosen | src/components/CopyPlanModal.tsx:59 | the copied tasks are exactly the source tasks whose id is ticked |
| CopyPlanModal.ChosenIgnoresTickOrder | src/components/CopyPlanModal.tsx:59 | only which ids are ticked matters, not the order of ticking |
| CopyPlanModal.ChosenInSourceOrder | src/components/CopyPlanModal.tsx:59 | the copied tasks are the source list with the unticked tasks left out, in source order |
| CopyPlanModal.ChosenAll | src/components/CopyPlanModal.tsx:29-38 | with every id ticked, the whole list is copied |
| CopyPlanModal.YearArrow | src/components/CopyPlanModal.tsx:132-145 | only the year changes, by exactly one, and it goes back exactly for ▲; there is no bound |
| CopyPlanModal.YearArrowsInverse | src/components/CopyPlanModal.tsx:132-145 | ▲ then ▼ (or ▼ then ▲) gives the target back |
| CopyPlanModal.MonthArrow | src/components/CopyPlanModal.tsx:150-175 | the day is kept; from a month in 1..12, ▲ moves to the previous and ▼ to the next month, counted as year·12 + month, so 1 wraps to 12 of the year before and 12 to 1 of the year after, and the month stays in 1..12 |
| CopyPlanModal.ArrowsKeepMonth | src/components/CopyPlanModal.tsx:150-216 | every arrow keeps the month within 1..12 |
| CopyPlanModal.DayArrowsFollowCalendar | src/components/CopyPlanModal.tsx:181-216 | on a calendar day, ▼ is the next day and ▲ the previous one, Dec 31 of the previous year from Jan 1 |
| CopyPlanModal.DayUp | src/components/CopyPlanModal.tsx:182-196 | ▲ lowers the day by one inside the month; from day 1 it moves to the previous month |
| CopyPlanModal.DayDown | src/components/CopyPlanModal.tsx:204-216 | ▼ raises the day by one below the month's length; from the last day (or beyond) it moves to day 1 of the next month |
| CopyPlanModal.DayArrowsInverse | src/components/CopyPlanModal.tsx:181-216 | the day arrows undo each other on calendar days |
| CopyPlanModal.MonthArrowsInverse | src/components/CopyPlanModal.tsx:150-175 | the month arrows undo each other |
| CopyPlanModal.NonexistentTargetReachable | src/components/CopyPlanModal.tsx:58 | from Jan 31, ▼ on the month gives Feb 31, emitted as "YYYY-02-31", which parseDate reads as a day in March |
| CopyPlanModal.Feb31RollsOver | src/utils/dateUtils.ts:16 | `new Date(y, 1, 31)` is March 3 (March 2 in a leap year) |
| CopyPlanModal.CopyPlan.constructor | src/components/CopyPlanModal.tsx:29-42 | every source task starts ticked and the target is today |
| CopyPlanModal.CopyPlan.Refresh | src/components/CopyPlanModal.tsx:34-38 | becoming visible ticks every source task again; otherwise the selection stays |
| CopyPlanModal.CopyPlan.ToggleTask | src/components/CopyPlanModal.tsx:44-50 | the selection becomes Toggle of the old one |
| CopyPlanModal.CopyPlan.HandleCopy | src/components/CopyPlanModal.tsx:52-62 | no copy iff nothing is ticked; otherwise the target text and exactly the ticked tasks, in source order |
| CopyPlanModal.CopyPlan.PressYear | src/components/CopyPlanModal.tsx:132-145 | the target moves by YearArrow; the selection stays |
| CopyPlanModal.CopyPlan.PressMonth | src/components/CopyPlanModal.tsx:150-175 | the target moves by MonthArrow; the selection stays |
| CopyPlanModal.CopyPlan.PressDayUp | src/components/CopyPlanModal.tsx:181-197 | the target moves to the previous day; the selection stays |
| CopyPlanModal.CopyPlan.PressDayDown | src/components/CopyPlanModal.tsx:204-217 | the target moves to the next day; the selection stays |
| AiService.RemoveFences | src/utils/aiService.ts:78-79 | removing fences never lengthens the text |
| AiService.CleanText | src/utils/aiService.ts:77-80 | the cleaned text is empty or has no white space at either end |
| AiService.NoFenceUnchanged | src/utils/aiService.ts:78-79 | text without a backquote passes the fence removal untouched |
| AiService.FencedReplyCleaned | src/utils/aiService.ts:77-80 | a reply wrapped in a ```json fence cleans to exactly the trimmed body |
| AiService.TitleOf | src/utils/aiService.ts:92 | the title is the first min(100, length) characters of the trimmed text: non-empty and starting with a non-space; an already tidy title is kept as is |
| AiService.Entry | src/utils/aiService.ts:91-92 | an item contributes a title exactly when it is a string that is not blank, and then exactly its trimmed, cut title |
| AiService.Cleaned | src/utils/aiService.ts:91-92 | the filter/map never lengthens the list |
| AiService.CleanedMembers | src/utils/aiService.ts:91-92 | a title is in the cleaned list exactly when some usable item of the array trims and cuts to it |
| AiService.CleanedTitles | src/utils/aiService.ts:91-92 | every kept title is non-empty, at most 100 characters and starts with a non-space |
| AiService.CleanedAppend | src/utils/aiService.ts:91-92 | the filter/map works item by item, so input order is kept |
| AiService.CleanedKeepsGoodTitles | src/utils/aiService.ts:91-92 | a list of tidy titles passes the filter/map unchanged |
| AiService.SanitizeKeepsFirst | src/utils/aiService.ts:90-93 | at most 10 titles, the first of the cleaned list: all of them when there are at most 10 |
| AiService.Sanitize | src/utils/aiService.ts:90-93 | at most 10 titles, a prefix of the cleaned list |
| AiService.MapError | src/utils/aiService.ts:99-107 | every mapped error is one of the four user-facing texts |
| AiService.Attempt | src/utils/aiService.ts:39-94 | a successful try block returns at most 10 tasks |
| AiService.ConvertParagraphToTasks | src/utils/aiService.ts:16-109 | no key gives the missing-key error unmapped; a failing try block gives its mapped message; success iff there is a key and the try block succeeds, with its result |
| AiService.MissingKeyNotRemapped | src/utils/aiService.ts:18-20 | the missing-key message reaches the caller as written, although the catch would have mapped it to the invalid-key text |
| AiService.ResultShape | src/utils/aiService.ts:85-93 | a result is at most 10 good titles, in order, from a non-empty parsed array |
| AiService.InvalidListIsGeneric | src/utils/aiService.ts:85-87 | a parsed value that is not an array, or an empty array, reaches the user as the generic text |
| AiService.NoTextIsGeneric | src/utils/aiService.ts:72-74 | a reply without text reaches the user as the generic text |
| AiService.UnmatchedErrorIsGeneric | src/utils/aiService.ts:105-106 | an error matching no rule reaches the user as the generic text |
| AiService.GenericWhenUnmatched | src/utils/aiService.ts:99-107 | a message lacking letters that each rule's word needs matches no rule |
| AiService.HttpFailureIsGeneric | src/utils/aiService.ts:61-65 | a refused request, a rejected key included, reaches the user as the generic text, since "API isteği" is not "API key" |
| AiService.NetworkRequestFailedIsGeneric | src/utils/aiService.ts:103 | the rules match case-sensitively: "Network request failed" reaches the user as the generic text, not the connection text |
| AiService.BlankListGivesNoTasks | src/utils/aiService.ts:85-91 | a non-empty array of blank strings passes the emptiness check and yields no task |
| AiService.ParseErrorIsUnreadable | src/utils/aiService.ts:82-102 | a JSON parse error that does not mention the key reaches the user as the unreadable-reply text |
| AiService.CorrectVoiceTranscript | src/utils/aiService.ts:124-180 | the raw text without a key, on a failed or non-ok response, or with no text; otherwise the trimmed answer, or the raw text when that is empty |
| AiService.CorrectionNeverBlanks | src/utils/aiService.ts:175 | a non-blank transcript never comes back blank |

## Left out

- All JSX, styles, animations, navigation and the drawer are not modelled: they do not affect the modelled state. The context-only components (task item, drawers, share and delete dialogs, multi-day view, theme) are not part of this model.
- The Gemini `fetch` calls, the request body and `JSON.parse` of the reply are not modelled. The reply is a `Reply` value, and the parse is a parameter function that returns the parsed value or an error message.
- The voice input button (browser speech recognition) is not part of this model; only the fallback rules of the transcript correction are modelled.
- Notification scheduling, cancelling and the permission request are stubs in the source. They are recorded as `Effect` values in call order, and permission is a parameter.
- The provider members the screens use but AppContext.tsx does not define (`settings`, `updateSettings`, `gender`, `setGender`, `deletePlan`, `theme`) get no invented behaviour. The settings screen reads `settings` as given and records each `updateSettings` call as an effect. The gender change handler of the settings screen is left out for the same reason.
- `Alert.alert` dialogs are modelled only as "rejected, no state change" (or "state as reached" after a failure).
- The clock (`getToday`, `new Date()`), `Date.now()` and `Math.random` ids are parameters. `getTomorrow`, `isToday` and `generateId` are left out as clock and randomness.
- formatDateDisplay is left out: it depends on the locale data of the 'tr-TR' `Intl` formatter.
- JavaScript `Date` is modelled without time zones or daylight-saving shifts. The date lemmas assume years from 100 on (four-digit years for string order), although `MakeDate` keeps the 0..99 → 1900 + y reading.
- Async interleaving is left out: stale closures over `plans` and read-modify-write races on the plans blob. Each operation is one atomic sequential step.
- A plain text stored under the plans key is treated as a blob that does not parse. Which texts `JSON.parse` accepts is not modelled, and JSON encoding is taken to be lossless.
- `Math.round(c / t * 100)` is modelled exactly, on integers: the nearest integer, halves rounded up. Floating-point rounding at halves is not modelled.
- `parseInt` is modelled on strings: leading white space, one sign, a "0x" prefix, then the longest run of digits. Values too large for a double are not modelled.
- `localeCompare` in the past-date sort is modelled as code-unit comparison. For "YYYY-MM-DD" strings of digits and '-' the two orders agree.
- The picker fields of the calendar can be NaN when the date string does not parse; that case is modelled only as `ParseSelected` returning None.
- AiService.MapError: its contract says only that the result is one of the four texts. The rule order is stated by the lemmas that follow it (MissingKeyNotRemapped, ParseErrorIsUnreadable, UnmatchedErrorIsGeneric, HttpFailureIsGeneric, NetworkRequestFailedIsGeneric).
- AiService.RemoveFences: its contract states only that the text does not grow. Its effect on fenced replies is stated by FencedReplyCleaned and NoFenceUnchanged.
- DateUtils.ParseDate: its contract states only that a parse yields a calendar day. The values it yields are stated by ParseDigitParts and ParseFormatRoundTrip.
- DateUtils.AddDays: its contract states only the unparsable case. Its arithmetic is stated by AddZeroDays, AddOneDay and AddDaysCompose.
- DateUtils.ToNumber: only a blank text, decimal digits and digits after one '+' are read. `Number` also reads a '-' sign, decimal fractions, exponents, "0x"/"0o"/"0b" prefixes and "Infinity", which the model reads as NaN. So `addDays("2025-06-1.5", 0)` gives "NaN-NaN-NaN" here, while the source truncates the day 1.5 to 1 and gives "2025-06-01".
- DateUtils.MakeDate: there is no range limit. `new Date` gives an Invalid Date for years beyond about ±275760, while the model still builds a calendar day there.
- AiService.TitleOf: the 100-character limit counts Unicode scalar values. `substring(0, 100)` counts UTF-16 code units, so a title with characters outside the Basic Multilingual Plane (emoji) is cut shorter by the source, possibly inside a surrogate pair, than by the model.
- Strings.Prefix and Strings.PadStart2 count Unicode scalar values, where `substring` and `padStart` count UTF-16 code units. They agree on the texts they receive elsewhere in this model: the date fields are digit strings, and a clock field is padded only after `parseInt` accepted it, so its first character is a digit, a space or a sign. The title cut is listed above.

## Findings

| source | as written | input that shows it | evidently intended | confidence | as-written member | corrected member |
|---|---|---|---|---|---|---|
| src/components/CalendarModal.tsx:103-106 | The forward day arrow queues day 1 and then calls changeMonth(1). changeMonth reads the rendered day and queues that month's length when the day exceeds it, and the last queued day wins. | Jan 31, 2026 forward gives Feb 28, 2026; Dec 31, 2030 forward gives Dec 1, 2030 | the comment's "day 1 of the next month", and no move at the end of 2030 | high for Jan 31 (the comment states the intent); medium for Dec 31, 2030; not executed | CalendarModal.ForwardFromJanuary31 | CalendarModal.IntendedForwardPastMonthEnd |
| src/components/CalendarModal.tsx:107-113 | From Jan 1, 2025 the backward arrow queues 31, the length of December 2024, and changeMonth(-1) is then blocked by the 2025 bound. | Jan 1, 2025 backward gives Jan 31, 2025 | no move at the start of the range | medium; not executed | CalendarModal.BackwardFromFirstDayOf2025 | CalendarModal.IntendedStaysAtRangeEnds |
