# HealthSync frontend — a Dafny model of its state and page logic

HealthSync is a React health tracker. This model covers its in-memory core:

- **Stores.** There are five zustand stores: medications, daily health metrics, journal logs, symptoms and authentication. Each is a Dafny `class`. Its fields are the store's state and its methods are the store's actions. The list each action builds is a pure function, and the lemmas about the store are stated over those functions.
- **Page helpers.** These are the pure helpers and submit handlers of the Insights, Dashboard, Health Journal, Medications and Settings pages. The handlers that change page state are methods of a small `Page` class per page.
- **Supporting modules:**
  - `CivilTime` is the part of JavaScript's `Date` the code relies on: proleptic Gregorian dates and `setDate`/`setMonth`/`setFullYear` with ECMAScript's day and month overflow. It also covers `getTime` as a day number plus milliseconds, and `toISOString` with ISO date parsing.
  - `Text` holds ASCII case mapping, `trim` (ECMAScript's full white-space and line-terminator set), `split`/`join`, zero padding, and string order by code point.
  - `Seqs` holds filter, a sort by key proved stable, map-where and sum.

Clock reads, `Math.random()` draws and fresh ids are parameters (`now`, `freshId`, `draws`). `Number(...)` on a stored string is a parameter `num`, because the model has no floating-point parser. Its result is a `JsNumber` (finite, NaN or ±Infinity) wherever NaN matters.

Some store "getters" call `get()`, but the store factory binds only `set`. These are `getUpcomingMedications`, `getMetricsByDateRange`, `exportMetrics`, `calculateTrends` and `getLogsByDateRange`. As written, each would throw a ReferenceError when called. The model gives each its evident meaning, as a pure function of the list it reads: `MedicationStore.Upcoming`, `HealthMetricsStore.MetricsByDateRange`, `ExportCsv`, `CalculateTrends` and `JournalStore.LogsByDateRange`.

Behaviours kept exactly as the code has them, each with a lemma that exhibits it:

- **`markAsTaken`:**
  - It re-anchors on the moment of marking, so marking early moves the schedule back (`MarkTakenCanMoveBack`).
  - An unknown frequency leaves the next dose at now (`OtherFrequencyDose`).
- **The upcoming filter:** it compares only the day of the month (`UpcomingIgnoresMonth`).
- **`addSymptom`:** it compares untrimmed text but stores the trimmed name, so `" fever"` duplicates `"fever"` (`UntrimmedNameDuplicates`).
- **The CSV export:** it does not quote values as section 2 of RFC 4180 requires. A comma inside a value therefore shifts the columns (`CsvCommaSplitsValue`, `ExportCsvCommaShiftsColumns`).
- **The dashboard's "upcoming" list:** it compares whole calendar dates and keeps doses already past (`Dashboard.UpcomingTodaySpec`).

## Model

| member | source | states |
|---|---|---|
| MedicationStore.MergeLaws | client/src/store/medicationStore.js:30 | `{...med, ...update}`: an update with no keys changes nothing; applying the same update twice is applying it once; an update without an `id` key keeps the id |
| MedicationStore.DailyDose | client/src/store/medicationStore.js:54-56 | daily: the next dose is the same time on the next calendar day, exactly one day of milliseconds later |
| MedicationStore.WeeklyDose | client/src/store/medicationStore.js:57-59 | weekly: the same time seven calendar days on, exactly seven days of milliseconds later |
| MedicationStore.MonthlyDose | client/src/store/medicationStore.js:60-62 | monthly: the same day of the next month when it exists, otherwise the overflow spills into the month after; the time of day is kept and the result is later than now |
| MedicationStore.OtherFrequencyDose | client/src/store/medicationStore.js:53-64 | the switch has no default: any other frequency leaves the next dose at the marking instant |
| MedicationStore.MarkTakenReanchors | client/src/store/medicationStore.js:46-66 | marking sets `lastTaken` to now, changes only `lastTaken` and `nextDose`, and a second mark discards the first one's schedule |
| MedicationStore.MarkTakenCanMoveBack | client/src/store/medicationStore.js:51-65 | the previous next dose is ignored: marking a daily dose early yields a next dose earlier than the one stored |
| MedicationStore.Updated | client/src/store/medicationStore.js:27-33 | same length; records with the id get the update merged over them, all others are identical |
| MedicationStore.Taken | client/src/store/medicationStore.js:43-69 | same length; records with the id are marked at `now`, all others are identical |
| MedicationStore.AddKeepsIdsUnique | client/src/store/medicationStore.js:15-23 | appending a record with an unused id keeps ids unique |
| MedicationStore.DeleteUndoesAdd | client/src/store/medicationStore.js:36-40 | deleting the id of a freshly appended record gives back the list before the append |
| MedicationStore.DeleteSpec | client/src/store/medicationStore.js:36-40 | whatever the ids, delete keeps each record with another id exactly as often as it occurs and drops every record with the id; it keeps order (distributes over concatenation); an unknown id is a no-op; with unique ids a known id removes exactly one record |
| MedicationStore.DeleteUnique | client/src/store/medicationStore.js:36-40 | with unique ids, deleting the id at index k removes just that element, order kept |
| MedicationStore.TakenKeepsIds | client/src/store/medicationStore.js:46-68 | marking changes no id, so unique ids stay unique |
| MedicationStore.UpdateKeepsIds | client/src/store/medicationStore.js:27-33 | an update carrying no other id keeps every id (and uniqueness); an unknown id is a no-op |
| MedicationStore.UpcomingSpec | client/src/store/medicationStore.js:73-82 | the intended upcoming list is sorted by dose time and holds exactly the stored doses after now on today's day of the month, each as often as stored |
| MedicationStore.UpcomingIgnoresMonth | client/src/store/medicationStore.js:79 | a dose one month ahead on today's day of the month counts as upcoming |
| MedicationStore.Store.constructor | client/src/store/medicationStore.js:7-9 | starts with no medications, not loading, no error |
| MedicationStore.Store.ResetMedications | client/src/store/medicationStore.js:12 | empties the list, clears loading and error |
| MedicationStore.Store.AddMedication | client/src/store/medicationStore.js:15-24 | appends exactly the new record (form fields, fresh id, creation time) at the end; nothing else changes |
| MedicationStore.Store.UpdateMedication | client/src/store/medicationStore.js:27-33 | the list becomes `Updated(old list, id, update)`; loading and error unchanged |
| MedicationStore.Store.DeleteMedication | client/src/store/medicationStore.js:36-40 | the list becomes `Deleted(old list, id)`; loading and error unchanged |
| MedicationStore.Store.MarkAsTaken | client/src/store/medicationStore.js:43-70 | the list becomes `Taken(old list, id, now)`; loading and error unchanged |
| HealthMetricsStore.AddMetricSpec | client/src/store/healthMetricsStore.js:13-19 | after adding, the new record is last and is the only record with its date; the others are exactly the old records of other dates, each as often as before and in their old order (adding to `a + b` keeps `a`'s other-date records, then adds to `b`); one-record-per-date is preserved |
| HealthMetricsStore.AddMetricIdempotent | client/src/store/healthMetricsStore.js:13-19 | adding the same record twice is adding it once |
| HealthMetricsStore.WithMetricAppend | client/src/store/healthMetricsStore.js:13-19 | adding to `a + b` keeps the records of `a` with other dates, in order, followed by the result of adding to `b` |
| HealthMetricsStore.WithMetricUnique | client/src/store/healthMetricsStore.js:13-19 | adding keeps one record per date when there was one per date before |
| HealthMetricsStore.MetricsUpdated | client/src/store/healthMetricsStore.js:23-29 | same length; records of that date get the update merged over them, others are identical |
| HealthMetricsStore.UpdateMetricSpec | client/src/store/healthMetricsStore.js:23-29 | a missing date is a no-op, never an insertion; an update without a date key keeps every date and one-record-per-date |
| HealthMetricsStore.MetricsByDateRangeSpec | client/src/store/healthMetricsStore.js:32-36 | the range query keeps exactly the records with `start <= date <= end` (string order), each as often as stored, in store order |
| HealthMetricsStore.CsvHeaderFields | client/src/store/healthMetricsStore.js:42 | the header line reads back as the seven column titles and holds no newline |
| HealthMetricsStore.RowLines | client/src/store/healthMetricsStore.js:43-52 | one line per record, in store order, each the comma join of its seven fields in column order |
| HealthMetricsStore.ExportCsvSpec | client/src/store/healthMetricsStore.js:41-53 | when no value holds a newline, the export splits on newlines into the header line followed by one line per record |
| HealthMetricsStore.CsvTextLines | client/src/store/healthMetricsStore.js:52 | the same for any newline-free header |
| HealthMetricsStore.CsvRowFields | client/src/store/healthMetricsStore.js:43-52 | when no value holds a comma, a record's line splits back into its seven values |
| HealthMetricsStore.CsvCommaSplitsValue | client/src/store/healthMetricsStore.js:52 | unquoted, a last value `a,b` reads back as two values |
| HealthMetricsStore.ExportCsvCommaShiftsColumns | client/src/store/healthMetricsStore.js:43-52 | a mood holding one comma makes its line read back as eight fields, not seven |
| HealthMetricsStore.PercentChangeSpec | client/src/store/healthMetricsStore.js:72 | `(last - first) / first * 100` for a non-zero first value; 0 when unchanged; NaN for 0/0; never finite for a zero first value; positive exactly when a positive value grew |
| HealthMetricsStore.WindowStartSpec | client/src/store/healthMetricsStore.js:60-61 | the trend window starts exactly `days` days of milliseconds before now |
| HealthMetricsStore.TrendWindowSpec | client/src/store/healthMetricsStore.js:63-65 | the window is sorted by date and holds exactly the records dated at or after its start, each as often as stored |
| HealthMetricsStore.CalculateTrendsSpec | client/src/store/healthMetricsStore.js:58-73 | when fewer than two stored records are dated in the window the trend is 0; otherwise there are stored in-window records `a` and `b`, `a` the oldest and `b` the newest of all in-window records, and the trend is the percentage change from `a`'s value to `b`'s |
| HealthMetricsStore.TrendWindowTwo | client/src/store/healthMetricsStore.js:63-67 | the window has two records exactly when two stored records are dated on or after its start |
| HealthMetricsStore.TrendWindowEndsIn | client/src/store/healthMetricsStore.js:63-71 | the window's first and last records are stored records dated in the window |
| HealthMetricsStore.TrendWindowBounds | client/src/store/healthMetricsStore.js:65-71 | every stored record dated in the window lies, by time, between the window's first and last records |
| HealthMetricsStore.TrendWindowExtremes | client/src/store/healthMetricsStore.js:65-71 | the window's first and last records are stored records dated in the window, the oldest and the newest of all such records |
| HealthMetricsStore.TrendFromEnds | client/src/store/healthMetricsStore.js:65-72 | with two records in the window, it gives the oldest and the newest records dated in the window, and the trend over the window is the change from the first's value to the second's |
| HealthMetricsStore.TrendOfEnds | client/src/store/healthMetricsStore.js:67-72 | over two or more records, the trend is the change from the first record's value to the last's |
| HealthMetricsStore.Store.constructor | client/src/store/healthMetricsStore.js:7 | starts with no metrics |
| HealthMetricsStore.Store.ResetMetrics | client/src/store/healthMetricsStore.js:10 | empties the list |
| HealthMetricsStore.Store.AddMetric | client/src/store/healthMetricsStore.js:13-20 | the list becomes `WithMetric(old list, m)` |
| HealthMetricsStore.Store.UpdateMetric | client/src/store/healthMetricsStore.js:23-29 | the list becomes `MetricsUpdated(old list, date, update)` |
| JournalStore.LogsUpdated | client/src/store/journalStore.js:27-33 | same length; logs with the id get the update merged over them, others are identical |
| JournalStore.DeleteUndoesAdd | client/src/store/journalStore.js:36-40 | deleting the id of a freshly prepended log gives back the list before |
| JournalStore.DeleteLogSpec | client/src/store/journalStore.js:36-40 | delete keeps exactly the logs with another id, in order (it distributes over concatenation); an unknown id is a no-op |
| JournalStore.UpdateLogSpec | client/src/store/journalStore.js:27-33 | an unknown id is a no-op; an update carrying no other id keeps the set of ids |
| JournalStore.LogsByDateRangeSpec | client/src/store/journalStore.js:43-48 | the range query keeps exactly the logs with `start <= date <= end` (string order), each as often as stored, in order |
| JournalStore.Store.constructor | client/src/store/journalStore.js:7-9 | starts with no logs, not loading, no error |
| JournalStore.Store.ResetLogs | client/src/store/journalStore.js:12 | empties the list, clears loading and error |
| JournalStore.Store.AddLog | client/src/store/journalStore.js:15-24 | prepends exactly the new log with the fresh id: length grows by one, the newest first, the rest unchanged |
| JournalStore.Store.UpdateLog | client/src/store/journalStore.js:27-33 | the list becomes `LogsUpdated(old list, id, update)` |
| JournalStore.Store.DeleteLog | client/src/store/journalStore.js:36-40 | the list becomes `LogsDeleted(old list, id)` |
| SymptomStore.AddSymptomSpec | client/src/store/symptomStore.js:13-24 | a name already stored ignoring case changes nothing; any other name appends exactly one symptom with the fresh id and the trimmed name |
| SymptomStore.AddSymptomKeepsDistinct | client/src/store/symptomStore.js:15-21 | for a trimmed name, names stay distinct ignoring case, and adding the same name again changes nothing |
| SymptomStore.UntrimmedNameDuplicates | client/src/store/symptomStore.js:15-21 | `" fever"` passes the check against a stored `"fever"` and stores a second `"fever"` |
| SymptomStore.LeadingBlankDuplicates | client/src/store/symptomStore.js:15-21 | for any trimmed stored name, the same name with a leading blank passes the check and is stored again, so names stop being distinct |
| SymptomStore.RemoveSymptomSpec | client/src/store/symptomStore.js:27-31 | remove keeps exactly the symptoms with another id, in order, and keeps names distinct |
| SymptomStore.MockConditions | client/src/store/symptomStore.js:60-72 | one condition per symptom, in the same order |
| SymptomStore.ConditionNames | client/src/store/symptomStore.js:65-66 | a condition's name is the symptom's name with its first character upper-cased, then ` Related Condition`; its description holds the name in lower case |
| SymptomStore.Store.constructor | client/src/store/symptomStore.js:4-7 | starts empty, not loading, no error |
| SymptomStore.Store.ResetSymptoms | client/src/store/symptomStore.js:10 | empties symptoms and conditions, clears the error, leaves loading |
| SymptomStore.Store.ClearSymptoms | client/src/store/symptomStore.js:54-56 | the same as reset |
| SymptomStore.Store.AddSymptom | client/src/store/symptomStore.js:13-24 | symptoms become `WithSymptom(old, name, freshId)`; nothing else changes |
| SymptomStore.Store.RemoveSymptom | client/src/store/symptomStore.js:27-31 | symptoms become `WithoutSymptom(old, id)`; nothing else changes |
| SymptomStore.Store.CheckSymptoms | client/src/store/symptomStore.js:34-51 | no symptoms: only the error `Please enter at least one symptom` is set; otherwise the error clears, the conditions become one per symptom, and loading ends false |
| AuthStore.MergePreferences | client/src/store/authStore.js:67 | the merged preferences have both key sets; an update's key wins, other stored keys survive |
| AuthStore.MergeUserLaws | client/src/store/authStore.js:58 | an empty update changes nothing; the same update twice is once; an update without preferences keeps them |
| AuthStore.MergePreferencesLaws | client/src/store/authStore.js:67 | merging the same preferences twice is once; merging none changes nothing |
| AuthStore.Store.constructor | client/src/store/authStore.js:19-22 | signed out, not loading, no error |
| AuthStore.Store.BeginLogin | client/src/store/authStore.js:25 | login first sets loading and clears the error, touching nothing else |
| AuthStore.Store.CompleteLogin | client/src/store/authStore.js:31-44 | exactly `demo@example.com`/`password` signs in the demonstration user; anything else sets `Invalid email or password` and leaves who is signed in |
| AuthStore.Store.Login | client/src/store/authStore.js:24-46 | the whole login: success signs in the demonstration user with no error and loading off; failure reports the error and leaves user and sign-in unchanged |
| AuthStore.Store.Logout | client/src/store/authStore.js:48-54 | no user, signed out, no error; loading left as it was |
| AuthStore.Store.UpdateUser | client/src/store/authStore.js:56-60 | a missing user stays missing; otherwise the update is merged over the user |
| AuthStore.Store.UpdatePreferences | client/src/store/authStore.js:62-71 | a missing user stays missing; otherwise only the preferences change, merged key by key |
| Insights.MoodDistributionSpec | client/src/pages/Insights.jsx:51-64 | one entry per distinct mood, in first-occurrence order, each count the number of occurrences and at least 1; the counts add up to the number of records |
| Insights.BumpSpec | client/src/pages/Insights.jsx:54-57 | one counting step: a known mood's count goes up by one, a new mood is added last with count 1, moods stay distinct, the total grows by one |
| Insights.TallyShape | client/src/pages/Insights.jsx:52-59 | the tally's moods are distinct and are exactly the moods that occur |
| Insights.TallyCounts | client/src/pages/Insights.jsx:52-59 | each count is the number of occurrences of its mood, and the counts add up to the number of moods |
| Insights.TallyOrder | client/src/pages/Insights.jsx:61-64 | entries come in order of first occurrence (the order `Object.keys` gives) |
| Insights.MovingAverages | client/src/pages/Insights.jsx:135-145 | one average per value, each the mean of the trailing window ending at it |
| Insights.WindowBounds | client/src/pages/Insights.jsx:137-138 | for a window of at least 1, the window at `i` is the `min(i + 1, window)` elements ending at `i`, so it is never empty; a window of 1 is the element itself |
| Insights.MovingAverageWindowOne | client/src/pages/Insights.jsx:137-139 | with a window of 1 each average is the value itself |
| Insights.MeanOne | client/src/pages/Insights.jsx:138-139 | the mean of a single value is that value, and NaN when it is NaN |
| Insights.MovingAverageExample | client/src/pages/Insights.jsx:135-145 | 70, 80, 90 with a window of 2 average to 70, 75, 85 |
| Insights.CalculateMovingAverageSpec | client/src/pages/Insights.jsx:135-145 | one output per record, in order, keeping the record and adding under `<key>MA` the mean of the values in its trailing window |
| Insights.GetDateRangeSpec | client/src/pages/Insights.jsx:106-122 | the range ends now; a week (and any unknown range) starts exactly seven days back; a month starts on the same day of the previous month or spills into this one; a year starts a year back (March 1 for February 29); the start is before the end |
| Insights.MonthAgo | client/src/pages/Insights.jsx:113-114 | a month back is the same day of the previous month, or spills past that month's end into this one; either way an earlier day |
| Insights.YearAgo | client/src/pages/Insights.jsx:116-118 | a year back is the same day a year earlier, or 1 March for 29 February; either way an earlier day |
| Insights.HealthMetricsDataSpec | client/src/pages/Insights.jsx:125-133 | the chart data is sorted by date and holds exactly the metrics dated inside the range, each as often as stored |
| Dashboard.MoodTrendSpec | client/src/pages/Dashboard.jsx:38-47 | `good` exactly for great/better/good, `warning` exactly for bad/worse, `normal` otherwise; severity never decreases along the scale |
| Dashboard.FirstDated | client/src/pages/Dashboard.jsx:29 | the index `find` stops at: the first record of the date, or the end when there is none |
| Dashboard.MetricOnSpec | client/src/pages/Dashboard.jsx:29-36 | today's record is the first stored record of today's key when there is one, the default record exactly when there is none, and the only such record under one-record-per-date |
| Dashboard.MetricOnAfterAdd | client/src/pages/Dashboard.jsx:29 | after the store adds a day's record, that record is the one shown for the day |
| Dashboard.TodayAfterAdd | client/src/pages/Dashboard.jsx:28-29 | after the store adds today's record, it is today's record |
| Dashboard.WaterTrendSpec | client/src/pages/Dashboard.jsx:186 | `good` exactly when the water reads as a number of at least 8 or +Infinity, `warning` otherwise; the default record (water 0) shows `warning` |
| Dashboard.UpcomingTodaySpec | client/src/pages/Dashboard.jsx:49-54 | sorted by dose time; exactly the stored doses on today's calendar date, each as often as stored; those after now are also in the store's upcoming list |
| HealthJournal.ParseList | client/src/pages/HealthJournal.jsx:165 | a field parses into one more entry than it has commas; no entry holds a comma and every entry is trimmed |
| HealthJournal.ParseEmpty | client/src/pages/HealthJournal.jsx:165 | an empty field parses to one empty entry, so the log shows the section; no entries display as the empty field |
| HealthJournal.ParseLeadingSpace | client/src/pages/HealthJournal.jsx:165 | a leading blank does not change the parse |
| HealthJournal.ParseAppend | client/src/pages/HealthJournal.jsx:165 | the text before the first comma is the first entry; the rest parses on its own |
| HealthJournal.ParseDisplay | client/src/pages/HealthJournal.jsx:161-165 | parsing the `', '` join of non-empty lists of trimmed comma-free entries gives the list back |
| HealthJournal.ParseIdempotent | client/src/pages/HealthJournal.jsx:161-165 | parse, display, parse again gives the first parse |
| HealthJournal.EditPatchSpec | client/src/pages/HealthJournal.jsx:44-60 | saving an edit replaces every form field and keeps id and creation time; saving a log's own form leaves it unchanged |
| HealthJournal.DefaultDateFilterStart | client/src/pages/HealthJournal.jsx:19 | the filter opens at the ISO date one calendar month back |
| HealthJournal.DefaultDateFilterEnd | client/src/pages/HealthJournal.jsx:20 | the filter opens ending at today's ISO date |
| HealthJournal.InRangeIsoDates | client/src/pages/HealthJournal.jsx:26-28 | on ISO dates of four-digit years, the string range test is the calendar range test |
| HealthJournal.DefaultDateFilterSpec | client/src/pages/HealthJournal.jsx:18-28 | the opening filter keeps a log dated on a day exactly when that day lies between one month back and today; today's logs are always kept |
| HealthJournal.MonthBackBefore | client/src/pages/HealthJournal.jsx:19 | one month back is an earlier day, in this year or the one before |
| HealthJournal.Page.constructor | client/src/pages/HealthJournal.jsx:30-42 | form closed, nothing selected, the initial form dated today |
| HealthJournal.Page.HandleEdit | client/src/pages/HealthJournal.jsx:56-60 | selects the log, loads its fields, opens the form |
| HealthJournal.Page.SetSymptoms | client/src/pages/HealthJournal.jsx:162-166 | the symptoms become the parsed field, other form fields unchanged |
| HealthJournal.Page.SetMedications | client/src/pages/HealthJournal.jsx:180-184 | the medications become the parsed field, other form fields unchanged |
| HealthJournal.Page.HandleSubmit | client/src/pages/HealthJournal.jsx:44-54 | updates the selected log or prepends the form as a new log, then closes and resets the form |
| MedicationsPage.FrequencyLabelSpec | client/src/pages/Medications.jsx:70-81 | `daily`, `weekly` and `monthly` are labelled exactly `Every Day`, `Every Week` and `Every Month`; any other value is shown as it is |
| MedicationsPage.TimeOfDayColorSpec | client/src/pages/Medications.jsx:55-68 | the four offered times get four distinct colours, none of them the gray default; anything else gets the default |
| MedicationsPage.TimeOfDayTextSpec | client/src/pages/Medications.jsx:272-273 | the shown time of day has the same length and differs in case only; for an offered time it is the select's option text |
| MedicationsPage.InputValueSpec | client/src/pages/Medications.jsx:194 | the next-dose input shows `YYYY-MM-DDTHH:MM` |
| MedicationsPage.InputValueMinutes | client/src/pages/Medications.jsx:194 | seconds and milliseconds do not reach the input |
| MedicationsPage.EditPatchSpec | client/src/pages/Medications.jsx:31-47 | saving an edit replaces every form field and keeps id, last time taken and creation time; saving a medication's own form leaves it unchanged |
| MedicationsPage.Page.constructor | client/src/pages/Medications.jsx:15-29 | form closed, nothing selected, the initial form (daily, morning, next dose now) |
| MedicationsPage.Page.HandleEdit | client/src/pages/Medications.jsx:43-47 | selects the medication, loads its fields, opens the form |
| MedicationsPage.Page.HandleSubmit | client/src/pages/Medications.jsx:31-41 | updates the selected medication or appends the form as a new one, then closes and resets the form |
| SettingsPage.ToggleSpec | client/src/pages/Settings.jsx:117-123 | a toggle flips exactly the named switch (a missing one turns on) and leaves the others; toggling twice restores the switches |
| SettingsPage.SpaceCapitals | client/src/pages/Settings.jsx:285 | spacing out capitals never shortens the key and keeps a lower-case first character |
| SettingsPage.UpperFirst | client/src/pages/Settings.jsx:285 | upper-casing the first character keeps the length and the rest |
| SettingsPage.RemoveSpacesSpaceCapitals | client/src/pages/Settings.jsx:285 | spacing out capitals only inserts spaces |
| SettingsPage.FormatLabelRoundTrip | client/src/pages/Settings.jsx:285 | a camel-case key is read back from its label, so distinct keys get distinct labels; the label starts with the key's first letter upper-cased |
| SettingsPage.FormatTwoWords | client/src/pages/Settings.jsx:285 | a two-word camel-case key shows as the two words, the first capitalised, with one space between |
| SettingsPage.InitialLabel | client/src/pages/Settings.jsx:28-32 | the first switch, `medicationReminders`, is labelled `Medication Reminders` |
| SettingsPage.PasswordErrorSpec | client/src/pages/Settings.jsx:83-85 | the change fails exactly when new and confirmation differ; the current password plays no part |
| SettingsPage.InitialPreferences | client/src/pages/Settings.jsx:38-42 | the form's preferences default to `lbs` and `F`, overridden key by key by the user's stored preferences |
| SettingsPage.ProfileSaveSpec | client/src/pages/Settings.jsx:45-59 | saving keeps the id, takes the form's fields, and the form's preferences override the stored ones key by key; an untouched save only fills in the default units |
| SettingsPage.Page.constructor | client/src/pages/Settings.jsx:24-43 | the three switches on, the profile form from the user, an empty password form, nothing loading, no messages |
| SettingsPage.Page.HandleNotificationChange | client/src/pages/Settings.jsx:117-123 | flips the switch and hands the whole updated switch map to the store as the `notifications` preference; the forms, modal, messages, page loading/error and the store's sign-in, loading and error are unchanged |
| SettingsPage.Page.HandleProfileUpdate | client/src/pages/Settings.jsx:45-69 | the signed-in user takes the form's fields and merged preferences; success is reported and loading ends; the forms, switches, password modal and the store's sign-in, loading and error are unchanged |
| SettingsPage.Page.HandlePasswordChange | client/src/pages/Settings.jsx:77-102 | a mismatch reports `New passwords do not match` and keeps the form, modal and message; otherwise the modal closes, all three fields clear and success is reported; loading ends, switches and profile form unchanged |
| CivilTime.DayNumberAddDays | client/src/store/medicationStore.js:55 | moving a date by `n` days moves its day number by exactly `n` |
| CivilTime.SetDateShift | client/src/store/medicationStore.js:55-58 | `setDate(getDate() + k)` moves the date by exactly `k` days, across month and year ends |
| CivilTime.SetDateShiftMs | client/src/store/medicationStore.js:55-58 | on an instant, `setDate(getDate() + k)` moves the time by exactly `k` days of milliseconds |
| CivilTime.NextMonth | client/src/store/medicationStore.js:61 | `setMonth(getMonth() + 1)` keeps the day when the next month has it, and otherwise spills the overflow into the month after |
| CivilTime.PrevMonth | client/src/pages/Insights.jsx:113 | `setMonth(getMonth() - 1)` keeps the day when the previous month has it, and otherwise spills back into the current month |
| CivilTime.PrevYear | client/src/pages/Insights.jsx:116 | `setFullYear(getFullYear() - 1)` keeps the date, except that February 29 becomes March 1 |
| CivilTime.DayNumberOrder | client/src/pages/Insights.jsx:129 | calendar order and `getTime` order agree |
| CivilTime.DayKeyIsIsoDate | client/src/pages/Dashboard.jsx:28 | `toISOString().split('T')[0]` is the `YYYY-MM-DD` date of the instant |
| CivilTime.IsoDateLess | client/src/pages/HealthJournal.jsx:27 | for four-digit years, string order on ISO dates is calendar order |
| CivilTime.IsoDateAtMost | client/src/pages/HealthJournal.jsx:27 | for four-digit years, `<=` on ISO dates is `<=` on day numbers |
| CivilTime.ParseIsoDateRoundTrip | client/src/pages/Insights.jsx:128 | `new Date('YYYY-MM-DD')` of a four-digit-year ISO date gives the date back |
| CivilTime.DaysInMonth | client/src/store/medicationStore.js:61 | every month of the Gregorian calendar has 28 to 31 days |
| CivilTime.AddDaysAdd | client/src/store/medicationStore.js:55-58 | moving by `a` days and then by `b` days is moving by `a + b` days |
| CivilTime.DayNumberInjective | client/src/pages/Insights.jsx:132 | distinct dates have distinct `getTime` day numbers, so sorting by time orders dates without ties between different days |
| Text.Split | client/src/pages/HealthJournal.jsx:165 | `split` always yields at least one piece, and no piece holds the separator |
| Text.SplitJoin | client/src/store/healthMetricsStore.js:52 | splitting the join of separator-free pieces gives the pieces back |
| Text.Trim | client/src/store/symptomStore.js:21 | `trim` yields the input with only white space (ECMAScript WhiteSpace and LineTerminator) cut from its two ends: a trimmed middle slice, unchanged when already trimmed |
| Text.Lower | client/src/store/symptomStore.js:15 | `toLowerCase` keeps the length and lowers every character |
| Text.LowerIdempotent | client/src/store/symptomStore.js:15 | lowering twice is lowering once |
| Text.Capitalize | client/src/pages/Medications.jsx:272-273 | the first character upper-cased, the rest and the length unchanged |
| Text.LowerCapitalize | client/src/pages/Medications.jsx:272-273 | capitalising changes case only |
| Text.PadRoundTrip | client/src/pages/Dashboard.jsx:28 | the zero-padded digits `toISOString` writes read back as the number |
| Seqs.SortByKey | client/src/pages/Insights.jsx:132 | the sort by key yields a sorted permutation of its input |
| Seqs.SortByKeyStable | client/src/store/medicationStore.js:81 | the sort is stable: the elements of any one key come out in their input order, as `Array.prototype.sort` keeps them |
| Seqs.FilterTwo | client/src/store/healthMetricsStore.js:63-67 | a filter keeps two or more elements exactly when two positions satisfy the predicate |
| Seqs.Filter | client/src/pages/Insights.jsx:127-131 | `filter` keeps only elements that pass, never more than there were, and everything when all pass |
| Seqs.MapWhere | client/src/store/medicationStore.js:29-31 | `map` with a condition: same length, matching elements transformed, the others identical |

## Left out

- Persistence: the `persist`/localStorage middleware is a foreign library. State lives in memory only.
- Asynchronous timing: the waits in `login`, `checkSymptoms`, `mockCheckSymptoms` and the password and profile handlers collapse into single transitions.
  - The `catch` branches that no modelled step can reach are not modelled: the generic `Login failed`, `Failed to analyze symptoms` and `Failed to change password`.
  - The three-second `successMessage` timeouts are not modelled.
- Random and clock values: ids, creation times, `new Date()` and the random urgency and suggested action are parameters.
  - Timestamps are instants in UTC, a calendar date plus milliseconds of the day. Time zones and daylight saving are not modelled, so `toDateString` compares UTC dates.
  - `createdAt`, `lastTaken` and `nextDose` are kept as instants, not as their ISO strings.
- Floating point:
  - `Number(...)` is a parameter.
  - `toFixed(2)` on the moving average is not modelled; the average is kept as an exact real.
  - Signed zero and rounding in the percent trend are not modelled.
- Insights.MovingAverages: values and averages are `Option<real>` with `None` for NaN, so a `+Infinity` or `-Infinity` value or average (from `Number("Infinity")` or overflow) cannot be expressed; the trend uses the full `JsNumber` instead.
- MedicationStore.Taken: the source reads the clock once for `lastTaken` and again for each marked record's `nextDose`. The model uses one `now` for both, so it does not capture the few milliseconds by which the unknown-frequency `nextDose` can trail `lastTaken`.
- CivilTime.IsoString: years are not bounded to JavaScript's ±275760-year `Date` range, and `Pad` keeps the last six digits of a larger year where `padStart` would not truncate.
- `Object.keys` order: the mood tally follows first occurrence. JavaScript lists integer-like keys first, and such moods are not modelled.
- Text: case mapping (`toLowerCase`, `toUpperCase`) is ASCII only; `trim` covers ECMAScript's full WhiteSpace and LineTerminator set.
- Text.Less: strings compare by Unicode code point, while JavaScript compares UTF-16 code units. The two orders differ when a character above U+FFFF meets one in U+E000..U+FFFF, which the free-text `startDate`/`endDate` of the range queries can bring about; the range lemmas state the code-point order.
- HealthMetricsStore.MetricInstant: `new Date(string)` is modelled for `YYYY-MM-DD` text only; any other text is an invalid date.
- Insights.GetDateRange: the source reads the clock twice, once for `end` and once for `start`. The model uses one `now` for both. `GetDateRangeSpec`'s "start before end" therefore does not cover the two reads straddling a month-end midnight, where a week range can start after its end.
- HealthJournal.MonthBack: the opening filter reads the clock three times in the source: twice for the month-back start and once for the end. The model uses one `now`, so `DefaultDateFilterSpec` does not cover reads that straddle midnight or a month end.
- Export plumbing: the JSON branch of `exportMetrics` (`JSON.stringify`) and the download component are not modelled.
- The goals form, UI components, routing and build configuration are not modelled. Neither are the undefined `register` and `deleteAccount` actions.
- The dashboard's default record has no `date` key and its water is the number 0. The model gives it the empty date and the water text `"0"`; the water trend reads it through `num`.
- The Medications page's `datetime-local` `onChange` (parsing the input back into an ISO instant) is not modelled.
- The page's notification switches start from fixed values, not from the user's stored preferences, exactly as the code does.
- The journal and medications pages load the whole record into the form on edit. The model loads the form fields and merges them back with the record's own id and creation time. For an edit of the selected record this is the same object.
- MedicationsPage.InputValueSpec: stated (with `InputValueMinutes`) only for four-digit years. For other years `toISOString` writes a six-digit signed year, and the 16-character slice then cuts a different layout.
- CivilTime.IsoDateLess: the string-order lemmas (`IsoDateAtMost`, `HealthJournal.InRangeIsoDates`, `HealthJournal.DefaultDateFilterSpec`) hold for four-digit years only. Six-digit signed years do not sort as strings.
- SymptomStore.AddSymptomKeepsDistinct: stated for trimmed names only. `UntrimmedNameDuplicates` shows that it fails otherwise.
- HealthJournal.ParseDisplay: stated for non-empty lists of trimmed comma-free entries. Other lists do not survive the round trip; the empty list comes back as one empty entry.
