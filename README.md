# Trip planner core, modelled in Dafny

This project models the logic of a browser trip planner. The planner keeps several trip
plans. Each plan has an itinerary of days, each day has activities with to-dos, and
there is a list of expenses. Fetched weather is merged into days and activities, and
everything can be exported as CSV.

The model has one Dafny module per source file:

- `Weather`: services/weather.ts. It covers:
  - the WMO code table (WMO Code Table 4677);
  - reading the city out of a route;
  - the free-text time-label parser;
  - the local day offset;
  - the forecast-or-archive rule with its one-year-back reference date;
  - the two fetch functions, over a `Provider` that stands for the network.
- `Planner`: components/Planner.tsx. It covers:
  - re-dating days for a new start date, an added day, a deletion and a reorder;
  - the bulk weather refresh and its merge;
  - the day-save handler's refetch and write-back rules;
  - the startup staleness check;
  - the screen state, as the class `PlannerScreen`.
- `Exporter`: utils/exporter.ts. It covers the CSV text, built row by row. The quoting
  follows section 2, rule 7 of RFC 4180. A reader for that quoting proves that rows read
  back.
- `Timeline`: components/Timeline.tsx. It covers to-do toggling, deleting and saving
  activities, and the class `DayView` for the form mode and the header editor.
- `EditModal`: components/EditModal.tsx. It covers the class `ActivityForm`: the form
  object and its to-do handlers.
- `ExpenseTracker`: components/ExpenseTracker.tsx. It covers the class `ExpenseForm`
  (entry form, add), deletion, and grouping by date, newest date first.
- `App`: App.tsx. It covers first-run set-up and migration, creating, deleting and
  renaming plans, the open-plan reset, and the per-plan storage keys, in the class
  `TripApp`.

Shared modules:

- `Calendar`: JavaScript local dates as day numbers. `new Date(y, m - 1, d)` month and
  day overflow is normalised. The module also holds `getDay` and the ISO and `M/D (W)`
  texts.
- `Text`: `split`, `join`, `trim`, `includes`, ASCII `toLowerCase`, digits and
  `padStart`.
- `Lists`: `filter` by id, `map` by id, `find`, `findIndex`, and the splice move.
- `TripTypes`: the records of types.ts.
- `Wrappers`: `Option`.

Some of the source's behaviour looks unintended. The model reproduces it as written and
proves each case as a lemma:

- `Afternoon` is read as 12, because `afternoon` contains `noon` and the noon test comes
  first (`Weather.AfternoonLabelExample`).
- Clock hours are not capped at 23: `25:00` reads as hour 25 (`Weather.UncappedHourExample`).
- The startup check accepts offsets up to 16 days, but the forecast rule stops at 14.
  So a stale day 15 or 16 days ahead stays stale after every refresh, whether the lookup
  succeeds or fails (`Planner.StaleBeyondForecast`).
- A reorder re-dates from the first day as it was before the move, which leaves the
  column of dates of consecutive days where it was (`Planner.MoveKeepsDates`). A deletion
  re-dates from the first surviving day, so deleting the first day moves the trip's start
  to the old second date and every survivor keeps its own date
  (`Planner.DeletingFirstShiftsStart`).
- The new-activity defaults give way to every property of the form. A blank form
  therefore saves an empty time and title (`Timeline.BlankFormSavesEmpty`).

The code and the repository's written description differ in two places. The model
follows the code:

- The PM markers are only `pm`, `下午` and `晚上`, and the AM markers only `am` and
  `上午`. English "afternoon", "evening" and "morning" do not act as markers.
- Keyword buckets are tested in order and the first hit wins. They are not independent.

## Model

| member | source | states |
|---|---|---|
| Calendar.FromDayNumber | components/Planner.tsx:213-217 | the date read back from a day number is a valid calendar date whose day number is that number |
| Calendar.FromDayNumberOf | components/Planner.tsx:213-218 | reading back the day number of a valid date gives the same year, month and day |
| Calendar.NextDay | components/Planner.tsx:238-243 | `new Date(y, m - 1, d + 1)` is the next day of the month, the first of the next month, or January 1 of the next year |
| Calendar.ParseFormatYmd | components/Planner.tsx:215-218 | the `YYYY-MM-DD` text written for a date with no negative field splits and reads back as that date |
| Calendar.ParseFormatIso | components/Planner.tsx:209-218 | writing a day number as ISO text and reading it back gives the same day number |
| Calendar.Weekday | components/Planner.tsx:196-199 | `getDay()` is an index 0..6 into the seven weekday names |
| Calendar.WeekdayNext | components/Planner.tsx:196-199 | consecutive day numbers have consecutive weekdays, Saturday (6) wrapping to Sunday (0) |
| Calendar.WeekdayOfFollowing | components/Planner.tsx:196-199 | the next calendar day falls on the next weekday |
| Calendar.EpochIsThursday | components/Planner.tsx:196-199 | 1970-01-01 is weekday 4, a Thursday |
| Weather.MapWmoCode | services/weather.ts:5-31 | Cloudy exactly for 2, 3, 45 and 48; Rain exactly for 51-67, 80-82 and 95-99; Snow exactly for 71-77, 85 and 86 |
| Weather.SunnyIsTheDefault | services/weather.ts:5-31 | Sunny exactly for the codes outside every other group, so the mapping is total |
| Weather.ExtractCityName | services/weather.ts:34-45 | the city is trimmed, and it holds no `➔` when the route had one |
| Weather.ExtractCityNameSpec | services/weather.ts:34-45 | empty gives empty; with `➔`, the trimmed text after the last `➔`; otherwise, with `->`, the trimmed text after the last `->`; otherwise the trimmed location |
| Weather.FirstClock | services/weather.ts:53 | the hour of the leftmost `H:MM`/`HH:MM` match (two digits tried first), or none when no position matches |
| Weather.KeywordHour | services/weather.ts:66-72 | a keyword hour is one of 9, 12, 14, 18 and 21 |
| Weather.KeywordHourBuckets | services/weather.ts:66-70 | morning words win, then noon words; a label with `afternoon` never lands at 14; 14 needs `下午`; no hour exactly when no bucket word is present |
| Weather.AdjustHour | services/weather.ts:55-62 | under a PM marker an hour below 12 gains 12, except that AM and PM together on hour 0 give 0; otherwise hour 12 under an AM marker becomes 0; every other hour is kept; the result stays at most 99 |
| Weather.ParseHourFromTime | services/weather.ts:48-73 | empty gives none; a clock match wins over keywords and is adjusted for AM/PM; otherwise the keyword hour; every hour is 0..99 |
| Weather.ClockLabelExample | services/weather.ts:53-62 | `14:30` is 14 |
| Weather.PmLabelExample | services/weather.ts:53-62 | `2:30pm` is 14 |
| Weather.MidnightLabelExample | services/weather.ts:53-62 | `12:00am` is 0 |
| Weather.RangeLabelExample | services/weather.ts:53-62 | `10:20 - 15:20` takes its first clock, 10 |
| Weather.AfternoonLabelExample | services/weather.ts:66-68 | `Afternoon` is 12, because it contains `noon` |
| Weather.MorningLabelExample | services/weather.ts:66 | `Morning` is 9 |
| Weather.ChineseAfternoonLabelExample | services/weather.ts:68 | `下午` is 14 |
| Weather.NoHourLabel | services/weather.ts:65-72 | an ASCII label with no digit and no letter `n` names no hour |
| Weather.TbaLabelExample | services/weather.ts:65-72 | `TBA` names no hour |
| Weather.AllDayLabelExample | services/weather.ts:65-72 | `All Day` names no hour |
| Weather.UncappedHourExample | services/weather.ts:53-63 | `25:00` is hour 25: the clock hour is not checked against 23 |
| Weather.DaysDiff | services/weather.ts:77-91 | the offset exists exactly when the date text reads, and it is the date's local day number minus today's |
| Weather.DaysDiffOfFormatted | services/weather.ts:77-91 | the written text of a date is offset by its day number minus today, so each day later adds one |
| Weather.ExampleDiffs | services/weather.ts:77-91 | with today 2026-01-20, 2026-02-03 is 14 days ahead and 2026-02-04 is 15 |
| Weather.ReferenceDate | services/weather.ts:118-125 | same month and day; year minus one, or the current year minus one when that would be later than the current year |
| Weather.PlanQuery | services/weather.ts:108-127 | the forecast exactly when the offset is within -1..14, asked for the date itself; otherwise the archive, asked for the reference date |
| Weather.QueryByOffset | services/weather.ts:114-127 | both ends of the window -1..14 are included |
| Weather.ArchiveIsOneYearBack | services/weather.ts:116-126 | outside the window, a valid date's archive query is the same month and day a year earlier, and that text reads back as that date |
| Weather.ArchiveQueryOf | services/weather.ts:116-126 | the archive query of a readable date, by its fields |
| Weather.ExampleArchiveDate | services/weather.ts:118-125 | with today 2026-01-20, the archive date of 2026-02-04 is 2025-02-04 |
| Weather.HorizonExample | services/weather.ts:108-127 | with today 2026-01-20, 2026-02-03 asks the forecast and 2026-02-04 asks the archive for 2025-02-04 |
| Weather.FetchWeatherForDay | services/weather.ts:94-149 | a record comes back exactly when the city is non-empty, geocoding finds it and the chosen endpoint returns a non-empty daily series; the record is a range whose minimum, maximum and condition come from the first daily entry, with `isReference` set outside the forecast window |
| Weather.FetchActivityWeather | services/weather.ts:152-216 | with no hour it is exactly the day fetch; with an hour a record comes back exactly when the city is non-empty, geocoding finds it, the hourly series arrives and the hour indexes it, and the record's temperature and condition are that hourly entry's |
| Planner.DisplayOfIso | components/Planner.tsx:201-205 | the display text of a day's ISO text is that day's `M/D (W)` |
| Planner.NaNUnreadable | components/Planner.tsx:201-205 | the `NaN-NaN-NaN` text reads as no date and displays as `NaN/NaN (undefined)` |
| Planner.DisplayOfIsDisplayOfIso | components/Planner.tsx:222-223 | a re-dated day's display text is the display of its new ISO text |
| Planner.RedatedSpec | components/Planner.tsx:275-283 | re-dating one day keeps all but its two date texts, and its new date reads back as the given day |
| Planner.RedateSpec | components/Planner.tsx:212-227 | re-dating keeps each day's content and position, gives day i the anchor plus i, and makes consecutive days consecutive dates |
| Planner.RedateUnreadable | components/Planner.tsx:209-218 | an unreadable start gives every day the `NaN` texts |
| Planner.Restarted | components/Planner.tsx:212-227 | the same number of days; every day and activity record is dropped; activities otherwise kept |
| Planner.FirstWeather | components/Planner.tsx:92-95 | none exactly when no activity has a record; otherwise the record of the first activity that has one |
| Planner.RefreshedActivity | components/Planner.tsx:84-90 | only the record may change; it changes only to a successful lookup for an activity with a place, so a failed lookup never erases a record; a successful lookup always lands |
| Planner.RefreshedDay | components/Planner.tsx:77-97 | only records change; a successful day lookup lands; a new record is the lookup's or, for a day without one, the first refreshed activity's, so a day record is never erased |
| Planner.RefreshDay | components/Planner.tsx:77-97 | the step-by-step day refresh equals the merge function |
| Planner.RefreshAll | components/Planner.tsx:77-100 | the refreshed list holds each day refreshed, in order |
| Planner.RefreshKeepsShape | components/Planner.tsx:74-106 | the bulk refresh keeps the days, their order and their activities; only records change |
| Planner.RefreshKeepsRecords | components/Planner.tsx:77-97 | after a bulk refresh every day and every activity that had a record still has one |
| Planner.RestartSpec | components/Planner.tsx:207-231 | after a new start, day i is the start plus i with its id and place, and every record it holds was just looked up |
| Planner.StaleBeyondForecast | components/Planner.tsx:108-121 | a stale day 15 or more days ahead is still stale after a refresh, whether its lookup succeeds or fails |
| Planner.ProcessedActivity | components/Planner.tsx:150-164 | only the record may change; it changes only when the refetch rule holds, to a successful lookup, so a failed lookup never erases a record; a successful lookup always lands |
| Planner.ProcessedActivities | components/Planner.tsx:150-166 | every activity is processed, in order |
| Planner.SavedDay | components/Planner.tsx:123-175 | the saved day with the looked-up day record or the backfill from its saved activities, and processed activities; a changed day record is always a present one; nothing else changes |
| Planner.SavedDaySettles | components/Planner.tsx:123-175 | saving the merged day again, unedited, changes nothing once it has a record or no activity has one |
| Planner.BackfillLags | components/Planner.tsx:142-148 | the backfill reads the activities as saved, so a day can take a refreshed activity's record only on the next save |
| Planner.AddedDay | components/Planner.tsx:246-252 | the new day has the fresh id, `New Location`, no activities and no record |
| Planner.AddedDayFollows | components/Planner.tsx:237-249 | the new day is dated the calendar day after the last day, with month and year rollover, and shows that date |
| Planner.AfterMoveSpec | components/Planner.tsx:298-318 | a reorder puts the moved day at the target, shifts the days in between by one, leaves the rest, and is a permutation |
| Planner.MoveKeepsDates | components/Planner.tsx:304-315 | a reorder of consecutive days keeps the column of dates |
| Planner.DeletionClosesGap | components/Planner.tsx:267-284 | deleting a day other than the first from consecutive days gives the survivors the first dates in order |
| Planner.DeletingFirstShiftsStart | components/Planner.tsx:267-284 | deleting the first of consecutive days with distinct ids leaves exactly the other days, each with its own date, so the trip starts on the old second date |
| Planner.PlannerScreen.constructor | components/Planner.tsx:27-43 | the saved itinerary or the demo itinerary; nothing selected, no deletion pending |
| Planner.PlannerScreen.SelectFirst | components/Planner.tsx:47-51 | with no day selected the first day is selected |
| Planner.PlannerScreen.UpdateWeatherForList | components/Planner.tsx:74-106 | the itinerary becomes the refreshed list |
| Planner.PlannerScreen.StartupCheck | components/Planner.tsx:108-121 | the itinerary is refreshed exactly when some day within -1..16 days holds a reference record |
| Planner.PlannerScreen.RefreshWeather | components/Planner.tsx:186-188 | the refresh button refreshes the current itinerary |
| Planner.PlannerScreen.UpdateDay | components/Planner.tsx:123-180 | the day with the saved day's id becomes the merged day; the other days are unchanged |
| Planner.PlannerScreen.UpdateStartDate | components/Planner.tsx:207-231 | an empty date changes nothing; otherwise the re-dated, cleared and refreshed itinerary |
| Planner.PlannerScreen.AddDay | components/Planner.tsx:233-256 | exactly one day is appended, and it is selected |
| Planner.PlannerScreen.DeleteDayRequest | components/Planner.tsx:258-265 | with one day or none nothing is asked; otherwise the day is pending and the dialog opens |
| Planner.PlannerScreen.CancelDelete | components/Planner.tsx:370-372 | cancelling closes the dialog and leaves the itinerary, the selection and the pending day alone |
| Planner.PlannerScreen.ConfirmDelete | components/Planner.tsx:370-373 | the deletion runs, then the dialog closes, unless the deletion stopped on a `TypeError`: nothing left, or the selection on a pending id not in the list; the itinerary, the pending day and the selection end as the deletion leaves them |
| Planner.PlannerScreen.ExecuteDeleteDay | components/Planner.tsx:267-296 | nothing pending, or nothing left after the filter, changes nothing; otherwise the survivors are re-dated from the first survivor, and a selection on the deleted day moves to the day before it, or to the new first day; a pending id not in the list with the selection on it stops before the selection and the pending id are cleared; a non-empty itinerary stays non-empty |
| Planner.PlannerScreen.ReorderDays | components/Planner.tsx:298-318 | the same position changes nothing; otherwise the moved list re-dated from the old first day |
| Lists.Move | components/Planner.tsx:300-302 | the two splices keep the length |
| Lists.MoveAt | components/Planner.tsx:300-302 | where every element lands after the move |
| Lists.MovePermutes | components/Planner.tsx:300-302 | the move is a permutation |
| Lists.MoveBack | components/Planner.tsx:300-302 | moving back undoes the move |
| Lists.MoveWithin | components/Planner.tsx:300-302 | the in-place shift on a copied array gives the move |
| Lists.WithoutSpec | components/Planner.tsx:270 | the filter drops exactly the elements with the id and keeps the others in order |
| Lists.WithoutKeepsPrefix | components/Planner.tsx:289-293 | the survivors before the deleted index are the same days |
| Exporter.Escape | utils/exporter.ts:19-22 | empty exactly for a missing or empty text; otherwise opens and closes with a quote |
| Exporter.DoubledArePaired | utils/exporter.ts:21 | every quote inside an escaped text is doubled |
| Exporter.EscapeRoundTrip | utils/exporter.ts:19-22 | reading an escaped field gives the text back |
| Exporter.ReadRecordRoundTrip | utils/exporter.ts:24-34 | a joined row reads back as the values of its cells |
| Exporter.ActivityRowReadsBack | utils/exporter.ts:24-35 | an activity row reads back as the day's date and weekday, the place or the day's place, time, title, type, description, notes and an empty cost |
| Exporter.WeekdayOfText | utils/exporter.ts:26 | the weekday cell of `M/D (W)` is `W` |
| Exporter.WeekdayOfDisplay | utils/exporter.ts:26 | the weekday cell of a planner display text is that day's weekday name |
| Exporter.ItineraryRowsAppend | utils/exporter.ts:13-37 | the rows of two lists of days are the rows of the first and then the second |
| Exporter.EmptyDayNoRow | utils/exporter.ts:13-37 | a day without activities adds no row |
| Exporter.DayRowsAppend | utils/exporter.ts:17-36 | one row per activity, in order |
| Exporter.AppendDayRows | utils/exporter.ts:17-36 | the inner loop appends the day's rows |
| Exporter.AppendExpenseRows | utils/exporter.ts:45-60 | the expense loop appends one row per expense, in order |
| Exporter.ExportToCsv | utils/exporter.ts:4-60 | the text is the mark, the itinerary title and header, the rows (each ending in a newline), two more newlines, the expense title and header, and the expense rows |
| Timeline.Overlay | components/Timeline.tsx:69 | each of id, time, title, place, description, kind, map link, to-dos, notes and weather record is the form's when the form has it and the activity's otherwise; an empty form changes nothing |
| Timeline.OverlayIdempotent | components/Timeline.tsx:69 | overlaying the same form twice is overlaying it once |
| Timeline.NewItem | components/Timeline.tsx:56-62 | `TBA`, `New Activity`, `ACTIVITY` and the fresh id apply only where the form lacks the property; place, description, map link, to-dos, notes and weather record are the form's, absent when the form lacks them |
| Timeline.BlankFormSavesEmpty | components/Timeline.tsx:56-62 | a blank form saved for a new activity keeps its empty time and title |
| Timeline.ToggledTodos | components/Timeline.tsx:37-39 | exactly the to-dos with the id flip; ids and texts are kept |
| Timeline.ToggleTodo | components/Timeline.tsx:32-43 | only the matching activity's to-do list changes, by the toggle |
| Timeline.ToggleTwice | components/Timeline.tsx:32-43 | toggling twice gives the day back |
| Timeline.DeleteItem | components/Timeline.tsx:45-52 | a new day exactly when confirmed; only the activities change |
| Timeline.DeleteItemSpec | components/Timeline.tsx:45-52 | a confirmed deletion drops exactly the activities with the id and keeps the others in order |
| Timeline.EditTouchesOne | components/Timeline.tsx:67-71 | an edit overlays the form on the activities with the edited id and leaves the others |
| Timeline.FormOfRoundTrip | components/Timeline.tsx:67-69 | saving an unedited form gives the activity back, with its to-do list made explicit |
| Timeline.DayView.constructor | components/Timeline.tsx:24-30 | closed form, no item, header editor closed and empty |
| Timeline.DayView.OpenAddModal | components/Timeline.tsx:78-82 | new-item mode, no item, form open |
| Timeline.DayView.OpenEditModal | components/Timeline.tsx:84-88 | edit mode on the item, form open |
| Timeline.DayView.SaveItem | components/Timeline.tsx:54-76 | new mode appends one activity; edit mode overlays the form on the edited activity; no item means no update; the form closes |
| Timeline.DayView.StartHeaderEdit | components/Timeline.tsx:91-97 | the editor opens on the day's place and subtitle, or `Japan Trip 2026` |
| Timeline.DayView.SaveHeaderEdit | components/Timeline.tsx:99-106 | only the place and subtitle change |
| EditModal.FormOf | components/EditModal.tsx:28-32 | the edited activity's form always has a to-do list |
| EditModal.ActivityForm.constructor | components/EditModal.tsx:14-25 | the blank form and an empty to-do text |
| EditModal.ActivityForm.Reset | components/EditModal.tsx:27-45 | the edited activity's form, or the blank form |
| EditModal.ActivityForm.AddTodo | components/EditModal.tsx:47-59 | a blank text adds nothing; otherwise one open to-do with the untrimmed text at the end, and the text clears |
| EditModal.ActivityForm.RemoveTodo | components/EditModal.tsx:61-66 | only the to-do list changes, without the id |
| EditModal.ActivityForm.UpdateTodoText | components/EditModal.tsx:68-73 | only the to-do list changes, by the retext |
| EditModal.ActivityForm.TimeChange | components/EditModal.tsx:75-77 | only the time changes |
| EditModal.Retexted | components/EditModal.tsx:68-73 | only the matching to-dos' texts change; ids, flags and order are kept |
| EditModal.AddThenRemove | components/EditModal.tsx:47-66 | removing a freshly added to-do gives the list back |
| ExpenseTracker.DeleteExpense | components/ExpenseTracker.tsx:72-74 | the list does not grow |
| ExpenseTracker.DeleteExpenseSpec | components/ExpenseTracker.tsx:72-74 | exactly the expenses with the id go; the others stay in order |
| ExpenseTracker.ExpenseForm.constructor | components/ExpenseTracker.tsx:14-19 | empty fields, yen, `Food` and today's date |
| ExpenseTracker.ExpenseForm.JpyChange | components/ExpenseTracker.tsx:22-32 | the yen field takes the text; empty clears the NT$ field; a number fills it; nothing else changes |
| ExpenseTracker.ExpenseForm.TwdChange | components/ExpenseTracker.tsx:35-45 | the NT$ field takes the text; empty clears the yen field; a number fills it; nothing else changes |
| ExpenseTracker.ExpenseForm.Add | components/ExpenseTracker.tsx:47-70 | no amount or no description does nothing; otherwise one expense in the primary currency goes first and the amounts and description clear |
| ExpenseTracker.OnDate | components/ExpenseTracker.tsx:86-90 | a group holds only expenses of its date |
| ExpenseTracker.OnDateKeepsOrder | components/ExpenseTracker.tsx:86-90 | a group keeps the expenses in list order: it is a subsequence of the list |
| ExpenseTracker.DatesOfDistinct | components/ExpenseTracker.tsx:86-90 | each group key appears once |
| ExpenseTracker.DatesOfCover | components/ExpenseTracker.tsx:86-90 | the keys are exactly the dates of the list |
| ExpenseTracker.GroupsPartition | components/ExpenseTracker.tsx:86-90 | every expense is in exactly one group, its date's, as often as in the list |
| ExpenseTracker.GroupByDate | components/ExpenseTracker.tsx:86-92 | the dictionary filled one expense at a time maps each date to its expenses, a subsequence of the list in list order; the keys are sorted |
| ExpenseTracker.InsertByRank | components/ExpenseTracker.tsx:92 | insertion adds exactly the key |
| ExpenseTracker.SortByRank | components/ExpenseTracker.tsx:92 | the sort is a permutation |
| ExpenseTracker.NewestFirst | components/ExpenseTracker.tsx:92 | the displayed keys are a permutation of the group keys |
| ExpenseTracker.SortByRankSorts | components/ExpenseTracker.tsx:92 | with every key ranked, the sort is highest rank first |
| ExpenseTracker.NewestFirstSorts | components/ExpenseTracker.tsx:92 | with every date readable, the keys come newest date first |
| App.StorageKeysDistinct | App.tsx:120-132 | each plan's two keys belong to it alone and differ from every fixed key |
| App.SavedPlans | App.tsx:9-12 | no stored list means no plans |
| App.SavedPlansRoundTrip | App.tsx:9-12 | reading the store after a plan list was written under its key gives that list back |
| App.LegacyTitle | App.tsx:36 | with no stored title the migrated title is `我的旅行`; otherwise it is the stored text; it is never empty |
| App.Startup | App.tsx:17-80 | the flag is always set; with plans only the flag is set; with no plans and the flag nothing happens; a first run makes exactly one plan |
| App.MigrationSpec | App.tsx:31-59 | a migration makes one plan, copies the itinerary, copies expenses only if present, and keeps the old keys |
| App.DemoSpec | App.tsx:60-79 | a fresh start makes the demo plan with the demo itinerary and no expenses |
| App.StartupIdempotent | App.tsx:17-80 | running the effect again changes nothing |
| App.TripApp.constructor | App.tsx:9-14 | the stored plan list and no open plan |
| App.TripApp.InitEffect | App.tsx:17-80 | the key-by-key writes give the first-run result |
| App.TripApp.PersistPlans | App.tsx:83-85 | the plan list is stored under its key, the rest of the store is kept, and a reload reads the same plans back |
| App.Created | App.tsx:99-125 | the new plan goes last and opens; storage gains the one-day itinerary (the start date, its display text, `New Location`, no subtitle, no weather record, no activities) and an empty expense list under the new id's keys, and every other key keeps its value |
| App.TripApp.CreatePlan | App.tsx:99-125 | the handler gives the created state |
| App.CreatedOpens | App.tsx:99-148 | a plan just created with a new id is the one the planner shows |
| App.Deleted | App.tsx:127-137 | the list does not grow; the open plan closes only if it was the one deleted |
| App.DeletedSpec | App.tsx:127-137 | exactly the plans with the id go, with both of their keys; nothing else in the store changes |
| App.DeletedStaysDeleted | App.tsx:26-28 | once set up, deleting the last plan never brings the demo back |
| App.TripApp.DeletePlan | App.tsx:127-137 | the handler gives the deleted state |
| App.Renamed | App.tsx:139-141 | the list keeps its length |
| App.RenamedSpec | App.tsx:139-141 | only the matching plans' title and subtitle change |
| App.TripApp.UpdatePlanDetails | App.tsx:139-141 | the plan list is renamed and nothing else changes |
| App.ActivePlan | App.tsx:143-148 | no plan is shown exactly when no id is open, the open id is empty, or no plan has it; otherwise the shown plan is the first in the list with the open id |
| App.TripApp.Render | App.tsx:143-148 | the plan shown is the open plan; an open id that names no plan is cleared |

## Left out

- The network is a `Provider` of three total functions. Geocoding, the forecast and archive endpoints, `fetch`, `res.json()` and the URLs are not modelled. Every caught failure is `None`.
- Temperatures are taken as already rounded integers. `Math.round` and floating point are not modelled.
- Expense amounts are the text they were read from. `parseFloat`, the exchange rate, `Math.round`, `toFixed` and the totals (components/ExpenseTracker.tsx:76-83) are not modelled. The converted figure is an input to `JpyChange`, `TwdChange` and the CSV row.
- The wall clock is a parameter: `today` is the local day number and the current year is derived from it. Random ids and `Date.now()` are parameters too.
- `ArchiveDate` reads the date the way `new Date(y, m - 1, d)` does. The source's `new Date(dateStr)` parses as UTC midnight and then reads local fields, which can give the day before west of UTC.
- `Calendar.ParseIso`: only the digits-and-dashes form is read. `Number` would also accept signs, spaces and exponents. Years 0 to 99, which `new Date` maps to 1900 to 1999, are not treated specially.
- `Planner.DeletingFirstShiftsStart`: stated for days with distinct ids, as the planner generates them, and a first date that is unreadable or from year 0 on. Before year 0 the written date does not read back.
- `Weather.ParseHourFromTime`: lower-casing covers ASCII letters only. Unicode case mapping is not modelled.
- The `Promise.all` batches are modelled one after another. Concurrency, the loading flag, `itineraryRef` and the interleaving of the async handler with other updates are left out.
- React wiring is left out: effects, props, `handleExport` and `handleUpdateExpenses` (plain setter calls).
- `localStorage` is a map and JSON values are held as the values they serialise. `JSON.stringify` comparison is structural equality.
- A legacy itinerary text is an input to the start-up step. Its first date arrives as `legacyFirstDate`. The `TypeError` the source raises for a stored `null` is not modelled.
- `App.SavedPlans`: a plan list stored as anything but a list reads as empty. A malformed JSON text would throw in the source.
- `alert`, `confirm` and the CSV download are not modelled. A refused confirmation is the `confirmed` flag of `Timeline.DeleteItem`.
- The demo itinerary is a parameter (fixture data).
- Plain form setters (category, date, description, primary currency, and the header editor's fields) are not modelled.
- `Planner.PlannerScreen.ReorderDays`: both indices must be in range. The source's `splice` with out-of-range indices is not modelled.
- `ExpenseTracker.NewestFirst`: the order of group keys whose date does not parse is whatever the stable sort makes of a `NaN` comparison, treated as equal. The newest-first property is proved only when every date reads.
- An `ItemPatch` property that is present but `undefined` is treated as absent.
