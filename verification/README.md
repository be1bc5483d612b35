# ExpresSync: a verified model of its calendars, migrations and event protocols

ExpresSync links the tags of an EV-charging system (StEvE) to billed customers (Lago). This project models the
parts of it whose behaviour is hard to see by reading one function, and proves what they do:

* **The reservation picker** (`Gregorian`, `MonthGrid`, `ZonedTime`, `DateKeys`, `TimeText`, `RangePicker`,
  `ChargerClock`, `CalendarPicker`, `ConflictDays`, on `Clocks`, `Arithmetic`, `Decimals`, `Wrappers`): the month
  grid against the calendar of section 21.4.1 of ECMA-262, the search that inverts a time zone, keys that sort as
  dates, the editing of the window over whole runs with and without a `tz`, and the walk that marks taken days.
* **The one-shot data migrations** (`Csv`, `Backfill`, `MergeDuplicates`, `MetaTags`, on `UserMappings`): tables
  as maps, transactions that commit or do not, database rules that refuse statements, external calls that fail,
  how far a run gets, and what a second run finds.
* **The event protocols** (`NotificationBell`, `InvoiceSse`, `SyncWorker`, on `Runs`): one atomic step per
  callback, live timers, intervals, sources and runs as explicit sets, and invariants over every run.
* **The numeric loops** (`PlanAccent`, `PlanTiers`, `UsageSeries`, `LogRetention`): each loop against a closed form.

Code that changes things step by step is a method with its loops, or a class with the fields the source
updates; its `ensures` ties it to a specification function, and the lemmas are about that function. Runs are
folds of one step over a sequence of events or rows. What the source gets from outside is a parameter: a zone
is any function from instants to whole-minute offsets, a query's row order any listing of the selected rows,
a provisioner or a failure any function.

## What the code does not do

Some properties the sources promise are false of the code. Each is stated with the condition under which it
holds, or with a run on which it fails.

* `zonedDate` compares the day of the month and not the date. If one reading of the zone falls in another
  month the result is in the wrong month, whatever the zone (`LeavingTheMonthIsFatal`, `ExactIff`,
  `FixedZoneExactIff`, `MonthEndGoesAstray`).
* The picker promises an end after the start. A typed end can fall short of it by more than the 24 hours it is
  then put on (`EditOrderIff`): without `tz` where the clock is put back (`ViewerBreaksIff`,
  `FallBackBreaksTheOrder`), with `tz` there too or where the end is read in an earlier month (`ChargerBreaksIff`,
  `FixedChargerBreaksIff`, `NewYorkLosesTheOrder`, `BerlinLosesTheOrder`).
* A day pick made at a time that rounds up to midnight lands on the day after (`PickLands`, `PickTwiceIff`).
* The day walk can leave taken days unmarked. In a zone without changes that is the last day, when the reservation
  ends at an earlier time of day than it starts (`UnmarkedIff`). Where the clock moves it can be the last day in
  other cases too (`LastUnmarkedIff`, `AnEndLaterInTheDayIsMissed`), or other days, taken whole or in part
  (`MissesBeforeIff`, `MissesAfterIff`, `StepsOverIff`, `SpringForwardSkipsSunday`, `ADayFromTheEveMissesSunday`).
* Keyboard moves from or to a year before 100 do not return, nor does Home stay in its week, because `Date.UTC`
  reads 0..99 as 1900..1999 and a sign is read as a dash (`MoveThereAndBackIff`, `HomeAndEndIff`, `KeyRoundTrip`).
* `csvEscape` does not quote a carriage return, so a reader that takes CR LF as a record end loses one at the
  end of a note (`CrlfParseUndoesPrintIff`).
* The backfill's dry run leaves both tables alone, but not the audit rows written outside its transactions
  (`DryRunChangesNoTable`, `DryRunLeavesAnAuditRow`; `src/lib/audit.ts:136`). Its comment promises rows ordered by
  customer and mapping id; the query has no order, so any order is allowed for.
* The merge script's comment says a clash of Lago ids is a no-op; the index raises an error and the script ends
  (`StampedDuplicateStopsTheScript`, `MigratedStampStopsTheScript`). A duplicate that owns two mappings of one
  Lago customer can never be merged either, because the trigger of
  `drizzle/0026_user_mapping_lago_user_consistency_trigger.sql` refuses the first row moved
  (`TwoMappingsBlockTheMerge`, `TwoMappingsStopTheScript`). `FinishesIff` says exactly when the script finishes;
  the theorems about its effect hold of runs that stop as well.
* The merge script says it merges users that share a Lago customer, but groups by name alone, and all users
  without a name together (`MergedIsOneCustomerIff`, `NamelessCustomersAreMixed`).
* The tag migration says re-running converges. A push to StEvE that fails is not noticed and never repeated
  (`EdgeReachesSteveIff`), a card that is itself the computed parent is rewritten by every run
  (`SecondRunIdleIff`), and two kinds of cards are never rescued, though no call fails: those that hold each
  other's live keys, and those with two active rows, as linking a drifted card again leaves them (`RunCleanIff`,
  `StuckRescue`, `SwappedKeysNeverConverge`, `TwoRowsOfACardNeverConverge`, `LinkedAgainStaysDrifted`).
* The bell's 2 s timer never changes anything (`StopTimerChangesNothing`).
* A sync that a notification starts after the shutdown signal is cut off by the exit, even if the notification
  came before it (`LateNotificationIsCutOff`, `PendingNotificationIsCutOff`, `ExitWithoutLateNotification`).

## Model

| member | source | states |
|---|---|---|
| Gregorian.YearStep | components/reservations/DateTimeRangePicker.tsx:173-176 | DayFromYear of ECMA-262 grows by 365 or, in leap years, 366 |
| Gregorian.MonthStep | components/reservations/DateTimeRangePicker.tsx:175-176 | months follow each other without gap or overlap, across year ends |
| Gregorian.WeekdaysFollow | components/reservations/DateTimeRangePicker.tsx:173-174 | 1 January 1970 is day 0 and a Thursday, three days after Monday, and each next day is the next weekday |
| Gregorian.CivilFromDay | components/reservations/DateTimeRangePicker.tsx:391-395 | every day number is the day number of a valid date |
| Gregorian.DayNumberOrders | components/reservations/DateTimeRangePicker.tsx:391-395 | day numbers order dates as year, month, day and identify them |
| Gregorian.CivilRoundTrip | components/reservations/DateTimeRangePicker.tsx:391-395 | a date is recovered from its day number |
| MonthGrid.BuildMonthGrid | components/reservations/DateTimeRangePicker.tsx:168-210 | the three loops give 42 cells with consecutive day numbers from the Monday on or before the first, `inMonth` exactly on the month's own dates, for every year; 0..99 are laid out as 1900..1999, which is how `Date.UTC` reads them; the trailing loop ends |
| MonthGrid.ColumnsAreWeekdays | components/reservations/DateTimeRangePicker.tsx:84-84 | every column is one weekday: the day numbers of cell i are i - 3 modulo 7, so the first column is Mondays |
| MonthGrid.MarkedCells | components/reservations/DateTimeRangePicker.tsx:186-188 | the marked cells are days 1..n of the month in order, n the length of the month as read |
| MonthGrid.EveryDayShown | components/reservations/DateTimeRangePicker.tsx:571-573 | a day has a marked cell iff the month has it |
| ZonedTime.ZonedDate | components/reservations/DateTimeRangePicker.tsx:104-126 | the loop with its early exit is the third correction of the guess |
| ZonedTime.Correction | components/reservations/DateTimeRangePicker.tsx:117-124 | a correction subtracts the offset read, plus whole months' days if the reading is in another month |
| ZonedTime.LeavingTheMonthIsFatal | components/reservations/DateTimeRangePicker.tsx:120-121 | in any zone with offsets under 24 h, if some reading leaves the month the result is more than 26 days from the requested time, before it iff the first reading outside is in an earlier month |
| ZonedTime.ExactIff | components/reservations/DateTimeRangePicker.tsx:101-126 | with at most one offset change within a day, the result reads the requested wall clock iff that time exists and the request and two readings stay in the month |
| ZonedTime.InteriorDaysAreClear | components/reservations/DateTimeRangePicker.tsx:120-121 | from the 3rd to the 26th that condition always holds |
| ZonedTime.FixedZoneExactIff | components/reservations/DateTimeRangePicker.tsx:104-126 | in a zone without changes the result is exact iff the request and the one reading are in the month |
| ZonedTime.SkippedHour | components/reservations/DateTimeRangePicker.tsx:101-126 | inside a skipped hour the result is off by exactly the skip, forward or back by the side of the change the guess is on, iff three wall clocks around the request are in the month |
| ZonedTime.RepeatedHour | components/reservations/DateTimeRangePicker.tsx:101-126 | a repeated hour is resolved to the occurrence with the offset read at the guess iff the readings stay in the month |
| ZonedTime.InteriorDaysStay | components/reservations/DateTimeRangePicker.tsx:120-121 | from the 3rd to the 26th no probe leaves the month, so both hours come out so without further condition |
| ZonedTime.MonthEndGoesAstray | components/reservations/DateTimeRangePicker.tsx:120-123 | 31 January 2026 23:00 two hours east of UTC becomes 31 March 23:00 |
| Decimals.DecimalValue | components/reservations/DateTimeRangePicker.tsx:347-350 | a printed number reads back |
| Decimals.FixedOrders | components/reservations/DateTimeRangePicker.tsx:347-350 | numerals of one length sort as strings as the numbers do |
| DateKeys.KeyRoundTrip | components/reservations/DateTimeRangePicker.tsx:347-350 | splitting a key at its dashes gives back the date; for a year before 0, another one |
| DateKeys.KeysIdentify | components/reservations/DateTimeRangePicker.tsx:347-350 | two dates have one key iff they are the same, whatever their years |
| DateKeys.KeyOrder | components/reservations/DateTimeRangePicker.tsx:577-577 | keys of four-digit years sort as strings exactly in calendar order and identify their dates |
| DateKeys.DisabledIffBefore | components/reservations/DateTimeRangePicker.tsx:577-577 | the disabled cells are exactly the days before `minDate` |
| DateKeys.KeyOrderNeedsFourDigits | components/reservations/DateTimeRangePicker.tsx:577-577 | the last day of 999 sorts after the first of 1000 |
| TimeText.ReadsExactlyTimes | components/reservations/DateTimeRangePicker.tsx:222-229 | a text is read as a time iff, trimmed, it is that time printed, the hour's leading zero optional |
| TimeText.TimeRoundTrip | components/reservations/DateTimeRangePicker.tsx:212-229 | the printed time is read back |
| TimeText.TrimIs | components/reservations/DateTimeRangePicker.tsx:223-223 | the text is read without the spaces at its ends, and nothing else is taken off |
| TimeText.SpacesOfAscii | components/reservations/DateTimeRangePicker.tsx:223-223 | of ASCII those are the blank and the control characters 9 to 13 |
| RangePicker.SnapFacts | components/reservations/DateTimeRangePicker.tsx:231-233 | snapping moves by at most half a step onto the grid, reaches 60 exactly in the last half step, keeps grid minutes |
| RangePicker.DurationIsNearest | components/reservations/DateTimeRangePicker.tsx:252-255 | the duration is the window's length to the nearest minute, a half up, and at least one |
| RangePicker.FirstPickLastsAnHour | components/reservations/DateTimeRangePicker.tsx:249-251 | without a value the first pick lasts an hour, from the time of day of the mount |
| RangePicker.EditOrderIff | components/reservations/DateTimeRangePicker.tsx:352-371 | with or without `tz`, an edit leaves the start before the end, whatever it was before, iff it is no typed end that even 24 hours on is not after the start |
| RangePicker.RunKeepsOrder | components/reservations/DateTimeRangePicker.tsx:462-511 | every run without such an end keeps the start before the end |
| RangePicker.ViewerBreaksIff | components/reservations/DateTimeRangePicker.tsx:483-506 | without `tz`, in a zone that changes once: that happens iff the clock goes back, the end is typed for a time before it does, and the start shows at least 24 hours more, less what is put back if it is after the change |
| RangePicker.ViewerRunKeepsOrder | components/reservations/DateTimeRangePicker.tsx:462-511 | so where the clock is never put back every run keeps the order |
| RangePicker.FallBackBreaksTheOrder | components/reservations/DateTimeRangePicker.tsx:501-506 | on a 25-hour Sunday, from a window of 23:10 to 23:40, a typed end of 00:00 comes out at 23:00 |
| RangePicker.RunIsWholeAfterAnchor | components/reservations/DateTimeRangePicker.tsx:352-371 | with or without `tz`, after a day pick or readable start edit both ends stay on whole minutes |
| RangePicker.AnchorKeepsDurationIff | components/reservations/DateTimeRangePicker.tsx:252-255 | a day pick or start edit keeps the duration iff it is a positive number of whole minutes |
| RangePicker.LaterAnchorsKeepDurationIff | components/reservations/DateTimeRangePicker.tsx:462-481 | after the first of them every later one keeps the duration iff the window was in order |
| RangePicker.LocalInstantShows | components/reservations/DateTimeRangePicker.tsx:112-114 | `new Date` shows the local time asked for unless the zone skips it; then a time later by the skip |
| RangePicker.LocalInstantIsEarliest | components/reservations/DateTimeRangePicker.tsx:112-112 | of two instants that show a time the earlier is taken |
| RangePicker.ReadDateIs | components/reservations/DateTimeRangePicker.tsx:112-112 | `new Date` puts a date on itself, in the years 0..99 on the one 1900 years later, and 29 February of year 0 on 1 March 1900 |
| RangePicker.PickLands | components/reservations/DateTimeRangePicker.tsx:352-371 | without `tz` a pick lands on the picked day, so read, at the snapped time, or on the next day iff the time rounds to midnight; a skipped time shows later by the skip |
| RangePicker.PickTwiceIff | components/reservations/DateTimeRangePicker.tsx:352-371 | picking a day again changes nothing iff the first pick did not round to midnight, or, if the time picked is skipped, iff the one shown instead snaps on the same day to itself or back to it |
| RangePicker.StartEditLands | components/reservations/DateTimeRangePicker.tsx:462-481 | likewise for a typed start, on the start's own day |
| RangePicker.EndEditLands | components/reservations/DateTimeRangePicker.tsx:483-506 | likewise for a typed end, put 24 hours on iff it would not follow the start, which is the same time a day later unless the clock moves |
| RangePicker.ChipStaysPressed | components/reservations/DateTimeRangePicker.tsx:508-511 | the chosen duration is exact, is the one shown active and survives later picks and start edits |
| RangePicker.OverlapIsSharedInstant | components/reservations/DateTimeRangePicker.tsx:514-523 | the banner shows iff some instant is in both the window and a conflict |
| ChargerClock.ChargerLandsIff | components/reservations/DateTimeRangePicker.tsx:352-371 | with `tz` and one offset change nearby, an edit shows the day and the snapped time it aims at iff the time exists and no reading leaves the month |
| ChargerClock.FixedZoneResult | components/reservations/DateTimeRangePicker.tsx:104-126 | in a zone with one offset the search ends at the time asked for, later, or, read in the month before, exactly that month's days early |
| ChargerClock.ChargerBreaksIff | components/reservations/DateTimeRangePicker.tsx:483-506 | with a `tz` that changes its offset at most once, a typed end breaks the order iff the first reading outside the month is in an earlier one, or all are in the month, the clock goes back, the end is read with the old offset and by it the start shows at least 24 hours more |
| ChargerClock.ChargerRunKeepsOrder | components/reservations/DateTimeRangePicker.tsx:462-511 | with a `tz` whose clock is never put back every run keeps the order while no typed end is read in an earlier month |
| ChargerClock.LaterEndsAreSafe | components/reservations/DateTimeRangePicker.tsx:120-121 | which no end from the 3rd of a month on is |
| ChargerClock.FixedChargerBreaksIff | components/reservations/DateTimeRangePicker.tsx:483-506 | with one offset, for windows of any length: it breaks it iff the end is read in the month before and the start shows at least 24 hours more than the end a month early |
| ChargerClock.NewYorkLosesTheOrder | components/reservations/DateTimeRangePicker.tsx:501-506 | five hours behind UTC, in a window from 28 February 22:00 to 1 March 01:00, an end typed as 02:00 comes out before the start |
| ChargerClock.BerlinLosesTheOrder | components/reservations/DateTimeRangePicker.tsx:501-506 | on a 25-hour Sunday, in a window from 23:10 to 23:40, so does an end typed as 00:00 |
| CalendarPicker.Picker.constructor | components/reservations/DateTimeRangePicker.tsx:257-265 | the view opens on the month of the value's start or of now |
| CalendarPicker.Picker.OnChange | components/reservations/DateTimeRangePicker.tsx:266-275 | the value is stored and the view goes to the year and month of a start that changed, else stays |
| CalendarPicker.Picker.PickDay | components/reservations/DateTimeRangePicker.tsx:352-371 | the new value is the specified edit and the view follows |
| CalendarPicker.Picker.ApplyStartTime | components/reservations/DateTimeRangePicker.tsx:462-481 | likewise for a typed start; unreadable text changes nothing |
| CalendarPicker.Picker.ApplyEndTime | components/reservations/DateTimeRangePicker.tsx:483-506 | likewise for a typed end |
| CalendarPicker.Picker.ApplyDuration | components/reservations/DateTimeRangePicker.tsx:508-511 | likewise for a duration |
| CalendarPicker.Picker.ShiftMonth | components/reservations/DateTimeRangePicker.tsx:373-386 | the month stays in 1..12 and 12·year + month moves by exactly the delta |
| CalendarPicker.Picker.MoveFocus | components/reservations/DateTimeRangePicker.tsx:388-404 | from any key some move can leave, the focus is the key of the day that many days from the one read and the view is its month |
| CalendarPicker.MoveThereAndBackIff | components/reservations/DateTimeRangePicker.tsx:388-396 | moving by k and by -k returns to the same cell iff both days are of year 100 or later |
| CalendarPicker.HomeAndEndIff | components/reservations/DateTimeRangePicker.tsx:432-456 | Home and End reach a Monday and the Sunday after it, by day number modulo 7; it is the focus's own week iff that is of year 100 or later |
| CalendarPicker.FocusIsShownIff | components/reservations/DateTimeRangePicker.tsx:397-403 | with a date's month in view the grid has a cell of that month under the date's key, and only one date has that key; except for 29 February of year 0 |
| CalendarPicker.StartIsShown | components/reservations/DateTimeRangePicker.tsx:267-275 | after an edit that moves the start the grid in view has a marked cell for the start's day |
| ConflictDays.MarkConflicts | components/reservations/DateTimeRangePicker.tsx:286-308 | the nested loops end and the set is the keys of the days the cursors stand on |
| ConflictDays.MarkedIff | components/reservations/DateTimeRangePicker.tsx:286-308 | a day's key is in it iff some reservation's walk stands on that day |
| ConflictDays.MarkedDaysAreTaken | components/reservations/DateTimeRangePicker.tsx:292-305 | in any zone every marked day holds an instant of the reservation |
| ConflictDays.FixedZoneMarks | components/reservations/DateTimeRangePicker.tsx:292-305 | in a zone without changes the marked days are the first and the consecutive ones, one per started 24 hours |
| ConflictDays.UnmarkedIff | components/reservations/DateTimeRangePicker.tsx:291-305 | in a zone without changes a taken day is unmarked iff it is the last and the reservation ends at an earlier time of day than it starts |
| ConflictDays.OvernightLosesItsMorning | components/reservations/DateTimeRangePicker.tsx:291-305 | 22:00 to 06:00 leaves the second day unmarked |
| ConflictDays.OneChangeMarks | components/reservations/DateTimeRangePicker.tsx:291-305 | in a zone that changes once, a day is marked iff it is one of the consecutive days of the cursors before the change or of those after it |
| ConflictDays.OneChangeTaken | components/reservations/DateTimeRangePicker.tsx:288-293 | in such a zone the taken days are those from the start to the change and from the change to the end |
| ConflictDays.StepsOverIff | components/reservations/DateTimeRangePicker.tsx:304-304 | the walk steps over a day between its first and last mark iff the change lies between the first and last cursor and takes the start's time of day past midnight |
| ConflictDays.MissesBeforeIff | components/reservations/DateTimeRangePicker.tsx:291-305 | a taken day before the end's own is unmarked iff the clock is moved within the reservation, forward so that the start's time of day passes midnight and the end is after the day that skips, or back to a day before the start's |
| ConflictDays.LastUnmarkedIff | components/reservations/DateTimeRangePicker.tsx:291-305 | the end's own day is unmarked iff the end is at an earlier time of day than the start by the offset at the end; if the clock moves after the last cursor, the day on which that offset puts the start decides as well |
| ConflictDays.MissesAfterIff | components/reservations/DateTimeRangePicker.tsx:291-305 | a taken day after the end's own, put there by a clock going back past midnight, is unmarked iff the change comes at an earlier time of day than the start |
| ConflictDays.SpringForwardSkipsSunday | components/reservations/DateTimeRangePicker.tsx:304-304 | two days from 23:30 on the eve of the European change mark the Saturday and the Monday, not the Sunday |
| ConflictDays.ADayFromTheEveMissesSunday | components/reservations/DateTimeRangePicker.tsx:304-304 | one day from there marks the Saturday only, and the whole Sunday is taken |
| ConflictDays.AnEndLaterInTheDayIsMissed | components/reservations/DateTimeRangePicker.tsx:304-304 | 23 and a half hours from there end later in the day than they start, and the last day is unmarked |
| Csv.ReadEscaped | scripts/backfill-customer-accounts.ts:96-101 | after an escaped field the reader holds exactly that field |
| Csv.ParseUndoesPrint | scripts/backfill-customer-accounts.ts:96-113 | parsing undoes printing for rows of arbitrary strings |
| Csv.CrlfParseUndoesPrintIff | scripts/backfill-customer-accounts.ts:96-113 | a reader that takes CR LF as a record end recovers the rows iff no last field is bare and ends in CR |
| Csv.PrintIsInjective | scripts/backfill-customer-accounts.ts:96-113 | different rows print differently |
| Csv.ReportReads | scripts/backfill-customer-accounts.ts:103-140 | the printed run reads back as its header and its rows |
| Csv.ReportColumns | scripts/backfill-customer-accounts.ts:103-140 | under each of the six column names a reader finds the row's own value, the id in decimal and the outcome spelled out |
| Csv.ReportIsInjective | scripts/backfill-customer-accounts.ts:103-140 | the printed run determines every emitted row |
| Backfill.Group | scripts/backfill-customer-accounts.ts:160-166 | the loop gives the customers in first-seen order with their row ids in row order |
| Backfill.CustomersAre | scripts/backfill-customer-accounts.ts:157-166 | the customers listed are those of some row, each once |
| Backfill.FirstSeenOrder | scripts/backfill-customer-accounts.ts:160-166 | they come in the order of the rows that first name them |
| Backfill.IdsInRowOrder | scripts/backfill-customer-accounts.ts:160-166 | each customer's ids come in the order of its rows |
| Backfill.GroupsPartition | scripts/backfill-customer-accounts.ts:157-166 | the groups together hold every candidate row exactly once |
| Backfill.Script.ProcessCustomer | scripts/backfill-customer-accounts.ts:185-262 | a customer's transaction commits as a whole or not at all, and every row of the customer is reported |
| Backfill.Script.Run | scripts/backfill-customer-accounts.ts:136-269 | the run processes the customers up to the limit in order; the exit code is 1 iff a failure was counted |
| Backfill.ReportIsTrue | scripts/backfill-customer-accounts.ts:178-263 | each report row's mapping ends owned by the user reported if it says linked and the run is applied, ownerless otherwise; all other mappings are unchanged |
| Backfill.ReportedOutcome | scripts/backfill-customer-accounts.ts:189-261 | a customer's transaction goes through iff an account is found, no mapping of the customer has another owner and nothing else fails; then each row says created iff the provisioner created it, with its mail and user; else it has the fault's message and, by the refusal's code, its name |
| Backfill.OneRowPerMapping | scripts/backfill-customer-accounts.ts:233-261 | the report has exactly one row per mapping of each processed customer, in order |
| Backfill.CustomerOutcome | scripts/backfill-customer-accounts.ts:195-231 | a linked customer's ownerless mappings all get its one account; owned ones and those of failed customers are unchanged |
| Backfill.FailuresCounted | scripts/backfill-customer-accounts.ts:245-268 | a failure is counted iff some processed customer's transaction failed |
| Backfill.DryRunChangesNoTable | scripts/backfill-customer-accounts.ts:218-231 | a dry run leaves users and mappings as they were, and the audit rows iff the provisioner writes none for any customer reached |
| Backfill.DryRunLeavesAnAuditRow | src/services/customer-account-provisioner.ts:489-501 | a dry run rejected for an admin's mail leaves the row that audits it |
| Backfill.RunKeepsOneOwner | drizzle/0026_user_mapping_lago_user_consistency_trigger.sql:14-37 | a run never splits a customer between two owners |
| Backfill.SecondRunSeesTheUnresolved | scripts/backfill-customer-accounts.ts:20-21 | a second run's candidates are exactly those the first did not report linked |
| MergeDuplicates.BuildPlan | scripts/merge-lago-duplicates.ts:67-97 | each group's item keeps its first user; its id is the found mapping's, else the external id of the last live Lago row with the group's name, none iff there is neither |
| MergeDuplicates.RepointMappings | scripts/merge-lago-duplicates.ts:135-138 | in whatever order rows are updated, the statement succeeds iff the trigger would allow each row against the old table, and then moves exactly the duplicates' rows |
| MergeDuplicates.RepointAllowedIff | drizzle/0026_user_mapping_lago_user_consistency_trigger.sql:14-37 | that is, iff no Lago customer of a duplicate's mapping has another mapping owned by anyone but the keeper |
| MergeDuplicates.TwoMappingsBlockTheMerge | drizzle/0026_user_mapping_lago_user_consistency_trigger.sql:14-37 | it fails if the duplicates own two mappings of one Lago customer |
| MergeDuplicates.Script.MergeGroup | scripts/merge-lago-duplicates.ts:120-156 | a group's transaction commits all its statements or none |
| MergeDuplicates.Script.Execute | scripts/merge-lago-duplicates.ts:45-163 | the run is the plan's items in order up to the first refusal; a dry run changes nothing |
| MergeDuplicates.FinishesIff | scripts/merge-lago-duplicates.ts:113-160 | the script finishes iff every item is skipped or, read off the starting tables, its stamp clashes with no user left and its mappings may be repointed |
| MergeDuplicates.RunStopsAtTheRefusal | scripts/merge-lago-duplicates.ts:113-160 | otherwise the run is the items before the first that does not |
| MergeDuplicates.MergeEffect | scripts/merge-lago-duplicates.ts:113-160 | every run, finished or stopped, removes exactly the duplicates of the resolved items reached, stamps only their keepers, keeps every mapping and audit row with its owner replaced by the user merged into, and deletes exactly the duplicates' sessions and accounts |
| MergeDuplicates.MergedGroup | scripts/merge-lago-duplicates.ts:121-155 | in a merged group the keeper carries the Lago id it had, or else the one found, and owns its duplicates' mappings and audit rows; they are gone |
| MergeDuplicates.MergedIff | scripts/merge-lago-duplicates.ts:113-119 | an item reached is merged iff it has a Lago id that is not empty |
| MergeDuplicates.OthersAreUntouched | scripts/merge-lago-duplicates.ts:48-60 | a user with a mail, of staff, or of no merged group's name keeps its row, mappings, sessions and accounts |
| MergeDuplicates.MergeLeavesNoDangling | scripts/merge-lago-duplicates.ts:134-155 | however far the script gets, no mapping, audit row, session or account points at a deleted user |
| MergeDuplicates.OnlyTheOldestStays | scripts/merge-lago-duplicates.ts:80-96 | of each group resolved and reached exactly the oldest user is left; every other group stays whole |
| MergeDuplicates.SecondRunFindsTheRest | scripts/merge-lago-duplicates.ts:48-60 | a second run finds exactly the groups the first one skipped or did not reach |
| MergeDuplicates.TwoMappingsStopTheScript | scripts/merge-lago-duplicates.ts:135-138 | a duplicate to be removed that owns two mappings of one Lago customer stops the script |
| MergeDuplicates.StampedDuplicateStopsTheScript | scripts/merge-lago-duplicates.ts:121-132 | so does a duplicate that carries the item's Lago id when the keeper carries none |
| MergeDuplicates.MigratedStampStopsTheScript | drizzle/0030_users_lago_external_id.sql:26-43 | which is the case in a group whose resolving mapping belongs to a newer user that the migration stamped |
| MergeDuplicates.MergedIsOneCustomerIff | scripts/merge-lago-duplicates.ts:1-20 | a merged account's mappings are of one Lago customer iff those of its group were |
| MergeDuplicates.NamelessCustomersAreMixed | scripts/merge-lago-duplicates.ts:48-60 | two users without a name and with different Lago customers become one account that owns both |
| MergeDuplicates.EveryRunKeepsTheRules | drizzle/0030_users_lago_external_id.sql:21-26 | however far the script gets, Lago ids stay unique and no Lago customer has two owners |
| MetaTags.CanonicalParentsAreGroups | src/lib/customer-meta-tags.ts:41-68 | a public-id parent is always a group tag; a legacy one is iff the id does not begin with `D-` |
| MetaTags.Migration.ReparentRow | scripts/migrate-customer-meta-tags.ts:104-149 | one turn of the reparent loop is the specified edit |
| MetaTags.Migration.RepairPass | scripts/migrate-customer-meta-tags.ts:161-193 | the repair loop is the fold of its edit over the rows selected |
| MetaTags.Migration.RescueOne | scripts/migrate-customer-meta-tags.ts:210-286 | one turn of the rescue loop: skip, repoint a drifted key, or recreate |
| MetaTags.Migration.SyncSingleTag | src/services/tag-sync.service.ts:395-480 | the push replaces the tag with the row's key, or fails without a trace in the row |
| MetaTags.Migration.Migrate | scripts/migrate-customer-meta-tags.ts:87-287 | the applied run is the three passes, each over a fresh selection; without a failure logged every linked card not so named is under `META-` and the public id of the last users row naming its customer, or `OCPP-` and the Lago id if none does |
| MetaTags.DesiredIsTheParent | src/lib/customer-meta-tags.ts:41-68 | the parent computed for a customer is that one |
| MetaTags.EditAllRows | scripts/migrate-customer-meta-tags.ts:104-192 | a pass edits each selected row once and independently; no failure logged means no update failed |
| MetaTags.EditAllTags | src/services/tag-sync.service.ts:407-433 | a StEvE tag changes only by a push of the row with its key |
| MetaTags.RescueAllRows | scripts/migrate-customer-meta-tags.ts:202-287 | the rescue moves nothing but keys, keeps every tag, and without failures leaves each scanned card on its live key |
| MetaTags.RecreatedTags | scripts/migrate-customer-meta-tags.ts:262-272 | a tag the rescue makes has its card's parent and allows one transaction |
| MetaTags.RunParents | scripts/migrate-customer-meta-tags.ts:103-193 | under any failures a row's final parent follows from its own two updates, and all else but the key is kept |
| MetaTags.CleanRunConverges | scripts/migrate-customer-meta-tags.ts:103-287 | a run that logs no failure leaves every linked card under its customer's parent, no row its own parent, every active card's key StEvE's |
| MetaTags.RunCleanIff | scripts/migrate-customer-meta-tags.ts:103-287 | with no call failing, StEvE's keys distinct and fresh ones for new tags, a run logs no failure, and so converges, iff no active card off its live key finds at its turn an earlier scanned row of the same id tag, or a row that still holds that key; failed pushes do not matter |
| MetaTags.StuckRescue | scripts/migrate-customer-meta-tags.ts:202-287 | if every active card's live key is its own or another row's, the rescue changes nothing, whatever fails |
| MetaTags.SwappedKeysNeverConverge | src/db/schema.ts:157-157 | two active cards whose keys StEvE has swapped: every run logs failures and changes nothing, though no call fails |
| MetaTags.TwoRowsOfACardNeverConverge | src/db/schema.ts:157-158 | keys are unique but id tags are not: with two active rows of one card no run, whatever fails, ends converged or without a failure |
| MetaTags.LinkedAgainStaysDrifted | routes/api/admin/tag/link.ts:130-186 | a card linked again under its live key: the older row keeps the drifted one, and no run changes anything |
| MetaTags.GroupParentsSuffice | scripts/migrate-customer-meta-tags.ts:113-124 | if every computed parent is a group tag no card is its own wanted parent |
| MetaTags.SecondRunIdleIff | scripts/migrate-customer-meta-tags.ts:25-27 | from a converged state a run does nothing iff no card is its own wanted parent |
| MetaTags.SecondRunChangesNothing | scripts/migrate-customer-meta-tags.ts:25-27 | then neither table changes, whatever fails in the second run |
| MetaTags.EdgeReachesSteveIff | scripts/migrate-customer-meta-tags.ts:135-148 | a reparented card's edge reaches StEvE iff its one push goes through, then with the limit -1 for an active card and 0 for another; otherwise the tag is left as it was |
| NotificationBell.Effect.constructor | islands/NotificationBell.tsx:79-139 | mounting gives the specified first state |
| NotificationBell.Effect.OnConnection | islands/NotificationBell.tsx:122-139 | the subscription's callback is the specified step |
| NotificationBell.Effect.TimerFires | islands/NotificationBell.tsx:116-137 | either timer's callback is the specified step |
| NotificationBell.Effect.Cleanup | islands/NotificationBell.tsx:156-165 | the cleanup is the specified step |
| NotificationBell.EveryRunKeeps | islands/NotificationBell.tsx:79-166 | in every run: connected means no interval and no armed resume timer, disconnected means one of them, and not polling within ten seconds of losing the stream |
| NotificationBell.PollingIsTheFallback | islands/NotificationBell.tsx:100-139 | at most one interval is ever live, none while connected, one after ten seconds without the stream |
| NotificationBell.StopTimerChangesNothing | islands/NotificationBell.tsx:115-118 | whenever the 2 s timer fires, polling is already as it would leave it |
| NotificationBell.NothingAfterUnmount | islands/NotificationBell.tsx:156-165 | after the cleanup nothing is live, nothing starts or is fetched and the count stands still |
| NotificationBell.UnreadNeverNegative | islands/NotificationBell.tsx:142-149 | with non-negative server counts the unread count is never negative |
| NotificationBell.UnreadSinceTheLastCount | islands/NotificationBell.tsx:142-149 | the badge shows the server's last count, plus what was created and less what was read since, as long as the reads do not exceed it |
| NotificationBell.ReadsStopAtZero | islands/NotificationBell.tsx:145-149 | reads that exceed it leave zero |
| NotificationBell.WhatFetches | islands/NotificationBell.tsx:85-155 | the server is asked once at each tick, when the page is shown again and when the stream comes up, and at nothing else |
| InvoiceSse.Effect.OnError | hooks/use-invoice-sse.ts:84-95 | the error callback is the specified step |
| InvoiceSse.Effect.Close | hooks/use-invoice-sse.ts:98-111 | the cleanup is the specified step |
| InvoiceSse.EveryRunKeeps | hooks/use-invoice-sse.ts:45-116 | in every run the variables name exactly what is live, connected only with a live source, and the waits of a streak are the backoff's |
| InvoiceSse.OneSourceOrOneTimer | hooks/use-invoice-sse.ts:51-96 | until cleanup there is exactly one live source or one armed timer, after it neither |
| InvoiceSse.ConnectedFollowsTheSource | hooks/use-invoice-sse.ts:60-97 | an open or a heartbeat of the live source connects, its error and the cleanup disconnect |
| InvoiceSse.TimerReconnects | hooks/use-invoice-sse.ts:51-57 | a reconnect timer that fires opens exactly one new source |
| InvoiceSse.WaitsOfAStreak | hooks/use-invoice-sse.ts:89-94 | the waits of a losing streak are 2, 4, 8, 16 and then 30 seconds, never shrinking |
| InvoiceSse.TotalWaitOfAStreak | hooks/use-invoice-sse.ts:89-94 | k ≥ 4 failures in a row wait 30 s times k - 3 in all |
| InvoiceSse.OpenResetsTheStreak | hooks/use-invoice-sse.ts:60-63 | after an open the next failure waits two seconds |
| InvoiceSse.NothingAfterCleanup | hooks/use-invoice-sse.ts:98-115 | no source is opened after the cleanup and none is left |
| SyncWorker.Process.HandleSync | sync-worker.ts:98-135 | a call starts a run or is skipped, as specified |
| SyncWorker.Process.OnNotified | sync-worker.ts:372-383 | a notification calls the handler only when its update of the schedule has settled |
| SyncWorker.Process.OnClose | sync-worker.ts:82-88 | a lost LISTEN connection is replaced unless shutting down |
| SyncWorker.Process.OnSignal | sync-worker.ts:416-430 | the signal stops the scheduler and remembers the promise it found |
| SyncWorker.EveryRunKeeps | sync-worker.ts:63-145 | in every interleaving flag, promise and run in flight coincide, every run started is in flight, awaits its evaluation or had it, and a shutdown handler past its await has no older run in flight |
| SyncWorker.OneSyncAtATime | sync-worker.ts:98-135 | at most one run is in flight; the flag, the promise and the run coincide |
| SyncWorker.CallsAndEvaluations | sync-worker.ts:98-145 | calls are runs plus skips; each run, failed or not, is followed by exactly one evaluation |
| SyncWorker.TicksCall | sync-worker.ts:98-107 | in every run, until a signal, a tick starts one run iff none is in flight and else is skipped; after a signal it does nothing |
| SyncWorker.NotificationsCall | sync-worker.ts:372-383 | so does a notification whose update settles, before and after a signal |
| SyncWorker.RunsEndAndAreEvaluated | sync-worker.ts:128-145 | a run that ends leaves none in flight and then has its evaluation |
| SyncWorker.LostConnectionIsReplacedIff | sync-worker.ts:82-88 | a lost LISTEN connection gets one new client iff no signal has come |
| SyncWorker.NoClientAfterSignal | sync-worker.ts:78-90 | no LISTEN client is created once a signal has arrived |
| SyncWorker.ExitWaitsForTheRunInFlight | sync-worker.ts:426-434 | at exit the run its handler found has ended; a run is in flight iff it started after the signal |
| SyncWorker.ShutdownGoesOnIff | sync-worker.ts:426-434 | a shutdown handler goes on iff the run it found has ended, whatever was started since, and only then may exit |
| SyncWorker.ExitWithoutLateNotification | sync-worker.ts:372-434 | if no notification is pending at the first signal and none follows it, nothing is in flight at the exit |
| SyncWorker.LateNotificationIsCutOff | sync-worker.ts:416-434 | a sync that a later notification starts is cut off by the exit |
| SyncWorker.PendingNotificationIsCutOff | sync-worker.ts:372-434 | so is one whose notification came before the signal and was still updating the schedule |
| PlanAccent.HashString | components/shared/PlanBadge.tsx:31-38 | the shift-and-subtract loop is the magnitude of the signed 32-bit residue of the sum of s[i]·31^(n-1-i) |
| PlanAccent.Concatenation | components/shared/PlanBadge.tsx:31-38 | a concatenation shifts the first polynomial past the second |
| PlanAccent.CodeCounts | components/shared/PlanBadge.tsx:31-38 | a code counts by the power of 31 of its distance from the end |
| PlanAccent.HashOfConcatenation | components/shared/PlanBadge.tsx:31-38 | the signed hash of a concatenation follows from the parts' signed hashes, modulo 2^32 |
| PlanAccent.ResolvePlanAccent | components/shared/PlanBadge.tsx:40-47 | override, else muted without a key, else the palette entry of the hash, always in range |
| PlanAccent.AccentIndex | components/shared/PlanBadge.tsx:37-46 | the index is the polynomial's residue by 8 up to sign, also when the magnitude is 2^31 |
| PlanTiers.SplitConsumedAcrossTiers | components/customer/PlanInfoCard.tsx:83-100 | every prefix of the tiers takes all it can of the consumption |
| PlanTiers.ClosedForm | components/customer/PlanInfoCard.tsx:83-100 | each amount is the consumption left over earlier tiers clamped to the tier; nothing after an unbounded one |
| PlanTiers.CapacityIs | components/customer/PlanInfoCard.tsx:83-100 | a plan holds the sum of its tiers' sizes, without bound iff a tier has none |
| PlanTiers.TotalIsConserved | components/customer/PlanInfoCard.tsx:83-100 | the amounts add up to the consumption or that sum, whichever is less |
| PlanTiers.UsedOnlyWhenEarlierFull | components/customer/PlanInfoCard.tsx:79-82 | a tier is used only if every earlier one is full |
| PlanTiers.MonotoneInConsumption | components/customer/PlanInfoCard.tsx:83-100 | more consumption never lowers a prefix |
| UsageSeries.Accumulate | routes/index.tsx:245-275 | the loop gives the total and, in insertion order, each day's sum |
| UsageSeries.EnumerateDays | src/lib/billing-derive.ts:56-68 | the seeds are the keys of the window's days in order, none for an empty window |
| UsageSeries.SeedIsDistinct | src/lib/billing-derive.ts:56-68 | no day is seeded twice |
| UsageSeries.LoadUsage | routes/index.tsx:243-286 | for events dated in the window the series is one point per seeded day, in order, each the day's sum to three decimals, and the total is the sum of the days before rounding |
| UsageSeries.TotalIsSumOfBuckets | routes/index.tsx:268-274 | with every event dated the total is the sum of the buckets |
| UsageSeries.SeriesNearBuckets | routes/index.tsx:281-286 | the three-decimal series is within 0.0005 per day of the buckets |
| UsageSeries.Fixed3IsThousandths | routes/index.tsx:281-286 | each printed day is a whole number of thousandths, a tie rounded away from zero |
| UsageSeries.BreakdownIsConsistent | components/customer/PeriodBreakdownCard.tsx:36-44 | the card counts the days with a charge, adds them up, divides by their number and shows the first of the largest; average ≤ peak, total ≤ active days times peak |
| UsageSeries.CardTotalNearLoaderTotal | components/customer/PeriodBreakdownCard.tsx:36-44 | for non-negative usage the card's total is within 0.0005 per day of the loader's |
| UsageSeries.WindowTotals | components/customer/PeriodBreakdownCard.tsx:36-44 | so it is for every window and all events dated in it |
| LogRetention.Prune | sync-worker.ts:249-278 | the job is the batches up to the hundredth, a failing one or one with nothing to delete, and reports exactly the rows gone |
| LogRetention.OnlyExpiredRowsGo | sync-worker.ts:253-262 | each row deleted had expired by the clock its own batch read |
| LogRetention.RemovedBounds | sync-worker.ts:253-272 | after b batches as many rows are gone as had expired at the start, or by the last reading of the clock, up to 10,000 a batch |
| LogRetention.JobOutcome | sync-worker.ts:249-278 | without a failure exactly the rows expired at the end are gone, or a hundred batches; with a clock that stands still min(expired, 1,000,000) |

## Left out

- JavaScript's limit on dates, 8.64e15 ms either side of 1970.
- ZonedTime.ExactIff: for offsets under 24 hours and at most one change within a day of the request; more changes are covered only by `LeavingTheMonthIsFatal` and `StayingIterates`.
- RangePicker.ViewerBreaksIff: the viewer's zone changes at most once and its offsets are whole minutes.
- ChargerClock.ChargerBreaksIff: for a `tz` with at most one change, and where a reading is in an earlier month for windows of up to 20 days; with one offset `FixedChargerBreaksIff` covers all windows.
- ChargerClock.ChargerLandsIff and ChargerClock.ChargerBreaksIff: not for 29 February of year 0, which 1900 does not have.
- CalendarPicker.Picker.OnChange: assumes the parent stores the value it is told.
- `Intl.DateTimeFormat` and its `24` for midnight: readings are taken as hours 0..23.
- Arrow and page keys: they are `MoveFocus` and `ShiftMonth` with fixed arguments.
- Backfill: the flag parser, and the provisioner's own decisions, which are a parameter; the role trigger of migration 0018 is one of the faults a transaction may meet.
- MergeDuplicates: tables other than users, mappings, audit rows, sessions and accounts, and the console output; a commit that fails for other reasons.
- MetaTags: the first pass (`ensureCustomerMetaTag`) and the dry run, which only counts and writes nothing; notes, expiry dates and time stamps.
- NotificationBell: the dropdown and its list; timers are taken to fire when due.
- InvoiceSse: the payloads and the cache-busting parameter, which do not affect the connection.
- SyncWorker: the scheduler's choice of cadence, the retry of `setupListen`, the other cron jobs, and the log output.
- PlanTiers, UsageSeries: floating-point rounding other than `toFixed(3)`; quantities are reals.
- Authentication, rate limits, redirects, locale formatting and all markup.
