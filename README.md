# Nurse roster dashboard: the schedule logic

This project models the schedule logic inside a React nurse-rostering
dashboard and proves properties of that model. The dashboard shows a table
with one row per nurse and one column per visible date. It fills missing cells
with OFF shifts, lets the user paint cells in bulk or edit them one at a time,
adds up each nurse's hours, and shades each cell by the nurse's availability.
It also edits each nurse's preferences, groups a month's assignments for a
calendar grid, and keeps a ledger of shift-swap requests.

The model works over abstract civil dates `Date(year, month, day)`, with
weekdays from a proleptic Gregorian day count (0 = Sunday). Shift times are
integer minutes since midnight. Files and modules:

| file | module | models |
|---|---|---|
| `wrappers.dfy` | `Wrappers` | `Option` |
| `digits.dfy` | `Digits` | decimal text and `padStart` |
| `civil_date.dfy` | `CivilDate` | the calendar, and the day and month steps of JS `Date` (`setDate`, `setMonth`, day 0 of the next month) |
| `date_key.dfy` | `DateKey` | the `YYYY-MM-DD` keys, both the `toISOString` form and the template-string form |
| `types.dfy` | `Types` | `types.ts` |
| `clock.dfy` | `Clock` | `HH:mm` text and minutes |
| `catalogue.dfy` | `ShiftCatalogue` | `SHIFT_CONFIG`, the `' - '` split of its ranges, and `STAFF_DATA` |
| `schedule_store.dfy` | `ScheduleStore` | the schedule: lookup, the back-fill effect (a loop method), the single-cell save and the bulk paint |
| `hours.dfy` | `Hours` | `getStaffTotalHours` and the ward total |
| `availability.dfy` | `Availability` | the availability flags and the face of each cell |
| `view_window.dfy` | `ViewWindow` | `visibleDates` (loop methods) and `navigateDate` |
| `staff_form.dfy` | `StaffForm` | the staff dialog: toggles, defaults, `monthDates` (a loop method) and the submitted record |
| `calendar_grid.dfy` | `CalendarGrid` | `CalendarView`: the padded `days` array and `getDaySchedule`, both loop methods |
| `shift_editor.dfy` | `ShiftEditor` | the shift editor dialog, as a class with three fields |
| `swap_form.dfy` | `SwapForm` | the swap dialog, as a class with four fields, plus its submit guard and counterpart filter |
| `dashboard.dfy` | `Dashboard` | the App state as a class, one method per handler; `handleSaveStaff` and `handleSwapRequest` |

Some of the code's behaviour is easy to miss when reading it, and the model
follows the code in each case:

- An empty `allowedShifts` list allows no shift at all. Only a missing list
  allows every shift.
- Saving an edited staff record replaces every record with that id. There is
  no error when the id is unknown, and adding a record does not check whether
  its id is already taken.
- The swap dialog's submit handler never compares the requester with the
  counterpart. When both fields hold the same id, it sends a self-swap.
  Whether the browser lets such a form submit is not modelled (see
  "## Left out").
- A month step keeps the day of the month and lets it overflow: 31 January
  plus one month is 3 March in 2023.
- The staff dialog's date-selection mode is not reset when the dialog is
  initialised again.

## Model

| member | source | states |
|---|---|---|
| `Types.StaffIds` | App.tsx:88 | the roster's ids, one per record and in roster order |
| `CivilDate.DaysInMonth` | App.tsx:71 | a month has 28..31 days, and February has 29 exactly in leap years |
| `CivilDate.Weekday` | App.tsx:52 | `getDay()` is always in 0..6 |
| `CivilDate.NextDay` | App.tsx:60 | the next calendar day is a valid date |
| `CivilDate.PrevDay` | App.tsx:57 | the previous calendar day is a valid date |
| `CivilDate.AddDays` | App.tsx:168-169 | `setDate(getDate() + n)` gives a valid date |
| `CivilDate.AddMonths` | App.tsx:170 | `setMonth(getMonth() + k)` gives a valid date |
| `CivilDate.DayZeroOfNextMonth` | App.tsx:71 | `new Date(y, m + 1, 0)` is a valid date |
| `CivilDate.DaysBeforeNextYear` | App.tsx:57 | consecutive years are one year length apart on the day count |
| `CivilDate.NextDayNumber` | App.tsx:60 | the next day is one further on the day count |
| `CivilDate.PrevDayNumber` | App.tsx:57 | the previous day is one back on the day count |
| `CivilDate.NextOfPrev` | App.tsx:57 | stepping back one day and then forward one day returns the same date |
| `CivilDate.AddDaysNumber` | App.tsx:168-169 | adding n days moves the day count by exactly n, for any sign of n |
| `CivilDate.DayNumberInjective` | App.tsx:57-60 | two valid dates with the same day count are the same date |
| `CivilDate.MonthsApart` | App.tsx:72-73 | within a year, an earlier month comes earlier on the day count |
| `CivilDate.NextDayWeekday` | App.tsx:63 | the weekday of the next day is one further, mod 7 |
| `CivilDate.WeekdayAfter` | App.tsx:57-63 | n days later the weekday is n further, mod 7 |
| `CivilDate.DayZeroIsLastDay` | App.tsx:71 | day 0 of the next month is the last day of this month |
| `CivilDate.AddDaysWithinMonth` | App.tsx:60 | adding days within the month changes only the day field |
| `CivilDate.AddMonthsKeepsDay` | App.tsx:170 | when the day fits the target month, the month step keeps the day |
| `CivilDate.AddMonthsOverflows` | App.tsx:170 | when the day does not fit, the date overflows into the following month |
| `CivilDate.InitialPivotIsTuesday` | App.tsx:25 | the starting date, 17 October 2023, is a Tuesday |
| `CivilDate.JanuaryThirtyFirstPlusOneMonth` | App.tsx:170 | 31 January 2023 plus one month is 3 March 2023 |
| `DateKey.YearTextFacts` | App.tsx:51 | years 0..9999 are written as four digits that read back as the year |
| `DateKey.ParseIsoKeyRoundTrip` | App.tsx:339 | reading back the key of a date gives that date |
| `DateKey.IsoKeyInjective` | App.tsx:62 | two dates have the same key if and only if they are the same date |
| `DateKey.TemplateKeyIsIsoKey` | components/CalendarView.tsx:31 | for four-digit years the template key equals the `toISOString` key, so the calendar reads the same cells as the main table |
| `DateKey.TemplateKeyShortYear` | components/StaffModal.tsx:69 | for year 999 the two kinds of key differ |
| `Digits.PadStart` | components/StaffModal.tsx:69 | `padStart` keeps the text at the end and fills the start with the pad character up to the width |
| `Digits.NatToStringValue` | components/CalendarView.tsx:31 | the decimal text of a number reads back as that number |
| `Digits.PaddedValue` | components/CalendarView.tsx:31 | zero padding does not change the value the text reads as |
| `Digits.Pad2Facts` | components/StaffModal.tsx:69 | a number below 100 padded to two digits is exactly two digits with that value |
| `Clock.ClockMinutes` | types.ts:23-24 | an `HH:mm` text is a minute of the day in 0..1439 |
| `Clock.FormatThenRead` | types.ts:23-24 | formatting a minute of the day as `HH:mm` and reading it back gives the same minute |
| `Clock.ReadThenFormat` | types.ts:23-24 | reading an `HH:mm` text and formatting it again gives the same text |
| `ShiftCatalogue.Split` | App.tsx:129 | a split always yields at least one part |
| `ShiftCatalogue.SplitClockRange` | components/ShiftEditorModal.tsx:36 | splitting `a - b` on `' - '` gives exactly `[a, b]` |
| `ShiftCatalogue.TimeRangeSplits` | constants.tsx:5-40 | each working type's range splits into two `HH:mm` texts; OFF's range is the one word `OFF` |
| `ShiftCatalogue.ConfigRangeParts` | constants.tsx:16-30 | the two halves of each working range are 08:00/16:00, 16:00/00:00 and 00:00/08:00 |
| `ShiftCatalogue.DefaultTimes` | App.tsx:129 | both default times of a type are valid `HH:mm` texts |
| `ShiftCatalogue.DefaultTimesOf` | components/ShiftEditorModal.tsx:34-38 | a working type's default times are the halves of its range |
| `ShiftCatalogue.DefaultShift` | App.tsx:128-129 | the default shift has the chosen type and valid times, and OFF gives 00:00 to 00:00 |
| `ShiftCatalogue.DefaultShiftMinutes` | constants.tsx:16-37 | the defaults in minutes: Morning 480..960, Afternoon 960..0, Night 0..480, OFF 0..0 |
| `ShiftCatalogue.StaffData` | constants.tsx:42-78 | five seed records with no phone and no preferences (avatar URLs not carried) |
| `ShiftCatalogue.StaffDataIds` | constants.tsx:42-78 | the seed ids are s1..s5 and pairwise distinct |
| `ScheduleStore.FindFrom` | App.tsx:89 | `find` returns the first row with the id, and None exactly when no row has it |
| `ScheduleStore.ShiftOrOff` | App.tsx:143-144 | the editor opens on the stored shift, or on OFF when there is none |
| `ScheduleStore.FillDates` | App.tsx:94-98 | filling one row adds exactly the missing dates, as OFF, and keeps every existing shift |
| `ScheduleStore.SyncSchedule` | App.tsx:85-102 | the nested back-fill loops compute the back-fill function |
| `ScheduleStore.GrowsKeepsFind` | App.tsx:89-93 | after rows are only added, `find` still returns the same row for an id it found before |
| `ScheduleStore.GrowsKeepsCover` | App.tsx:94-98 | a row that covered the dates still covers them after rows grow |
| `ScheduleStore.FillStaffFacts` | App.tsx:88-98 | one staff step keeps every row and shift, covers that id and adds at most one row, only for an id with no row |
| `ScheduleStore.FillStaffCovered` | App.tsx:90-98 | a staff step for an already covered id changes nothing |
| `ScheduleStore.BackFillGrows` | App.tsx:85-102 | the back-fill removes and overwrites nothing; new rows belong to roster ids and every added shift is OFF |
| `ScheduleStore.BackFillCovers` | App.tsx:85-102 | afterwards every roster id has a row with a shift on every visible date |
| `ScheduleStore.BackFillNoDup` | App.tsx:89-93 | the back-fill never gives an id a second row |
| `ScheduleStore.BackFillCoveredIsIdentity` | App.tsx:95 | a schedule that already covers the roster is left unchanged |
| `ScheduleStore.BackFillIdempotent` | App.tsx:85-102 | running the back-fill twice equals running it once |
| `ScheduleStore.BackFillOneRowEach` | App.tsx:85-102 | each roster id ends with exactly one row, holding every visible date |
| `ScheduleStore.SetCell` | App.tsx:157-162 | writing one cell keeps the number of rows and each row's staff id |
| `ScheduleStore.SetCellThenRead` | App.tsx:157-162 | reading the written cell gives the new shift, when the id has a row; every other cell reads as before |
| `ScheduleStore.SetCellFrame` | App.tsx:157-162 | rows of other ids are untouched, and the written row changes only at that date |
| `ScheduleStore.SetCellNoDup` | App.tsx:157-162 | writing a cell keeps one row per id |
| `ScheduleStore.BulkPaint` | App.tsx:126-141 | bulk paint writes the type's default shift into that one cell, and every other cell is unchanged |
| `ScheduleStore.SaveShiftDetails` | App.tsx:155-164 | with no active cell nothing changes; otherwise exactly that one cell is written |
| `Hours.ShiftMinutes` | App.tsx:116-122 | OFF counts 0; otherwise end minus start, plus 1440 once when negative, which for valid times lies in 0..1439 and wraps start onto end |
| `Hours.SumRemove` | App.tsx:116 | the sum over a row does not depend on the order of its entries |
| `Hours.SumAllOff` | App.tsx:117 | a row of OFF shifts totals 0 |
| `Hours.SumBounds` | App.tsx:116-123 | a row's total lies between 0 and 1440 times its number of shifts |
| `Hours.SumUpdate` | App.tsx:116-123 | overwriting one entry changes the total by the new length minus the old |
| `Hours.SumExtendOff` | App.tsx:116-123 | adding only OFF entries leaves the total unchanged |
| `Hours.StaffTotalMinutes` | App.tsx:113-124 | an id with no row totals 0, and a row of valid shifts totals 0..1440 per shift |
| `Hours.DefaultShiftLengths` | constants.tsx:16-30 | each default working shift is 480 minutes, including the Afternoon shift across midnight; OFF is 0 |
| `Hours.BackFillKeepsHours` | App.tsx:85-124 | the back-fill changes no nurse's total |
| `Hours.BackFillKeepsWardHours` | App.tsx:269 | the back-fill changes no ward total |
| `Hours.SetCellHours` | App.tsx:155-164 | saving a cell changes the nurse's total by the new length minus the old |
| `Hours.BulkPaintOnOffAddsEightHours` | App.tsx:126-141 | painting a working type over an empty or OFF cell adds exactly 480 minutes |
| `Availability.KeyWeekday` | App.tsx:339 | the weekday read from a key is in 0..6 when the key reads as a date |
| `Availability.WeeklyUnavailableOfDate` | App.tsx:343 | the weekly flag holds exactly when the date's weekday is an unavailable day |
| `Availability.UnreadableKeyNotWeekly` | App.tsx:339-343 | a key that does not read as a date is never weekly-unavailable |
| `Availability.NoPreferencesAllowsAll` | App.tsx:342-347 | without preferences, nothing is blocked or preferred, every shift is allowed and nothing is dimmed |
| `Availability.EmptyAllowedListAllowsNothing` | App.tsx:345 | an empty allowed list allows no shift, and every working shift is dimmed in bulk mode |
| `Availability.OffNeverDimmed` | App.tsx:345 | painting OFF is never dimmed |
| `Availability.DefaultAllowedList` | App.tsx:345 | with the default list, exactly the working shifts are allowed, and none are dimmed |
| `Availability.CellView` | App.tsx:355-377 | a cell always renders; it shows times exactly when its shift is a working one; a blocked OFF cell is blocked; the preferred face needs preferred and not blocked |
| `Availability.BlockedBeatsPreferred` | App.tsx:362-371 | on an empty or OFF cell, a blocked date shows blocked even when it is also preferred |
| `Availability.WorkingShiftShowsTimes` | App.tsx:355-358 | a working cell shows its catalogue label and its stored times |
| `Availability.CellViewAgreesOnStoredShifts` | App.tsx:355-377 | for a stored shift, the as-written and the corrected cell agree |
| `Availability.FirstRenderFails` | App.tsx:355-358 | in the first render the schedule is empty, so the as-written cell fails and the corrected one renders |
| `Availability.BackFilledCellsRender` | App.tsx:85-102 | after the back-fill every visible cell of every roster id renders as written |
| `ViewWindow.StartOfWeek` | App.tsx:56-57 | the start of the week is a valid date |
| `ViewWindow.StartOfWeekFacts` | App.tsx:56-57 | the start of the week is a Sunday, the pivot's weekday count of days before it |
| `ViewWindow.WindowDates` | App.tsx:45-83 | every date in a window is valid |
| `ViewWindow.Slot` | App.tsx:61-66 | a column holds the date's key and day name; it is today exactly on today; the weekend flag is set only when asked for, and it holds exactly on weekday 0 or 6 |
| `ViewWindow.VisibleDates` | App.tsx:45-83 | the loops build exactly one column per window date, in order |
| `ViewWindow.WeekColumns` | App.tsx:55-67 | the week loop builds the seven week columns |
| `ViewWindow.MonthColumns` | App.tsx:68-80 | the month loop builds one column per day of the month |
| `ViewWindow.WindowKeys` | App.tsx:62 | the window's keys are the keys of its dates, in order |
| `ViewWindow.DayWindow` | App.tsx:49-54 | the day view is one column, for the pivot, with no weekend flag |
| `ViewWindow.WeekWindow` | App.tsx:55-67 | the week view is seven consecutive dates from the Sunday on or before the pivot to the Saturday after it, and contains the pivot |
| `ViewWindow.MonthWindow` | App.tsx:68-80 | the month view is days 1..n of the pivot's month, where n is the month's length |
| `ViewWindow.WeekendFlag` | App.tsx:65 | in the week and month views a column is a weekend exactly when its weekday is 0 or 6 |
| `ViewWindow.WindowConsecutive` | App.tsx:55-80 | each window's dates are consecutive, in ascending order |
| `ViewWindow.WindowKeysDistinct` | App.tsx:49-80 | a window's keys are pairwise distinct |
| `ViewWindow.Ascending` | App.tsx:58-60 | in a run of consecutive dates, date j is j - i days after date i |
| `ViewWindow.Navigate` | App.tsx:166-172 | navigation always gives a valid date |
| `ViewWindow.NavigateDayCount` | App.tsx:168-169 | the day view moves amount days and the week view moves 7 times amount days |
| `ViewWindow.NavigateWeekShiftsWindow` | App.tsx:169 | a week step keeps the weekday and moves the whole week window by 7 times amount days |
| `ViewWindow.NavigateBackAndForth` | App.tsx:166-172 | in the day and week views, moving by amount and then by -amount returns to the pivot |
| `ViewWindow.NavigateMonthKeepsDay` | App.tsx:170 | in the month views a day up to 28 is kept, and the month moves by amount with the year carried |
| `ViewWindow.NavigateMonthBackAndForth` | App.tsx:170 | for a day up to 28, a month step forth and back returns to the pivot |
| `ViewWindow.MonthStepSkipsFebruary` | App.tsx:170 | one month on from 31 January 2023 is 3 March, so the next month view shows March and February is skipped |
| `StaffForm.Without` | components/StaffModal.tsx:90 | `filter(x => x !== v)` keeps exactly the elements other than v, and never grows the list |
| `StaffForm.ToggleFlips` | components/StaffModal.tsx:88-98 | a toggle flips the toggled value's membership and no other value's |
| `StaffForm.ToggleTwice` | components/StaffModal.tsx:94-98 | toggling twice restores membership, and restores the list itself when the value was absent |
| `StaffForm.WithoutAbsent` | components/StaffModal.tsx:103 | removing an absent value leaves the list as it was |
| `StaffForm.WithoutAppended` | components/StaffModal.tsx:90 | removing a value just appended gives the same list as removing it before the append |
| `StaffForm.WithoutKeepsDistinct` | components/StaffModal.tsx:103 | removing a value keeps a list free of duplicates |
| `StaffForm.ToggleKeepsDistinct` | components/StaffModal.tsx:88-98 | toggling keeps a list free of duplicates |
| `StaffForm.ToggleDateFacts` | components/StaffModal.tsx:100-108 | the date toggle flips membership in the current mode's list and removes the date from the other list; other dates, fields and disjointness are kept |
| `StaffForm.OtherTogglesFlip` | components/StaffModal.tsx:88-98 | the weekday and shift toggles flip membership, change only their own list, and twice restore membership |
| `StaffForm.InitForm` | components/StaffModal.tsx:34-58 | initialising keeps the selection mode in place |
| `StaffForm.InitDefaults` | components/StaffModal.tsx:45 | for a new record, or one without an allowed list, the list is Morning, Afternoon and Night |
| `StaffForm.InitKeepsEmptyAllowedList` | components/StaffModal.tsx:45 | a stored empty allowed list is loaded as empty, not replaced by the default |
| `StaffForm.Submit` | components/StaffModal.tsx:72-86 | a record is submitted exactly when the name and the role are both filled in |
| `StaffForm.SubmitIdentity` | components/StaffModal.tsx:74-84 | an edit keeps the id and status, a new record gets the fresh id and status offline, and the preferences are exactly the four edited lists |
| `StaffForm.EditRoundTrip` | components/StaffModal.tsx:34-86 | opening a record with full preferences and submitting it unchanged gives the same record |
| `StaffForm.EditAddsDefaultPreferences` | components/StaffModal.tsx:42-45 | a record without preferences comes back with empty lists and the default allowed shifts |
| `StaffForm.MarkedUnavailableBlocks` | components/StaffModal.tsx:100-103 | a date marked in unavailable mode is blocked for the saved record and not preferred |
| `StaffForm.MonthDates` | components/StaffModal.tsx:62-70 | the loop gives one zero-padded key per day of the month, in day order |
| `StaffForm.MonthDatesAreMonthViewKeys` | components/StaffModal.tsx:62-70 | for four-digit years those keys are the month view's keys, one for one |
| `CalendarGrid.CalendarDays` | components/CalendarView.tsx:17-28 | the grid is one blank per weekday before the 1st, then the days 1..n in order |
| `CalendarGrid.NameOf` | components/CalendarView.tsx:42 | the name of the first record with the id, or the empty string when there is none |
| `CalendarGrid.GetDaySchedule` | components/CalendarView.tsx:30-47 | each working type's list holds the names for the zero-padded key, and the OFF list is empty |
| `CalendarGrid.GroupByShift` | components/CalendarView.tsx:39-44 | the grouping loop pushes exactly the names of the rows working each type, in row order |
| `CalendarGrid.NamesForRows` | components/CalendarView.tsx:39-44 | a name is listed under a type exactly when some row works that type on the date |
| `CalendarGrid.NamesForOffEmpty` | components/CalendarView.tsx:41 | no name is ever listed under OFF |
| `CalendarGrid.NoShiftNoName` | components/CalendarView.tsx:41 | a row with no shift on the date adds nothing |
| `CalendarGrid.UnknownStaffHasEmptyName` | components/CalendarView.tsx:42 | an id missing from the roster is listed with an empty name |
| `CalendarGrid.NamesForCount` | components/CalendarView.tsx:39-44 | the number of names under a type is the number of rows working it |
| `ShiftEditor.Editor.constructor` | components/ShiftEditorModal.tsx:16-18 | the editor starts on the cell's shift |
| `ShiftEditor.Editor.Reset` | components/ShiftEditorModal.tsx:20-24 | a new cell shift reloads all three fields |
| `ShiftEditor.Editor.ChangeType` | components/ShiftEditorModal.tsx:28-40 | choosing a type loads its default shift; OFF gives 00:00 to 00:00 |
| `ShiftEditor.Editor.SetStartTime` | components/ShiftEditorModal.tsx:76-77 | the start input changes only the start, unchecked |
| `ShiftEditor.Editor.SetEndTime` | components/ShiftEditorModal.tsx:85-86 | the end input changes only the end, unchecked |
| `ShiftEditor.Editor.Save` | components/ShiftEditorModal.tsx:97 | save emits exactly the type, start and end held |
| `ShiftEditor.EditorTypeMatchesBulkPaint` | components/ShiftEditorModal.tsx:28-40 | choosing a type in the editor and saving writes the same cell as a bulk paint of that type |
| `ShiftEditor.TypeThenOff` | components/ShiftEditorModal.tsx:30-33 | after any type and then OFF, the editor holds OFF 00:00 to 00:00 |
| `SwapForm.SubmitOf` | components/SwapRequestModal.tsx:20-26 | nothing is sent when the requester, the counterpart or the date is empty; otherwise exactly the four entered values |
| `SwapForm.CounterpartOptions` | components/SwapRequestModal.tsx:75 | the counterpart options are exactly the roster records whose id is not the requester's |
| `SwapForm.Form.constructor` | components/SwapRequestModal.tsx:13-16 | all four fields start empty |
| `SwapForm.Form.SetFromStaff` | components/SwapRequestModal.tsx:48 | the requester select changes only the requester |
| `SwapForm.Form.SetDate` | components/SwapRequestModal.tsx:62 | the date input changes only the date |
| `SwapForm.Form.SetToStaff` | components/SwapRequestModal.tsx:73 | the counterpart select changes only the counterpart |
| `SwapForm.Form.SetReason` | components/SwapRequestModal.tsx:86 | the reason box changes only the reason |
| `SwapForm.Form.Submit` | components/SwapRequestModal.tsx:20-26 | submit applies the guard to the current fields |
| `SwapForm.ReasonIsOptional` | components/SwapRequestModal.tsx:81-87 | an empty reason never blocks a request |
| `SwapForm.SelfSwapPasses` | components/SwapRequestModal.tsx:20-22 | when both fields hold the same id, the submit handler's guard lets the request through with the same nurse on both sides |
| `Dashboard.InitialStaffList` | App.tsx:26-28 | the starting roster is the five seed records, ids s1..s5, each with phone 081-234-5678 |
| `Dashboard.SaveStaff` | App.tsx:104-111 | an edit replaces every record with the saved id and keeps the rest in place; an add appends |
| `Dashboard.SaveStaffEditKeepsIds` | App.tsx:106 | an edit keeps the roster's ids, so the back-fill sees the same ids |
| `Dashboard.SaveStaffEditUnknownIsNoOp` | App.tsx:106 | an edit for an id not on the roster changes nothing |
| `Dashboard.SaveStaffAddDistinct` | App.tsx:108 | with distinct ids, an add keeps them distinct exactly when the new id is fresh |
| `Dashboard.AddThenEdit` | App.tsx:104-111 | adding a record and then editing it leaves one copy, the edited one, at the end |
| `Dashboard.AppendSwapRequest` | App.tsx:175-185 | the request is appended as pending with the four entered values, and earlier requests are unchanged |
| `Dashboard.FirstBackFillIsAllOff` | App.tsx:29 | from the empty starting schedule, the first back-fill gives every roster id OFF on every visible date |
| `Dashboard.App.constructor` | App.tsx:23-41 | the dashboard starts in the week view on 17 October 2023 with the seed roster, an empty schedule and ledger, and bulk mode off on Morning |
| `Dashboard.App.RunBackFill` | App.tsx:85-102 | the effect replaces the schedule with its back-fill and changes nothing else; every roster id then has exactly one row covering every visible date, and the schedule keeps at most one row per id |
| `Dashboard.App.SetView` | App.tsx:290 | the view buttons change only the view |
| `Dashboard.App.NavigateDate` | App.tsx:166-172 | navigation changes only the pivot date |
| `Dashboard.App.ToggleBulkMode` | App.tsx:250 | the bulk button flips only bulk mode |
| `Dashboard.App.SelectBulkShift` | App.tsx:256 | the type buttons change only the selected bulk type |
| `Dashboard.App.OpenStaffDialog` | App.tsx:215 | opening the staff dialog sets only the record being edited |
| `Dashboard.App.SaveStaffRecord` | App.tsx:104-111 | saving updates the roster and clears the record being edited |
| `Dashboard.App.ShiftCellClick` | App.tsx:126-153 | in bulk mode a click paints the cell; otherwise it opens the editor on the cell's shift, or on OFF when there is none; the schedule keeps at most one row per id |
| `Dashboard.App.SaveShiftDetailsHandler` | App.tsx:155-164 | with no active cell nothing changes; otherwise the cell is written and the editor closes; the schedule keeps at most one row per id |
| `Dashboard.App.SwapRequestHandler` | App.tsx:175-185 | a swap request is appended to the ledger and nothing else changes |

## Findings

| source | as written | input that shows it | evidently intended | confidence | as-written member | corrected member |
|---|---|---|---|---|---|---|
| App.tsx:355-358 | `shift?.type !== 'OFF'` holds when `shift` is undefined, so the cell then reads `shift.startTime` | the first render: the schedule is `[]` until the back-fill effect has run, so every cell's shift is undefined | a cell with no shift renders like an OFF cell, as the `shift?.type \|\| 'OFF'` lookup at App.tsx:338 already assumes | not executed | `Availability.CellViewAsWritten` (with `Availability.FirstRenderFails`) | `Availability.CellView` |

## Left out

- Time zones. `toISOString()` on a local-midnight date and `new Date(key)` parsed as UTC can move a day by one. The model works on civil dates in one zone.
- Parsing of keys that are not calendar dates. For such a key, `new Date(key).getDay()` is NaN. The model reads it as "no weekday", so the weekly flag is false.
- Float arithmetic. Hours are integer minutes here, with no `/ 60`, no `toFixed(1)` and no `Math.round` of the ward total.
- The wall clock. "Today" (`new Date()`) and the `Date.now()` ids of new staff and swap requests are parameters. Nothing makes those ids unique.
- The "on duty today" count at App.tsx:268, which depends on the wall clock.
- Rendering. The model has no JSX, CSS classes, Thai labels, `alert` calls, or open and close flags of the dialogs other than the shift editor's.
- The header, the stats cards and the LLM insights call. They are presentation or a foreign network call.
- React scheduling. Each handler and effect is one state transition. The model has no batching or dependency-array re-runs.
- Aliasing. The back-fill mutates row objects that the previous state shares. The model computes a new value.
- Browser behaviour of a `select` whose value is not among its options.
- `SwapForm.SelfSwapPasses`: states what the submit handler does with equal ids. It does not say whether the dialog can reach that state. Once the requester is set, the counterpart list (components/SwapRequestModal.tsx:75) no longer offers that id, and the `required` select (:69) may then block the submit before the handler runs.
- `ShiftCatalogue.StaffData`: the seed records have no `phone` field, so the model stores the empty string; App.tsx:27 fills the phone in.
- `ShiftCatalogue.StaffData`: the avatar URLs of constants.tsx:47,54,61,68,75 are replaced by the empty string. No operation of the model reads them, and as string literals of over 200 characters each they would enlarge every proof about the roster.
- The staff dialog's calendar padding (`firstDay` blanks).
- `StaffForm.InitForm`: states only the selection mode; the other fields are stated by `InitDefaults`, `InitKeepsEmptyAllowedList`, `EditRoundTrip` and `EditAddsDefaultPreferences`.
- `ShiftEditor.Editor`: the time inputs hold minutes, so an emptied time input (the empty string) is not represented.
- `Hours.StaffTotalMinutes`: a sum of minutes, not the float hours the dashboard shows.
- `CalendarGrid`: the calendar view is built but never shown by the dashboard, whose Calendar view shows an empty table. It is modelled on its own inputs.
- `ViewWindow.NavigateMonthKeepsDay`: stated only for days up to 28; beyond that `CivilDate.AddMonthsOverflows` states the overflow.
- `DateKey.TemplateKeyIsIsoKey`: stated only for four-digit years, where the two kinds of key agree; `DateKey.TemplateKeyShortYear` shows they differ elsewhere.
