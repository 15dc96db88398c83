# Essentials attendance pipeline and memos, modelled in Dafny

This project models two parts of the Essentials module of a Laravel point-of-sale
application.

**Attendance.** A fingerprint device exports two `.dat` files. The user file lists
employee codes and names. The log file lists punches, one `code datetime` pair per
line. `AttendanceProcessingService` does the following:

- parses both files;
- resolves each device code to an application user. It tries the employee settings
  first, then a fuzzy name match. A name match records the code in the settings;
- groups the punches by user and day;
- writes one detail row and one daily summary row per user and day. The first punch
  is clock-in and the last is clock-out. Lateness is measured against the employee's
  start time plus the grace minutes;
- exports summaries to CSV and builds a payroll summary.

Around the service:

- `EssentialsAttendanceSummary` and `EssentialsEmployeeSettings` provide the status
  predicates, query scopes and percentages.
- `EnhancedAttendanceController` builds the dashboard figures, the inactive-employee
  list, the 21-day calendar of one employee, and the create/update/delete of employee
  settings.

**Memos.** `MemoController` and `Memo` implement internal memos:

- A sender writes a memo to `to`, `cc` and `bcc` recipients, with attachments. It is
  saved as a draft or sent.
- Recipients and the sender can read it. The first view by a recipient marks their
  row read.
- Only the sender can edit a draft, and only the sender can delete a memo. Deleting
  cascades to its recipients and attachments.

Modules:

| module | file | what it holds |
|---|---|---|
| `Common` | common.dfy | `Option`, `Filter`/`Count`/`FirstIndex`/`FilterMap`, rounding to two decimals, truncating division |
| `Text` | text.dfy | the PHP string functions used: `trim`, `explode`, whitespace split, `strtolower`, `ucwords`, `implode` |
| `Calendar` | calendar.dfy | day numbers (day 0 is 1970-01-01, a Thursday), time of day, weekday (0 is Sunday), the `Y-m-d` rendering |
| `Tables` | tables.dfy | a table as a sequence of rows in id order, `first()` lookup by key, `updateOrCreate` |
| `EmployeeSettings` | employee_settings.dfy | the settings row with its database defaults, its predicates and scopes |
| `AttendanceSummary` | attendance_summary.dfy | the summary row, its predicates, scopes and percentages |
| `AttendanceDb` | attendance_db.dfy | the `Store` class holding the settings, detail and summary tables |
| `DeviceParsing` | device_parsing.dfy | `parseUserData` and `parseAttendanceData` |
| `Resolver` | resolver.dfy | `findUserIdByCode` |
| `Grouping` | grouping.dfy | the per-user, per-day grouping of punches |
| `AttendanceDay` | attendance_day.dfy | `processDayAttendance` |
| `Import` | import.dfy | `processAttendanceFromFiles` |
| `Reports` | reports.dfy | the CSV export and the payroll summary |
| `Dashboard` | dashboard.dfy | the read-only figures of `EnhancedAttendanceController` |
| `SettingsAdmin` | settings_admin.dfy | storing and deleting employee settings |
| `Memos` | memo.dfy | the memo, recipient and attachment rows and the `Memo` relations |
| `MemoControl` | memo_controller.dfy | the `MemoDb` class and every `MemoController` action |

Modelling conventions:

- A table is a sequence of rows in id order, so `first()` returns the first match.
- `updateOrCreate` replaces the first row whose key matches, or else appends a row
  that takes the column defaults. The method that does the writing is a `method` on
  the `Store` or `MemoDb` class. It is proved equal to a function of the old table,
  and the lemmas are about that function.
- Times of day are seconds after midnight. Instants are seconds since the epoch.
  Dates are day numbers.

## Model

| member | source | states |
|---|---|---|
| `EmployeeSettings.DefaultRow` | database/migrations/2025_09_12_add_enhanced_attendance_fields.php:43-59 | a new settings row has no code, status `active`, 08:00 to 17:00, 15 grace minutes and working days Monday to Friday |
| `EmployeeSettings.ActiveInactiveExclusive` | Modules/Essentials/Entities/EssentialsEmployeeSettings.php:38-49 | no row is both active and inactive; a `suspended` row is neither |
| `EmployeeSettings.EffectiveWorkingDays` | Modules/Essentials/Entities/EssentialsEmployeeSettings.php:67-71 | the working days are never empty: an empty list falls back to Monday to Friday, otherwise the stored list is used |
| `EmployeeSettings.DefaultWorkingDaysAreWeekdays` | Modules/Essentials/Entities/EssentialsEmployeeSettings.php:67-71 | with no stored list, a weekday number is a working day exactly when it is 1 to 5 |
| `EmployeeSettings.WorkingDayNames` | Modules/Essentials/Entities/EssentialsEmployeeSettings.php:54-62 | each stored number 0 to 6 (Sunday to Saturday) gives its own day name, in stored order, and every other number is dropped: the list is the stored numbers mapped through the name table with misses filtered out, one name per valid number |
| `EmployeeSettings.WorkingDayNamesInOrder` | Modules/Essentials/Entities/EssentialsEmployeeSettings.php:54-62 | a valid stored number with j valid numbers before it gives the j-th name of the list, and that name is its own day's |
| `EmployeeSettings.WorkingDaysTextShape` | Modules/Essentials/Entities/EssentialsEmployeeSettings.php:54-62 | the text is the names of the valid stored days joined by `, `; it is empty when no day number is valid, and otherwise holds one comma fewer than there are valid days |
| `EmployeeSettings.DefaultWorkingDaysText` | database/migrations/2025_09_12_add_enhanced_attendance_fields.php:55 | a row with the default working days reads `Monday, Tuesday, Wednesday, Thursday, Friday` |
| `EmployeeSettings.ExpectedWorkHours` | Modules/Essentials/Entities/EssentialsEmployeeSettings.php:76-82 | the whole number of hours between start and end time, in either direction, truncated |
| `EmployeeSettings.ExpectedWorkHoursSymmetric` | Modules/Essentials/Entities/EssentialsEmployeeSettings.php:76-82 | swapping start and end times gives the same hours (the difference is absolute) |
| `EmployeeSettings.ActiveScope` | Modules/Essentials/Entities/EssentialsEmployeeSettings.php:87-90 | keeps exactly the rows whose status is `active` |
| `EmployeeSettings.InactiveScope` | Modules/Essentials/Entities/EssentialsEmployeeSettings.php:95-98 | keeps exactly the rows whose status is `inactive` |
| `EmployeeSettings.ForBusiness` | Modules/Essentials/Entities/EssentialsEmployeeSettings.php:103-106 | keeps exactly the rows of the business |
| `AttendanceSummary.PresentAbsentExclusive` | Modules/Essentials/Entities/EssentialsAttendanceSummary.php:40-59 | no row is both present and absent; a `present` or `absent` row is late exactly when it has late minutes |
| `AttendanceSummary.StatusColor` | Modules/Essentials/Entities/EssentialsAttendanceSummary.php:72-88 | each of the four known statuses maps to its own colour, and every other status to `secondary` (both directions) |
| `AttendanceSummary.StatusText` | Modules/Essentials/Entities/EssentialsAttendanceSummary.php:93-96 | the label has the length of the status |
| `AttendanceSummary.StatusTextChars` | Modules/Essentials/Entities/EssentialsAttendanceSummary.php:93-96 | each character of the label is the status character with `_` made a space and word starts upper-cased; no `_` remains |
| `AttendanceSummary.PartialDayText` | Modules/Essentials/Entities/EssentialsAttendanceSummary.php:93-96 | `partial_day` reads `Partial Day` |
| `AttendanceSummary.PresentScope` | Modules/Essentials/Entities/EssentialsAttendanceSummary.php:148-151 | keeps exactly the rows whose status is `present`, `late` or `partial_day` |
| `AttendanceSummary.AbsentScope` | Modules/Essentials/Entities/EssentialsAttendanceSummary.php:156-159 | keeps exactly the `absent` rows |
| `AttendanceSummary.LateScope` | Modules/Essentials/Entities/EssentialsAttendanceSummary.php:164-167 | keeps exactly the rows with positive late minutes |
| `AttendanceSummary.WorkingDaysScope` | Modules/Essentials/Entities/EssentialsAttendanceSummary.php:172-175 | keeps exactly the rows that are neither weekend nor holiday |
| `AttendanceSummary.ForBusiness` | Modules/Essentials/Entities/EssentialsAttendanceSummary.php:180-183 | keeps exactly the rows of the business |
| `AttendanceSummary.DateRangeScope` | Modules/Essentials/Entities/EssentialsAttendanceSummary.php:188-191 | keeps exactly the rows dated within the inclusive range |
| `AttendanceSummary.LateScopeVersusIsLate` | Modules/Essentials/Entities/EssentialsAttendanceSummary.php:48-51 | every row of the late scope is late; a late row missing from the scope has status `late` and no late minutes |
| `AttendanceSummary.DateRangeEdges` | Modules/Essentials/Entities/EssentialsAttendanceSummary.php:188-191 | a one-day range selects that day's rows; an inverted range selects nothing |
| `AttendanceSummary.RoundedPercentage` | Modules/Essentials/Entities/EssentialsAttendanceSummary.php:116-118 | zero for an empty base; otherwise within 0.005 of the exact ratio, and between 0 and 100 |
| `AttendanceSummary.AttendancePercentage` | Modules/Essentials/Entities/EssentialsAttendanceSummary.php:101-119 | rows with status present, late or partial_day over the user's working-day rows in the business and optional range, within 0.005 of the exact ratio, in [0, 100], 0 with no rows |
| `AttendanceSummary.PunctualityPercentage` | Modules/Essentials/Entities/EssentialsAttendanceSummary.php:124-143 | present or late working-day rows with 0 late minutes over all present or late working-day rows, within 0.005 of the exact ratio, in [0, 100], 0 with no such rows |
| `AttendanceSummary.AttendanceExtremes` | Modules/Essentials/Entities/EssentialsAttendanceSummary.php:101-119 | 100 when every counted row is attended, 0 when none is |
| `Calendar.DateOf` | Modules/Essentials/Services/AttendanceProcessingService.php:27 | the day containing an instant |
| `Calendar.TimeOfDay` | Modules/Essentials/Services/AttendanceProcessingService.php:194-195 | seconds after midnight, below one day, and day start plus time of day is the instant |
| `Calendar.DateString` | Modules/Essentials/Http/Controllers/EnhancedAttendanceController.php:216 | `toDateString()` renders a day as `Y-m-d`, digits and dashes only |
| `Calendar.DateStringEpoch` | Modules/Essentials/Http/Controllers/EnhancedAttendanceController.php:216 | day 0 renders as `1970-01-01` |
| `Calendar.CivilDateSamples` | Modules/Essentials/Http/Controllers/EnhancedAttendanceController.php:216 | day 0 is 1970-01-01 and day 19723 is 2024-01-01 |
| `Calendar.MidnightNeverDateString` | Modules/Essentials/Entities/EssentialsAttendanceSummary.php:21 | a `date`-cast value turned into a string, `Y-m-d 00:00:00`, never equals a `toDateString()` of any day |
| `Calendar.WeekdayStep` | Modules/Essentials/Services/AttendanceProcessingService.php:176 | the weekday advances by one per day and wraps from Saturday to Sunday |
| `DeviceParsing.DirectoryTokens` | Modules/Essentials/Services/AttendanceProcessingService.php:62-64 | the tokens are exactly the dump read as words: blanks and control characters are skipped and each word is a longest run of other characters, in order; every token is non-empty and free of blanks and control characters |
| `DeviceParsing.RunLengthMaximal` | Modules/Essentials/Services/AttendanceProcessingService.php:63-64 | a word runs over token characters only and stops before the next blank or control character |
| `DeviceParsing.TokensFromRuns` | Modules/Essentials/Services/AttendanceProcessingService.php:62-64 | the character-by-character scan with a pending token yields the words: it finishes the pending token with the run that follows it and then reads the rest word by word |
| `DeviceParsing.ParseUserData` | Modules/Essentials/Services/AttendanceProcessingService.php:58-83 | the loops build exactly the directory function of the content |
| `DeviceParsing.PairTokens` | Modules/Essentials/Services/AttendanceProcessingService.php:69-80 | the i-th all-digit token is paired with the i-th all-letter token, up to the shorter list |
| `DeviceParsing.DirectoryShape` | Modules/Essentials/Services/AttendanceProcessingService.php:58-83 | every code is an all-digit token of the file and maps to an all-letter token of the file |
| `DeviceParsing.DirectoryPairs` | Modules/Essentials/Services/AttendanceProcessingService.php:77-80 | the codes are exactly the first n ids, with n the shorter count; a code's name is the name at the code's last position |
| `DeviceParsing.ParseAttendanceData` | Modules/Essentials/Services/AttendanceProcessingService.php:88-107 | the loop yields exactly the record function of the content's lines |
| `DeviceParsing.CollectRecords` | Modules/Essentials/Services/AttendanceProcessingService.php:93-104 | one record per line that parses, in order |
| `DeviceParsing.TwoFieldLine` | Modules/Essentials/Services/AttendanceProcessingService.php:95-102 | a trimmed line `code datetime ...` yields exactly the record (code, datetime) |
| `DeviceParsing.SingleFieldLine` | Modules/Essentials/Services/AttendanceProcessingService.php:99 | a line of a single field yields no record |
| `Resolver.FindUserByName` | Modules/Essentials/Services/AttendanceProcessingService.php:124-128 | the first user whose username or first name contains the name ignoring case; none iff no user matches |
| `Resolver.ResolveBranches` | Modules/Essentials/Services/AttendanceProcessingService.php:112-145 | a code already recorded for the business yields its user and no write; else a name match yields that user and records the code as an active setting; else no user and no write |
| `Resolver.ResolveStable` | Modules/Essentials/Services/AttendanceProcessingService.php:112-145 | resolving a code again after it resolved gives the same user and changes nothing |
| `Resolver.ResolveKeepsUnique` | database/migrations/2025_09_12_add_enhanced_attendance_fields.php:59 | resolution keeps (user, business) unique in the settings |
| `Resolver.FindUserIdByCode` | Modules/Essentials/Services/AttendanceProcessingService.php:112-145 | the method returns the resolved user and leaves the settings as resolution defines, other tables unchanged |
| `Grouping.AddPunchWellGrouped` | Modules/Essentials/Services/AttendanceProcessingService.php:31-42 | adding a punch keeps one bucket per user and one per day, each day's punches on that day |
| `Grouping.AddPunchCollects` | Modules/Essentials/Services/AttendanceProcessingService.php:42 | a punch is appended to exactly its user's bucket for its day; every other bucket is unchanged |
| `Grouping.AddPunchUsers` | Modules/Essentials/Services/AttendanceProcessingService.php:31-42 | the users of the grouping grow by the punch's user |
| `Grouping.BucketsAreUsers` | Modules/Essentials/Services/AttendanceProcessingService.php:52 | with one bucket per user, the number of buckets is the number of users |
| `AttendanceDay.SortPunches` | Modules/Essentials/Services/AttendanceProcessingService.php:159-161 | the punches end sorted and are a permutation of the input |
| `AttendanceDay.SortedEnds` | Modules/Essentials/Services/AttendanceProcessingService.php:159-161 | after sorting, the first punch is the earliest and the last the latest |
| `AttendanceDay.ScheduleDefault` | Modules/Essentials/Services/AttendanceProcessingService.php:164-169 | without a settings row the day starts at 08:00 with 15 grace minutes |
| `AttendanceDay.DiffInMinutes` | Modules/Essentials/Services/AttendanceProcessingService.php:179 | the whole number of minutes between two instants, in either direction, truncated |
| `AttendanceDay.DayClocks` | Modules/Essentials/Services/AttendanceProcessingService.php:159-188 | clock-in is the earliest punch; clock-out is the latest punch and absent iff there is one punch; hours are whole hours between them, 0 without clock-out |
| `AttendanceDay.DayStatus` | Modules/Essentials/Services/AttendanceProcessingService.php:172-182 | the status is `late` iff clock-in is after start plus grace, else `present`; late minutes are counted from the start time; the weekend flag follows the date |
| `AttendanceDay.ArrivalAtDeadline` | Modules/Essentials/Services/AttendanceProcessingService.php:176-182 | arriving exactly at start plus grace is `present` with 0 late minutes |
| `AttendanceDay.DayRowsAgree` | Modules/Essentials/Services/AttendanceProcessingService.php:191-219 | after the two writes, the detail row and the summary row of the day exist and agree on status, minutes, hours and clock times |
| `AttendanceDay.DayWritesSettled` | Modules/Essentials/Services/AttendanceProcessingService.php:191-219 | repeating either write leaves the written row as it is |
| `AttendanceDay.EvaluatePunches` | Modules/Essentials/Services/AttendanceProcessingService.php:159-188 | the method computes exactly the day evaluation |
| `AttendanceDay.ProcessDayAttendance` | Modules/Essentials/Services/AttendanceProcessingService.php:150-220 | the store gets exactly the day's detail and summary writes; settings unchanged |
| `Import.RunFailed` | Modules/Essentials/Services/AttendanceProcessingService.php:27-28 | once a datetime fails to parse, the rest of the records change nothing |
| `Import.RunWellGrouped` | Modules/Essentials/Services/AttendanceProcessingService.php:23-43 | the first loop keeps the grouping well formed |
| `Import.RunKeepsUnique` | Modules/Essentials/Services/AttendanceProcessingService.php:23-43 | the first loop keeps (user, business) unique in the settings |
| `Import.FlatDaysShape` | Modules/Essentials/Services/AttendanceProcessingService.php:46-50 | the flattened days are distinct per (user, date), belong to grouped users and hold punches of their date |
| `Import.WritesWellFormed` | Modules/Essentials/Services/AttendanceProcessingService.php:191-219 | the writes of an import have distinct keys and are each settled |
| `Import.WriteDaysIdempotent` | Modules/Essentials/Services/AttendanceProcessingService.php:46-50 | writing the same grouped days twice gives the tables of writing them once |
| `Import.WriteDaysKeepUnique` | database/migrations/2025_09_12_add_enhanced_attendance_fields.php:81 | the summary writes keep (user, business, date) unique |
| `Import.WriteUserDays` | Modules/Essentials/Services/AttendanceProcessingService.php:47-49 | the inner loop applies exactly one user's day writes |
| `Import.WriteDays` | Modules/Essentials/Services/AttendanceProcessingService.php:46-50 | the nested loops apply exactly all day writes of the grouping |
| `Import.ImportRecords` | Modules/Essentials/Services/AttendanceProcessingService.php:21-52 | on a parse failure the attendance tables are untouched and nothing is returned; otherwise the count is the number of users and the tables hold all day writes |
| `Import.GroupRecords` | Modules/Essentials/Services/AttendanceProcessingService.php:23-43 | the grouping loop leaves the day groups (or the parse failure) of the grouping function over all records and writes nothing |
| `Import.ProcessAttendanceFromFiles` | Modules/Essentials/Services/AttendanceProcessingService.php:16-53 | the whole import, over the parsed user directory and log records |
| `Import.ImportShape` | Modules/Essentials/Services/AttendanceProcessingService.php:16-53 | after an import the grouping is well formed, the count equals the distinct users, and both unique indexes hold |
| `Reports.FormatClock` | Modules/Essentials/Services/AttendanceProcessingService.php:294-295 | `H:i:s`: eight characters, colons at 2 and 5, digits elsewhere |
| `Reports.ClockRoundTrip` | Modules/Essentials/Services/AttendanceProcessingService.php:294-295 | reading the formatted clock back gives the time of day |
| `Reports.Employee` | Modules/Essentials/Services/AttendanceProcessingService.php:290 | the user with the id; none iff there is no such user |
| `Reports.ExportRow` | Modules/Essentials/Services/AttendanceProcessingService.php:289-301 | nine cells like the header: the date, clock cells, status label, and an empty code without an employee code |
| `Reports.ExportShape` | Modules/Essentials/Services/AttendanceProcessingService.php:269-304 | the export fails iff some row's user is missing; otherwise the header then one row per selected summary, in order |
| `Reports.ExportAttendanceToCsv` | Modules/Essentials/Services/AttendanceProcessingService.php:269-304 | the method returns exactly the export of the selected rows |
| `Reports.CollectRows` | Modules/Essentials/Services/AttendanceProcessingService.php:289-301 | the loop renders every row or fails at the first that cannot render |
| `Reports.PayrollAsWrittenFails` | Modules/Essentials/Services/AttendanceProcessingService.php:243-246 | the payroll summary as written never returns a value |
| `Reports.PayrollIntended` | Modules/Essentials/Services/AttendanceProcessingService.php:242-263 | total days is the row count; present plus absent and late days are at most the total |
| `Reports.PayrollIntendedExceeds` | Modules/Essentials/Services/AttendanceProcessingService.php:254-262 | the intended ratios reach 200: a present weekend row, or an absent row counted as punctual |
| `Reports.PayrollCorrected` | Modules/Essentials/Services/AttendanceProcessingService.php:242-263 | same counts as intended, with both ratios in [0, 100]; 0 without working days or present days |
| `Reports.PayrollCorrectedAgrees` | Modules/Essentials/Services/AttendanceProcessingService.php:242-263 | the corrected summary equals the intended one on every count and sum, and on attendance when attended rows are exactly working-day rows |
| `Reports.PayrollSummaryFor` | Modules/Essentials/Services/AttendanceProcessingService.php:235-264 | the summary of the user's rows in range, with both ratios in [0, 100] |
| `Dashboard.WorkingDaysBetween` | Modules/Essentials/Http/Controllers/EnhancedAttendanceController.php:341-354 | zero for an inverted range, at most the number of days otherwise |
| `Dashboard.GetWorkingDaysBetween` | Modules/Essentials/Http/Controllers/EnhancedAttendanceController.php:341-354 | the loop counts exactly the weekdays of the inclusive range |
| `Dashboard.WorkingDaysSplit` | Modules/Essentials/Http/Controllers/EnhancedAttendanceController.php:341-354 | the count over a range is the sum over its two parts |
| `Dashboard.FullWeeks` | Modules/Essentials/Http/Controllers/EnhancedAttendanceController.php:341-354 | any n consecutive weeks hold exactly 5n working days |
| `Dashboard.WorkingDaySetSize` | Modules/Essentials/Http/Controllers/EnhancedAttendanceController.php:341-354 | the count equals the size of the set of weekdays in the range |
| `Dashboard.InactivityWindowWorkingDays` | Modules/Essentials/Http/Controllers/EnhancedAttendanceController.php:54 | the 22 days from 21 days ago to today hold at most 16 working days |
| `Dashboard.GetInactiveEmployees` | Modules/Essentials/Http/Controllers/EnhancedAttendanceController.php:91-117 | the loop lists exactly the inactive-employee function |
| `Dashboard.CollectInactive` | Modules/Essentials/Http/Controllers/EnhancedAttendanceController.php:98-114 | the loop over the employees collects exactly the inactive entries, in employee order |
| `Dashboard.InactiveListing` | Modules/Essentials/Http/Controllers/EnhancedAttendanceController.php:91-117 | an entry is listed iff it comes from an active settings row of the business with 21 or more absent working days since the start date |
| `Dashboard.AbsentDaysAtMost16` | Modules/Essentials/Http/Controllers/EnhancedAttendanceController.php:101-106 | with unique (user, business, date) rows, no future dates and true weekend flags, an employee has at most 16 counted absent days in the window |
| `Dashboard.InactivityUnreachable` | Modules/Essentials/Http/Controllers/EnhancedAttendanceController.php:108 | under the same conditions, the inactive list is always empty |
| `Dashboard.DefaultScheduleThresholds` | Modules/Essentials/Http/Controllers/EnhancedAttendanceController.php:60-70 | with the default schedule, a punctual row is `present` and not counted late; the row is `late` iff arrival is after 08:15, but counted late only from 08:16 |
| `Dashboard.AverageAttendance` | Modules/Essentials/Http/Controllers/EnhancedAttendanceController.php:356-371 | attended rows over active employees times working days, rounded and non-negative; 0 when nothing is possible |
| `Dashboard.AverageAttendanceCanExceed100` | Modules/Essentials/Http/Controllers/EnhancedAttendanceController.php:356-371 | rows of inactive employees are counted, so the figure reaches 200 |
| `Dashboard.GetDashboardStats` | Modules/Essentials/Http/Controllers/EnhancedAttendanceController.php:49-86 | the inactive count is the length of the inactive list |
| `Dashboard.MonthlyStatsBounds` | Modules/Essentials/Http/Controllers/EnhancedAttendanceController.php:122-130 | late and early-leave counts are at most the rows in range, working days at most the days, no early leaves when none is recorded |
| `Dashboard.LastOn` | Modules/Essentials/Http/Controllers/EnhancedAttendanceController.php:205-209 | the last row of a date; none iff no row has the date |
| `Dashboard.KeyByDateLookup` | Modules/Essentials/Http/Controllers/EnhancedAttendanceController.php:205-209 | `keyBy('date')` keeps one row per date, the last of that date |
| `Dashboard.KeyByDateMembers` | Modules/Essentials/Http/Controllers/EnhancedAttendanceController.php:205-209 | every keyed row is one of the fetched rows |
| `Dashboard.BuildCalendar` | Modules/Essentials/Http/Controllers/EnhancedAttendanceController.php:212-227 | the loop builds 21 entries, the k-th for day today - 20 + k, whose attendance is the keyed row found under that day's `toDateString()` |
| `Dashboard.CalendarLookupMisses` | Modules/Essentials/Http/Controllers/EnhancedAttendanceController.php:205-217 | no key of the rows keyed by their cast `date` equals a `toDateString()`, so every lookup of the calendar misses |
| `Dashboard.CalendarMissesRows` | Modules/Essentials/Http/Controllers/EnhancedAttendanceController.php:205-217 | as written, an employee with a row on a day of the window is shown no attendance on that day |
| `Dashboard.CalendarAttendance` | Modules/Essentials/Http/Controllers/EnhancedAttendanceController.php:196-216 | with the rows keyed by their day, a day's attendance is the employee's last row of that date in the business, and none iff there is no such row |
| `Dashboard.CalendarShape` | Modules/Essentials/Http/Controllers/EnhancedAttendanceController.php:212-227 | consecutive dates ending today, only the last is today, weekend flags follow the date, and as written no entry carries an attendance row |
| `Dashboard.NoAttendanceShown` | Modules/Essentials/Http/Controllers/EnhancedAttendanceController.php:205-227 | as written, every entry's attendance is empty, whatever rows were read |
| `Dashboard.AverageHours` | Modules/Essentials/Http/Controllers/EnhancedAttendanceController.php:233 | 0 for no rows, else the mean hours rounded to 0.005 |
| `Dashboard.UserStatsShape` | Modules/Essentials/Http/Controllers/EnhancedAttendanceController.php:230-236 | present plus absent is the number of keyed rows (at most 21), late counts rows with late minutes, both percentages in [0, 100] |
| `SettingsAdmin.ParseHourMinute` | Modules/Essentials/Http/Controllers/EnhancedAttendanceController.php:264-265 | an accepted `H:i` is a whole minute within one day |
| `SettingsAdmin.HourMinuteRoundTrip` | Modules/Essentials/Http/Controllers/EnhancedAttendanceController.php:264-265 | every formatted hour and minute is read back as that time |
| `SettingsAdmin.HourMinuteRejects` | Modules/Essentials/Http/Controllers/EnhancedAttendanceController.php:264-265 | `8:00`, `24:00` and `07:60` are rejected; `08:00` is 8 hours |
| `SettingsAdmin.ValidationEdges` | Modules/Essentials/Http/Controllers/EnhancedAttendanceController.php:260-271 | grace 120 passes and 121 fails; end not after start, no working days, unknown status, overtime rate below 1, negative salary, unknown user and a 51-character code all fail; no code passes |
| `SettingsAdmin.StoreEmployeeSettings` | Modules/Essentials/Http/Controllers/EnhancedAttendanceController.php:252-303 | invalid input changes nothing; valid input saves one keyed write; other tables unchanged |
| `SettingsAdmin.StoreSettingsEffect` | Modules/Essentials/Http/Controllers/EnhancedAttendanceController.php:274-290 | afterwards the (user, business) row holds the submitted values and is the only one with that key; other keys look the same |
| `SettingsAdmin.StoreSettingsIdempotent` | Modules/Essentials/Http/Controllers/EnhancedAttendanceController.php:274-290 | saving the same settings twice is the same as once |
| `SettingsAdmin.DeleteEmployeeSettings` | Modules/Essentials/Http/Controllers/EnhancedAttendanceController.php:442-473 | removes the rows with the id in the business, and reports a deletion iff such a row existed |
| `SettingsAdmin.DeleteEffect` | Modules/Essentials/Http/Controllers/EnhancedAttendanceController.php:451-453 | the remaining rows are exactly the others, and the unique index still holds |
| `Tables.Lookup` | Modules/Essentials/Services/AttendanceProcessingService.php:115-121 | the first row with the key; none iff no row has it |
| `Tables.UpsertLookup` | Modules/Essentials/Services/AttendanceProcessingService.php:132-138 | `updateOrCreate` updates the existing row in place or appends the created one |
| `Tables.UpsertOtherKey` | Modules/Essentials/Services/AttendanceProcessingService.php:132-138 | rows of other keys look the same afterwards |
| `Tables.UpsertIdempotent` | Modules/Essentials/Services/AttendanceProcessingService.php:132-138 | an idempotent update applied twice is the same as once |
| `Tables.UpsertKeepsUnique` | database/migrations/2025_09_12_add_enhanced_attendance_fields.php:59 | `updateOrCreate` keeps keys unique |
| `Tables.SaveAllIdempotent` | Modules/Essentials/Services/AttendanceProcessingService.php:191-219 | settled writes with distinct keys, applied twice, give the table of applying them once |
| `Tables.SaveAllKeepsUnique` | database/migrations/2025_09_12_add_enhanced_attendance_fields.php:81 | a sequence of settled writes keeps keys unique |
| `Memos.Recipients` | Modules/Essentials/Entities/Memo.php:28-31 | exactly the recipient rows of the memo |
| `Memos.RecipientsOfType` | Modules/Essentials/Entities/Memo.php:43-56 | exactly the memo's recipient rows of the given type |
| `Memos.RecipientTypesPartition` | Modules/Essentials/Database/Migrations/2024_08_29_180001_create_memo_recipients_table.php:15 | the three typed relations partition the recipients, and their sizes add up |
| `Memos.RecipientsList` | Modules/Essentials/Entities/Memo.php:58-65 | a type is a key iff it has recipients, and maps to their names in order |
| `Memos.RecipientsListTotal` | Modules/Essentials/Entities/Memo.php:58-65 | the groups hold one name per recipient |
| `Memos.HasAttachmentsIff` | Modules/Essentials/Entities/Memo.php:67-70 | true iff some attachment row belongs to the memo |
| `Memos.BccOnlyForSender` | Modules/Essentials/Resources/views/memos/show_modal.blade.php:39-51 | a viewer other than the sender sees no bcc recipient; the sender sees every recipient |
| `MemoControl.MemoDb.constructor` | Modules/Essentials/Database/Migrations/2024_08_29_180000_create_memos_table.php:11-17 | empty tables whose ids start at 1 |
| `MemoControl.Find` | Modules/Essentials/Http/Controllers/MemoController.php:166-168 | a matching memo row; none iff no row matches |
| `MemoControl.ListingMatchesAccess` | Modules/Essentials/Http/Controllers/MemoController.php:41-49 | a memo is listed iff it is in the business and the user is its sender or a recipient, the access rule of `checkMemoAccess` |
| `MemoControl.SaveRecipients` | Modules/Essentials/Http/Controllers/MemoController.php:337-380 | the three loops insert exactly the to, cc and bcc rows, in that order |
| `MemoControl.RecipientsSaved` | Modules/Essentials/Http/Controllers/MemoController.php:337-380 | on a memo without recipients, the to, cc and bcc relations then list exactly the given users; all new rows are unread; other memos unchanged |
| `MemoControl.AccessAfterSave` | Modules/Essentials/Http/Controllers/MemoController.php:322-335 | after saving recipients, a user has access iff sender or in one of the three lists |
| `MemoControl.SaveAttachments` | Modules/Essentials/Http/Controllers/MemoController.php:382-411 | the loop stores exactly the admitted files, in order |
| `MemoControl.AdmissionEdges` | Modules/Essentials/Http/Controllers/MemoController.php:387-394 | a `PDF` of exactly 50 MiB is admitted; one byte more, an invalid upload, or an `exe` is refused |
| `MemoControl.AttachmentsSaved` | Modules/Essentials/Http/Controllers/MemoController.php:382-411 | the table grows by the number of admitted files; each new row belongs to the memo and comes from an admitted file |
| `MemoControl.AttachmentsPresence` | Modules/Essentials/Http/Controllers/MemoController.php:382-411 | the memo has attachments afterwards iff it had some or a file was admitted |
| `MemoControl.NewStatus` | Modules/Essentials/Http/Controllers/MemoController.php:143 | `sent` iff the send flag is set, otherwise `draft` |
| `MemoControl.StoreMemo` | Modules/Essentials/Http/Controllers/MemoController.php:119-159 | invalid input changes nothing; otherwise a memo with a fresh id, its recipients and admitted attachments are inserted, and recipients with an email are notified iff it is sent |
| `MemoControl.StoreKeepsValid` | Modules/Essentials/Http/Controllers/MemoController.php:138-146 | creating a memo under the next id and inserting its recipients keeps memo ids unique and every recipient pointing at an existing id |
| `MemoControl.StoredMemo` | Modules/Essentials/Http/Controllers/MemoController.php:119-159 | the stored memo has the requested status and exactly the requested to, cc and bcc users; access is sender or recipient; notified users are recipients with an email |
| `MemoControl.NotifiedAreRecipients` | Modules/Essentials/Http/Controllers/MemoController.php:413-439 | a user is notified iff they are a recipient with an email |
| `MemoControl.MarkReadEffect` | Modules/Essentials/Http/Controllers/MemoController.php:175-180 | only the viewer's first recipient row changes; it becomes read, stamped with the view time unless it was already read |
| `MemoControl.MarkReadOnce` | Modules/Essentials/Http/Controllers/MemoController.php:175-180 | a second view, at any time, changes nothing |
| `MemoControl.ShowMemo` | Modules/Essentials/Http/Controllers/MemoController.php:161-193 | not found outside the business, forbidden without access, else shown with the read marking; memos and attachments unchanged |
| `MemoControl.EditableMemo` | Modules/Essentials/Http/Controllers/MemoController.php:195-204 | the user's own draft in the business; none iff there is none |
| `MemoControl.SetContent` | Modules/Essentials/Http/Controllers/MemoController.php:232-236 | only the memo's row changes, to the new subject, body and status |
| `MemoControl.UpdateMemo` | Modules/Essentials/Http/Controllers/MemoController.php:215-252 | not found or invalid changes nothing; otherwise the content is set, recipients replaced, admitted files added, and recipients notified when sent |
| `MemoControl.RewriteMemo` | Modules/Essentials/Http/Controllers/MemoController.php:232-240 | the memo's content is set, its recipients are replaced by the request's lists and the admitted files are added; nothing else changes |
| `MemoControl.UpdateKeepsValid` | Modules/Essentials/Http/Controllers/MemoController.php:232-239 | rewriting a memo in use and replacing its recipients keeps memo ids unique and every recipient pointing at an existing id |
| `MemoControl.UpdateTransition` | Modules/Essentials/Http/Controllers/MemoController.php:220-236 | only an own draft can be updated; it leaves draft only when sent; other memos are unchanged |
| `MemoControl.RecipientsReplaced` | Modules/Essentials/Http/Controllers/MemoController.php:238-239 | after the update the typed relations list exactly the new users; other memos keep their recipients |
| `MemoControl.DestroyTarget` | Modules/Essentials/Http/Controllers/MemoController.php:259-261 | the user's own memo in the business, of any status; none iff there is none |
| `MemoControl.DestroyMemo` | Modules/Essentials/Http/Controllers/MemoController.php:254-274 | deletes the memo and, by cascade, its recipients and attachments |
| `MemoControl.DestroyEffect` | Modules/Essentials/Http/Controllers/MemoController.php:254-274 | only the sender can delete; afterwards no row of the memo remains and all other rows do |
| `MemoControl.ButtonsMatchGuards` | Modules/Essentials/Http/Controllers/MemoController.php:53-78 | view is always offered; edit iff the edit action would find the memo; delete iff the destroy action would |

## Left out

- Files, the clock and the users table are parameters. The `.dat` contents are strings. "Today", the month bounds and the view time are day numbers or instants. `App\User` is a sequence of users. A user's employee code and email come from functions `codeOf` and `hasEmail`.
- `Carbon::parse` is a parameter that maps a string to an instant or to failure. On failure the import aborts. Settings rows written by the resolver so far remain, and the attendance tables are untouched. Time zones and date formats other than `Y-m-d` are not modelled; dates are day numbers. In the calendar, `toDateString()` is a parameter of the calendar members that may only produce digits and dashes, and `Calendar.DateString` is the concrete `Y-m-d` rendering. The corrected calendar keys rows by their day number, which stands for keying by `toDateString()` on both sides; that this rendering is one-to-one is not proved.
- Work hours are whole hours. `diffInHours` and `diffInMinutes` truncate (Carbon 2), so 8 h 55 min counts as 8 hours.
- The device log's `datetime` is the second whitespace-separated field only. A line `code date time` therefore yields just the date, and the model keeps that.
- The fuzzy `LIKE` match of user names is case-insensitive containment over ASCII letters, with users scanned in id order.
- Import idempotence is proved for the write phase only. Resolving can record the same user under a second code when two device names match one user.
- The `isHoliday` stub always answers no, and the model answers no.
- Not modelled: notifications delivery, `Storage` and the stored path of attachments, the activity log, permissions and `abort(403)`, the DataTables HTML, and the status badge classes.
- Not modelled either: `getEmployeeSettings`, `getAllUsersSummary`, `employeeManagement`, `getUsersForDropdown`, `searchUsers`, `downloadAttachment`, `create` and the `dashboard` view. They are read-only pages or lookups outside the pipeline.
- `try`/`catch` paths of the memo actions are not modelled. The inserts do not fail in the model.
- `Dashboard.AverageAttendance`: no upper bound is stated. The source divides rows of all employees by active employees, so the figure exceeds 100 (see `Dashboard.AverageAttendanceCanExceed100`).
- `MemoControl.MemoDb.Valid` is the database's own guarantee (auto-increment ids, foreign keys). It is assumed on entry and preserved by every action.
- The `exists:users,id` rule is a set of user ids passed in. On update the source does not re-check that rule, and the model does not either.
- Attachments are kept on update, as in the source; only recipients are replaced.
- PHP array key order in `recipients_list` is not modelled. The map holds the groups by type.
- The file size formatting of `MemoAttachment` is not modelled.
- The inactivity threshold of `getInactiveEmployees` (21 absent working days since 21 days ago) cannot be reached when daily rows are unique, no row is dated in the future and weekend flags follow the date: the window holds at most 16 working days (`Dashboard.InactivityUnreachable`). The model keeps the threshold as written.
- `Reports.PayrollIntended`: the ratios are not bounded by 100, because the source's own counting rules allow more (see Findings).

## Findings

| source | as written | input that shows it | evidently intended | confidence | as-written member | corrected member |
|---|---|---|---|---|---|---|
| Modules/Essentials/Services/AttendanceProcessingService.php:243-246 | `present()`, `absent()`, `late()` and `workingDays()` are called on the collection returned by `get()`, which has no such methods | any call, with any rows | apply each scope as a query and count the rows | high, not executed | `Reports.PayrollAsWrittenFails` | `Reports.PayrollSummaryFor` |
| Modules/Essentials/Services/AttendanceProcessingService.php:254-262 | attendance divides present days by working days, and punctuality counts rows with 0 late minutes over present days | a present weekday row and a present weekend row give 200% attendance; a present row and an absent row give 200% punctuality | both ratios at most 100: attended working days over working days, on-time attended days over attended days | medium, not executed | `Reports.PayrollIntendedExceeds` | `Reports.PayrollCorrected` |
| Modules/Essentials/Http/Controllers/EnhancedAttendanceController.php:205-217 | the rows are keyed by their `date` attribute, which `EssentialsAttendanceSummary` casts to a date (its line 21), so each key is the string `Y-m-d 00:00:00`; the calendar looks each day up by `toDateString()`, `Y-m-d` | an employee with a summary row on any day of the last 21 | key the rows by `toDateString()` of their date, so each day shows its row | high, not executed | `Dashboard.CalendarMissesRows` | `Dashboard.CalendarAttendance` |
