# Learn-n-Grow admin panel, modelled in Dafny

This project models the bookkeeping core of the Learn-n-Grow admin panel, a
Next.js application in which a tutoring centre keeps its students, its fee
and expense ledger, daily attendance and the accounts of its staff. The
panel holds one in-memory snapshot (students, finance transactions,
attendance records). It changes the snapshot through a data service, which
is either an in-memory mock or a Supabase database. Its screens filter,
summarise and export that snapshot.

The Dafny modules follow the source files:

| module | source file | form |
|---|---|---|
| `Wrappers`, `Text`, `Numbers`, `Seqs`, `Dates` | JavaScript built-ins the core relies on: `Option`/`Result`, `trim`, `toLowerCase`, `includes`, `split`/`join`, `Number()`, `padStart`, `filter`, `sort`, `reduce`, calendar dates | functions and lemmas |
| `Domain` | lib/types.ts, lib/constants.ts | datatypes |
| `Failures` | the network-failure phrases several files test for | functions and lemmas |
| `AccessControl` | lib/access-control.ts | functions and lemmas |
| `AppShell` | components/layout/app-shell.tsx | redirect decision and render gate as functions |
| `DashboardMetrics` | lib/dashboard-metrics.ts | functions; `buildMonthKeys` and `getExpenseBreakdown` as methods with loops |
| `Csv` | lib/csv.ts | functions, a reader used to state the round trip |
| `DataService` | lib/data-service.ts (row mappers, error predicates, the Supabase reset and attendance-retry decisions) | functions; the id maps of the reset and the column-drop retry as methods with loops |
| `MockDataService` | lib/data-service.ts, class `MockAppDataService` | a class whose methods reassign `snapshot` and `userAccess` |
| `Snapshots`, `AppDataProvider` | components/providers/app-data-provider.tsx | snapshot reducers as functions; the provider's snapshot, loading flag and dues guard as a class |
| `TeacherNames`, `AccessManagement` | components/settings/access-management-card.tsx, with the teacher-name cleanup it shares with components/providers/auth-provider.tsx | functions; the card's records and form as a class |
| `AuthProvider` | components/providers/auth-provider.tsx | functions; the session's role and teachers as a class |
| `AdminUsersRoute` | app/api/admin/users/route.ts | the ordered checks of `POST` as a function returning the response |
| `AttendanceTab` | components/students/attendance-tab.tsx | functions; the draft sheet as a class; the monthly view as a method with a loop |
| `StudentFinanceTab` | components/students/student-finance-tab.tsx | functions and a small state class |
| `StudentDirectoryTab` | components/students/student-directory-tab.tsx | functions returning the request each handler sends |
| `StudentFormDialog`, `QuickAddTransaction` | the two form dialogs | functions; the dialog fields as classes |
| `FinancePage` | app/finance/page.tsx | the filter chain as functions; the selections as a class |

Conventions:

- Things a handler reads from the outside world are parameters: today's date, the current month key, month labels, fresh ids, and the outcome of every service or network call.
- A handler that awaits the service and then updates React state becomes two parts. A function returns the request it sends. A method or function applies the outcome the service reported.
- Amounts are integers, and dates are `YYYY-MM-DD` strings. A stored date's month is its `YYYY-MM` prefix; the source computes it differently (see "## Findings").
- String order (`localeCompare`, the default `sort`) is code-point lexicographic order, `Text.LexLe`.

What the modelled code does and does not do:

- No file filters the snapshot by role.
- The mock `updateUserAccessRole` and `deleteUserAccess` do not stop the last admin being removed. Only the server route behind the Supabase service's `deleteUserAccess` (app/api/admin/users/[userId]/route.ts:101-201) refuses to remove the last admin or the requester's own account; that route is not part of this model (see "## Left out").
- The monthly-dues pass is not restricted to admins.
- `lib/types.ts` declares no `teacher` on `Student` and no `assignedTeachers` on `UserAccess`, but the form dialog and the access card read and write both. The model gives `Domain.Student` and `Domain.UserAccess` optional fields for them.
- The access card calls `updateUserAccessRole` with a third argument, the teacher list. The mock declares two parameters and ignores it, so `MockDataService.MockAppDataService.UpdateUserAccessRole` takes no teacher list.

## Model

| member | source | states |
|---|---|---|
| AccessControl.DefaultPathForRole | lib/access-control.ts:9-11 | a student-only account lands on "/students", an admin on "/" |
| AccessControl.AccessRules | lib/access-control.ts:13-27 | public paths are open to every role, every path is open to an admin, and a student-only account may open a non-public path exactly when it is "/students" or below it |
| AccessControl.PublicPathShape | lib/access-control.ts:3-7 | a path is public exactly when it is "/login" or starts with "/login/", so "/loginx" is not |
| AccessControl.DefaultPathAccessible | lib/access-control.ts:9-27 | each role may open its own landing page, and that page is not the public one |
| AccessControl.FilterNavItemsByRole | lib/access-control.ts:29-39 | with sign-in off or no role every entry is shown; otherwise exactly the entries whose path the role may open |
| AccessControl.FilterNavItemsKeepsOrder | lib/access-control.ts:38 | the shown entries keep their sidebar order |
| AccessControl.ClosedToStudentsOnly | lib/access-control.ts:13-27 | a student-only account is refused any path that begins neither like "/login" nor like "/students" |
| AccessControl.NavItemClosedToStudentsOnly | lib/constants.ts:14-21 | Finance, Access Management, AI Agents and Settings are closed to a student-only account |
| AccessControl.NavItemsForStudentsOnly | lib/constants.ts:14-21 | a student-only account sees exactly the "Students" entry |
| AccessControl.NavItemsForAdmin | lib/constants.ts:14-21 | an admin sees all six entries in order |
| AppShell.RedirectTarget | components/layout/app-shell.tsx:39-71 | no redirect with sign-in off or while it loads; a signed-out user off the login page goes to "/login"; a signed-in user on the login page goes to the role's landing page (student-only when no role) once the role is known; a role on a path it may not open goes to its landing page |
| AppShell.Render | components/layout/app-shell.tsx:73-115 | the login page is drawn bare exactly on public paths; with sign-in off the application is drawn; otherwise the loading screen while sign-in or the signed-in user's role loads, nothing when signed out, the "Access Not Assigned" screen for a user without a role, and for a loaded role the application exactly when that role may open the path, else nothing |
| AppShell.AppLayoutOnlyWhenAllowed | components/layout/app-shell.tsx:73-117 | with sign-in on, the application is drawn only for a signed-in user with a known role that may open the path, and then no redirect is pending |
| AppShell.NoRoleNeverSeesApp | components/layout/app-shell.tsx:91-111 | a user without a role never sees the application |
| AppShell.RedirectSettles | components/layout/app-shell.tsx:39-71 | following a redirect never triggers another one |
| Dates.DaysInMonth | components/students/attendance-tab.tsx:241 | a month has 28 to 31 days, and February has 29 exactly in a leap year |
| Dates.DayOfWeek | components/students/attendance-tab.tsx:242 | `getDay()` is a weekday number 0 (Sunday) to 6 (Saturday) |
| Dates.NextDay | components/students/attendance-tab.tsx:90 | the day after a valid date is a valid date |
| Dates.DayOfWeekNextDay | components/students/attendance-tab.tsx:249-252 | the day after a date falls on the next weekday, across month and year ends |
| Dates.AddDays | components/students/attendance-tab.tsx:89-96 | moving a valid date forward by whole days gives a valid date |
| Dates.DayOfWeekAddDays | components/students/attendance-tab.tsx:86-99 | moving forward n days moves the weekday forward n places modulo 7 |
| Dates.PreviousDay | components/providers/app-data-provider.tsx:50-54 | the day before a valid date is a valid date |
| Dates.NextDayOfPreviousDay | components/providers/app-data-provider.tsx:50-54 | stepping back a day and forward again returns the same date |
| Dates.ShiftMonth | lib/dashboard-metrics.ts:23 | `new Date(year, month - idx, 1)` lands on a valid month exactly `idx` months earlier |
| Dates.ShiftMonthStep | lib/dashboard-metrics.ts:22-25 | shifting by one more month gives the following month |
| Dates.ShiftMonthZero | lib/dashboard-metrics.ts:22-25 | a shift of zero months is the month itself |
| Dates.MonthKeyOf | lib/dashboard-metrics.ts:7-12 | the month key of a stored date is a well-formed "YYYY-MM" key or the key of an invalid date |
| Dates.MonthKeyOfExtension | lib/dashboard-metrics.ts:7-12 | a date written as a month key followed by anything lies in that month |
| Dates.MonthKeyIsMonthKey | lib/dashboard-metrics.ts:9-11 | the key of a month with a four-digit year is a well-formed month key |
| Dates.MonthKeyOfDateKey | components/students/attendance-tab.tsx:61-72 | reading the month back from a date key gives the date's own month key |
| Dates.MonthKeyInjective | lib/dashboard-metrics.ts:7-12 | distinct months have distinct keys |
| Dates.ParseDateKey | components/providers/app-data-provider.tsx:50-54 | a date string that parses gives a valid date |
| Numbers.NatToString | components/finance/quick-add-transaction-dialog.tsx:95 | `String(n)` of a non-negative number is a non-empty run of digits with no leading zero |
| Numbers.IntToString | components/finance/quick-add-transaction-dialog.tsx:95 | `String(n)` is digits, preceded by a minus sign exactly for a negative number |
| Numbers.DigitsValueOfNatToString | components/finance/quick-add-transaction-dialog.tsx:95 | the digits of `String(n)` read back as n |
| Numbers.PadStart2 | lib/dashboard-metrics.ts:10 | `padStart(2, "0")` keeps the text at the end and gives at least two characters |
| Numbers.ParseNumber | components/finance/quick-add-transaction-dialog.tsx:127 | `Number` of blank text is 0 |
| Numbers.ParseNumberOfDigits | components/students/student-form-dialog.tsx:79 | `Number` reads a run of digits as its value |
| Numbers.ParseNumberOfNegative | components/students/student-form-dialog.tsx:79 | `Number` reads a minus sign and digits as the negative value |
| Numbers.ParseNumberOfIntToString | components/finance/quick-add-transaction-dialog.tsx:95-127 | `Number(String(n))` is n for every integer |
| Failures.NetworkFailureIgnoresCase | lib/data-service.ts:201-206 | the network-failure test ignores letter case |
| Failures.NetworkPhraseAnywhere | lib/data-service.ts:201-206 | a message holding "fetch failed", "load failed", "failed to fetch" or "networkerror" anywhere, in any case, is a network failure |
| Failures.ShortMessageIsNotNetworkFailure | lib/data-service.ts:201-206 | a message shorter than every phrase is not a network failure |
| Snapshots.Unlink | components/providers/app-data-provider.tsx:157-159 | the record loses its link to the student and nothing else |
| Snapshots.AddStudent | components/providers/app-data-provider.tsx:137-140 | the new student goes first, the others follow unchanged, and the rest of the snapshot is untouched |
| Snapshots.UpdateStudent | components/providers/app-data-provider.tsx:145-148 | the same number of students, each with the matching id replaced and every other kept; the rest of the snapshot is untouched |
| Snapshots.DeleteStudent | components/providers/app-data-provider.tsx:153-160 | the business profile is untouched |
| Snapshots.AddTransaction | components/providers/app-data-provider.tsx:165-168 | the new record goes first, the others follow unchanged, and the rest of the snapshot is untouched |
| Snapshots.AddTransactions | components/providers/app-data-provider.tsx:265-268 | the created records go first, in order, before the existing ones |
| Snapshots.UpdateTransaction | components/providers/app-data-provider.tsx:171-196 | the same number of records, each with the matching id replaced and every other kept; the rest of the snapshot is untouched |
| Snapshots.DeleteTransaction | components/providers/app-data-provider.tsx:182-188 | students, attendance and profile are untouched |
| Snapshots.AttendanceForDate | components/providers/app-data-provider.tsx:206-209 | exactly the attendance records of that date |
| Snapshots.SaveAttendance | components/providers/app-data-provider.tsx:198-204 | students, finances and profile are untouched |
| Snapshots.UpdateProfile | components/providers/app-data-provider.tsx:211-217 | the profile becomes the saved one and nothing else changes |
| Snapshots.DeleteStudentCascade | components/providers/app-data-provider.tsx:151-161 | afterwards no student has the id, none of their attendance is left, no finance record is linked to them, every finance record stays and changes at most in its link, and the survivors keep their order |
| Snapshots.UpdateTransactionOnlyTarget | components/providers/app-data-provider.tsx:171-196 | with unique ids, the record with the id becomes the update and every record before and after it stays |
| Snapshots.DeleteTransactionRemovesOnlyTarget | components/providers/app-data-provider.tsx:182-188 | exactly the records with the id are removed, the rest keep their order |
| Snapshots.SaveAttendanceReplacesOnlyThatDate | components/providers/app-data-provider.tsx:198-209 | after saving a date its records are exactly the saved ones and every other date reads as before |
| Snapshots.AddThenDeleteStudent | components/providers/app-data-provider.tsx:135-161 | deleting a student just added, whose id nothing refers to, restores the snapshot |
| Snapshots.AddThenDeleteTransaction | components/providers/app-data-provider.tsx:163-188 | deleting a record just added, whose id is new, restores the snapshot |
| AppDataProvider.StudentsMissingDue | components/providers/app-data-provider.tsx:229-242 | a student is missing a due exactly when active and without a "Student Fee" record linked to them in the month |
| AppDataProvider.DuePayload | components/providers/app-data-provider.tsx:252-261 | the due is a pending income "Student Fee" of the student's fee, linked to them, dated today, with the month's "fee due" description and the auto-generated note |
| AppDataProvider.CreateAllOutcome | components/providers/app-data-provider.tsx:250-263 | when every request succeeds there is one created record per student, in order, each the service's answer for that student; a failure is one of the service's answers |
| AppDataProvider.CreateAllFailureStays | components/providers/app-data-provider.tsx:250-263 | a failure among the first students is the failure of the whole batch |
| AppDataProvider.CreateAllFailureExtends | components/providers/app-data-provider.tsx:250-263 | one more student after a failure keeps the failure |
| AppDataProvider.DuesCoverActiveStudents | components/providers/app-data-provider.tsx:229-268 | after a pass whose records were all created, every active student has a fee record this month, so the next pass finds nobody missing |
| AppDataProvider.AsWrittenDuesRepeatOnFirstOfMonth | components/providers/app-data-provider.tsx:49-54 | five hours west of UTC, a due dated the first of the month does not count for that month, so the student is found missing again; read as a prefix it counts |
| AppDataProvider.FirstOfOctoberAsWritten | components/providers/app-data-provider.tsx:49-54 | "2026-10-01" read five hours west of UTC is not in October |
| AppDataProvider.FirstOfOctoberAsPrefix | components/providers/app-data-provider.tsx:49-54 | "2026-10-01" read as a prefix is in October |
| AppDataProvider.AppDataProvider.constructor | components/providers/app-data-provider.tsx:72-75 | the provider starts with the empty snapshot, loading, and the guard clear |
| AppDataProvider.AppDataProvider.FinishLoading | components/providers/app-data-provider.tsx:80-98 | the loaded snapshot, or the empty one on failure, and loading ends |
| AppDataProvider.AppDataProvider.AddStudent | components/providers/app-data-provider.tsx:135-141 | on success the student is put first; on failure the snapshot stays and the error is passed on |
| AppDataProvider.AppDataProvider.UpdateStudent | components/providers/app-data-provider.tsx:143-149 | on success the student with the id is replaced; on failure nothing changes |
| AppDataProvider.AppDataProvider.DeleteStudent | components/providers/app-data-provider.tsx:151-161 | on success the student is removed with the cascade; on failure nothing changes |
| AppDataProvider.AppDataProvider.AddTransaction | components/providers/app-data-provider.tsx:163-169 | on success the record is put first; on failure nothing changes |
| AppDataProvider.AppDataProvider.UpdateTransaction | components/providers/app-data-provider.tsx:171-196 | on success the record with the id is replaced, for an edit and for a status toggle; on failure nothing changes |
| AppDataProvider.AppDataProvider.DeleteTransaction | components/providers/app-data-provider.tsx:182-188 | on success the records with the id are removed; on failure nothing changes |
| AppDataProvider.AppDataProvider.SaveAttendance | components/providers/app-data-provider.tsx:198-204 | on success the date's records are replaced by the saved ones; on failure nothing changes |
| AppDataProvider.AppDataProvider.GetAttendanceForDate | components/providers/app-data-provider.tsx:206-209 | the records of that date in the current snapshot |
| AppDataProvider.AppDataProvider.UpdateProfile | components/providers/app-data-provider.tsx:211-217 | on success the profile is replaced; on failure nothing changes |
| AppDataProvider.AppDataProvider.ResetAllData | components/providers/app-data-provider.tsx:219-222 | on success the snapshot becomes the service's; on failure nothing changes |
| AppDataProvider.AppDataProvider.EnsureCurrentMonthStudentDues | components/providers/app-data-provider.tsx:224-272 | nothing while loading, while another pass runs, or with no student missing; otherwise the created records are put first only when all succeed, and the guard is clear afterwards either way |
| DashboardMetrics.SumOfFilter | lib/dashboard-metrics.ts:43-45 | filtering then summing is summing the matching amounts |
| DashboardMetrics.AmountWhereConcat | lib/dashboard-metrics.ts:43-55 | the total over two lists is the sum of their totals |
| DashboardMetrics.FilterTransactionsByMonth | lib/dashboard-metrics.ts:158-166 | "all" keeps every transaction; any other key keeps exactly those whose date lies in that month |
| DashboardMetrics.FilterTransactionsByMonthKeepsOrder | lib/dashboard-metrics.ts:158-166 | the kept transactions are in their original order |
| DashboardMetrics.CalculateDashboardMetrics | lib/dashboard-metrics.ts:34-64 | revenue is the paid income of the month, expenses every expense of the month whatever its status, pending the unpaid student fees of the month, profit is revenue minus expenses, and the active count is the number of active students, whatever the month |
| DashboardMetrics.FilterCountsActive | lib/dashboard-metrics.ts:51 | the length of the active-status filter is the number of active students |
| DashboardMetrics.MetricsOfNoTransactions | lib/dashboard-metrics.ts:43-60 | with no transactions revenue, expenses, profit and pending are all 0 |
| DashboardMetrics.MetricsAdditive | lib/dashboard-metrics.ts:39-55 | the money figures of two lists together are the sums of their figures |
| DashboardMetrics.PendingFeeRaisesOnlyFeesPending | lib/dashboard-metrics.ts:43-62 | one more unpaid fee in the month raises the pending total by its amount and leaves revenue, expenses and profit unchanged |
| DashboardMetrics.PointFor | lib/dashboard-metrics.ts:97-117 | a trend point holds the month's paid income and its expenses |
| DashboardMetrics.MonthsEndingAt | lib/dashboard-metrics.ts:18-28 | `count` months, the i-th being `count - 1 - i` months before now |
| DashboardMetrics.MonthKeysEndingAt | lib/dashboard-metrics.ts:18-28 | one key per month, in the same order |
| DashboardMetrics.BuildMonthKeys | lib/dashboard-metrics.ts:18-28 | the loop builds exactly the keys of the `count` months ending now, oldest first |
| DashboardMetrics.MonthsEndingAtAreConsecutive | lib/dashboard-metrics.ts:18-28 | the months are consecutive and the last is the current month |
| DashboardMetrics.GetIncomeExpenseTrend | lib/dashboard-metrics.ts:66-119 | one point for a chosen month; for "all", six points, one per key of the last six months |
| DashboardMetrics.TrendCoversLastSixMonths | lib/dashboard-metrics.ts:95-118 | for "all" there are six points for consecutive months, oldest first, ending with the current month |
| DashboardMetrics.ByValueDescTotalPreorder | lib/dashboard-metrics.ts:136 | ordering by value, largest first, is a total preorder |
| DashboardMetrics.FindSlice | lib/dashboard-metrics.ts:130 | the index of the slice with that name, or -1 when there is none |
| DashboardMetrics.AmountWhereSnoc | lib/dashboard-metrics.ts:124-132 | one more transaction adds its amount to a total exactly when it matches |
| DashboardMetrics.HasCategorySnoc | lib/dashboard-metrics.ts:124-132 | one more transaction adds its category to those in scope exactly when it is in scope |
| DashboardMetrics.AddExpenseDistinct | lib/dashboard-metrics.ts:130-131 | adding an expense keeps one slice per category |
| DashboardMetrics.AddExpenseSum | lib/dashboard-metrics.ts:130-131 | adding an expense raises the slices' sum by its amount |
| DashboardMetrics.AddExpenseNames | lib/dashboard-metrics.ts:130-131 | adding an expense adds its category to the slice names and no other |
| DashboardMetrics.AddExpenseTotals | lib/dashboard-metrics.ts:124-132 | adding an in-scope expense keeps every slice at its category's total |
| DashboardMetrics.AbsentCategoryTotalsZero | lib/dashboard-metrics.ts:124-132 | a category with no in-scope expense totals zero |
| DashboardMetrics.GroupExpensesBreaks | lib/dashboard-metrics.ts:121-133 | the grouping has one slice per category in scope, each holding that category's total, and the slices sum to the in-scope total |
| DashboardMetrics.GetExpenseBreakdown | lib/dashboard-metrics.ts:121-137 | the slices have distinct names, one per in-scope expense category, each with its total, summing to the in-scope total, sorted largest first |
| DashboardMetrics.TransactionMonthKeys | lib/dashboard-metrics.ts:140 | the month key of each transaction, in order |
| DashboardMetrics.GetAvailableMonthOptions | lib/dashboard-metrics.ts:139-156 | "all" comes first, followed by the month keys |
| DashboardMetrics.MonthOptionsMembers | lib/dashboard-metrics.ts:139-145 | a month is offered exactly when it is the current month or some transaction falls in it |
| DashboardMetrics.MonthOptionsDescending | lib/dashboard-metrics.ts:143-145 | the months offered are distinct and newest first |
| Csv.DoubleQuotes | lib/csv.ts:6 | doubling quotes never shortens the text and adds no line feed |
| Csv.EscapeCsvValue | lib/csv.ts:3-9 | a value without comma, quote or line feed is unchanged; any other is wrapped in quotes; no line feed is introduced |
| Csv.EscapeAll | lib/csv.ts:12-13 | one escaped field per field |
| Csv.RecordLines | lib/csv.ts:13 | one line per record |
| Csv.ReadFieldOfEscaped | lib/csv.ts:3-9 | an escaped field followed by a separator reads back as the value, stopping at the separator |
| Csv.EscapeRoundTrip | lib/csv.ts:3-9 | removing the outer quotes of an escaped value and collapsing doubled quotes gives the value back |
| Csv.ReadRecordOfJoinRow | lib/csv.ts:12-13 | a line of escaped fields joined with commas reads back as those fields |
| Csv.ParseJoinRecords | lib/csv.ts:14 | records joined with line feeds read back as the records |
| Csv.BuildCsvRoundTrip | lib/csv.ts:11-15 | the export reads back as the header followed by every row, whatever the fields hold |
| Csv.ExportRecords | lib/csv.ts:11-15 | reading back gives one record more than there are rows: the header, then each row in order |
| Csv.BuildCsvLines | lib/csv.ts:11-15 | with no line feed in any field, the export has exactly one line per row plus the header line, and the header line comes first |
| Csv.StudentRow | lib/csv.ts:20-28 | seven fields: id, name, phone, the batch's name, join date, the status's name, the fee written out |
| Csv.FinanceRow | lib/csv.ts:45-55 | nine fields: id, date, category, the type's name, the amount written out, the status's name, description, note and student id, a missing note or student id being an empty field |
| Csv.AttendanceRow | lib/csv.ts:62-70 | seven fields: id, student id, student name, the batch's name, date, the status's name and note, a missing note being an empty field |
| Csv.StudentsRows | lib/csv.ts:20 | one row per student, in order |
| Csv.FinancesRows | lib/csv.ts:45 | one row per finance record, in order |
| Csv.AttendanceRows | lib/csv.ts:62 | one row per attendance record, in order |
| Csv.StudentRowMatches | lib/csv.ts:20-28 | a student's row holds their id, name, phone, batch name, join date, status name and a fee that reads back as the same number |
| Csv.StudentsRowsMatch | lib/csv.ts:17-30 | every row matches its student |
| Csv.StudentsCsvReadsBack | lib/csv.ts:17-30 | the student export reads back as the seven headers and one matching record per student |
| Csv.FinanceRowMatches | lib/csv.ts:45-55 | a record's row holds all nine of its fields: id, date, category, type name, an amount that reads back as the same number, status name, description, the note (empty when missing) and the student id (empty when missing) |
| Csv.FinancesRowsMatch | lib/csv.ts:32-57 | every row holds all nine fields of its record |
| Csv.FinancesCsvReadsBack | lib/csv.ts:32-57 | the finance export reads back as the nine headers and, per finance record, all nine of its fields, the amount as the same number |
| Csv.AttendanceCsvReadsBack | lib/csv.ts:59-72 | the attendance export reads back as the seven headers and, per attendance record, all seven of its fields: id, student id, student name, batch name, date, status name and note (empty when missing) |
| DataService.ToNumber | lib/data-service.ts:95-108 | a finite number is itself, text that reads as a number is that number, and non-finite, unreadable or missing values give the fallback |
| DataService.ToNumberOfText | lib/data-service.ts:100-104 | an integer stored as its decimal text reads back as that integer |
| DataService.MapStudentRow | lib/data-service.ts:110-120 | every column is copied, a missing batch is the morning batch and the fee falls back to 3000 |
| DataService.MapStudentRowOfWritten | lib/data-service.ts:110-120 | reading back a student's own row gives the student (minus the teacher, which the table does not hold) |
| DataService.MapFinanceRow | lib/data-service.ts:122-136 | columns are copied, the amount falls back to 0, the description is the trimmed description, else the trimmed note, else empty, and the student link is kept exactly when present |
| DataService.MapFinanceRowOfWritten | lib/data-service.ts:122-136 | reading back a record's own row gives the record when its description is already trimmed |
| DataService.DisplayName | lib/data-service.ts:142 | the trimmed name, or "Unknown Student" exactly when the name is missing or blank (or is that text itself); never empty |
| DataService.MapAttendanceRow | lib/data-service.ts:138-148 | ids become text, the name is the display name, a missing batch is morning, the other columns are copied |
| DataService.LookupKeyIgnoresPadding | lib/data-service.ts:150-152 | surrounding whitespace on the name or phone does not change the lookup key |
| DataService.LookupKeyInjective | lib/data-service.ts:150-152 | for names without a colon, equal keys mean equal trimmed, lower-cased names and phones |
| DataService.MissingColumnMessageRecognised | lib/data-service.ts:154-178 | the database's missing-column message is recognised for its column and as a schema error, and never for a longer column name |
| DataService.HydrateAttendanceRows | lib/data-service.ts:180-192 | one row per row, every other column unchanged; a row's own name or batch is kept, a missing one comes from the row's student in the map, and without that student it is "Unknown Student" or morning |
| DataService.HydratedRowShowsStudent | lib/data-service.ts:180-192 | a row lacking name and batch of a known student shows that student's name and batch once mapped |
| DataService.FormatTransportFailure | lib/data-service.ts:194-213 | a network failure gives the fixed unreachable-API text after the action; any other message is appended as is |
| DataService.TransportFailureKeepsOtherMessages | lib/data-service.ts:194-213 | the text always starts with the action, ends with a non-network message, and all network failures read the same |
| DataService.KeyedIds | lib/data-service.ts:1007-1009 | one (lookup key, id) pair per inserted row, in order |
| DataService.BuildIdByLookupKey | lib/data-service.ts:1006-1009 | the row-by-row loop builds the key-to-id map |
| DataService.LastWinsFinds | lib/data-service.ts:1007-1009 | a key is in the map exactly when some pair has it, and maps to one of their values |
| DataService.LastWinsLast | lib/data-service.ts:1007-1009 | the last pair with a key decides its value |
| DataService.IdByLookupKeyFinds | lib/data-service.ts:1006-1009 | a key is present exactly when some inserted row has it, and the last such row's id is its value |
| DataService.BuildStudentIdMap | lib/data-service.ts:1011-1017 | the student-by-student loop builds the old-id to new-id map |
| DataService.StudentIdMapSound | lib/data-service.ts:1011-1017 | every mapped id is a non-empty inserted id, and every demo student whose key has a non-empty id is mapped |
| DataService.FinanceResetPayload | lib/data-service.ts:1019-1028 | one payload per record with its amount and category, and its student link re-mapped (dropped when unknown or empty) |
| DataService.AttendanceResetPayload | lib/data-service.ts:1038-1054 | never more records than given (what it keeps is stated by AttendanceResetPayloadKeepsMapped) |
| DataService.RemapAll | lib/data-service.ts:1039-1052 | each record re-linked, one for one |
| DataService.AttendanceResetPayloadKeepsMapped | lib/data-service.ts:1038-1054 | the payload is exactly the re-linked records of mapped students, in order |
| DataService.ResetKeepsEverythingWhenAllInserted | lib/data-service.ts:1006-1054 | when every demo student comes back from the insert, no attendance is dropped and every fee link to a demo student survives |
| DataService.RetryUpsert | lib/data-service.ts:874-907 | at most four attempts, columns only ever dropped, and success only when the database accepts the columns sent |
| DataService.UpsertAttendance | lib/data-service.ts:877-903 | the attempt loop ends as the retry function from all columns and attempt 0 |
| DataService.ColumnToDropOfMissing | lib/data-service.ts:887-900 | each missing-column message drops exactly that column |
| DataService.DropStep | lib/data-service.ts:887-900 | a missing-column error retries without that column on the next attempt |
| DataService.UpsertSucceedsWithoutMissingColumns | lib/data-service.ts:874-907 | whatever optional columns the database lacks, the save succeeds with exactly the others after one attempt per missing column plus one |
| MockDataService.FreshIdsDiffer | lib/data-service.ts:27-29 | ids drawn with different counter values never collide |
| MockDataService.Toggled | lib/data-service.ts:350-353 | the status flips between paid and pending and nothing else changes |
| MockDataService.SetRecordLaw | lib/data-service.ts:369 | setting a record keeps one record per student; its student then finds it and every other student finds what they found before |
| MockDataService.ByStudentLaw | lib/data-service.ts:365 | the map of the day's records holds one record per student, drawn from the records, and a student is absent exactly when they had none |
| MockDataService.SetRecordMembers | lib/data-service.ts:369 | a set leaves only old records and the new one |
| MockDataService.DraftRecord | lib/data-service.ts:369-377 | a saved note is never blank and is trimmed |
| MockDataService.MergeDrafts | lib/data-service.ts:367-378 | the id counter only grows |
| MockDataService.MergeDraftsSnoc | lib/data-service.ts:367-378 | one more draft reuses the student's record id if present, else draws a fresh id |
| MockDataService.MergeDraftsOnePerStudent | lib/data-service.ts:367-380 | merging keeps one record per student |
| MockDataService.MergeDraftsStep | lib/data-service.ts:368-377 | after one more draft its student finds the draft's record and others find what they found before |
| MockDataService.MergeDraftsUndrafted | lib/data-service.ts:367-378 | a student with no draft finds the record they had |
| MockDataService.MergeDraftsKeepsIds | lib/data-service.ts:370 | a student already present keeps their record id |
| MockDataService.MergeDraftsLastWins | lib/data-service.ts:367-378 | a student's last draft decides their record |
| MockDataService.MergeDraftsDated | lib/data-service.ts:374 | every merged record carries the saved date |
| MockDataService.SaveAttendanceReplacesDate | lib/data-service.ts:362-384 | the saved records are one per student on the date, become that date's records, and other dates are untouched |
| MockDataService.SaveAttendanceDrafted | lib/data-service.ts:362-384 | a drafted student's record is their last draft, keeping the id of a record they had that day |
| MockDataService.SaveAttendanceUndrafted | lib/data-service.ts:362-384 | a student without a draft keeps one of their records of the day, and has none exactly when they had none |
| MockDataService.CheckNewUser | lib/data-service.ts:419-431 | the normalised email is accepted exactly when non-empty, the password has six characters and no account has that email in any case; each refusal has its own message |
| MockDataService.CreateKeepsEmailsDistinct | lib/data-service.ts:418-442 | creating an account keeps emails distinct regardless of case |
| MockDataService.CreateRefusesSameEmailAgain | lib/data-service.ts:428-431 | once created, the same email in any case or padding is refused as already existing |
| MockDataService.RemoveAccess | lib/data-service.ts:444-454 | "user" removes exactly the accounts with the id; "access" keeps every account and clears only that id's role |
| MockDataService.SetRole | lib/data-service.ts:400-416 | the first account with the id gets the role and no other changes; with none, a placeholder account is appended |
| MockDataService.SetRoleThenFind | lib/data-service.ts:400-416 | afterwards the account with the id is found with the role |
| MockDataService.MockAppDataService.constructor | lib/data-service.ts:233-242 | the service starts on the initial snapshot with the one owner account |
| MockDataService.MockAppDataService.CreateId | lib/data-service.ts:27-29 | each id drawn uses the counter, which then advances; nothing else changes |
| MockDataService.MockAppDataService.GetInitialSnapshot | lib/data-service.ts:244-246 | the current snapshot |
| MockDataService.MockAppDataService.AddStudent | lib/data-service.ts:248-261 | a new student with a fresh id and defaults goes first |
| MockDataService.MockAppDataService.UpdateStudent | lib/data-service.ts:263-284 | an unknown id fails with "Student not found." and changes nothing; otherwise the merged student replaces its matches |
| MockDataService.MockAppDataService.DeleteStudent | lib/data-service.ts:286-296 | the student and their attendance go and their records are unlinked |
| MockDataService.MockAppDataService.AddTransaction | lib/data-service.ts:298-313 | a new record with a fresh id goes first |
| MockDataService.MockAppDataService.UpdateTransaction | lib/data-service.ts:315-338 | an unknown id fails with "Transaction not found." and changes nothing; otherwise the edited record replaces its matches |
| MockDataService.MockAppDataService.DeleteTransaction | lib/data-service.ts:340-342 | the records with the id go |
| MockDataService.MockAppDataService.ToggleTransactionStatus | lib/data-service.ts:344-360 | an unknown id fails and changes nothing; otherwise the toggled record replaces its matches |
| MockDataService.MockAppDataService.SaveAttendance | lib/data-service.ts:362-384 | the merged records are the drafts folded into the date's records, and replace that date's records |
| MockDataService.MockAppDataService.GroupByStudent | lib/data-service.ts:365 | the loop builds the map of the day's records by student |
| MockDataService.MockAppDataService.MergeEntries | lib/data-service.ts:367-378 | the loop over the drafts computes the merge and draws ids as it goes |
| MockDataService.MockAppDataService.UpdateProfile | lib/data-service.ts:386-389 | the profile is stored and returned |
| MockDataService.MockAppDataService.ResetAllData | lib/data-service.ts:391-394 | the snapshot is the initial one again; accounts are untouched |
| MockDataService.MockAppDataService.ListUserAccess | lib/data-service.ts:396-398 | the accounts as stored |
| MockDataService.MockAppDataService.UpdateUserAccessRole | lib/data-service.ts:400-416 | the accounts become the role-set accounts |
| MockDataService.MockAppDataService.CreateUserAccess | lib/data-service.ts:418-442 | a refused input changes nothing and reports its message; an accepted one puts a new account with a fresh id first |
| MockDataService.MockAppDataService.DeleteUserAccess | lib/data-service.ts:444-454 | the accounts become the removed-access accounts |
| TeacherNames.KeepFirst | components/providers/auth-provider.tsx:37-55 | no kept name is blank, and no two kept names share a key |
| TeacherNames.KeepFirstSound | components/providers/auth-provider.tsx:41-52 | every kept name is the cleaned form of some input value |
| TeacherNames.KeepFirstComplete | components/providers/auth-provider.tsx:41-52 | no non-blank value is lost: its key is among the kept keys |
| TeacherNames.KeepFirstKeepsFirst | components/providers/auth-provider.tsx:46-51 | a non-blank value whose key has not come before is kept as cleaned, so the first spelling wins |
| TeacherNames.KeepFirstPrefix | components/providers/auth-provider.tsx:41-52 | the names kept for a prefix of the input are a prefix of those kept for the whole, so input order is kept |
| TeacherNames.KeepFirstOfCleaned | components/settings/access-management-card.tsx:56-67 | the result depends only on the cleaned values, so trimming before or during the pass gives the same list |
| TeacherNames.KeepFirstOfDistinct | components/providers/auth-provider.tsx:37-55 | an already clean list without repeated keys is kept whole |
| TeacherNames.DistinctNames | components/providers/auth-provider.tsx:37-55 | every name is non-blank and trimmed, and no two are equal ignoring letter case |
| TeacherNames.DistinctNamesIdempotent | components/providers/auth-provider.tsx:37-55 | cleaning an already cleaned list changes nothing |
| AccessManagement.ParsedTeacherNamesClean | components/settings/access-management-card.tsx:52-70 | parsed names are non-blank, trimmed, free of commas and distinct ignoring letter case |
| AccessManagement.ParseTeacherNames | components/settings/access-management-card.tsx:52-70 | the split-and-keep-first loop gives the parsed names |
| AccessManagement.ParseKeepsFirstSpelling | components/settings/access-management-card.tsx:60-67 | a non-blank entry whose spelling, up to case, has not come earlier is kept as typed, trimmed |
| AccessManagement.ParseLosesNoName | components/settings/access-management-card.tsx:56-67 | every non-blank entry of the field is among the parsed names up to letter case |
| AccessManagement.Spaced | components/settings/access-management-card.tsx:72-74 | the parts of a ", " join split at commas: the first name, then each further name after one space |
| AccessManagement.JoinSpaced | components/settings/access-management-card.tsx:72-74 | joining with ", " is joining the spaced names with "," |
| AccessManagement.SpacedHasNoComma | components/settings/access-management-card.tsx:72-74 | names without commas leave no comma inside any part |
| AccessManagement.SpacedTrimsBack | components/settings/access-management-card.tsx:58 | trimming a part gives back its name |
| AccessManagement.ParseJoined | components/settings/access-management-card.tsx:52-74 | clean, distinct names formatted with ", " parse back to themselves |
| AccessManagement.ParseFormatParse | components/settings/access-management-card.tsx:52-74 | parsing the formatted parse of any field gives the same names |
| AccessManagement.RoleLabel | components/settings/access-management-card.tsx:76-80 | "Unassigned" exactly for no role |
| AccessManagement.RoleLabelsDiffer | components/settings/access-management-card.tsx:76-80 | different roles, including no role, read differently |
| AccessManagement.ErrorMessage | components/settings/access-management-card.tsx:82-88 | an error's non-blank message is shown; anything else shows the fallback, and a blank result is the fallback |
| AccessManagement.DecideSave | components/settings/access-management-card.tsx:192-207 | nothing without a picked role; the self-demotion and missing-teacher refusals exactly when their checks are the first to fail; otherwise the picked role, with the parsed teachers only for "students_only" |
| AccessManagement.SavedRecords | components/settings/access-management-card.tsx:218-228 | same length; the record with the id gets the role and teacher list, every other record is kept |
| AccessManagement.SaveKeepsTeachersWithStudentsOnly | components/settings/access-management-card.tsx:192-228 | a saved account has the picked role, has teachers exactly when it is "students_only", and the acting user stays an admin |
| AccessManagement.CreateRequestChecks | components/settings/access-management-card.tsx:242-270 | each refusal happens exactly when its check is the first to fail; a request goes out exactly when all pass, with the email trimmed and lower-cased and teachers only for "students_only" |
| AccessManagement.CreateRequestPassesServiceChecks | components/settings/access-management-card.tsx:242-270 | a request the card lets through can be refused by the in-memory service only as a duplicate |
| AccessManagement.CreatedRecords | components/settings/access-management-card.tsx:272-281 | the created account replaces the first record with its id in place, or comes first when there is none |
| AccessManagement.CreatedRecordsFind | components/settings/access-management-card.tsx:272-281 | the card then finds the created account under its id |
| AccessManagement.DeletedRecords | components/settings/access-management-card.tsx:329-349 | "user" keeps exactly the records of other ids; "access" keeps every record and empties only that id's role and teachers |
| AccessManagement.DeletedRecordsAgreeWithService | components/settings/access-management-card.tsx:327-349 | the card's list equals the service's after a "user" deletion, and differs only in teacher lists after an "access" one |
| AccessManagement.RoleSelection | components/settings/access-management-card.tsx:153-156 | every listed account has a picked role |
| AccessManagement.TeacherSelection | components/settings/access-management-card.tsx:157-160 | every listed account has a teacher text |
| AccessManagement.SelectionShowsStoredAccess | components/settings/access-management-card.tsx:153-160 | with distinct ids, each account's row shows its stored role ("students_only" when none) and its formatted teachers |
| AccessManagement.FilteredRecords | components/settings/access-management-card.tsx:387-399 | a blank search keeps all records; otherwise exactly the records whose email, id, role or a teacher contains the query ignoring case |
| AccessManagement.FilteredRecordsInOrder | components/settings/access-management-card.tsx:387-399 | the search keeps the list's order |
| AccessManagement.AccessManagementCard.constructor | components/settings/access-management-card.tsx:106-126 | the card starts empty, with the empty create form and no dialog or banner |
| AccessManagement.AccessManagementCard.LoadUsers | components/settings/access-management-card.tsx:137-172 | nothing happens unless authentication is on and the user is an admin; a loaded list replaces the records and both selections; a failure only sets the error |
| AccessManagement.AccessManagementCard.HandleSave | components/settings/access-management-card.tsx:192-240 | a refusal only sets its error; a failed update only sets the error; a successful one updates the record and, unless the acting user's role reload fails, shows the success banner |
| AccessManagement.AccessManagementCard.SaveAccepted | components/settings/access-management-card.tsx:209-239 | the service's answers decide the record and the banners |
| AccessManagement.AccessManagementCard.CheckCreateForm | components/settings/access-management-card.tsx:243-258 | the form's checks on the typed values give the create request |
| AccessManagement.AccessManagementCard.CreateRefused | components/settings/access-management-card.tsx:297-298 | a refused creation shows its error and keeps the form as typed |
| AccessManagement.AccessManagementCard.CreateAccepted | components/settings/access-management-card.tsx:272-296 | the account is put in the list and its row's selections, and the form is emptied |
| AccessManagement.AccessManagementCard.HandleCreateUser | components/settings/access-management-card.tsx:242-302 | a refused form sends nothing and only sets the error; a passing one sends the request and applies the service's answer |
| AccessManagement.AccessManagementCard.OpenDeleteDialog | components/settings/access-management-card.tsx:304-308 | the dialog opens on the account and the error is cleared |
| AccessManagement.AccessManagementCard.HandleDelete | components/settings/access-management-card.tsx:310-368 | no target does nothing; the acting user's own account is never deleted (error shown, dialog closed, records kept); a failure keeps the records and dialog; a success applies the deletion |
| AccessManagement.AccessManagementCard.DeleteAccepted | components/settings/access-management-card.tsx:329-362 | the record is dropped or emptied, the row's selections removed or reset, and the dialog closed |
| AuthProvider.FormatAuthTransportError | components/providers/auth-provider.tsx:11-30 | a network failure becomes the fixed unreachable hint for the action; any other message is shown unchanged |
| AuthProvider.AuthTransportErrorRewritesPhrases | components/providers/auth-provider.tsx:19-27 | any error carrying one of the four browser phrases, anywhere and in any case, reads like every other network failure |
| AuthProvider.AuthTransportErrorKeepsShortMessages | components/providers/auth-provider.tsx:11-29 | a message too short to hold a phrase is shown as it is |
| AuthProvider.MissingColumnWordingAnywhere | components/providers/auth-provider.tsx:57-62 | either wording of the missing teacher-names column is recognised wherever it stands |
| AuthProvider.NormalizeStoredRole | components/providers/auth-provider.tsx:64-72 | "admin" is admin, "students_only" and the legacy "teacher" are students-only, and anything else is no role |
| AuthProvider.StoredRoleRoundTrip | components/providers/auth-provider.tsx:64-72 | a role stored under its own name reads back as itself |
| AuthProvider.NormalizeTeacherNames | components/providers/auth-provider.tsx:37-55 | the loop gives the cleaned, case-distinct names, and no list gives none |
| AuthProvider.RoleLookupRetriesOnlyOnMissingColumn | components/providers/auth-provider.tsx:113-143 | the fallback query's answer matters only after the missing-column error, and then decides the outcome |
| AuthProvider.MissingColumnWordingsAlone | components/providers/auth-provider.tsx:57-62 | the database's wording, alone, is recognised |
| AuthProvider.RoleLookupOutcomes | components/providers/auth-provider.tsx:113-143 | an answer without error gives its row; any other error fails with "Failed to load user role:" and its message |
| AuthProvider.RoleLookupWithoutTeacherColumn | components/providers/auth-provider.tsx:122-130 | a database without the teacher-names column still yields the role row |
| AuthProvider.AuthState.constructor | components/providers/auth-provider.tsx:94-99 | no session yet; an admin with sign-in off, no role and loading with it on |
| AuthProvider.AuthState.LoadRole | components/providers/auth-provider.tsx:101-148 | with sign-in off the user is an admin; a failed lookup clears role and names and reports the error; a found row sets the stored role and cleaned names; the flag always ends down |
| AuthProvider.AuthState.ApplyRow | components/providers/auth-provider.tsx:145-147 | the row's role read through the legacy mapping and its cleaned teacher names |
| AuthProvider.AuthState.FailRole | components/providers/auth-provider.tsx:132-142 | no role, no names, flag down |
| AuthProvider.AuthState.ApplySession | components/providers/auth-provider.tsx:191-232 | the session and its user are stored; no user clears the role; a user loads the role as LoadRole does |
| AuthProvider.AuthState.Bootstrap | components/providers/auth-provider.tsx:150-212 | sign-in off makes an admin; a failed session read leaves nobody signed in and no role; otherwise the session found is kept with its user, no session clears the role, and a session's user gets the role and deduplicated teacher names of the row read, or none when the role lookup fails; both flags end down |
| AuthProvider.AuthState.SignOut | components/providers/auth-provider.tsx:262-283 | with sign-in off the visitor stays an admin with no session; otherwise the transport failure, the server's error, or success |
| AuthProvider.AuthState.RefreshRole | components/providers/auth-provider.tsx:285-294 | nobody signed in clears the role; otherwise the role is loaded again: an admin with sign-in off, the row's normalised role and deduplicated teacher names on success, no role and the thrown message on failure; session and user are unchanged |
| AuthProvider.AuthState.SignIn | components/providers/auth-provider.tsx:241-260 | nothing is sent with sign-in off; otherwise the trimmed email and the password are sent, and a transport failure or the server's error is reported |
| AdminUsersRoute.AllowedRolesAreAppRoles | app/api/admin/users/route.ts:12 | the allowed roles are exactly the names of the panel's two roles |
| AdminUsersRoute.ExtractBearerToken | app/api/admin/users/route.ts:28-35 | a token read is never empty and has no surrounding whitespace; no header gives no token |
| AdminUsersRoute.TokenAfterScheme | app/api/admin/users/route.ts:30-34 | a token read from a trimmed header is never empty and is trimmed |
| AdminUsersRoute.BearerTokenRead | app/api/admin/users/route.ts:28-35 | a header that is, up to whitespace, "bearer" in any case, a gap and a token gives that token |
| AdminUsersRoute.BearerTokenShape | app/api/admin/users/route.ts:28-35 | a token read is the end of the trimmed header, after "bearer " in some case and a run of whitespace |
| AdminUsersRoute.ValidEmailIsPattern | app/api/admin/users/route.ts:37-39 | the email test accepts exactly the strings `local@host.top` with three non-empty runs free of whitespace and '@' |
| AdminUsersRoute.ValidEmailPieces | app/api/admin/users/route.ts:37-39 | a valid email splits into the pattern's three pieces |
| AdminUsersRoute.NormalizeEmailIdempotent | app/api/admin/users/route.ts:79 | normalising a normalised email changes nothing |
| AdminUsersRoute.ValidateBody | app/api/admin/users/route.ts:78-96 | a body passes exactly when its normalised email is valid, its password has six characters and its role is allowed; each check's refusal comes in the route's order |
| AdminUsersRoute.Authorize | app/api/admin/users/route.ts:43-76 | the caller passes exactly when it holds a token, the server is configured, the token names a user and that user's stored role is "admin"; a missing token is 401 and every refusal is 400, 401, 403 or 500 |
| AdminUsersRoute.Post | app/api/admin/users/route.ts:41-134 | no token is 401; a creation happens only for an admin caller and a valid body, with the requested, allowed role; every other answer is 400, 401, 403 or 500 |
| AdminUsersRoute.CreateFor | app/api/admin/users/route.ts:78-128 | a creation needs a valid body and carries its allowed role; any failure is 400 or 500 |
| AdminUsersRoute.NonAdminRefusedBeforeBody | app/api/admin/users/route.ts:74-76 | a caller whose stored role is not "admin" gets 403 whatever the body and before any account is created |
| AdminUsersRoute.InvalidBodyRefused | app/api/admin/users/route.ts:83-96 | an admin's invalid body gets 400 with the first failing check's message, and no account is created |
| AdminUsersRoute.ValidRequestCreates | app/api/admin/users/route.ts:98-128 | when every call succeeds, an admin's valid request creates the account with the requested role and the created (or normalised) email |
| AttendanceTab.ParseMonthValue | components/students/attendance-tab.tsx:74-84 | either today or the first day of a month 1..12 |
| AttendanceTab.ParseMonthValueOfMonthKey | components/students/attendance-tab.tsx:68-84 | the picker's value of a month reads back as that month's first day |
| AttendanceTab.MonthValueOfParts | components/students/attendance-tab.tsx:74-84 | a value "<year>-<month>" gives that month's first day exactly when both parts read as numbers and the month is 1..12; otherwise ("2026-13", "2026-00", "2026-xx") it gives today |
| AttendanceTab.MonthValueWithoutMonthIsToday | components/students/attendance-tab.tsx:75-81 | a value without a month part falls back to today |
| AttendanceTab.GetNearestWeekday | components/students/attendance-tab.tsx:86-99 | a valid weekday, the day itself when it is one, else one or two days later |
| AttendanceTab.ActiveBatchStudents | components/students/attendance-tab.tsx:147-153 | a permutation of the active students of the batch |
| AttendanceTab.ActiveBatchStudentsSorted | components/students/attendance-tab.tsx:147-153 | the roster is ordered by name and lists exactly the active students of the batch |
| AttendanceTab.KeepSelection | components/students/attendance-tab.tsx:194-202 | a kept selection is the current one and on the roster; a non-empty current id on the roster is kept |
| AttendanceTab.ExistingByStudentMembers | components/students/attendance-tab.tsx:160-166 | a student is in the map exactly when they have a record of the day, and maps to one of their records |
| AttendanceTab.ExistingByStudentKeepsLast | components/students/attendance-tab.tsx:162-164 | a student's last record of the day is the one kept |
| AttendanceTab.AttendanceSheet.constructor | components/students/attendance-tab.tsx:139-140 | the sheet starts with no statuses and no notes |
| AttendanceTab.AttendanceSheet.Load | components/students/attendance-tab.tsx:204-216 | each roster student's status and note start from their stored record, else present and empty |
| AttendanceTab.AttendanceSheet.SetStatus | components/students/attendance-tab.tsx:482-503 | only that student's status changes |
| AttendanceTab.AttendanceSheet.SetNote | components/students/attendance-tab.tsx:514-518 | only that student's note changes |
| AttendanceTab.CountPresent | components/students/attendance-tab.tsx:220-222 | never more than the roster |
| AttendanceTab.SummaryOf | components/students/attendance-tab.tsx:218-225 | the total is the roster size, and present and absent add up to it |
| AttendanceTab.SummaryCountsAbsent | components/students/attendance-tab.tsx:218-225 | the absent count is the number of students marked absent |
| AttendanceTab.NoteOrNone | components/students/attendance-tab.tsx:334 | a sent note is never blank and is trimmed |
| AttendanceTab.SaveRequest | components/students/attendance-tab.tsx:321-335 | nothing is sent exactly for an empty roster; otherwise one draft per roster student, in order, with their status (present unless marked) and their trimmed note, none for a missing or blank one |
| AttendanceTab.SavedSheetReloads | components/students/attendance-tab.tsx:204-216 | loading back what was saved gives every roster student their drafted status and trimmed note |
| AttendanceTab.WeekendCells | components/students/attendance-tab.tsx:252-272 | a day shows as a weekend exactly when it is one, whatever is stored |
| AttendanceTab.DraftOverridesRecord | components/students/attendance-tab.tsx:257-261 | on the selected date the drafted status and note win over whatever is stored |
| AttendanceTab.CellsMatchSnoc | components/students/attendance-tab.tsx:249-303 | one more day's cell extends the calendar |
| AttendanceTab.CountKind | components/students/attendance-tab.tsx:245-247 | never more than the number of cells |
| AttendanceTab.KindsPartition | components/students/attendance-tab.tsx:263-302 | every cell is of exactly one kind |
| AttendanceTab.TrailingEmptyCells | components/students/attendance-tab.tsx:305 | fewer than seven, and the grid then fills whole weeks |
| AttendanceTab.PaddingFillsWeeks | components/students/attendance-tab.tsx:242-305 | the padded grid is whole weeks |
| AttendanceTab.BuildMonthlyView | components/students/attendance-tab.tsx:237-305 | one cell per day of the month, each showing that day; the first weekday pads the start, the end pads to whole weeks, and the counters agree with the cells |
| AttendanceTab.MonthlyViewCounts | components/students/attendance-tab.tsx:245-303 | present and absent days are working days, and working days and weekends make up the month |
| AttendanceTab.ViewedMonth | components/students/attendance-tab.tsx:237-239 | always a valid month |
| AttendanceTab.MonthlyViewFor | components/students/attendance-tab.tsx:232-319 | a calendar exactly when a student is selected, showing the viewed month day by day, in whole weeks, with present and absent days among the working days |
| StudentFinanceTab.MonthOptionsOfFees | components/students/student-finance-tab.tsx:69-84 | a month is offered exactly when it is the current month or a fee record falls in it |
| StudentFinanceTab.MonthOptionsOfFeesDescending | components/students/student-finance-tab.tsx:69-84 | the months offered are distinct and newest first |
| StudentFinanceTab.KeepSelectedMonth | components/students/student-finance-tab.tsx:151-155 | an offered month stays selected; otherwise the newest option, or the current month when there is none |
| StudentFinanceTab.KeptMonthIsOffered | components/students/student-finance-tab.tsx:151-155 | the selected month is always one of the options |
| StudentFinanceTab.GetNewTransactionDate | components/students/student-finance-tab.tsx:86-92 | today in the current month, otherwise the month's first day |
| StudentFinanceTab.NewTransactionDateInMonth | components/students/student-finance-tab.tsx:86-92 | a new fee record is dated inside the month it is created for |
| StudentFinanceTab.BuildStudentFeePayload | components/students/student-finance-tab.tsx:98-113 | a student-fee income record of the student's fee, with the given status, linked to the student, dated in the month and described by the month's label |
| StudentFinanceTab.ToActionErrorMessage | components/students/student-finance-tab.tsx:115-134 | a network failure gives the fixed hint; any other message is shown as it is |
| StudentFinanceTab.ActionErrorOfNetworkPhrase | components/students/student-finance-tab.tsx:115-134 | a network phrase anywhere in an error, in any case, gives the hint; a short message passes through |
| StudentFinanceTab.Rows | components/students/student-finance-tab.tsx:157-200 | one row per active student matching the search, in order, each built from the month's fee records |
| StudentFinanceTab.RowsAreActiveStudents | components/students/student-finance-tab.tsx:157-200 | every row is an active student, and a blank search lists every active student |
| StudentFinanceTab.FirstIsLatest | components/students/student-finance-tab.tsx:186-195 | sorting latest first puts a record of the latest date in front |
| StudentFinanceTab.OwnFeeRecords | components/students/student-finance-tab.tsx:175-190 | a row chooses exactly among the student's fee records of the month |
| StudentFinanceTab.RowShowsLatestFee | components/students/student-finance-tab.tsx:175-200 | a row shows the student's fee record of the month with the latest date, none when they have none, and reads paid exactly when it is paid |
| StudentFinanceTab.ToggleStaysInMonth | components/students/student-finance-tab.tsx:202-229 | the request carries the switch's status, updates the shown record (keeping its id and date) or adds one, and writes a fee income of the student in the selected month |
| StudentFinanceTab.ReadFee | components/students/student-finance-tab.tsx:236-240 | no fee exactly for a blank or unreadable draft; otherwise the number read |
| StudentFinanceTab.FeeUpdate | components/students/student-finance-tab.tsx:235-255 | nothing for a blank, unreadable or negative draft or the current fee; otherwise the student's fields with the new fee |
| StudentFinanceTab.UnchangedFeeSavesNothing | components/students/student-finance-tab.tsx:231-265 | the draft a student starts with saves nothing, and neither does the draft written back after a save |
| StudentFinanceTab.FinanceTabState.constructor | components/students/student-finance-tab.tsx:144-149 | the current month, no drafts, no error |
| StudentFinanceTab.FinanceTabState.SyncSelectedMonth | components/students/student-finance-tab.tsx:151-155 | the selection becomes the kept month and nothing else changes |
| StudentFinanceTab.FinanceTabState.SetFeeDraft | components/students/student-finance-tab.tsx:334-339 | only that student's draft changes |
| StudentFinanceTab.FinanceTabState.TogglePayment | components/students/student-finance-tab.tsx:202-229 | the toggle request is sent and a failure shows its friendly message |
| StudentFinanceTab.FinanceTabState.SaveMonthlyFee | components/students/student-finance-tab.tsx:235-265 | nothing changes without an update; a successful one writes the new fee back into the draft; a failure shows its friendly message |
| StudentDirectoryTab.ParseBatch | components/students/student-directory-tab.tsx:41-43 | a batch exactly for "morning" or "evening", and it is the batch of that name |
| StudentDirectoryTab.ParseBatchOfName | components/students/student-directory-tab.tsx:41-43 | every batch's own name is valid and reads back as that batch |
| StudentDirectoryTab.SearchStudentsSelects | components/students/student-directory-tab.tsx:60-70 | the result keeps the list's order; a blank search keeps it whole, any other keeps exactly the students whose name, phone or batch contains the query ignoring case |
| StudentDirectoryTab.SubmitRequest | components/students/student-directory-tab.tsx:72-80 | an update of the student being edited, else a new student, carrying the form's input; the edit ends once the request goes through |
| StudentDirectoryTab.ToggleStatusRequest | components/students/student-directory-tab.tsx:112-126 | an update of the student with the switch's status and their own other fields |
| StudentDirectoryTab.StatusButtonFlips | components/students/student-directory-tab.tsx:225-227 | the status button always asks for the other status |
| StudentDirectoryTab.OtherBatch | components/students/student-directory-tab.tsx:196-199 | never the given batch |
| StudentDirectoryTab.SetBatchRequest | components/students/student-directory-tab.tsx:128-146 | nothing for a value that is not a batch or is the student's batch already; otherwise the student's fields with the new batch |
| StudentDirectoryTab.BatchButtonSwitches | components/students/student-directory-tab.tsx:196-199 | the batch button moves the student to the other batch, and asking again once there sends nothing |
| StudentFormDialog.OpeningFields | components/students/student-form-dialog.tsx:55-74 | a new dialog opens empty for today with the default fee and the morning batch |
| StudentFormDialog.DefaultFeeIsDefaultMonthlyFee | components/students/student-form-dialog.tsx:45-50 | the default fee text reads as the default monthly fee, 3000 |
| StudentFormDialog.TeacherInput | components/students/student-form-dialog.tsx:101 | no teacher exactly for a blank entry; otherwise the trimmed, non-empty name |
| StudentFormDialog.Submission | components/students/student-form-dialog.tsx:76-107 | nothing exactly when the name or phone is blank, the join date empty or the fee unreadable or negative; otherwise the trimmed fields, the fee, and the edited student's status (none for a new one) |
| StudentFormDialog.EditResubmitsStudent | components/students/student-form-dialog.tsx:55-107 | opening the dialog on a clean student and submitting unchanged sends the student back as it is |
| StudentFormDialog.FreshFormNeedsNameAndPhone | components/students/student-form-dialog.tsx:79-89 | a fresh dialog submits nothing until a name and phone are typed |
| StudentFormDialog.StudentForm.constructor | components/students/student-form-dialog.tsx:45-50 | the fields a new dialog opens with |
| StudentFormDialog.StudentForm.Prefill | components/students/student-form-dialog.tsx:55-74 | nothing while closed; on opening, the opening fields |
| StudentFormDialog.StudentForm.Edit | components/students/student-form-dialog.tsx:122-182 | typing sets the fields |
| StudentFormDialog.StudentForm.Submit | components/students/student-form-dialog.tsx:76-107 | the submission of the current fields |
| QuickAddTransaction.OpeningFields | components/finance/quick-add-transaction-dialog.tsx:90-111 | a new dialog opens as a paid student fee of amount 0 dated today, with no note and no student |
| QuickAddTransaction.ChangeCategory | components/finance/quick-add-transaction-dialog.tsx:113-122 | the category is set and the rest kept; a fee keeps the status and student, any other category is paid and has no student |
| QuickAddTransaction.Payload | components/finance/quick-add-transaction-dialog.tsx:124-145 | nothing exactly when the category or date is empty or the amount is not a positive number; otherwise income exactly for a fee, the fee's status and student or a paid expense of no student, and the trimmed note (or, for a blank note, no note and a default description) |
| QuickAddTransaction.NonFeeCategoryIsPaidExpense | components/finance/quick-add-transaction-dialog.tsx:113-145 | choosing any other category and submitting sends a paid expense of no student |
| QuickAddTransaction.EditResubmitsFee | components/finance/quick-add-transaction-dialog.tsx:90-145 | editing a fee record and submitting it unchanged keeps its date, amount, status and student |
| QuickAddTransaction.FreshFormNeedsAmount | components/finance/quick-add-transaction-dialog.tsx:127-130 | a new form submits nothing until an amount is typed |
| QuickAddTransaction.ToFriendlyErrorMessage | components/finance/quick-add-transaction-dialog.tsx:50-69 | a network failure gives the fixed hint; any other message is shown as it is |
| QuickAddTransaction.FriendlyErrorOfNetworkPhrase | components/finance/quick-add-transaction-dialog.tsx:50-69 | a network phrase anywhere in an error, in any case, gives the hint; a short message passes through |
| QuickAddTransaction.QuickAddForm.constructor | components/finance/quick-add-transaction-dialog.tsx:78-85 | the fields a new dialog opens with, and no error |
| QuickAddTransaction.QuickAddForm.Prefill | components/finance/quick-add-transaction-dialog.tsx:90-111 | nothing while closed; on opening, the opening fields and no error |
| QuickAddTransaction.QuickAddForm.HandleCategoryChange | components/finance/quick-add-transaction-dialog.tsx:113-122 | the fields become the changed-category fields |
| QuickAddTransaction.QuickAddForm.Submit | components/finance/quick-add-transaction-dialog.tsx:124-154 | the payload of the fields is sent if there is one; a failure then shows its friendly message |
| FinancePage.KeptMonthIsOffered | app/finance/page.tsx:53-59 | the month selection after the fallback is always one of the offered months; it is the selected month exactly when that month is offered, and "all" otherwise |
| FinancePage.TypeFilteredSelects | app/finance/page.tsx:66-72 | the type filter keeps its input's order; "all" keeps every transaction, a type keeps exactly the transactions of that type |
| FinancePage.CategoryOptionsMembers | app/finance/page.tsx:74-80 | a category is offered exactly when some transaction in the type-filtered list has it |
| FinancePage.CategoryOptionsAscending | app/finance/page.tsx:74-80 | the offered categories are strictly ascending, so each appears once |
| FinancePage.KeptCategorySelects | app/finance/page.tsx:82-94 | the category selection is kept exactly when it is offered or "all"; after the fallback the category filter keeps either everything or exactly one offered category's transactions, and never empties a non-empty list |
| FinancePage.VisibleTransactionsSelect | app/finance/page.tsx:61-94 | the listed transactions keep the ledger's order, and a transaction is listed exactly when it passes the month, type and category selections |
| FinancePage.MonthTransactionsNewestFirst | app/finance/page.tsx:106-109 | the table rows are a permutation of the filtered transactions, newest date first |
| FinancePage.DialogSubmitRequest | app/finance/page.tsx:111-118 | the dialog's input is sent as an update of the transaction being edited, or as a new transaction when none is; a successful update clears the editing transaction and a failed one keeps it |
| FinancePage.FinancePageState.constructor | app/finance/page.tsx:45-51 | the page opens on all months, all types, all categories, with nothing being edited |
| FinancePage.FinancePageState.SyncMonth | app/finance/page.tsx:53-59 | the month effect applies the fallback and leaves the other selections alone; the month kept is offered |
| FinancePage.FinancePageState.SyncCategory | app/finance/page.tsx:74-86 | the category effect applies the fallback against the categories of the month- and type-filtered transactions, and leaves the rest alone |
| FinancePage.FinancePageState.Rows | app/finance/page.tsx:88-109 | the table rows are the transactions passing the three selections, newest first |
| FinancePage.FinancePageState.Edit | app/finance/page.tsx:120-123 | the edit button makes that transaction the one being edited and leaves the selections alone |
| FinancePage.FinancePageState.OpenCreateDialog | app/finance/page.tsx:125-128 | the add button clears the transaction being edited and leaves the selections alone |
| FinancePage.FinancePageState.SubmitDialog | app/finance/page.tsx:111-118 | the request sent and the new editing state are those of the submit request |

### Functions stated by lemmas

These functions model source functions but carry no contract of their
own; the rows named after each state what they compute.

- `AccessControl.IsPublicPath` (lib/access-control.ts:3-7): `AccessControl.PublicPathShape`.
- `AccessControl.CanRoleAccessPath` (lib/access-control.ts:13-27): `AccessControl.AccessRules`, `AccessControl.DefaultPathAccessible`.
- `Dates.DateKey` (components/students/attendance-tab.tsx:60-65): `Dates.MonthKeyOfDateKey`.
- `Csv.BuildCsv` (lib/csv.ts:11-15): `Csv.BuildCsvRoundTrip`, `Csv.BuildCsvLines`.
- `Csv.StudentsToCsv`, `Csv.FinancesToCsv`, `Csv.AttendanceToCsv` (lib/csv.ts:17-72): `Csv.StudentsCsvReadsBack`, `Csv.FinancesCsvReadsBack`, `Csv.AttendanceCsvReadsBack`.
- `DataService.BuildStudentLookupKey` (lib/data-service.ts:150-152): `DataService.LookupKeyIgnoresPadding`, `DataService.LookupKeyInjective`.
- `DataService.IsMissingAttendanceTableError`, `DataService.IsMissingAttendanceColumnError`, `DataService.IsMissingAttendanceSchemaError` (lib/data-service.ts:154-178): `DataService.MissingColumnMessageRecognised`.
- `AdminUsersRoute.IsValidEmail` (app/api/admin/users/route.ts:37-39): `AdminUsersRoute.ValidEmailIsPattern`, `AdminUsersRoute.ValidEmailPieces`.
- `AdminUsersRoute.NormalizeEmail` (app/api/admin/users/route.ts:79): `AdminUsersRoute.NormalizeEmailIdempotent`, `AdminUsersRoute.ValidateBody`.
- `MockDataService.NormalizeEmail` (lib/data-service.ts:419): `MockDataService.CheckNewUser`, `MockDataService.CreateRefusesSameEmailAgain`.
- `AuthProvider.IsMissingAssignedTeachersColumnError` (components/providers/auth-provider.tsx:57-62): `AuthProvider.MissingColumnWordingAnywhere`, `AuthProvider.MissingColumnWordingsAlone`.
- `AuthProvider.RoleLookup` (components/providers/auth-provider.tsx:113-143): `AuthProvider.RoleLookupOutcomes`, `AuthProvider.RoleLookupRetriesOnlyOnMissingColumn`, `AuthProvider.RoleLookupWithoutTeacherColumn`.
- `AccessManagement.ParsedTeacherNames` (components/settings/access-management-card.tsx:52-70): `AccessManagement.ParsedTeacherNamesClean`, `AccessManagement.ParseTeacherNames`, `AccessManagement.ParseLosesNoName`.
- `AccessManagement.FormatTeacherNames` (components/settings/access-management-card.tsx:72-74): `AccessManagement.ParseFormatParse`.
- `AccessManagement.DecideCreate`, `AccessManagement.CreateRequest` (components/settings/access-management-card.tsx:242-258): `AccessManagement.CreateRequestChecks`, `AccessManagement.CreateRequestPassesServiceChecks`.
- `StudentFinanceTab.GetMonthOptions` (components/students/student-finance-tab.tsx:69-84): `StudentFinanceTab.MonthOptionsOfFees`, `StudentFinanceTab.MonthOptionsOfFeesDescending`.
- `StudentFinanceTab.RowFor` (components/students/student-finance-tab.tsx:175-200): `StudentFinanceTab.RowShowsLatestFee`.
- `StudentFinanceTab.TogglePaymentRequest` (components/students/student-finance-tab.tsx:202-229): `StudentFinanceTab.ToggleStaysInMonth`.
- `FinancePage.KeepMonth` (app/finance/page.tsx:53-59): `FinancePage.KeptMonthIsOffered`.
- `FinancePage.TypeFiltered` (app/finance/page.tsx:66-72): `FinancePage.TypeFilteredSelects`.
- `FinancePage.CategoryOptions` (app/finance/page.tsx:74-80): `FinancePage.CategoryOptionsMembers`, `FinancePage.CategoryOptionsAscending`.
- `FinancePage.KeepCategory` (app/finance/page.tsx:82-86): `FinancePage.KeptCategorySelects`.
- `FinancePage.VisibleTransactions` (app/finance/page.tsx:61-94): `FinancePage.VisibleTransactionsSelect`.
- `FinancePage.MonthTransactions` (app/finance/page.tsx:106-109): `FinancePage.MonthTransactionsNewestFirst`.
- `StudentDirectoryTab.SearchStudents` (components/students/student-directory-tab.tsx:60-70): `StudentDirectoryTab.SearchStudentsSelects`.
- `AttendanceTab.ExistingByStudent` (components/students/attendance-tab.tsx:160-166): `AttendanceTab.ExistingByStudentMembers`, `AttendanceTab.ExistingByStudentKeepsLast`.
- `AppDataProvider.CreateAll` (components/providers/app-data-provider.tsx:250-263): `AppDataProvider.CreateAllOutcome`, `AppDataProvider.CreateAllFailureStays`, `AppDataProvider.CreateAllFailureExtends`.

## Left out

- Network and storage I/O: every Supabase query, RPC, `auth.getSession`, `fetch` and `localStorage` access. Their answers are parameters of the members that consume them, as `Result` values or response datatypes.
- The Supabase service's plain query methods (lib/data-service.ts, the class `SupabaseAppDataService` apart from the reset id maps and the attendance column-drop retry): they only forward to the database.
- `createId` (lib/data-service.ts:23-29): the random UUID part is replaced by a counter held by the mock service, so ids are fresh by construction. `deepClone` (lib/data-service.ts:31-33) is value semantics in Dafny.
- The demo fixture of lib/data.ts is not written out: its dates derive from the current date, so the mock service takes its initial snapshot as a constructor parameter.
- The admin `DELETE` route (app/api/admin/users/[userId]/route.ts:134-201), with its bearer-token and admin checks, its refusal to delete the requester's own account and its last-admin guard (`ensureNotLastAdmin`, lines 101-132): it is a network handler around database queries, reached only through the Supabase service, whose request forwarding is not modelled either.
- `downloadCsv` (lib/csv.ts:74-87): DOM and Blob output.
- React lifecycle: effects, memo dependencies, the hourly month refresh timer, the `isMounted` flags and toast timers. Each effect's body is a method or function that the caller runs at the moment React would.
- The in-flight flags (`saving`, `creating`, `deletingUserId`, `togglingId`, `isSeedingMonthlyDuesRef` apart from its set-and-clear around one pass) only guard overlapping async requests, which the sequential model does not have. The dialogs' `open` flags are also left out.
- `Promise.all` in the dues pass (components/providers/app-data-provider.tsx:250-263) is modelled as a sequential batch that stops at the first failure, and the snapshot is updated only when every creation succeeded.
- Only the error variants the source distinguishes by its message are modelled (`formatAuthTransportError`, `formatTransportFailure`, `toFriendlyErrorMessage`, `toActionErrorMessage`). What a thrown value becomes is its message or the fixed fallback text.
- `!supabase` (an unconfigured client) is folded into `authEnabled` in the auth provider and the shell.
- The bearer token of the create-user route is only checked for presence; the route's `getUser`, profile lookup and `createUser` calls are parameters of `AdminUsersRoute.Post`.
- `Number()` on text is modelled for an optional sign and decimal digits, with blank text as 0. Fractions, exponents, hexadecimal and `Infinity` are not modelled, because amounts and fees are integers here.
- `toLowerCase` is modelled for ASCII letters only; there is no Unicode case mapping. (`trim` and `\s` use JavaScript's full whitespace set, `Text.IsWhitespace`.)
- `localeCompare` is modelled as code-point order, so the model does not capture locale-specific collation.
- Sort stability: `Seqs.SortBy` is an insertion sort, and the model proves ordering and permutation, not that equal keys keep their order.
- Locale month labels (`toLocaleString`, `Intl.DateTimeFormat`, `format(..., "PPP")`) and every other label or toast text are parameters or left out.
- `attendancePercentage` (components/students/attendance-tab.tsx:306-307) is floating point and is not modelled.
- JavaScript `Date` arithmetic outside valid calendar dates (month rollover on out-of-range days) is not modelled; `Dates` works on valid dates.
- The recharts trend and breakdown data on the finance page and the attendance monthly view are not modelled beyond the functions in `DashboardMetrics`.
- A category literally named "all" collides with the finance page's "all categories" value in the source too; the model keeps that collision and says nothing more about it.
- `teacherOptions` (components/settings/access-management-card.tsx:127-135) and `formatCreatedDate` (components/settings/access-management-card.tsx:90-101) only build select options and a locale date label.
- The sidebar collapse flag, theme, navigation icons, chat agent, announcements, login page and presentation components are not part of this model.
- DataService.AttendanceResetPayload: its own contract states only the length bound; which records it keeps, and with what link, is stated by `DataService.AttendanceResetPayloadKeepsMapped`.

## Findings

| source | as written | input that shows it | evidently intended | confidence | as-written member | corrected member |
|---|---|---|---|---|---|---|
| components/providers/app-data-provider.tsx:49-54 (the same `formatMonthKey` is at lib/dashboard-metrics.ts:7-12 and components/students/student-finance-tab.tsx:48-53, so the dashboard's month filter and the student finance tab's month options and fee rows, `StudentFinanceTab.GetMonthOptions` and `MonthFeeRecords`, share the divergence) | `formatMonthKey` parses a stored `YYYY-MM-DD` with `new Date(...)`, which reads it as UTC midnight, then takes the local year and month; west of UTC the first of a month falls in the previous month, so a due created on the first is not found by the next dues pass, which creates another | an active student with one "Student Fee" record dated "2026-10-01", current month "2026-10", browser at UTC-5 | the stored date's own `YYYY-MM` prefix, under which every active student has a due after one successful pass and the next pass creates nothing | not executed | AppDataProvider.AsWrittenDuesRepeatOnFirstOfMonth | AppDataProvider.DuesCoverActiveStudents |
