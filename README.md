# Attendance tracker: verified model of the attendance and reporting core

This project models the attendance and reporting layer of a Next.js club-attendance application in Dafny and proves properties of it.

**Attendance API**
- The bulk recorders (`/api/attendance` and `/api/attendance/submit`).
- The "is this day marked" check.
- The by-date query.
- The date-range query, which groups rows by their ISO date.

**Students API**
- `GET`, `POST`, `PUT` and `DELETE` on `/api/student`: their guard order, required fields, synthetic e-mail and partial-update merge.

**Client pages**
- Reports page: percentage fold, day lookup, local add/edit/delete.
- Its "Manage Students" panel.
- Take-attendance page: load, toggle, mark all, payload, save-disabled rule.
- Manage-students page: filter, pagination state, edit-form defaults.

**Sidebar**
- The sidebar's role-based menu filter.

## How the model is built

**Time**
- An instant is an integer number of milliseconds since the epoch.
- The server's local zone is a fixed offset, UTC+05:30.
- `setHours` is local midnight plus the given time. The day window of a date is `[setHours(0,0,0,0), setHours(23,59,59,999)]`.
- The date part of `toISOString()` is the UTC day number.
- `new Date(text)` is a parameter `parse: string -> Option<int>`. The current instant is a parameter `now`.

**The store**
- The database tables are sequences in table order: `seq<User>` and `seq<Record>`.
- A write returns the new sequence next to the HTTP reply.
- A reply is `Ok(code, body)` or `Err(code, message)`.
- A query parameter or JSON field is `Option<string>`. JavaScript's `!x` is "absent or empty" (`Store.Truthy`).

**Modules**
- The API routes are pure functions of the session, the request and the store.
- The pages are classes: React `useState` variables become fields, and handlers become methods with `modifies` clauses. Each handler is proved against a pure function of the old state.
- The percentage fold is a `while` loop proved against two counting functions.
- Shared modules:
  - `Seqs`: `Option`, and `Keep` (which is `Array.filter`) with subsequence/occurrence lemmas.
  - `Text`: ASCII `toLowerCase`, `includes`, whitespace removal, decimal print/parse.
  - `Clock`: the time model above.
  - `Store`: the rows, replies, day-window selection and the join of a row with its student.
  - `StudentFilter`: the search/team rule.
  - `StudentList`: the reports page's local list.

## Behaviour of the code a caller may not expect

- **Range query, `team` absent.** A missing `team` parameter restricts the query to students whose `Category` is null: `team !== "All"` holds for `null` (`RangeRoute.TeamMatches`).
- **Submit route, invalid `date`.** An unparseable or absent `date` throws inside the `try`, so the submit route answers 500 (`SubmitRoute.Post`), while the query routes answer 400 for the same input.
- **What the recorders return.** Both recorders answer with a message only; the number of rows inserted is not reported.

## Model

| member | source | states |
|---|---|---|
| Clock.InDayWindowIff | app/api/attendance/route.ts:89-93 | an instant lies in the day window of a date exactly when both fall on the same local calendar day |
| Clock.DayWindowContains | app/api/attendance/byDate/route.ts:34-38 | every instant lies in its own window; the window spans exactly one day minus one millisecond, both ends inclusive |
| Clock.DayWindowTight | app/api/attendance/submit/route.ts:108-112 | the millisecond before the window and the next local midnight both lie outside it |
| Clock.WithTimeOfDayInWindow | app/api/attendance/submit/route.ts:50-56 | stamping the current hours/minutes/seconds/ms onto a date gives local midnight of that date plus the current time of day, inside the date's window |
| Clock.UtcDayKeyMonotone | app/api/attendance/range/route.ts:72-75 | the ISO date key never decreases as time advances |
| Clock.DayWindowStraddlesUtcDates | app/api/attendance/range/route.ts:37-38 | a local day window begins on the previous ISO date and ends on the ISO date numbered like the local day: the grouping key and the window bounds use different calendars |
| Store.FindUser | app/api/attendance/byDate/route.ts:52-58 | the student relation is found exactly when some user has the record's student id |
| Store.JoinAll | app/api/attendance/byDate/route.ts:65-72 | the join succeeds exactly when every row's student exists; it keeps length and order, and copies id, studentId and status |
| Store.CheckMarked | app/api/attendance/route.ts:65-109 | absent/empty date gives 400, unparseable gives 400; otherwise count is the number of rows in the inclusive local day window and attendanceMarked holds exactly when some row falls on that local day |
| Store.CountIsFilterLength | app/api/attendance/route.ts:96-103 | the count equals the length of the list the same window selects |
| Store.CountPositiveIffSameDay | app/api/attendance/route.ts:105-108 | count > 0 exactly when some stored row falls on the requested local day |
| Store.CountAppend | app/api/attendance/route.ts:48-50 | appending rows adds their count, so no earlier count shrinks |
| Store.CountAllInWindow | app/api/attendance/submit/route.ts:58-69 | rows that all carry one instant inside the window are all counted |
| Store.ResolveStatusDefault | app/api/attendance/route.ts:43 | an absent or empty status becomes "PRESENT"; any other status is kept as sent |
| AttendanceRoute.Post | app/api/attendance/route.ts:7-63 | 403 unless COACH or CAPTAIN; a missing body or attendances gives 500; empty attendances gives 400; an error writes nothing; success appends one row per entry, in order, with studentId copied, status defaulted, markedById the session user and the insertion instant as date |
| AttendanceRoute.PostThenCheck | app/api/attendance/route.ts:48-50 | after a successful POST, the marked check for any date on the same local day reports marked and its count grows by exactly the number of entries |
| SubmitRoute.Stamp | app/api/attendance/submit/route.ts:49-56 | the shared timestamp lies in the day window of the parsed date and equals its local midnight plus the current time of day |
| SubmitRoute.Post | app/api/attendance/submit/route.ts:7-82 | guard order 403, then 500 for a missing body, 400 for empty attendances, 500 for an absent or unparseable date; an error writes nothing; success appends one row per entry, all stamped on the date's local day |
| SubmitRoute.SubmitThenCheck | app/api/attendance/submit/route.ts:84-128 | after a successful submission, the marked check for the same date string reports marked and its count grows by exactly the number of entries |
| ByDateRoute.Get | app/api/attendance/byDate/route.ts:7-81 | 401 without a session, before the date is looked at; missing or unparseable date gives 400; Ok exactly when every row of the day window has its student, else 500; on Ok the reply echoes the date, its records are the joined rows of the day window (name, decimal roll number and category included), in store order, and attendanceMarked holds exactly when there are any |
| ByDateRoute.RowsOfDayIff | app/api/attendance/byDate/route.ts:41-47 | a stored row is returned exactly when it falls on the requested local day (no team filter) |
| ByDateRoute.ViewRollNumber | app/api/attendance/byDate/route.ts:70 | the returned roll number is the student's number as decimal text, and reads back as that number |
| RangeRoute.Get | app/api/attendance/range/route.ts:6-111 | 401 without a session; missing start/end gives 400; unparseable gives 400; with both dates valid the reply is Ok exactly when every fetched row has its student, and 500 otherwise; on Ok it echoes start, end and team and holds one group per distinct ISO date of the fetched rows, each group's rows joined |
| RangeRoute.FetchedIff | app/api/attendance/range/route.ts:37-67 | a row is fetched exactly when it is stored, lies between local midnight of start and local 23:59:59.999 of end (inclusive) and its team matches |
| RangeRoute.TeamFilter | app/api/attendance/range/route.ts:14-52 | "All" applies no restriction; any other value, including an absent one, keeps only rows whose student's category equals it |
| RangeRoute.SortByDate | app/api/attendance/range/route.ts:64-66 | the fetched rows are ordered by instant and are a permutation of the selected rows |
| RangeRoute.InsertSorted | app/api/attendance/range/route.ts:64-66 | inserting into a date-ordered list keeps it ordered |
| RangeRoute.Dedup | app/api/attendance/range/route.ts:70-77 | the Set's keys are pairwise distinct and are exactly the keys that occur |
| RangeRoute.DayKeysAscending | app/api/attendance/range/route.ts:64-77 | for rows sorted by instant, the group keys are strictly ascending |
| RangeRoute.DedupStrictlyIncreasing | app/api/attendance/range/route.ts:70-77 | first-occurrence order of non-decreasing keys is strictly increasing |
| RangeRoute.GroupsPartition | app/api/attendance/range/route.ts:80-85 | every fetched row lies in exactly one group, the one keyed by its own ISO date |
| RangeRoute.GroupsNonEmpty | app/api/attendance/range/route.ts:70-85 | no group is empty |
| RangeRoute.GroupsConcatenate | app/api/attendance/range/route.ts:64-85 | for rows sorted by instant, concatenating the groups in key order gives back the fetched list |
| RangeRoute.GroupKeepsOrder | app/api/attendance/range/route.ts:81-84 | within a group, rows keep their fetched order |
| RangeRoute.JoinGroups | app/api/attendance/range/route.ts:86-96 | one joined group per key, in key order, each holding the join of that key's rows |
| RangeRoute.GetDatesAscending | app/api/attendance/range/route.ts:70-102 | the dates of a successful reply are strictly ascending |
| StudentFilter.MatchesSearchIff | app/take-attendance/page.tsx:57-61 | the search ignores the query's case and matches when the lower-cased query occurs in the lower-cased name or roll number; an absent roll number never matches |
| StudentFilter.EmptyQueryMatches | app/manage-students/page.tsx:55-59 | an empty query matches every student |
| StudentFilter.FilterAllKeepsEveryone | app/manage-students/page.tsx:55-63 | "All" with an empty query keeps every student in order |
| StudentFilter.FilterStudentsSpec | app/manage-students/page.tsx:55-63 | the filter is an order-preserving subsequence that keeps every occurrence of a matching student and none of the others |
| StudentList.AddedSpec | app/reports/page.tsx:64-74 | an add keeps every earlier student in place and appends one with id = old length + 1 and the form's fields |
| StudentList.AddedIdCanCollide | app/reports/page.tsx:69 | in a list numbered 1..n, deleting student 1 and adding gives two students with id n |
| StudentList.SampleIdsSequential | app/reports/page.tsx:14-23 | the sample list is numbered 1, 2, ... in order |
| StudentList.AddThenDelete | app/reports/page.tsx:64-97 | deleting the id an add just handed out restores the list when that id was free |
| StudentList.EditedLookup | app/reports/page.tsx:84-86 | an edit lands on the id it names: with the id present the edited record is in the list, with it absent the list is unchanged, and the result holds no student of another id that was not there before |
| StudentList.EditedKeepsIds | app/reports/page.tsx:84-86 | an edit keeps every position's id, so it never changes which students an id names |
| StudentList.EditedIdempotent | app/reports/page.tsx:81-90 | applying the same edit twice equals applying it once |
| StudentList.DeletedSpec | app/reports/page.tsx:93-97 | a delete removes every student with that id and keeps every other one, as often as before and in order |
| StudentList.FilteredAllKeepsEveryone | app/reports/page.tsx:55-61 | "All" with an empty query shows every student |
| StudentList.FilteredIsSubsequence | app/reports/page.tsx:55-61 | the reports filter is an order-preserving subsequence |
| ReportsPage.GetAttendanceForDate | app/reports/page.tsx:48-50 | the data of the first day whose date equals the selection, or an empty map when there is none |
| ReportsPage.ShownPresentIff | app/reports/page.tsx:211-229 | a row shows Present exactly when the first day with the selected date holds true for the student; a missing entry shows Absent |
| ReportsPage.DayCounts | app/reports/page.tsx:107-123 | 0 <= present <= total <= number of loaded days |
| ReportsPage.TotalZeroIff | app/reports/page.tsx:116-125 | the total is zero exactly when no loaded day has an entry for the student |
| ReportsPage.Tenths | app/reports/page.tsx:125 | the percentage in tenths lies within half a tenth of 100 * present / total and never exceeds 100.0 |
| ReportsPage.FormatTenthsNotNA | app/reports/page.tsx:125 | a formatted percentage is never the text "N/A" |
| ReportsPage.RenderedAllPresent | app/reports/page.tsx:125 | present == total > 0 shows "100.0%" |
| ReportsPage.RenderedNonePresent | app/reports/page.tsx:125 | present == 0 < total shows "0.0%" |
| ReportsPage.RenderedHalf | app/reports/page.tsx:125 | p present of 2p shows "50.0%" |
| ReportsPage.CoachView.CalculateAttendancePercentage | app/reports/page.tsx:106-126 | the loop returns the rendering of the present and total counts; the text is "N/A" exactly when no loaded day has an entry for the student |
| ReportsPage.CoachView.constructor | app/reports/page.tsx:33-42 | the page starts with the sample students and days, "All", an empty query and closed dialogs |
| ReportsPage.CoachView.HandleAddStudent | app/reports/page.tsx:64-78 | only a complete form appends a student, clears the form and closes the dialog; otherwise nothing changes |
| ReportsPage.CoachView.HandleEditStudent | app/reports/page.tsx:81-90 | only a complete edit replaces the matching students and closes the dialog |
| ReportsPage.CoachView.HandleDeleteStudent | app/reports/page.tsx:93-97 | on confirmation every student with the id is removed; otherwise nothing changes |
| ManageStudentsPanel.Panel.constructor | app/reports/ManageStudents.tsx:29-34 | the panel starts with the sample students, an empty form and closed dialogs |
| ManageStudentsPanel.Panel.HandleAddStudent | app/reports/ManageStudents.tsx:40-57 | a complete form appends one student last with id = old length + 1 and leaves earlier ones unchanged, then resets the form and closes the dialog; otherwise list, form and dialog are unchanged |
| ManageStudentsPanel.Panel.HandleEditStudent | app/reports/ManageStudents.tsx:84-93 | a complete edit replaces exactly the students with a matching id and closes the dialog |
| ManageStudentsPanel.Panel.HandleDeleteStudent | app/reports/ManageStudents.tsx:96-100 | on confirmation no student with the id remains and the rest are an order-preserving subsequence |
| TakeAttendancePage.LoadedAllAbsent | app/take-attendance/page.tsx:83-88 | freshly loaded students are the fetched ones, in order, all with present = false |
| TakeAttendancePage.ToggledSpec | app/take-attendance/page.tsx:95-103 | a toggle flips the flag exactly for the students whose id matches and changes nothing else |
| TakeAttendancePage.ToggledInvolution | app/take-attendance/page.tsx:95-103 | toggling twice restores the list |
| TakeAttendancePage.MarkedAllSpec | app/take-attendance/page.tsx:136-144 | mark-all sets present for every student of the selected team (everyone for "All") and leaves others as they were; the search query plays no part |
| TakeAttendancePage.MarkedAllIdempotent | app/take-attendance/page.tsx:136-144 | marking all present twice equals once |
| TakeAttendancePage.PayloadSpec | app/take-attendance/page.tsx:107-113 | one entry per loaded student (not only the filtered ones), in order, with status "PRESENT" exactly when present, else "ABSENT" |
| TakeAttendancePage.SavedStatuses | app/take-attendance/page.tsx:107-121 | posted to the attendance route, each recorded status is "PRESENT" exactly when the student was marked present |
| TakeAttendancePage.SaveIgnoresChosenDate | app/take-attendance/page.tsx:107-121 | as written, saving for a day other than today leaves that day's marked check unchanged |
| TakeAttendancePage.SaveThroughSubmit | app/api/attendance/submit/route.ts:42-69 | the same payload sent to the submit route is counted on the chosen day |
| TakeAttendancePage.SaveDisabledIff | app/take-attendance/page.tsx:147-161 | once the check for the chosen date has answered, saving is disabled exactly when some stored row falls on that local day |
| TakeAttendancePage.FilteredIsSubsequence | app/take-attendance/page.tsx:57-65 | the table shows an order-preserving subsequence of the loaded students |
| TakeAttendancePage.RollCall.constructor | app/take-attendance/page.tsx:49-53 | the page starts with no students, "All", an empty query, today's date and no check result |
| TakeAttendancePage.RollCall.GetStudents | app/take-attendance/page.tsx:83-88 | the list becomes the fetched students, all absent |
| TakeAttendancePage.RollCall.ToggleAttendance | app/take-attendance/page.tsx:95-105 | the list becomes its toggle for the id |
| TakeAttendancePage.RollCall.MarkAllPresent | app/take-attendance/page.tsx:136-144 | the list becomes its mark-all for the selected team |
| TakeAttendancePage.RollCall.CheckAttendance | app/take-attendance/page.tsx:147-154 | an empty date sends nothing and keeps the old result; otherwise the result is the server's reply |
| TakeAttendancePage.RollCall.SaveAttendance | app/take-attendance/page.tsx:106-113 | the posted body carries the chosen date and exactly the payload of every loaded student, in order: its id, and "PRESENT" when marked present, "ABSENT" otherwise |
| ManageStudentsPage.SliceIndex | app/manage-students/page.tsx:68 | a slice bound is clamped into [0, n]: a non-negative one to min(k, n), a negative one counts from the end, max(n + k, 0) |
| ManageStudentsPage.TotalPages | app/manage-students/page.tsx:145-147 | the page count is the ceiling of n / 10, and zero exactly when nothing matches |
| ManageStudentsPage.PaginateSpec | app/manage-students/page.tsx:66-69 | page p >= 1 shows filtered[(p-1)*10 .. min(p*10, n)], at most ten students |
| ManageStudentsPage.PageNonEmpty | app/manage-students/page.tsx:66-147 | every page from 1 to the page count shows at least one student |
| ManageStudentsPage.PagesUpToPrefix | app/manage-students/page.tsx:66-69 | the first k pages together are the first 10k filtered students |
| ManageStudentsPage.PagesConcatenate | app/manage-students/page.tsx:66-147 | pages 1 to the page count, concatenated in order, are exactly the filtered list |
| ManageStudentsPage.EditFormDefaults | app/manage-students/page.tsx:102-117 | the edit form maps a missing or empty roll number to "" and a missing or empty team to "Unknown", keeping id and name |
| ManageStudentsPage.StudentTable.constructor | app/manage-students/page.tsx:31-38 | the table starts on page 1 with "All", an empty query and no students |
| ManageStudentsPage.StudentTable.PaginatedStudents | app/manage-students/page.tsx:66-69 | the rows on screen are the current page of the filtered list, at most ten, and non-empty while the page is within the page count |
| ManageStudentsPage.StudentTable.GoToNextPage | app/manage-students/page.tsx:149-153 | moves on only while page < page count; the page stays >= 1 and does not pass the page count |
| ManageStudentsPage.StudentTable.GoToPrevPage | app/manage-students/page.tsx:155-159 | moves back only from page 2 on, so the page stays >= 1 |
| ManageStudentsPage.StudentTable.SetSearchQuery | app/manage-students/page.tsx:163-165 | a changed search text returns to page 1 |
| ManageStudentsPage.StudentTable.SetSelectedTeam | app/manage-students/page.tsx:163-165 | a changed team returns to page 1 |
| ManageStudentsPage.StudentTable.SetStudents | app/manage-students/page.tsx:135 | a successful load replaces the students and leaves the page as it was |
| ManageStudentsPage.StudentTable.HandleEditClick | app/manage-students/page.tsx:102-117 | the edit form is the defaulted copy of the clicked student |
| StudentRoute.StudentViews | app/api/student/route.ts:28-31 | the reshaping succeeds exactly when every student has a roll number, and keeps each student's fields with the number as decimal text |
| StudentRoute.Get | app/api/student/route.ts:10-43 | Ok exactly when every STUDENT row has a roll number, else 500; on Ok the listing is the STUDENT rows in table order, each reshaped with its fields and its roll number as decimal text |
| StudentRoute.GetRollNumbers | app/api/student/route.ts:28-31 | every listed roll number reads back as the stored integer |
| StudentRoute.Post | app/api/student/route.ts:46-117 | 403 unless COACH, before the body is read; a body that is not JSON gives 500; a falsy name, team or roll number gives 400; an e-mail in use gives 409; a roll number that is not an integer gives 500; an error creates nothing; success appends one STUDENT with Category = team |
| StudentRoute.EmailShape | app/api/student/route.ts:68-70 | the e-mail has no whitespace and ends in "@mail.com" |
| StudentRoute.EmailDistinctInTime | app/api/student/route.ts:68-70 | for one name, e-mails made at different instants differ |
| StudentRoute.SameInstantCollision | app/api/student/route.ts:68-83 | names equal up to case and whitespace collide in the same millisecond: the second create gives 409 and creates nothing |
| StudentRoute.Put | app/api/student/route.ts:120-181 | 403 unless COACH; a non-JSON body gives 500; no id or no truthy field gives 400; an unknown id or a roll number that is not an integer gives 500 with nothing written; otherwise the row is replaced by the merge, and the reply is Ok with the merged row exactly when it still has a roll number, 500 (with the write kept) when it has none |
| StudentRoute.ReplacedLookup | app/api/student/route.ts:146-159 | after the update, looking the id up finds the merged row (when the id existed) and looking up any other id finds what it found before |
| StudentRoute.MergedSpec | app/api/student/route.ts:148-152 | only truthy fields are written, team goes to Category, id, e-mail and role never change, and merging twice equals once |
| StudentRoute.Delete | app/api/student/route.ts:184-227 | a missing id gives 400 before the COACH check (403); an unknown id gives 500; success removes the row with that id |
| StudentRoute.DeleteSpec | app/api/student/route.ts:208-210 | after a delete no row has the id, every other row is kept in order, and the table is shorter |
| AppSidebar.MissingRoleIsCaptain | components/app-sidebar.tsx:55-66 | without a role the menu is the captain's |
| AppSidebar.NonCaptainSeesAll | components/app-sidebar.tsx:57-66 | COACH, and any role other than CAPTAIN, keeps every item |
| AppSidebar.CaptainMenu | components/app-sidebar.tsx:20-66 | a captain sees exactly Dashboard, View Reports and Account, in that order |
| AppSidebar.CaptainDropsManagement | components/app-sidebar.tsx:61-63 | a captain loses exactly the items whose url is "/manage-students" or "/take-attendance" |
| AppSidebar.FilteredNavIsSubsequence | components/app-sidebar.tsx:57 | the menu keeps its order and invents no item |
| Text.DecimalRoundTrip | app/api/student/route.ts:30 | printing an integer and reading it back returns it, so `toString` of a roll number loses nothing |
| Text.IncludesIff | app/manage-students/page.tsx:57 | `includes` holds exactly when the needle occurs at some offset |
| Text.StripWhitespaceSpec | app/api/student/route.ts:68-70 | removing whitespace leaves none, keeps every other character and never reorders |
| Seqs.KeepIsSubsequence | components/app-sidebar.tsx:57 | `filter` returns a subsequence of its input |
| Seqs.KeepOccurrences | app/reports/page.tsx:95 | `filter` keeps every occurrence of an accepted element and none of a rejected one |

## Findings

| source | as written | input that shows it | evidently intended | confidence | as-written member | corrected member |
|---|---|---|---|---|---|---|
| app/take-attendance/page.tsx:107-121 | the page posts `{date, attendances}` to `/api/attendance`. That route never reads `date` (app/api/attendance/route.ts:21-45), so every row is stamped with the instant of saving. | Pick yesterday's date and save. The marked check for yesterday answers exactly as it did before the save: none of the new rows count, and a day that had no rows still reads as unmarked. | The rows land on the chosen day, as `/api/attendance/submit` does with the same body. | medium; not executed | TakeAttendancePage.SaveIgnoresChosenDate | TakeAttendancePage.SaveThroughSubmit |

## Left out

**Outside the model: infrastructure, I/O and UI**
- Prisma, `NextResponse`, `getServerSession`, `connectToDatabase` and `$disconnect`. The store is a sequence and the session is a value. A database or connection failure in a `try`, which would answer 500, is not modelled; the 500s that are modelled are the ones the modelled code itself throws.
- bcrypt hashing, the fixed password, next-auth configuration and registration: foreign crypto and authentication code.
- Page rendering and pure UI files:
  - the reports page's `activeTab`, `startDate`, `endDate`, `teamFilter` and `generateAttendanceReport` alert;
  - the take-attendance page's `loading` flag and its stray `sampleStudents.map` (no effect);
  - `isLoading`, alerts and the sidebar's `signOut`.
- The client pages' network I/O:
  - a failed `getStudents` throws and changes no state;
  - `checkAttendance`'s catch branch, which stores an error object and leaves saving enabled, is not modelled;
  - the manage-students page's `handleDeleteStudent` is a `DELETE` request followed by a reload; the request is `StudentRoute.Delete` and the reload is `SetStudents`.
- `createStudent` in the Manage Students panel is an unawaited `POST` whose result is ignored. It is `StudentRoute.Post`, and the panel's local add does not depend on it.
- Concurrency: two submissions racing past the marked check, and partial bulk inserts.

**Time**
- JavaScript date parsing is a parameter. Time zones are one fixed offset (UTC+05:30) with no daylight saving.
- The `YYYY-MM-DD` text is represented by its UTC day number; rendering it as text is not modelled.

**Database-defined behaviour**
- Database-generated values are parameters or stand-ins:
  - attendance row ids are the store length plus the entry's position;
  - a new user's id is a parameter;
  - the default `date` of a row written by `/api/attendance` is the insertion instant `now`.
- The database's enum check on `status` is not modelled. A status other than PRESENT/ABSENT is stored as sent.
- Foreign-key behaviour when a student with attendance rows is deleted is not modelled.
- JSON `null` is treated like an absent field. In particular, `new Date(null)` (the epoch) in the submit route is not distinguished.
- ByDateRoute.Get: the by-date `findMany` has no `orderBy`, so the database returns the day's rows in an unspecified order; the model fixes store order, which is one admissible order, and its "in order" refers to that order.
- RangeRoute.SortByDate: rows with equal instants keep their store order. The database leaves their order unspecified, so the model fixes one admissible order.
- StudentRoute.Post: the roll number arrives as text and the `BigInt` column is assumed to take exactly the decimal integers (`Text.ParseDecimal`). Other text is rejected with 500. How the ORM coerces other JSON values is not modelled.

**Text**
- `toLowerCase` and `\s` are restricted to ASCII. Unicode case mapping and Unicode whitespace are not modelled.

**Weaker than the source**
- ReportsPage.Tenths: `((present / total) * 100).toFixed(1)` is modelled as exact decimal rounding half up. IEEE double rounding, which can differ on exact ties, is not modelled.
