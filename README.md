# AttendanceTracker, modelled in Dafny

AttendanceTracker is an attendance register. A FastAPI backend keeps students,
their daily attendance (present or absent), and the tenant tables behind the
sign-in: companies, users and departments. A React frontend reads and changes
those tables through a set of pages:

- Attendance: the per-day roster with present/absent toggles.
- Dashboard: statistics, a 7-day chart, history grouped by date, and a CSV export.
- Students: the roster with a search box.
- Settings: preset and labels.
- Departments.
- Advanced: employee accounts with generated passwords.
- Login and Signup.

Two contexts hold the chosen preset ("occupation") and the signed-in user. Both
mirror their state into browser storage.

This project models the routers' table operations, and the pages' state
updates and validators, as Dafny functions, methods and classes. It proves what
they promise.

How the pieces are represented:

- **Tables.** The database is one `Database` class. Each table is a `seq`
  field in insertion order, with one id counter per table. `Valid()` states:
  - ids are unique and increasing;
  - `roll_number` is unique;
  - department names are unique per company;
  - every attendance row names an existing student.
- **Dates.** Dates are day numbers. `YYYY-MM-DD` strings compare the same way.
- **Storage.** Browser storage is a `Storage` class holding a `map`.
- **Pages.** Each page's local state is a datatype, and each handler is a
  function from the old state (and the server's reply) to the new one.
- **Loops.** Where the source builds a value with a loop, the model is a
  method with a loop, proved equal to a specification function. This covers
  the status maps on the attendance page, the `byDate` grouping on the
  dashboard, the weekly chart data and the employee list.

Files, one module each:

- `models.dfy`: entities and the database.
- `attendance_router.dfy`, `dashboard_router.dfy`, `students_router.dfy`,
  `departments_router.dfy`, `employees_router.dfy`, `settings_router.dfy`,
  `auth_router.dfy`: the backend routers.
- `attendance_page.dfy`, `dashboard_page.dfy`, `csv.dfy`, `students_page.dfy`,
  `settings_page.dfy`, `departments_page.dfy`, `login_page.dfy`,
  `signup_page.dfy`, `advanced_page.dfy`: the pages.
- `theme_context.dfy`, `auth_context.dfy`, `browser_storage.dfy`: the two
  contexts and browser storage.
- `seqs.dfy`, `text.dfy`, `wrappers.dfy`: shared sequence, text and
  Option/Result helpers.

Three behaviours of the code are easy to miss:

- `toggle` on an id that is not in the status map adds it as present
  (`AttendancePage.Toggle`).
- Reloading a day keeps records whose student is not on the roster
  (`AttendancePage.ReconciledMeaning`).
- Stored custom labels are used as they are, with no field merged from the
  preset (`SettingsPage.LoadDraft`).

## Model

| member | source | states |
|---|---|---|
| Models.Database.constructor | backend/models.py:13-34 | an empty database satisfies every table invariant (unique ids, unique roll numbers, attendance referencing students) |
| AttendanceRouter.NewRows | backend/routers/attendance.py:19-25 | one new row per payload entry, in payload order, all on the payload date with its student and status, with fresh increasing ids; duplicate student ids are all kept |
| AttendanceRouter.ReplaceDayThisDay | backend/routers/attendance.py:15-25 | after a mark, the records for the marked date are exactly the payload entries in order |
| AttendanceRouter.ReplaceDayOtherDay | backend/routers/attendance.py:15 | a mark leaves every other date's records unchanged |
| AttendanceRouter.ReplaceDayTwice | backend/routers/attendance.py:15-27 | marking a date twice leaves what marking it once with the second payload leaves, so resubmitting the same payload changes nothing further |
| AttendanceRouter.MarkAttendance | backend/routers/attendance.py:12-30 | 404 iff some entry names an unknown student, with the detail of the first such entry, and the date's old rows already deleted; otherwise the table is the old table with that date's rows replaced by the new rows; other tables unchanged; invariants kept |
| AttendanceRouter.InsertByDate | backend/routers/attendance.py:41 | inserting into a date-descending list keeps it date-descending and adds exactly the one row |
| AttendanceRouter.SortByDateDesc | backend/routers/attendance.py:41 | the result is date-descending and a permutation of its input |
| AttendanceRouter.GetAttendanceByDate | backend/routers/attendance.py:33-41 | with a date, a permutation of exactly that date's records; without, of all records; always date-descending |
| AttendanceRouter.GetAttendanceHistory | backend/routers/attendance.py:44-46 | min(100, table size) records, date-descending, drawn from the table, and no omitted record is later than a returned one |
| AttendanceRouter.HistoryIsLatest | backend/routers/attendance.py:46 | a prefix of a sorted permutation of the table holds every record dated after any of its members |
| DashboardRouter.DaySplit | backend/routers/dashboard.py:17-19 | a day's present count plus its absent count is its number of records |
| DashboardRouter.GetDashboardStats | backend/routers/dashboard.py:12-28 | total is the student count; present and absent count today's rows by status and sum to today's row count; the percentage is 0 without students and otherwise present·100/total exactly |
| DashboardRouter.DistinctRowsAtMostRoster | backend/routers/dashboard.py:15-17 | rows of the table for distinct students are no more than the students, since every row references a student |
| DashboardRouter.PercentageAtMost100 | backend/routers/dashboard.py:21 | when today's rows name distinct students the percentage is at most 100 |
| DashboardRouter.GetWeeklyData | backend/routers/dashboard.py:31-48 | exactly 7 entries, oldest first, entry k for today−6+k with that day's present and absent counts and total equal to that day's record count; the last entry agrees with today's stats |
| StudentsRouter.GetStudents | backend/routers/students.py:11-13 | a permutation of the student table, newest (highest id) first |
| StudentsRouter.StudentsGrow | backend/models.py:29 | adding a student keeps every attendance row's student reference valid |
| StudentsRouter.CreateStudent | backend/routers/students.py:16-25 | 400 iff the roll number is taken, table unchanged; otherwise exactly one student with the given fields and a fresh id is appended; roll numbers stay unique; other tables unchanged |
| StudentsRouter.DeleteStudent | backend/routers/students.py:28-34 | 404 iff the id is missing, nothing changed; otherwise exactly that student is removed and, by the cascade, all of their attendance rows; no row for that id is left |
| DepartmentsRouter.InsertByName | backend/routers/departments.py:20 | inserting into a name-ordered list keeps it ordered and adds exactly the one department |
| DepartmentsRouter.SortByName | backend/routers/departments.py:20 | the result is ordered by name and a permutation of its input |
| DepartmentsRouter.ListDepartments | backend/routers/departments.py:12-22 | a permutation of exactly the caller's company's departments, ordered by name |
| DepartmentsRouter.CreateDepartment | backend/routers/departments.py:25-47 | 400 "Department already exists" iff the name is used in the caller's company; otherwise one department with that name and company and a fresh id is appended; other companies' departments and other tables unchanged; per-company name uniqueness kept |
| DepartmentsRouter.FindDepartment | backend/routers/departments.py:57-61 | finds the position of the department with that id in that company, or none iff the company has no such department |
| DepartmentsRouter.UpdateDepartment | backend/routers/departments.py:50-81 | 404 for a department outside the caller's company, else 400 when another department of the company has the name (its own name is allowed); otherwise only that department's name changes; other companies untouched; uniqueness kept |
| DepartmentsRouter.DeleteDepartment | backend/routers/departments.py:84-98 | 404 iff the department is missing or foreign; otherwise exactly that department is removed; other companies untouched |
| EmployeesRouter.AlphabetShape | backend/routers/employees.py:15 | the alphabet has 62 distinct characters, each an ASCII letter or digit |
| EmployeesRouter.GeneratePassword | backend/routers/employees.py:14-16 | one character per pick, each an ASCII letter or digit |
| EmployeesRouter.EveryPasswordPossible | backend/routers/employees.py:14-16 | every string of ASCII letters and digits is the password of some picks |
| EmployeesRouter.PickOf | backend/routers/employees.py:16 | each letter or digit is picked by exactly its position in the alphabet |
| EmployeesRouter.EmployeesOf | backend/routers/employees.py:24-29 | exactly the users of the company with role employee, newest first |
| EmployeesRouter.ListEmployees | backend/routers/employees.py:19-43 | one response per company employee, in that order, with the user's fields and the department's name or none |
| EmployeesRouter.CreateEmployee | backend/routers/employees.py:46-96 | 400 for an email already in the company, else 400 for a truthy department id that is not the company's; otherwise one employee of the caller's company with that department, a fresh id and the hash of a 10-character letter-or-digit password (returned) is appended; other companies untouched |
| EmployeesRouter.RemoveEmployee | backend/routers/employees.py:105-117 | removing a company employee keeps every other company's users and every admin |
| EmployeesRouter.DeleteEmployee | backend/routers/employees.py:99-117 | 404 iff the id is not an employee of the caller's company (a missing id, an admin, a foreign user); otherwise exactly that user is removed; admins and other companies untouched |
| SettingsRouter.DecodeLabels | backend/routers/settings.py:18-23 | labels come back iff the column holds decodable JSON, and they are what was stored; otherwise none, not an error |
| SettingsRouter.LabelsRoundTrip | backend/routers/settings.py:45-55 | labels written are the labels read back |
| SettingsRouter.GetSettings | backend/routers/settings.py:12-30 | the caller's company's id, name and theme with its decoded labels; a failure (500) iff the caller has no company row |
| SettingsRouter.Apply | backend/routers/settings.py:41-45 | theme_id changes only when one is sent, custom labels only when they are sent, and sent labels read back as sent; id and name unchanged |
| SettingsRouter.ApplyEmpty | backend/routers/settings.py:41-45 | an update with neither field changes nothing |
| SettingsRouter.ApplyIdempotent | backend/routers/settings.py:41-45 | applying the same update twice is applying it once |
| SettingsRouter.FindCompany | backend/routers/settings.py:39 | finds the first company row with the caller's company id, or none iff there is none |
| SettingsRouter.UpdateSettings | backend/routers/settings.py:33-62 | only the caller's company row changes, to the update applied to it; the reply is what a following read returns; 500 iff there is no such row |
| SettingsRouter.FindSame | backend/routers/settings.py:39-62 | changing rows without changing ids keeps the lookup position |
| AuthRouter.Signup | backend/routers/auth.py:11-52 | 400 "Company name already registered" for a taken company name, else 400 "Email already registered" for an email used in any company; otherwise exactly one company with the requested theme and one admin user of it, with the hashed password, are appended, and the token names that user |
| AuthRouter.CompanyByName | backend/routers/auth.py:58 | finds a company with that name, or none iff no company has it |
| AuthRouter.UserInCompany | backend/routers/auth.py:63-67 | finds a user with that email in that company, or none iff there is none |
| AuthRouter.Login | backend/routers/auth.py:55-85 | 401 "Invalid company name" for an unknown company; any other failure is the single 401 "Invalid email or password"; success only for a user of the named company whose password verifies |
| AuthRouter.LoginScoped | backend/routers/auth.py:63-69 | a user with the right email in another company cannot log in through this company |
| AuthRouter.LoginSucceeds | backend/routers/auth.py:55-85 | a user of the named company with a verifying password logs in as that user |
| AuthRouter.GetMe | backend/routers/auth.py:88-101 | the caller's id, name, email, role, company id and department id; the company's name, or "" when the caller has no company row; the department's name, or none when the caller has no department row |
| AttendancePage.Uniform | frontend/src/pages/Attendance.jsx:25-27 | keys are exactly the roster ids, each mapped to the one status |
| AttendancePage.RecordMap | frontend/src/pages/Attendance.jsx:43-44 | keys are exactly the records' student ids |
| AttendancePage.LastRecordWins | frontend/src/pages/Attendance.jsx:43-44 | a recorded id maps to the status of its last record |
| AttendancePage.Merge | frontend/src/pages/Attendance.jsx:42-46 | keys are the record ids plus the roster ids |
| AttendancePage.ReconciledIsMerge | frontend/src/pages/Attendance.jsx:42-50 | with zero records the all-present roster map is the merge, so both branches agree |
| AttendancePage.ReconciledMeaning | frontend/src/pages/Attendance.jsx:42-50 | keys are the roster ids plus the record ids (orphan records kept); a roster id without a record is present; a recorded id has its last record's status |
| AttendancePage.FillStatuses | frontend/src/pages/Attendance.jsx:25-26 | the loop builds exactly the roster map with one status |
| AttendancePage.InitialLoad | frontend/src/pages/Attendance.jsx:25-27 | every fetched id maps to present and no other key exists |
| AttendancePage.LoadExisting | frontend/src/pages/Attendance.jsx:42-50 | the two loops build the reconciled map of the roster and the day's records |
| AttendancePage.MarkAll | frontend/src/pages/Attendance.jsx:78-82 | exactly the roster ids, all mapped to the status; previous entries dropped |
| AttendancePage.Toggle | frontend/src/pages/Attendance.jsx:59-61 | only key id changes: present becomes absent, anything else (including a missing key) present |
| AttendancePage.ToggleTwice | frontend/src/pages/Attendance.jsx:59-61 | toggling a present or absent key twice restores the map |
| AttendancePage.CountsAddUp | frontend/src/pages/Attendance.jsx:84-85 | the present and absent counts add up to the map's size |
| AttendancePage.SubmitRecords | frontend/src/pages/Attendance.jsx:67 | one record per roster member, in roster order, with the map's status |
| AttendancePage.Covers | frontend/src/pages/Attendance.jsx:25-82 | every map the page builds has a status for every roster member, so the payload is always defined |
| AttendancePage.DistinctRoster | backend/models.py:16 | a roster with distinct ids has as many ids as members |
| AttendancePage.MarkAllAbsentCounts | frontend/src/pages/Attendance.jsx:78-85 | after marking all absent, present is 0 and absent is the roster size |
| AttendancePage.SubmitPrefix | frontend/src/pages/Attendance.jsx:67 | the records for the first n members map each of their ids to the map's status |
| AttendancePage.SubmitThenReload | frontend/src/pages/Attendance.jsx:42-67 | submitting a roster map and loading the day back gives the same map |
| Csv.Join | frontend/src/pages/Dashboard.jsx:46 | joining one part gives that part |
| Csv.AsWrittenSplitsField | frontend/src/pages/Dashboard.jsx:46 | as written, a field `x","y` is written exactly like the two fields `x` and `y` |
| Csv.Escape | frontend/src/pages/Dashboard.jsx:46 | escaping never shortens a value |
| Csv.EscapeWithoutQuotes | frontend/src/pages/Dashboard.jsx:46 | a value without a double quote is written unchanged |
| Csv.AgreesWithoutQuotes | frontend/src/pages/Dashboard.jsx:46 | when no field holds a double quote, the escaped document is the document as written |
| Csv.BodyRoundTrip | frontend/src/pages/Dashboard.jsx:46 | an escaped value followed by its closing quote reads back as the value |
| Csv.FieldRoundTrip | frontend/src/pages/Dashboard.jsx:46 | a quoted field reads back as its value |
| Csv.FieldsRoundTrip | frontend/src/pages/Dashboard.jsx:46 | a line of fields reads back as its fields |
| Csv.DocumentRoundTrip | frontend/src/pages/Dashboard.jsx:46 | a document of non-empty rows reads back as its rows |
| DashboardPage.CsvHeader | frontend/src/pages/Dashboard.jsx:36-38 | exactly Date, Name, the id label, the group label, Status, with ID and Group when there is no occupation |
| DashboardPage.CsvRow | frontend/src/pages/Dashboard.jsx:39-45 | date, name, roll number, department, status; "" for each student field when the student is missing |
| DashboardPage.CsvTable | frontend/src/pages/Dashboard.jsx:35-45 | the header, then one row per history record in input order |
| DashboardPage.ExportCsv | frontend/src/pages/Dashboard.jsx:35-46 | the exported text reads back as exactly the header and the rows |
| DashboardPage.ExportAgreesWithoutQuotes | frontend/src/pages/Dashboard.jsx:35-46 | when no field holds a double quote, the export as written is the escaped export |
| DashboardPage.ExportAsWrittenAmbiguous | frontend/src/pages/Dashboard.jsx:46 | two different records export as written to the same text |
| DashboardPage.FirstDates | frontend/src/pages/Dashboard.jsx:104-108 | each date of the history exactly once, and no other |
| DashboardPage.GroupByDate | frontend/src/pages/Dashboard.jsx:104-108 | the loop builds the map from each date to its records in input order, and its keys in first-appearance order |
| DashboardPage.GroupingStep | frontend/src/pages/Dashboard.jsx:105-107 | one more record is appended to its own date's bucket only |
| DashboardPage.GroupingPlacesEachRecord | frontend/src/pages/Dashboard.jsx:104-108 | every record is in the bucket of its date and in no other bucket |
| DashboardPage.BucketsSumToHistory | frontend/src/pages/Dashboard.jsx:104-108 | the bucket sizes over the distinct dates sum to the history length |
| DashboardPage.InsertDescending | frontend/src/pages/Dashboard.jsx:109 | inserting into a descending list keeps it descending and adds exactly the one date |
| DashboardPage.SortDescending | frontend/src/pages/Dashboard.jsx:109 | the result is descending and a permutation of its input |
| DashboardPage.SortedDatesMeaning | frontend/src/pages/Dashboard.jsx:109 | sortedDates lists each distinct date once, in descending string order |
| DashboardPage.DateCountsAddUp | frontend/src/pages/Dashboard.jsx:218-219 | a date's present and absent counts sum to its bucket size when every status is one of the two |
| DashboardPage.NotMarkedMeaning | frontend/src/pages/Dashboard.jsx:177 | "Not Marked" is the number of students minus today's records, and it is not negative while no student has two records today |
| DashboardPage.ChartEmptyMeaning | frontend/src/pages/Dashboard.jsx:152 | for the 7 weekly entries, the empty chart shows iff no record is dated in the last seven days |
| StudentsPage.SearchFilter | frontend/src/pages/Students.jsx:36-43 | a member is kept iff the lower-cased query is in the lower-cased name, roll number or department; the result is a subsequence of the roster |
| StudentsPage.EmptySearchKeepsAll | frontend/src/pages/Students.jsx:37-42 | an empty search returns the whole roster |
| StudentsPage.CaseInsensitive | frontend/src/pages/Students.jsx:37 | queries that differ only in the case of ASCII letters give the same result |
| StudentsPage.SearchLowered | frontend/src/pages/Students.jsx:37 | searching for the lower-cased query is searching for the query |
| StudentsPage.AfterAdd | frontend/src/pages/Students.jsx:45-59 | success closes the dialog and resets the form to three empty strings; failure keeps the form and shows the server's detail or a fixed text |
| ThemeContext.Lookup | frontend/src/context/ThemeContext.jsx:3-68 | an entry exists exactly for medical, corporate, government and learning, and its id is its key |
| ThemeContext.CatalogShape | frontend/src/context/ThemeContext.jsx:3-68 | four presets with distinct ids, each found under its own id, each with all seven label fields non-empty |
| ThemeContext.ProjectLabels | frontend/src/pages/Settings.jsx:71-79 | the draft's seven fields are the preset's seven label fields |
| ThemeContext.StoredOccupation | frontend/src/context/ThemeContext.jsx:73-75 | the initial selection is the stored value, or none when nothing (or "") is stored |
| ThemeContext.OccupationOf | frontend/src/context/ThemeContext.jsx:96 | none when there is no selection, otherwise the catalog entry for the selection |
| ThemeContext.ThemeProvider.constructor | frontend/src/context/ThemeContext.jsx:73-75 | the provider starts from the stored selection, mirrored in storage |
| ThemeContext.ThemeProvider.Occupation | frontend/src/context/ThemeContext.jsx:96 | none without a selection; for a selection, exactly the catalog entry under that key (none for an unknown key) |
| ThemeContext.ThemeProvider.SetOccupationType | frontend/src/context/ThemeContext.jsx:77-81 | the selection and the stored key both become t; other keys unchanged |
| ThemeContext.ThemeProvider.ClearOccupation | frontend/src/context/ThemeContext.jsx:83-87 | the selection is none and the stored key is removed; other keys unchanged |
| ThemeContext.ReloadKeepsOccupation | frontend/src/context/ThemeContext.jsx:73-96 | a reload restores the occupation that was selected |
| ThemeContext.SetThenClear | frontend/src/context/ThemeContext.jsx:77-87 | set then clear leaves no selection and no stored key |
| AuthContext.IsAdminUser | frontend/src/context/AuthContext.jsx:38 | admin iff there is a user whose role is admin |
| AuthContext.LogoutKeepsOccupation | frontend/src/context/AuthContext.jsx:31-36 | logging out keeps the stored occupation |
| AuthContext.AuthProvider.constructor | frontend/src/context/AuthContext.jsx:7-8 | no user, loading |
| AuthContext.AuthProvider.IsAdmin | frontend/src/context/AuthContext.jsx:38 | admin iff the user's role is admin; false with no user |
| AuthContext.AuthProvider.Mount | frontend/src/context/AuthContext.jsx:10-23 | loading ends; with no token nothing else changes; with a token the fetched user is set, or the token and user keys are removed when the fetch fails |
| AuthContext.AuthProvider.LoginUser | frontend/src/context/AuthContext.jsx:25-29 | the token and the serialised user are stored and the user is set |
| AuthContext.AuthProvider.Logout | frontend/src/context/AuthContext.jsx:31-36 | att_token, att_user and att_theme are removed, every other key (att_occupation included) kept, and the user cleared |
| SettingsPage.BaseOccupation | frontend/src/pages/Settings.jsx:38-39 | the stored preset, or corporate for an unknown id |
| SettingsPage.LoadDraft | frontend/src/pages/Settings.jsx:33-51 | the stored theme id or 'corporate' when it is empty; stored custom labels verbatim, else the labels of the stored preset (corporate for an unknown id) |
| SettingsPage.SelectTheme | frontend/src/pages/Settings.jsx:68-80 | the selection becomes the id and the whole label draft becomes that preset's labels |
| SettingsPage.SelectMatchesLoad | frontend/src/pages/Settings.jsx:33-80 | picking a preset gives the draft that a company on that preset without custom labels loads with |
| SettingsPage.LabelsByKeys | frontend/src/pages/Settings.jsx:173 | labels are equal when their seven keys agree |
| SettingsPage.EditLabel | frontend/src/pages/Settings.jsx:173 | only the edited key changes |
| SettingsPage.EditSameValue | frontend/src/pages/Settings.jsx:173 | writing back a key's own value changes nothing |
| SettingsPage.SavePayload | frontend/src/pages/Settings.jsx:65 | save sends exactly the selected theme as theme_id and the label draft as custom_labels |
| SettingsPage.SaveThenLoad | frontend/src/pages/Settings.jsx:64-66 | saving the draft and loading the settings back gives the same draft |
| SettingsPage.RenameRequest | frontend/src/pages/Settings.jsx:235 | the rename sends the id and the edit text untrimmed |
| SettingsPage.RenameKeepsSpaces | frontend/src/pages/Settings.jsx:235 | for every non-blank name, the rename here sends it verbatim while the departments page sends it trimmed, and the two differ whenever it starts or ends with white space |
| DepartmentsPage.NameRequest | frontend/src/pages/Departments.jsx:54-58 | nothing is sent iff the name is blank; otherwise a non-empty name with no surrounding white space (also the add guard of frontend/src/pages/Settings.jsx at lines 198 and 203) |
| DepartmentsPage.NameRequestCutsSpace | frontend/src/pages/Departments.jsx:56-57 | the name sent is the typed text with only white space cut from its two ends |
| DepartmentsPage.CreateSucceeded | frontend/src/pages/Departments.jsx:29-30 | the name is cleared and the form hidden, so create sends nothing until a name is typed again |
| DepartmentsPage.Cancel | frontend/src/pages/Departments.jsx:107 | cancel hides the form and clears the name; the edit state is kept |
| DepartmentsPage.HandleUpdate | frontend/src/pages/Departments.jsx:60-63 | nothing is sent iff the edit name is blank; otherwise the id and the trimmed name |
| DepartmentsPage.UpdateSucceeded | frontend/src/pages/Departments.jsx:40 | edit mode ends; the add form is kept |
| DepartmentsPage.RenameKey | frontend/src/pages/Departments.jsx:145 | Enter commits the rename, Escape leaves edit mode, any other key does nothing |
| LoginPage.Sent | frontend/src/pages/Login.jsx:20-30 | the form is sent unchanged; loading is true while it is sent and false afterwards, on success and failure alike; a session only on success |
| LoginPage.Rejected | frontend/src/pages/Login.jsx:16-19 | nothing is sent, no session, loading unchanged |
| LoginPage.HandleLogin | frontend/src/pages/Login.jsx:14-31 | rejected with the fill-in message iff email, password or company name is empty; otherwise sent unchanged |
| LoginPage.NoLengthRule | frontend/src/pages/Login.jsx:16-22 | every filled-in form is sent unchanged, with loading set, whatever its password length: there is no length rule |
| SignupPage.PickTheme | frontend/src/pages/Signup.jsx:119 | only theme_id changes, to a preset that the catalog resolves |
| SignupPage.HandleSignup | frontend/src/pages/Signup.jsx:17-38 | rejected iff a field is empty or the password is shorter than 6; the fill-in message for an empty field, the length message otherwise; a passing form is sent unchanged |
| SignupPage.EmptyPasswordMessage | frontend/src/pages/Signup.jsx:19-26 | an empty password gets the fill-in message, not the length message |
| SignupPage.DefaultFormRejected | frontend/src/pages/Signup.jsx:12 | the default form is rejected with the fill-in message, and every filling-in of it with a password of at least 6 characters is sent with theme corporate |
| AdvancedPage.Payload | frontend/src/pages/Advanced.jsx:149-154 | name and email unchanged; an empty department id becomes none, any other its integer parse |
| AdvancedPage.HandleSubmit | frontend/src/pages/Advanced.jsx:143-156 | rejected with "Name and email are required" iff name or email is empty; otherwise the payload |
| AdvancedPage.SelectedDepartmentArrives | frontend/src/pages/Advanced.jsx:150-151 | a department picked from the list arrives as its own id |
| AdvancedPage.Created | frontend/src/pages/Advanced.jsx:135-138 | the generated password is stored; the reveal flag is kept |
| AdvancedPage.ToggleReveal | frontend/src/pages/Advanced.jsx:193 | the eye button flips the reveal flag and nothing else |
| AdvancedPage.Shown | frontend/src/pages/Advanced.jsx:173-191 | the panel shows only for a non-empty password: the password while revealed, a fixed mask otherwise |
| AdvancedPage.RevealProperties | frontend/src/pages/Advanced.jsx:173-193 | flipping twice restores the panel; while hidden, every password shows the same mask |
| Text.Lower | frontend/src/pages/Students.jsx:37 | same length, each character lower-cased (ASCII) |
| Text.Trim | frontend/src/pages/Departments.jsx:56 | empty iff the text is all white space; otherwise it neither starts nor ends with white space |
| Text.ParseDecimal | frontend/src/pages/Advanced.jsx:151 | parseInt reads back every decimal numeral as its value |

## Left out

- Rendering, animation, charts, toasts and icons are not modelled. They have no state of their own.
- Network calls, React Query caching and effect ordering are not modelled. Each handler takes the server's reply as a parameter.
- The CSV Blob download and the clipboard copy are not modelled. They are browser I/O.
- bcrypt hashing and verification, JWT issuing and decoding, and `JSON.stringify` of the user are function parameters. They are foreign code.
- `require_admin` becomes the precondition `current.role == Admin` on the admin routes. The 403 it raises is not modelled.
- Turning a token into the current user (`get_current_user`) is not part of this model. The routes take the current user as a parameter.
- DashboardRouter.GetDashboardStats: the percentage is the exact quotient. Python's float and `round(..., 1)` are not modelled, and neither is the bar percentage of the dashboard's summary rows.
- The clock is a parameter. `date.today()` and `toISOString` give "today". The `strftime("%a %d")` and locale date labels are left out, because they are only display text.
- EmployeesRouter.GeneratePassword: the random choices are a parameter, a sequence of picks. The quality of `secrets.choice` is not modelled.
- SQLAlchemy sessions, commits, refresh and transactions are not modelled. Each router call is one atomic change of the in-memory tables, except that a failed mark keeps the deletion it committed first.
- `created_at` order is taken to be id order. Ties in `ORDER BY date` (and `ORDER BY name`) may come out in any order, so the sorted results are stated as sorted permutations.
- The `student` object nested in each attendance reply is not modelled. Attendance dates are day numbers in the backend, while the frontend's history records carry date strings.
- The company, user and department tables and the request shapes (custom labels, settings update, department and employee create) are not defined in the repository's model and schema files. Their fields are the ones the routers read and write.
- The student and attendance tables are global, as the routers use them; the routers do not scope them by company.
- Deleting a department leaves users whose department id points at it. The router does the same.
- The `data-theme` attribute of the document body is not modelled. It is display only.
- `Settings.jsx` and `Signup.jsx` import a preset table `THEMES`, and `Settings.jsx` calls `setThemeId` and `setCustomLabels`. `ThemeContext.jsx` exports none of these; it exports only `OCCUPATIONS`. The model treats `THEMES` as the `OCCUPATIONS` catalog, and does not model the two setter calls (frontend/src/pages/Settings.jsx:57-58).
- Clearing the new-department name after a successful add on the settings page (frontend/src/pages/Settings.jsx:97) is not modelled. It is the same step as DepartmentsPage.CreateSucceeded.
- Text.Lower: only ASCII letters are lower-cased. Unicode case mapping is left out.
- DepartmentsRouter.SortByName: `ORDER BY name` is modelled as code-point order. Database collation is left out.
- SignupPage.HandleSignup: the password length counts characters, not UTF-16 code units.

## Findings

| source | as written | input that shows it | evidently intended | confidence | as-written member | corrected member |
|---|---|---|---|---|---|---|
| frontend/src/pages/Dashboard.jsx:46 | each field is written as `"` + value + `"`, and a double quote inside the value is not doubled as section 2 (rule 7) of RFC 4180 requires | a record whose student is named `x","y` with roll number `z`, and one named `x` with roll number `y","z`, both dated `d` and present: they export to the same text | fields written with their double quotes doubled, so the export reads back as exactly the header and rows | not executed | DashboardPage.ExportAsWrittenAmbiguous | DashboardPage.ExportCsv |
