# Attendance backend: a verified model of its core

This project models, in Dafny, the stateful core of a university attendance backend (an
Express/MySQL REST service):

- **Attendance logs** (`api/attendance/index.js`). A professor opens a log for a section. The
  log is inserted into `attendance_log`. It is published under the section's classroom in the
  DynamoDB table `active_classrooms`, and an auto-close is scheduled for 900000 ms later.
  Professors and cameras mark students (an insert-ignore into `attendance_x_student`).
  Professors and admins unmark them. A professor closes the log with a guarded update.
- **Sections** (`api/section/index.js`). A section is inserted only when its start slot
  precedes its finish slot. Its week days are replaced by a delete followed by a multi-row
  insert whose text is built in a loop. Students are added and removed as pairs.
- **Middleware and user routes**: pagination clamping (`middleware/pagination.js`). Token
  extraction, verification, login lookup, registration and signing (`middleware/auth.js`).
  Profile, password and delete guards (`api/user/index.js`). The four role-code setters
  (`middleware/setUserType.js`).

## How the model is built

- Each SQL statement is a small pure function over the table's value. Examples:
  `Attendance.CloseLog` for `update ... set closed_at = now() where ... and closed_at is null`,
  `Attendance.InsertIgnore`, `Section.WithoutSection` and `Users.DeleteUser`. The lemmas are
  stated about these functions.
- Each route handler is a method on a class holding the tables it touches
  (`Attendance.AttendanceService`, `Section.SectionStore`, `Users.UserTable`). The method runs
  the handler's callback chain in order and returns a `Result` naming the reply.
- A failing MySQL statement or DynamoDB call is a boolean input. The failure of a `jwt` or
  `bcrypt` call is the `None` result of its function-valued parameter. A failure replies at
  once, and nothing done before it is undone.
- The Express request is the class `Http.Request`. A middleware returns `Next` (it called
  `next()`) or `Reply(error)`. Its `modifies` clause names the request fields it may write:
  one field for most middlewares, `from` and `to` for `Paginate`, `iat` and `token` for
  `SignToken`.
- `setTimeout` becomes the timer map `timers` and the step `AttendanceService.Expire`. That
  step may run once the clock (`Advance`) has reached the due time.
- The `jwt`, `bcrypt` and `config/regex` collaborators enter as function-valued parameters
  (`Auth.Jwt`, `Auth.Bcrypt`, `Auth.Validators`). The lemmas hold for every such function.
- The `user` table is a sequence of rows in ascending `id_user` order. So "the first row of a
  result" is the matching row with the smallest id.
- The `schedule_time` rows seeded at start-up are the constant `Section.SeededTimes`, in
  minutes after midnight.

### Behaviour of the code worth knowing

- Nothing checks scheduling conflicts. `/days` has only a note saying a check is missing.
- Nothing limits a professor to one open log.
- Marking never consults `closed_at`. So marking after a close succeeds.
- Manual close never touches `active_classrooms`. Only the auto-close deletes the entry. The
  auto-close deletes by classroom alone, so it can remove an entry that by then names a newer
  log of the same classroom. The method `Attendance.ScenarioStaleAutoClose` makes that sequence of calls
  and proves this outcome, together with a mark that succeeds after a close.
- A section insert whose guard fails adds no row but still replies success, with insert id 0.
- `/days` with an empty list builds a statement ending in `value`. MySQL rejects it, and the
  delete that ran before it is not undone. So the section is left with no days and the reply
  is an error. Under the pair key assumed for `section_x_schedule_day` (see "## Left out"),
  a day given twice repeats a key, so the insert fails in the same way.
- If the section of a new log has no row, destructuring `result[0]` throws inside a MySQL
  callback. Nothing catches it, so no reply is sent and the process ends. The log stays open,
  and every pending auto-close is lost (`OpenError.NoSectionRow`, with `timers` emptied).
- Marking uses `insert ignore`. Under the foreign keys assumed for `attendance_x_student`
  (see "## Left out"), a mark whose log or student does not exist breaks one of them. IGNORE
  turns that into a warning, so nothing is stored and the reply is still success.

## Model

| member | source | states |
|---|---|---|
| Attendance.AttendanceService.Open | api/attendance/index.js:40-117 | A NaN `idSection` is rejected before any write. A failed insert writes nothing. Otherwise a log with a new id, the current time and `closed_at` NULL is inserted. Every later failure (classroom lookup, missing section row, DynamoDB put) keeps the log, leaves `active_classrooms` alone and schedules no timer. A missing section row also loses every pending timer, because the process ends. Success publishes `active[classroom] = id`, schedules the auto-close 900000 ms later and returns that id. |
| Attendance.AttendanceService.Expire | api/attendance/index.js:84-109 | Fires once, at or after its due time. Deletes the classroom's `active_classrooms` entry, unless that call fails. Closes the log only where it is still open, unless the update fails. Both failures are only logged. |
| Attendance.AttendanceService.MarkStudent | api/attendance/index.js:125-140 | Unless the insert fails, the reply is success. The marks become the insert-ignore of (log, student) with the caller and the current time when both the log and the student exist. Otherwise the row is dropped and the marks are unchanged. A failure changes nothing. `closed_at` plays no part. |
| Attendance.AttendanceService.MarkByAccount | api/attendance/index.js:148-181 | A failed lookup, or an account number nobody has, replies an error and inserts nothing. Otherwise the first matching user is insert-ignored, and dropped without an error when the log or student does not exist. |
| Attendance.AttendanceService.Unmark | api/attendance/index.js:189-202 | On success exactly the (log, student) pair is deleted. A failure changes nothing. |
| Attendance.AttendanceService.Close | api/attendance/index.js:209-224 | On success `closed_at` is set only where it is NULL. The active table is not in its frame. |
| Attendance.CloseLog | api/attendance/index.js:99-101 | Keeps the key set. Changes no other log. Sets `closed_at` of an open log to now. Leaves a closed log unchanged. |
| Attendance.CloseIdempotent | api/attendance/index.js:212-214 | A second close (manual or automatic) leaves the first close time in place. |
| Attendance.InsertIgnore | api/attendance/index.js:128-130 | Adds the pair key and keeps every existing record unchanged. The new record is stored only when the pair was absent. |
| Attendance.MarkIdempotent | api/attendance/index.js:166-168 | Marking twice leaves one record, with the first marker and the first time. |
| Attendance.DeleteMark | api/attendance/index.js:192 | Removes exactly the (log, student) key. Every other record is unchanged. |
| Attendance.UnmarkAbsentIsNoOp | api/attendance/index.js:192 | Unmarking an absent pair changes nothing. |
| Attendance.UnmarkUndoesNewMark | api/attendance/index.js:125-192 | Unmarking a freshly marked student restores the marks as they were before. |
| Attendance.AccountOwner | api/attendance/index.js:155-164 | None exactly when no user has the account number. Otherwise the id of the first user in table order who has it. |
| Section.SectionStore.Create | api/section/index.js:8-54 | A row is added, with the next id, exactly when the insert succeeds and the start slot's time is below the finish slot's time. A missing slot counts as false. When the guard fails the reply is success with id 0 and nothing changes. The invariant that every section starts before it finishes is kept, given that the slot times stay fixed (see "## Left out"). |
| Section.SeededGuard | config/startup.js:28-41 | Over the seeded time slots, the guard holds exactly when 1 <= start id < finish id <= 11. |
| Section.BuildDaysInsert | api/section/index.js:64-70 | The loop yields the statement for n days and values that alternate `idSection` and each day, in input order. |
| Section.Interleave | api/section/index.js:67-70 | The values have length 2n. Position 2k is `idSection` and position 2k+1 is day k. |
| Section.StartsBeforeFinish | api/section/index.js:33-43 | The insert's guard holds only when both slots exist. A slot never starts before itself. |
| Section.DaysStatement | api/section/index.js:64-80 | The statement sent for n days is the head plus n groups, with the last character cut off. Its length is the head's length plus 7n − 1, and it always begins with the head minus its last character. |
| Section.DaysStatementShape | api/section/index.js:64-80 | For n >= 1 the statement is the head followed by n-1 groups `(?, ?),` and a final `(?, ?)`. It ends in `)`. Its placeholders are exactly as many as the values. |
| Section.EmptyDaysStatement | api/section/index.js:64-80 | For n = 0 the trim cuts the `s` of `values`, so the statement ends in `value`. |
| Section.ExecutesIffSomeDay | api/section/index.js:80-82 | The built statement is a complete multi-row insert exactly when at least one day is given. |
| Section.PairsOfInterleave | api/section/index.js:67-80 | The rows inserted from the values are exactly one (section, day) row per given day. |
| Section.WithoutSection | api/section/index.js:75 | The delete keeps exactly the rows of other sections. |
| Section.ReplaceDays | api/section/index.js:75-86 | After the replacement a section's days are exactly the given days. Every other section keeps its days. |
| Section.SectionStore.SetDays | api/section/index.js:57-89 | A non-array is rejected before any write. A failed delete skips the insert. A failed insert leaves the section's days deleted. The insert always fails for an empty list or a day given twice. Success is the replacement. |
| Section.DistinctDaysCount | api/section/index.js:64-80 | With no repeated day, the insert adds exactly one row per given day. |
| Section.SectionStore.AddStudent | api/section/index.js:92-105 | Success adds exactly the one pair. A failure changes nothing. So does a duplicate pair, which under the assumed pair key of `section_x_student` is a key error. |
| Section.SectionStore.RemoveStudent | api/section/index.js:108-121 | Success removes exactly the one pair, and removing an absent pair is not an error. A failure changes nothing. |
| Pagination.Clamp | middleware/pagination.js:14-22 | After clamping, 5 <= to − from <= 50. A gap already in range leaves `to` unchanged. A small gap gives from + 5 and a large gap gives from + 50. |
| Pagination.ClampIdempotent | middleware/pagination.js:14-25 | Clamping its own output changes nothing. |
| Pagination.Paginate | middleware/pagination.js:4-26 | A NaN `from` is reported before `to` is examined. An error leaves the params alone and skips `next()`. Otherwise `from` keeps its value, `to` is clamped and `next()` runs. |
| Auth.BearerToken | middleware/auth.js:11 | The token is field 1 of the split on spaces. It contains no space. |
| Auth.TokenOf | middleware/auth.js:8-22 | A missing header, a missing second field or an empty second field give the single error `NoToken`. An accepted token is non-empty, has no space and is field 1. Conversely, a header whose field 1 is non-empty is accepted with that field, however many fields follow. |
| Auth.NoSpaceNoToken | middleware/auth.js:11-18 | A header with no space yields no token. |
| Auth.TokenOfBearerHeader | middleware/auth.js:11-15 | `scheme + " " + token`, with space-free parts, yields exactly `token`. |
| Auth.TokenIsSecondField | middleware/auth.js:11-15 | An accepted token sits between the header's first space and its second space, or the end of the header. |
| Auth.GetToken | middleware/auth.js:8-22 | `req.token` becomes field 1 when the header exists. `next()` runs exactly when the token is accepted. |
| Auth.Admit | middleware/auth.js:40-47 | An invalid token is rejected first. A token is admitted exactly when its `idUserType` is in the permission list. Otherwise the error is no-permission. |
| Auth.AdmitAny | middleware/auth.js:53-61 | Every valid token is admitted, whatever its role. |
| Auth.AdmitMonotone | middleware/auth.js:43 | Widening the permission list never rejects a token that was admitted. |
| Auth.AdmitAnyIsAllRoles | middleware/auth.js:53-61 | For the four role codes, `verifyAny` behaves as `verify(1, 2, 3, 4)`. |
| Auth.Verify | middleware/auth.js:38-51 | `req.data` is set and `next()` runs exactly when `Admit` accepts. Otherwise its error is replied. |
| Auth.VerifyAny | middleware/auth.js:53-62 | `req.data` is set and `next()` runs exactly when the token verifies. |
| Auth.LoginRows | middleware/auth.js:67-72 | The rows the login select returns. These are exactly the table's rows whose email equals the normalised email and whose type joins `user_type`, never more than the table holds. |
| Users.UserTable.Insert | middleware/auth.js:124-129 | The insert appends one row with the AUTO_INCREMENT id and the given columns. It returns that id and advances the counter. The table stays ordered by id. |
| Auth.Login | middleware/auth.js:64-103 | A query error comes first. Then the lookup must return exactly one row with the normalised email (joined with `user_type`). With exactly one row, bcrypt's verdict decides. An error gives `BcryptError`, a mismatch gives `WrongPassword`, and a match admits the record built from that row. Conversely, success means that row is unique, the password matched, and the record is built from it. |
| Auth.GetUser | middleware/auth.js:64-103 | `req.user` is set and `next()` runs exactly when `Login` succeeds. |
| Auth.RegisterCheck | middleware/auth.js:108-118 | Checks the email, then the password, then the account number only when `idUserType` is 3. The first failure decides. |
| Auth.Register | middleware/auth.js:105-139 | Validation failures reply before hashing or inserting. The hash is computed next, then the insert. Success appends one row with the next id, the email trimmed and lower-cased, and the hash, and advances the counter. Any failure leaves the table and the counter unchanged. |
| Auth.RegisterThenLogin | middleware/auth.js:64-129 | After registering into a table with no joinable row for that email, logging in with the same password and any spelling of the email that normalises alike admits exactly the new user. This assumes bcrypt accepts a password against its own hash. |
| Auth.RegisteredEmailFindsNewRow | middleware/auth.js:73-129 | After registering an email no joinable row had, the login lookup finds exactly the new row. This holds for the typed email and for any spelling that normalises to the same string. |
| Auth.Iat | middleware/auth.js:28 | iat·1000 <= now_ms < (iat+1)·1000. |
| Auth.SignToken | middleware/auth.js:24-36 | `req.iat` is always set. The token is stored and `next()` runs only when signing succeeds. |
| Users.NormalizeEmail | middleware/auth.js:73 | The stored form is the lower-cased middle part of the input, with only white space cut at either end. It has no leading or trailing white space and no upper-case letter. |
| Users.NormalizeIdempotent | api/user/index.js:88 | Normalising a normalised email changes nothing. |
| Users.SetProfile | api/user/index.js:83-88 | Only the row with the caller's id changes, and only its email, names and surnames. |
| Users.SetPassword | api/user/index.js:116-118 | Only the caller's row changes, and only its password column. |
| Users.DeleteUser | api/user/index.js:136 | Keeps exactly the rows that are user 1 or do not have the requested id. |
| Users.DeleteAtMostOne | api/user/index.js:136 | In the table, ordered by primary key, the delete removes at most one row, and none when no row qualifies. |
| UserRoutes.PutProfile | api/user/index.js:75-97 | An invalid email is rejected before any update. On success the caller's row gets the email trimmed and lower-cased. A failed update writes nothing. |
| UserRoutes.PutPassword | api/user/index.js:105-128 | An invalid password is rejected before hashing. A bcrypt error or a failed update writes nothing. Success changes only the caller's password. |
| UserRoutes.DeleteRoute | api/user/index.js:135-143 | On success the table becomes `DeleteUser` of the old table. A failure changes nothing. |
| UserRoutes.ProfileTouchesOnlyCaller | api/user/index.js:82-88 | Every row keeps its id, type, password and account number, and rows of other users are unchanged. |
| UserRoutes.PasswordTouchesOnlyCaller | api/user/index.js:116-118 | Rows differ at most in the password column, and only for the caller. |
| UserRoutes.DeleteSparesUserOne | api/user/index.js:136 | User 1 is never removed. Every removed row has the requested id. |
| SetUserType.Code | middleware/setUserType.js:2-17 | Each role has a code between 1 and 4. |
| SetUserType.RoleOf | middleware/setUserType.js:2-17 | A code names a role exactly when it is between 1 and 4. |
| SetUserType.CodeRoundTrip | middleware/setUserType.js:2-17 | Codes and roles correspond one to one. |
| SetUserType.SetAdmin | middleware/setUserType.js:2-5 | `body.idUserType` becomes 1, the rest of the body is unchanged, and `next()` runs. |
| SetUserType.SetProfessor | middleware/setUserType.js:6-9 | `body.idUserType` becomes 2, the rest of the body is unchanged, and `next()` runs. |
| SetUserType.SetStudent | middleware/setUserType.js:10-13 | `body.idUserType` becomes 3, the rest of the body is unchanged, and `next()` runs. |
| SetUserType.SetCamera | middleware/setUserType.js:14-17 | `body.idUserType` becomes 4, the rest of the body is unchanged, and `next()` runs. |
| JsString.Split | middleware/auth.js:11 | Split returns at least one field. No field contains the separator. Joining the fields gives the input back. |
| JsString.SplitJoin | middleware/auth.js:11 | Splitting a join of separator-free fields gives the fields back. |
| JsString.Trim | middleware/auth.js:73 | The result is a middle slice of the input, with only white space outside it. It has no white space at either end. It is empty exactly when the input is all white space. |
| JsString.ToLowerCase | middleware/auth.js:73 | Keeps the length. Maps each upper-case letter to its lower-case letter (code point + 32). Leaves every other character unchanged. |
| JsString.TrimLowerCommute | middleware/auth.js:129 | Trimming and lower-casing commute. |

## Left out

- The database schema is not part of this model. Three constraints are assumed:
  - a primary key on the pair in `section_x_schedule_day`, which makes a repeated day fail
    `SetDays`;
  - a primary key on the pair in `section_x_student`, which makes a duplicate fail
    `AddStudent`;
  - a unique key on (log, student) in `attendance_x_student`, with foreign keys to the log
    and the student, which `MarkStudent` and `MarkByAccount` rely on.

  Without these constraints MySQL would store repeated days, duplicate pairs and marks for
  logs or students that do not exist.
- Section.SectionStore.Valid: the invariant that every section starts before it finishes holds
  because the model never changes `times`. The program does not enforce it after the insert:
  `PUT /api/schedule/:idScheduleTime` (api/schedule/index.js:54-57, a router outside this
  model) can rewrite a slot's time while a section uses it.
- The face-detection and Rekognition pipeline (`aws/*.py`) is not modelled. It is GPU
  inference, floating-point confidences, cloud clients and an endless loop.
- The pass-through CRUD routers are not modelled: campus, building, classroom, semester,
  schedule, class, professor, student, camera, admin and auth/index. Each handler is one
  parameterised statement. The GET routes of the attendance and user files are read-only
  selects and are left out for the same reason.
- The camera's S3 download and file cache, and the upload route's multer and S3 handling,
  are not modelled.
- `app.js` wiring is not modelled. `auth.verifyAdmin` is used by the section routes but
  defined nowhere. So the section handlers are modelled on their own, and the creator's id is
  a parameter.
- `config/startup.js` is left out (environment checks and seeding), except the seeded
  `schedule_time` values, which are kept as constant data.
- MySQL, DynamoDB and the connection pool are not modelled. Their failures are input flags.
  Foreign-key and NOT NULL checks of the plain `insert`, `update` and `delete` statements
  are not modelled separately: such a rejection is covered by the statement's failure flag.
  The two `insert ignore` statements are the exception, and they are modelled as described
  above.
- The `jwt`, `bcrypt` and `config/regex` internals are opaque functions.
- A timer and a close racing each other is not modelled: calls run one after another. Timers
  are lost only on the `NoSectionRow` crash. Other process restarts are not modelled.
- Attendance.AttendanceService.Open: after a `NoSectionRow` crash the process stops serving.
  The model keeps accepting calls, which stands for a restart with an empty timer table.
- Auth.GetUser: a login body without `email` makes `email.trim()` throw (middleware/auth.js:73).
  The throw happens while the middleware itself runs, before `db.query` is called, so
  Express catches the `TypeError` and replies with a 500 error. The process keeps running and
  no timer is lost. `Http.Body` holds `email` as a string and cannot express a missing field,
  so that reply is not modelled.
- One millisecond clock serves both `setTimeout` and MySQL's `now()`. The truncation of
  `now()` to whole seconds is not modelled.
- Pagination.Clamp: JavaScript numbers are IEEE doubles, and the model's `int` is unbounded.
  The program keeps the window bound 5 <= to - from <= 50, and leaves a `to` that is already
  in range unchanged, only while `|from|` and `|to|` stay below 2^53 - 50, that is about
  `Number.MAX_SAFE_INTEGER`. Beyond that, `from + min` and `from + max` round. For example,
  with `from` = 2^53 and `to` = 0 the window ends up 4 wide.
- `isNaN`/`Number` coercions of non-integer text (fractions, `""` read as 0, white space) are
  not modelled. `Http.Param` is the verdict, and route parameters are integers.
- Email comparison is exact. MySQL collations that ignore case or trailing spaces are not
  modelled.
- AUTO_INCREMENT gaps left by failed inserts are not modelled. A failed statement leaves the
  counter as it was.
- JsString.ToLowerCase: lower-cases only Basic Latin and Latin-1 upper-case letters, because
  Unicode's full case mapping (with its multi-character results) is outside this model.
- Auth.Register: requires `idUserType` to be set, because every route runs a `setUserType`
  setter before it (api/auth/index.js:28-29, api/admin/index.js:23-51).
