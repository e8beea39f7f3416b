# Attendance backend core, modelled in Dafny

The repository holds two Express/Prisma backends for class attendance:
`lib/backend` and `sih_app/lib/backend`. This project models the logic of
their route handlers that can be stated precisely. It runs over an abstract
in-memory store, `Store.Db`, with these tables:

- users, student profiles, faculty profiles and sessions, as maps keyed by
  primary id;
- the attendance-record table, as a sequence whose rows are unique on
  (sessionId, studentId).

The modelled parts:

- **Marking attendance** (`LibAttendance`, `AppAttendance`).
  - lib/backend runs a fixed sequence of checks:
    1. the caller has a student profile;
    2. the session exists;
    3. the session is `OPEN`;
    4. the optional geofence passes, compared strictly against the radius.

    Then one upsert on the (sessionId, studentId) key writes the record.
  - sih_app runs no session check and writes only status and method.
- **Sessions** (`LibAttendance`, `AppAttendance`). Creation validates the
  period number (1..10) and applies the default radius. lib/backend also
  keeps the in-process PIN table, `PinTable`, and draws 4-digit PINs.
- **The bearer-token gate** (`AuthMiddleware`). It extracts the token from
  the `Authorization` header (section 2.1 of RFC 6750, matched on the literal
  prefix `"Bearer "`), decides 401 / 403 / pass, and assigns `req.user`.
- **Field rules of lib/backend** (`JsString`, `TextFields`). ECMAScript
  `trim`, the name, year, branch, section and PIN patterns, and email
  normalisation (`TextFields`). These are used by lib/backend's student
  update (`LibStudents`) and its stateless register/login echo (`LibAuth`).
- **Student self-profile** (`Profiles`, `LibStudents`, `AppStudents`). The
  GET /me projection and the PUT /me partial update.
- **sih_app authentication** (`AppAuth`):
  - registration with a role-matched profile;
  - login by email+password or by regNo+phone;
  - password reset;
  - token refresh.

Oracles are parameters. The Haversine distance is `distance`,
`Math.random()` is `random`, and bcrypt and jsonwebtoken are `hash`,
`compare`, `sign` and `verify`/`verifyRefresh`. Zod's `.email()` is
`isEmail`. Generated row ids are also parameters; an id that is already
taken makes the insert fail (500) with nothing written.

## Model

| member | source | states |
|---|---|---|
| JsString.Trim | lib/backend/src/modules/students/students.routes.ts:23 | the result has no ECMAScript whitespace at either end and is no longer than the input |
| JsString.TrimRemovesOnlyWhiteSpace | lib/backend/src/modules/students/students.routes.ts:23 | the result is the input with a whitespace prefix and a whitespace suffix cut off, and nothing else removed |
| JsString.TrimFixedPoint | lib/backend/src/modules/students/students.routes.ts:23 | trimming leaves a string unchanged exactly when neither end is whitespace |
| JsString.TrimIdempotent | lib/backend/src/modules/students/students.routes.ts:23 | trimming twice is trimming once |
| JsString.Utf16Length | lib/backend/src/modules/auth/auth.routes.ts:33-34 | Zod's `.min`/`.max` length (UTF-16 code units) lies between the character count and twice it |
| JsString.Utf16LengthBasicPlane | lib/backend/src/modules/auth/auth.routes.ts:33-35 | for characters below U+10000 the UTF-16 length is the character count, so the PIN limits count digits |
| JsString.ToLower | lib/backend/src/modules/auth/auth.routes.ts:26 | same length, no upper-case ASCII letter left, each upper-case letter mapped to its lower-case partner, every other character kept |
| JsString.ToLowerIdempotent | lib/backend/src/modules/auth/auth.routes.ts:26 | lower-casing twice is lower-casing once |
| JsString.DecimalString | lib/backend/src/modules/attendance/attendance.routes.ts:61 | `Number.prototype.toString` of a natural: digits only, no leading zero, and its decimal value is the number |
| JsString.FourDigits | lib/backend/src/modules/attendance/attendance.routes.ts:61 | every number from 1000 to 9999 prints as exactly four digits |
| Entities.StatusNamed | lib/backend/src/modules/attendance/attendance.routes.ts:83 | exactly the four status names are accepted, and each parses to the status of that name (`Entities.StatusName`) |
| Entities.MethodNamed | lib/backend/src/modules/attendance/attendance.routes.ts:84 | exactly the three method names are accepted, and each parses to the method of that name (`Entities.MethodName`) |
| Entities.RoleNamed | sih_app/lib/backend/src/modules/auth/auth.routes.ts:12 | exactly the three role names are accepted, and each parses to the role of that name (`Entities.RoleName`) |
| Entities.StatusNameRoundTrip | lib/backend/src/modules/attendance/attendance.routes.ts:83 | every status's own name parses back to that status, so no two statuses share a name |
| Entities.MethodNameRoundTrip | lib/backend/src/modules/attendance/attendance.routes.ts:84 | every method's own name parses back to that method |
| Entities.RoleNameRoundTrip | sih_app/lib/backend/src/modules/auth/auth.routes.ts:12 | every role's own name parses back to that role |
| Store.UserWithEmail | sih_app/lib/backend/src/modules/auth/auth.routes.ts:24 | finds the account with the email, or reports that no account has it |
| Store.StudentWithRegNo | sih_app/lib/backend/src/modules/auth/auth.routes.ts:64 | finds the student with the registration number, or reports that none has it |
| Store.StudentOfUser | sih_app/lib/backend/src/modules/auth/auth.routes.ts:59 | the user's student profile, or none exists |
| Store.FacultyOfUser | sih_app/lib/backend/src/modules/auth/auth.routes.ts:59 | the user's faculty profile, or none exists |
| Store.ProfileOf | lib/backend/src/modules/attendance/attendance.routes.ts:119-124 | `user?.student` is present exactly when the user exists and owns a student profile, and then it is that profile |
| Store.Upsert | lib/backend/src/modules/attendance/attendance.routes.ts:155-171 | the key stays unique; the row under the key becomes the updated existing row or the created one; the row under every other key is unchanged |
| AuthMiddleware.BearerToken | lib/backend/src/middlewares/auth.ts:15-16 | there is a token exactly when the header starts with "Bearer ", and the header is then the prefix followed by the token |
| AuthMiddleware.BearerTokenRoundTrip | lib/backend/src/middlewares/auth.ts:16 | extracting from "Bearer " + t gives t back |
| AuthMiddleware.StatusCode | lib/backend/src/middlewares/auth.ts:17-26 | no status exactly on a pass; 401 exactly for an unauthorized request and 403 exactly for a forbidden one |
| AuthMiddleware.Decide | lib/backend/src/middlewares/auth.ts:15-27 | 401 exactly when no non-empty token verifies; 403 exactly when it verifies and a role list excludes its role; otherwise pass; the user is always the decoded payload |
| AuthMiddleware.NoTokenUnauthorized | lib/backend/src/middlewares/auth.ts:15-17 | a missing header, a non-Bearer header or a bare "Bearer " gives 401 whatever verification would say |
| AuthMiddleware.NoRolesAnyRolePasses | lib/backend/src/middlewares/auth.ts:21 | without a role list every verified token passes |
| AuthMiddleware.RequireAuth | lib/backend/src/middlewares/auth.ts:14-28 | the handler acts on `Decide`: `req.user` is set whenever the token verified (also before a 403), the 401/403 status is written, and `next` is called exactly once on a pass and never otherwise |
| Schemas.PeriodNo | lib/backend/src/modules/attendance/attendance.routes.ts:14 | accepted exactly when the number is an integer from 1 to 10 |
| Schemas.PeriodNoOutOfRange | sih_app/lib/backend/src/modules/attendance/attendance.routes.ts:11 | a fractional period number or one outside 1..10 is rejected |
| Schemas.ParseSessionCore | sih_app/lib/backend/src/modules/attendance/attendance.routes.ts:8-14 | accepted exactly when the five fields have their types and the period number is in range; the fields are kept as given |
| Schemas.StatusOrDefault | lib/backend/src/modules/attendance/attendance.routes.ts:83 | absent gives PRESENT; otherwise accepted exactly for the four names |
| Schemas.MethodOrDefault | lib/backend/src/modules/attendance/attendance.routes.ts:84 | absent gives MANUAL; otherwise accepted exactly for the three names |
| LibAttendance.ParseSession | lib/backend/src/modules/attendance/attendance.routes.ts:11-21 | accepted exactly when the core fields and the optional location, latitude, longitude and radius have their types; every parsed value is the one submitted |
| LibAttendance.RadiusOrDefault | lib/backend/src/modules/attendance/attendance.routes.ts:42 | an omitted or zero radius becomes 100; any other radius is kept |
| LibAttendance.CreateSession | lib/backend/src/modules/attendance/attendance.routes.ts:23-47 | an invalid body creates nothing (400); otherwise the session holds the submitted fields, radius defaulted, and only the session table changes |
| LibAttendance.PinDraw | lib/backend/src/modules/attendance/attendance.routes.ts:61 | for any draw in [0, 1) the PIN value is from 1000 to 9999 |
| LibAttendance.PinStatusCode | lib/backend/src/modules/attendance/attendance.routes.ts:58-76 | 200 exactly for an issued PIN, 400 exactly for a session that is not OPEN, 404 exactly for a missing session or a missing PIN |
| LibAttendance.PinTable.constructor | lib/backend/src/modules/attendance/attendance.routes.ts:9 | the table starts empty |
| LibAttendance.PinTable.Current | lib/backend/src/modules/attendance/attendance.routes.ts:72-76 | the stored PIN of the session, always four digits, or 404 when none is stored |
| LibAttendance.PinTable.Generate | lib/backend/src/modules/attendance/attendance.routes.ts:50-64 | 404 exactly for a missing session, 400 exactly for a session that is not OPEN, and a PIN is issued exactly for an existing OPEN session: a 4-digit PIN replaces that session's PIN only, and reading it back returns it |
| LibAttendance.ParseMark | lib/backend/src/modules/attendance/attendance.routes.ts:80-87 | session id, status and method with their defaults, and required latitude and longitude |
| LibAttendance.MarkStatusCode | lib/backend/src/modules/attendance/attendance.routes.ts:114-153 | 200 exactly for a mark; 404 exactly for a missing profile or session; 400 exactly for an invalid body, a closed session or an out-of-range position |
| LibAttendance.Check | lib/backend/src/modules/attendance/attendance.routes.ts:110-153 | each rejection happens exactly when the earlier checks passed and its own fails: invalid, no profile, no session, not OPEN, and out of range only with a geofence and distance strictly above the radius; an accepted mark writes the submitted status, method and position for the caller's profile |
| LibAttendance.ClosedWhateverPosition | lib/backend/src/modules/attendance/attendance.routes.ts:131-137 | a session that is not OPEN rejects as closed whatever the coordinates and distance |
| LibAttendance.ZeroCentreSkipsGeofence | lib/backend/src/modules/attendance/attendance.routes.ts:137 | when the session being marked is centred at latitude 0 or longitude 0, the mark never rejects as out of range, whatever the other sessions are |
| LibAttendance.BoundaryAccepted | lib/backend/src/modules/attendance/attendance.routes.ts:144 | a distance equal to the radius is accepted |
| LibAttendance.FullWriteOverwrites | lib/backend/src/modules/attendance/attendance.routes.ts:155-170 | when the position is written, the upsert's update and create give the same row |
| LibAttendance.LastWriteWins | lib/backend/src/modules/attendance/attendance.routes.ts:155-171 | two marks of the same pair leave one row equal to the second submission and every other row as before |
| LibAttendance.Mark | lib/backend/src/modules/attendance/attendance.routes.ts:110-174 | a rejection writes nothing; an acceptance upserts exactly the checked row and returns it; only the record table changes |
| AppAttendance.CreateSession | sih_app/lib/backend/src/modules/attendance/attendance.routes.ts:16-30 | an invalid body creates nothing; a created session holds only the five core fields, with no location, geofence or radius |
| AppAttendance.ParseMark | sih_app/lib/backend/src/modules/attendance/attendance.routes.ts:32-36 | session id, plus status and method from their enumerations or defaults |
| AppAttendance.DefaultsApplied | sih_app/lib/backend/src/modules/attendance/attendance.routes.ts:34-35 | a body with only a session id gives PRESENT and MANUAL |
| AppAttendance.MarkStatusCode | sih_app/lib/backend/src/modules/attendance/attendance.routes.ts:38-54 | 200 exactly for a mark, 400 exactly for an invalid body, 404 exactly for a missing profile |
| AppAttendance.MarkWrite | sih_app/lib/backend/src/modules/attendance/attendance.routes.ts:50-51 | the write carries the status and method and no position |
| AppAttendance.RemarkKeepsPosition | sih_app/lib/backend/src/modules/attendance/attendance.routes.ts:48-52 | re-marking changes only status and method; a first mark creates a row holding only key, status and method |
| AppAttendance.MarksKeepPairsUnique | sih_app/lib/backend/src/modules/attendance/attendance.routes.ts:48-52 | after any sequence of marks there is at most one row per (sessionId, studentId) |
| AppAttendance.Mark | sih_app/lib/backend/src/modules/attendance/attendance.routes.ts:38-54 | 400 exactly for a bad body, 404 exactly without a profile, both writing nothing; otherwise the row is upserted for any session id, existing or not |
| TextFields.TrimValue | lib/backend/src/modules/students/students.routes.ts:23 | strings come back trimmed, every other value unchanged |
| TextFields.TrimValueIdempotent | lib/backend/src/modules/students/students.routes.ts:23 | applying `trim` twice is applying it once |
| TextFields.NameField | lib/backend/src/modules/students/students.routes.ts:24-28 | accepted exactly when the trimmed string has 2..60 of letters, space, '.', '\'' and '-'; the value is the trimmed string |
| TextFields.BlankNameRejected | lib/backend/src/modules/auth/auth.routes.ts:8-12 | an empty or all-whitespace name is rejected |
| TextFields.LowerKeepsTrimmed | lib/backend/src/modules/auth/auth.routes.ts:20-27 | lower-casing a trimmed string keeps it trimmed |
| TextFields.YearField | lib/backend/src/modules/students/students.routes.ts:29-31 | accepted exactly when the trimmed value is one character from '1' to '4' |
| TextFields.BranchField | lib/backend/src/modules/students/students.routes.ts:32-34 | accepted exactly when the trimmed value has 2..30 characters, each a letter, '&', '.' or space |
| TextFields.SectionField | lib/backend/src/modules/students/students.routes.ts:35-37 | accepted exactly when the trimmed value is one letter from 'A' to 'Z' |
| TextFields.PinField | lib/backend/src/modules/auth/auth.routes.ts:29-36 | accepted exactly when the trimmed value has 4..6 characters, all decimal digits |
| TextFields.EmailField | lib/backend/src/modules/auth/auth.routes.ts:20-27 | accepted exactly when the trimmed value is non-empty and a valid email; the value is trimmed and lower-cased |
| TextFields.NormalisedEmailStable | lib/backend/src/modules/auth/auth.routes.ts:20-27 | a normalised email is unchanged by trimming or lower-casing again |
| LibStudents.ParseUpdate | lib/backend/src/modules/students/students.routes.ts:39-44 | accepted exactly when every supplied field passes its rule; exactly the supplied fields are set, each to its trimmed value, which matches the rule's pattern |
| LibStudents.BadYearRejectsUpdate | lib/backend/src/modules/students/students.routes.ts:29-44 | a bad year rejects the whole update |
| LibStudents.PutMe | lib/backend/src/modules/students/students.routes.ts:46-54 | 400 and 404 change nothing; otherwise only the caller's row changes, and only in the supplied fields, each to its trimmed value |
| Profiles.MeStatusCode | sih_app/lib/backend/src/modules/students/students.routes.ts:11-20 | 200 when found, 404 when not |
| Profiles.Me | sih_app/lib/backend/src/modules/students/students.routes.ts:8-21 | 404 exactly when the user is missing or has no student profile; otherwise id, regNo, name, year, branch and section of that profile with the account email |
| Profiles.MeHidesPhone | sih_app/lib/backend/src/modules/students/students.routes.ts:12-20 | the answer does not depend on the phone |
| Profiles.Apply | sih_app/lib/backend/src/modules/students/students.routes.ts:36 | supplied fields take the new value; absent ones, id, userId, regNo and phone keep theirs |
| Profiles.ApplyNothing | sih_app/lib/backend/src/modules/students/students.routes.ts:36 | an empty update changes nothing |
| Profiles.ApplyTwice | sih_app/lib/backend/src/modules/students/students.routes.ts:36 | an update is idempotent |
| Profiles.PutStatusCode | sih_app/lib/backend/src/modules/students/students.routes.ts:30-37 | 200, 400 and 404 for updated, invalid and no profile |
| Profiles.UpdateProfile | sih_app/lib/backend/src/modules/students/students.routes.ts:30-38 | validation is decided before the lookup; 400 and 404 change nothing; otherwise only the caller's row becomes `Apply(row, update)`, and GET /me then shows it |
| AppStudents.OptionalName | sih_app/lib/backend/src/modules/students/students.routes.ts:24 | absent, or a non-empty string kept verbatim |
| AppStudents.ParseUpdate | sih_app/lib/backend/src/modules/students/students.routes.ts:23-28 | accepted exactly when the four fields are absent or strings and a supplied name is non-empty; values are kept verbatim |
| AppStudents.EmptyNameRejected | sih_app/lib/backend/src/modules/students/students.routes.ts:24 | an empty name rejects the update |
| AppStudents.BlankNameStoredVerbatim | sih_app/lib/backend/src/modules/students/students.routes.ts:24-27 | every non-empty all-white-space name is accepted and stored untrimmed |
| AppStudents.PutMe | sih_app/lib/backend/src/modules/students/students.routes.ts:30-38 | 400 and 404 change nothing; otherwise only the caller's row changes, in the supplied fields; every other row is untouched |
| LibAuth.AuthName | lib/backend/src/modules/auth/auth.routes.ts:8-18 | the final `trim` of the name schema never changes an accepted name |
| LibAuth.RegisterStatusCode | lib/backend/src/modules/auth/auth.routes.ts:52-65 | 200 for success and 400 for any schema failure |
| LibAuth.LoginStatusCode | lib/backend/src/modules/auth/auth.routes.ts:67-77 | 200 for success and 400 for any schema failure |
| LibAuth.Register | lib/backend/src/modules/auth/auth.routes.ts:52-65 | succeeds exactly when name, email and PIN pass; echoes the trimmed name and normalised email |
| LibAuth.RegisterIgnoresPin | lib/backend/src/modules/auth/auth.routes.ts:54-61 | the answer is the same for any valid PIN, so the PIN is never echoed |
| LibAuth.Login | lib/backend/src/modules/auth/auth.routes.ts:67-77 | succeeds exactly when email and PIN pass, with no credential check; echoes the normalised email |
| LibAuth.RegisteredCanLogIn | lib/backend/src/modules/auth/auth.routes.ts:38-47 | a body that registers also logs in, with the same email |
| LibAuth.LoginEmailStable | lib/backend/src/modules/auth/auth.routes.ts:20-27 | logging in with the echoed email gives the same answer |
| AppAuth.RoleOrDefault | sih_app/lib/backend/src/modules/auth/auth.routes.ts:12 | absent gives STUDENT; otherwise accepted exactly for the three role names |
| AppAuth.ParseStudentData | sih_app/lib/backend/src/modules/auth/auth.routes.ts:13-15 | absent, or an object of six strings |
| AppAuth.ParseFacultyData | sih_app/lib/backend/src/modules/auth/auth.routes.ts:16 | absent, or an object of two strings |
| AppAuth.ParseRegister | sih_app/lib/backend/src/modules/auth/auth.routes.ts:9-17 | valid email, password of at least 6 units, role, optional profile data; email kept verbatim |
| AppAuth.InsertUserConsistent | sih_app/lib/backend/src/modules/auth/auth.routes.ts:29 | a new account with a fresh id and unused email keeps ids and emails unique, and no profile refers to it yet |
| AppAuth.InsertStudentConsistent | sih_app/lib/backend/src/modules/auth/auth.routes.ts:31 | a new student profile with a fresh id and regNo for an account without one keeps the constraints |
| AppAuth.InsertFacultyConsistent | sih_app/lib/backend/src/modules/auth/auth.routes.ts:34 | a new faculty profile for an account without one keeps the constraints |
| AppAuth.RegisterStatusCode | sih_app/lib/backend/src/modules/auth/auth.routes.ts:19-40 | 200, 400, 409 and 500 for registered, invalid, email taken and failed insert |
| AppAuth.Register | sih_app/lib/backend/src/modules/auth/auth.routes.ts:19-40 | 400 for a bad body, 409 exactly when the email is registered, 500 exactly when an insert clashes; none changes anything; otherwise the user is added, with a student profile only for STUDENT with student data and a faculty profile only for FACULTY with faculty data, never for ADMIN |
| AppAuth.ParseLogin | sih_app/lib/backend/src/modules/auth/auth.routes.ts:43-50 | accepted exactly when the optional fields have their types and (email and password) or (regNo and phone) are truthy |
| AppAuth.LoginStatusCode | sih_app/lib/backend/src/modules/auth/auth.routes.ts:52-87 | 200, 400 and 401 for logged in, invalid and bad credentials |
| AppAuth.StudentRowOf | sih_app/lib/backend/src/modules/auth/auth.routes.ts:59 | the user's student row exactly when one exists |
| AppAuth.FacultyRowOf | sih_app/lib/backend/src/modules/auth/auth.routes.ts:59 | the user's faculty row exactly when one exists |
| AppAuth.Login | sih_app/lib/backend/src/modules/auth/auth.routes.ts:52-87 | with email and password given, succeeds exactly when an account has that email and the password matches its hash; otherwise exactly when a student has the regNo and that phone, answering without the faculty profile; both tokens carry the user's id and role and are issued at the request's time |
| AppAuth.EmailBranchFirst | sih_app/lib/backend/src/modules/auth/auth.routes.ts:58-63 | with both pairs given, an unknown email gives 401 even if regNo and phone would match |
| AppAuth.LoginAfterReset | sih_app/lib/backend/src/modules/auth/auth.routes.ts:58-62 | after a password hash change, an email login whose password matches the new hash reaches that account |
| AppAuth.ParseReset | sih_app/lib/backend/src/modules/auth/auth.routes.ts:90 | regNo, phone, and a new password of at least 6 units |
| AppAuth.ResetStatusCode | sih_app/lib/backend/src/modules/auth/auth.routes.ts:92-101 | 200, 400 and 401 for reset, invalid and verification failed |
| AppAuth.ResetPassword | sih_app/lib/backend/src/modules/auth/auth.routes.ts:92-101 | 401 exactly when no student has the regNo with that phone, changing nothing; otherwise only that student's account's password hash changes |
| AppAuth.ResetAndRegNoLoginAgree | sih_app/lib/backend/src/modules/auth/auth.routes.ts:63-66 | the regNo+phone pair that verifies a reset also logs in, as the account of that student |
| AppAuth.RefreshStatusCode | sih_app/lib/backend/src/modules/auth/auth.routes.ts:103-115 | 200, 400 and 401 for refreshed, missing and invalid token |
| AppAuth.Refresh | sih_app/lib/backend/src/modules/auth/auth.routes.ts:103-115 | 400 exactly for a falsy token, 401 exactly for a non-string or unverified one; otherwise a new access token with the same user id and role, issued at the time of the refresh |
| AppAuth.RefreshAfterLogin | sih_app/lib/backend/src/modules/auth/auth.routes.ts:103-111 | refreshing with a login's refresh token yields an access token over that login's user id and role, issued at the refresh time; when both are issued in the same second it is the login's own access token |

## Left out

- Errors thrown by Prisma calls are assumed to reach an error handler that
  answers 500, like the one in lib/backend/src/app.ts:27-30. The handlers
  await Prisma without try/catch, so this depends on the Express version or
  an async wrapper; neither the Express version nor
  sih_app's `createApp` (imported by sih_app/lib/backend/src/server.ts) is
  part of this model. Under Express 4 without a wrapper, a failed insert
  would send no response at all.
- The Haversine arithmetic of `calculateDistance`
  (lib/backend/src/modules/attendance/attendance.routes.ts:90-108) is
  floating-point trigonometry. It is the parameter `distance`; only the
  threshold logic around it is modelled.
- `Math.random` and the rounding of `1000 + r * 9000` are left out. The draw
  is the parameter `random` in [0, 1), and the product is exact real
  arithmetic.
- JavaScript numbers are reals: there is no NaN, no infinities and no
  double-precision rounding.
- `jwt.sign`/`jwt.verify`, secrets, token expiry, and bcrypt's salting and
  comparison are foreign libraries. They are the parameters `sign`,
  `verify`, `verifyRefresh`, `hash` and `compare`. `sign` receives the
  issue time (`iat`, from which `exp` follows), so tokens signed in
  different seconds are different values; `verify` and `verifyRefresh` stand
  for verification at the time of the request, expiry included.
- Zod's `.email()` format check is the parameter `isEmail`.
- `new Date(...)` parsing of date, startTime and endTime is not modelled:
  the submitted strings are stored.
- JsString.ToLower: only ASCII letters are lowered. `String.prototype.toLowerCase`
  also maps non-ASCII letters, and the Unicode case tables are not part of
  this model.
- The Prisma schema (prisma/schema.prisma) is not part of this model. The
  status a new session gets from the column default is the store's
  `defaultStatus`. No foreign-key constraint is assumed on attendance
  records, so the sih_app mark writes a row for any session id.
- Generated ids are parameters. Concurrency is left out: requests run one
  at a time, and a transaction is modelled as checking every constraint
  before any insert.
- Wiring is left out: lib/backend/src/app.ts and
  sih_app/lib/backend/src/server.ts (CORS, helmet, environment variables,
  the error mapper, `listen`).
- The route handlers take the caller's `userId` after `requireAuth` has
  passed. The gate itself is `AuthMiddleware.RequireAuth`.
- Response shaping is left out: the JSON error bodies and messages (such as
  the rounded distance in the out-of-range message) and the `flatten()`
  output. Only the outcome and its status code are kept.
- Malformed JSON rejected by `express.json` before a handler runs is left
  out.

## Behaviour worth knowing

- In lib/backend/src/modules/students/students.routes.ts:24-37, `.min` and
  `.regex` are chained after `.transform` or `.preprocess`. Zod's effect
  schemas do not have those methods; only plain string schemas do. The
  model follows the evident intent: trim, then check.
- The lib/backend middleware assigns `req.user` before the role check, so it
  is also set on a 403 (`AuthMiddleware.RequireAuth`).
- The geofence applies only when latitude, longitude and radius are all
  truthy. A session centred on the equator or the prime meridian is never
  checked (`LibAttendance.ZeroCentreSkipsGeofence`).
- sih_app's mark never looks at the session (`AppAttendance.Mark`).
- sih_app's regNo login loads only the student relation, so its answer has
  no faculty profile (`AppAuth.Login`).
- sih_app's student update does not trim, and its year, branch and section
  take any string (`AppStudents.BlankNameStoredVerbatim`).
