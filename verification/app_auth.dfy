/**
 * The authentication routes of sih_app/lib/backend: registration of a user
 * with an optional profile, login by email and password or by registration
 * number and phone, password reset by registration number and phone, and
 * access-token refresh. bcrypt and jsonwebtoken are parameters: `hash`,
 * `compare`, `sign` and `verifyRefresh`; `sign` takes the issue time `now`
 * of the request, and `verifyRefresh` is verification at that time, expiry
 * included. Zod's email format check is `isEmail`. Generated row ids are
 * parameters too.
 */
module AppAuth {
  import opened Values
  import opened JsString
  import opened Entities
  import opened Store
  import opened Schemas

  // ---------------------------------------------------------------------------
  // POST /register

  datatype StudentData = StudentData(regNo: string, name: string, phone: string,
                                     year: string, branch: string, section: string)

  datatype FacultyData = FacultyData(name: string, department: string)

  datatype RegisterRequest = RegisterRequest(email: string, password: string, role: Role,
                                             student: Option<StudentData>, faculty: Option<FacultyData>)

  /** `z.string().min(6)`: a string of at least six UTF-16 units. */
  predicate PasswordOk(v: Json) {
    v.Str? && Utf16Length(v.s) >= 6
  }

  /** `z.enum(['STUDENT', 'FACULTY', 'ADMIN']).default('STUDENT')`. */
  function RoleOrDefault(v: Json): (r: Option<Role>)
    ensures v.Undefined? ==> r == Some(Student)
    ensures !v.Undefined? ==> (r.Some? <==> v.Str? && v.s in {"STUDENT", "FACULTY", "ADMIN"})
    ensures v.Str? && r.Some? ==> r == RoleNamed(v.s)
  {
    match v
    case Undefined => Some(Student)
    case Str(s) => RoleNamed(s)
    case _ => None
  }

  /** The optional `student` object: six strings. */
  function ParseStudentData(v: Json): (r: Option<Option<StudentData>>)
    ensures r == Some(None) <==> v.Undefined?
    ensures r.Some? && r.value.Some? <==>
              && v.Obj?
              && Field(v, "regNo").Str? && Field(v, "name").Str? && Field(v, "phone").Str?
              && Field(v, "year").Str? && Field(v, "branch").Str? && Field(v, "section").Str?
    ensures r.Some? && r.value.Some? ==>
              r.value.value == StudentData(Field(v, "regNo").s, Field(v, "name").s, Field(v, "phone").s,
                                           Field(v, "year").s, Field(v, "branch").s, Field(v, "section").s)
  {
    if v.Undefined? then Some(None)
    else if v.Obj? && Field(v, "regNo").Str? && Field(v, "name").Str? && Field(v, "phone").Str?
            && Field(v, "year").Str? && Field(v, "branch").Str? && Field(v, "section").Str?
    then Some(Some(StudentData(Field(v, "regNo").s, Field(v, "name").s, Field(v, "phone").s,
                               Field(v, "year").s, Field(v, "branch").s, Field(v, "section").s)))
    else None
  }

  /** The optional `faculty` object: two strings. */
  function ParseFacultyData(v: Json): (r: Option<Option<FacultyData>>)
    ensures r == Some(None) <==> v.Undefined?
    ensures r.Some? && r.value.Some? <==> v.Obj? && Field(v, "name").Str? && Field(v, "department").Str?
    ensures r.Some? && r.value.Some? ==> r.value.value == FacultyData(Field(v, "name").s, Field(v, "department").s)
  {
    if v.Undefined? then Some(None)
    else if v.Obj? && Field(v, "name").Str? && Field(v, "department").Str?
    then Some(Some(FacultyData(Field(v, "name").s, Field(v, "department").s)))
    else None
  }

  /** `registerSchema`. The email is taken verbatim: neither trimmed nor lower-cased. */
  function ParseRegister(body: Json, isEmail: string -> bool): (r: Option<RegisterRequest>)
    ensures r.Some? <==>
              && body.Obj?
              && Field(body, "email").Str? && isEmail(Field(body, "email").s)
              && PasswordOk(Field(body, "password"))
              && RoleOrDefault(Field(body, "role")).Some?
              && ParseStudentData(Field(body, "student")).Some?
              && ParseFacultyData(Field(body, "faculty")).Some?
    ensures r.Some? ==>
              && r.value.email == Field(body, "email").s
              && r.value.password == Field(body, "password").s && Utf16Length(r.value.password) >= 6
              && r.value.role == RoleOrDefault(Field(body, "role")).value
              && r.value.student == ParseStudentData(Field(body, "student")).value
              && r.value.faculty == ParseFacultyData(Field(body, "faculty")).value
  {
    var email, password := Field(body, "email"), Field(body, "password");
    var role := RoleOrDefault(Field(body, "role"));
    var student, faculty := ParseStudentData(Field(body, "student")), ParseFacultyData(Field(body, "faculty"));
    if body.Obj? && email.Str? && isEmail(email.s) && PasswordOk(password) && role.Some? && student.Some? && faculty.Some?
    then Some(RegisterRequest(email.s, password.s, role.value, student.value, faculty.value))
    else None
  }

  /** Whether some account already uses the email. */
  predicate EmailRegistered(users: map<string, User>, email: string) {
    exists id :: id in users && users[id].email == email
  }

  /** Whether the role and the data call for a student profile. */
  predicate MakesStudent(req: RegisterRequest) {
    req.role == Student && req.student.Some?
  }

  /** Whether the role and the data call for a faculty profile. */
  predicate MakesFaculty(req: RegisterRequest) {
    req.role == Faculty && req.faculty.Some?
  }

  function StudentRow(id: string, userId: string, d: StudentData): StudentProfile {
    StudentProfile(id, userId, d.regNo, d.name, d.phone, d.year, d.branch, d.section)
  }

  function FacultyRow(id: string, userId: string, d: FacultyData): FacultyProfile {
    FacultyProfile(id, userId, d.name, d.department)
  }

  /**
   * Whether an insert of the transaction violates a constraint: the new user's
   * id is taken, or the profile the role calls for reuses a profile id or an
   * existing registration number.
   */
  predicate Clash(users: map<string, User>, students: map<string, StudentProfile>, faculty: map<string, FacultyProfile>,
                  req: RegisterRequest, userId: string, profileId: string)
  {
    || userId in users
    || (MakesStudent(req) &&
        (profileId in students || exists id :: id in students && students[id].regNo == req.student.value.regNo))
    || (MakesFaculty(req) && profileId in faculty)
  }

  /** Adding an account under a fresh id with an unused email keeps the store consistent, and nothing refers to it yet. */
  lemma InsertUserConsistent(users: map<string, User>, students: map<string, StudentProfile>,
                             faculty: map<string, FacultyProfile>, u: User)
    requires Consistent(users, students, faculty)
    requires u.id !in users && !EmailRegistered(users, u.email)
    ensures Consistent(users[u.id := u], students, faculty)
    ensures forall id :: id in students ==> students[id].userId != u.id
    ensures forall id :: id in faculty ==> faculty[id].userId != u.id
  {
    var after := users[u.id := u];
    forall a, b | a in after && b in after && after[a].email == after[b].email
      ensures a == b
    {
      if a != u.id && b != u.id {
        assert users[a].email == users[b].email;
      }
    }
  }

  /** Adding a student profile with a fresh id and registration number for an existing account without one keeps the store consistent. */
  lemma InsertStudentConsistent(users: map<string, User>, students: map<string, StudentProfile>,
                                faculty: map<string, FacultyProfile>, p: StudentProfile)
    requires Consistent(users, students, faculty)
    requires p.id !in students && p.userId in users
    requires forall id :: id in students ==> students[id].userId != p.userId && students[id].regNo != p.regNo
    ensures Consistent(users, students[p.id := p], faculty)
  {
    var after := students[p.id := p];
    forall a, b | a in after && b in after && after[a].regNo == after[b].regNo
      ensures a == b
    {
      if a != p.id && b != p.id {
        assert students[a].regNo == students[b].regNo;
      }
    }
    forall a, b | a in after && b in after && after[a].userId == after[b].userId
      ensures a == b
    {
      if a != p.id && b != p.id {
        assert students[a].userId == students[b].userId;
      }
    }
  }

  /** Adding a faculty profile with a fresh id for an existing account without one keeps the store consistent. */
  lemma InsertFacultyConsistent(users: map<string, User>, students: map<string, StudentProfile>,
                                faculty: map<string, FacultyProfile>, p: FacultyProfile)
    requires Consistent(users, students, faculty)
    requires p.id !in faculty && p.userId in users
    requires forall id :: id in faculty ==> faculty[id].userId != p.userId
    ensures Consistent(users, students, faculty[p.id := p])
  {
    var after := faculty[p.id := p];
    forall a, b | a in after && b in after && after[a].userId == after[b].userId
      ensures a == b
    {
      if a != p.id && b != p.id {
        assert faculty[a].userId == faculty[b].userId;
      }
    }
  }

  datatype RegisterOutcome = Registered(user: User) | RegisterInvalid | EmailTaken | RegisterFailed

  function RegisterStatusCode(o: RegisterOutcome): (code: int)
    ensures code == 200 <==> o.Registered?
    ensures code == 400 <==> o.RegisterInvalid?
    ensures code == 409 <==> o.EmailTaken?
    ensures code == 500 <==> o.RegisterFailed?
  {
    match o
    case Registered(_) => 200
    case RegisterInvalid => 400
    case EmailTaken => 409
    case RegisterFailed => 500
  }

  /**
   * POST /register. 400 for a body the schema rejects; 409 when the email is
   * already registered; 500 when an insert of the transaction fails, which
   * rolls every insert back. Otherwise the user is added with the hashed
   * password, together with a student profile when the role is STUDENT and
   * student data was sent, or a faculty profile when the role is FACULTY and
   * faculty data was sent; an ADMIN never gets a profile. Nothing changes on
   * any failure.
   */
  method Register(db: Db, body: Json, isEmail: string -> bool, hash: string -> string,
                  userId: string, profileId: string)
    returns (o: RegisterOutcome)
    requires db.Valid()
    modifies db
    ensures db.Valid()
    ensures db.sessions == old(db.sessions) && db.records == old(db.records)
    ensures o.RegisterInvalid? <==> ParseRegister(body, isEmail).None?
    ensures o.EmailTaken? <==>
              ParseRegister(body, isEmail).Some? && EmailRegistered(old(db.users), ParseRegister(body, isEmail).value.email)
    ensures o.RegisterFailed? <==>
              && ParseRegister(body, isEmail).Some?
              && !EmailRegistered(old(db.users), ParseRegister(body, isEmail).value.email)
              && Clash(old(db.users), old(db.students), old(db.faculty), ParseRegister(body, isEmail).value, userId, profileId)
    ensures !o.Registered? ==> db.users == old(db.users) && db.students == old(db.students) && db.faculty == old(db.faculty)
    ensures o.Registered? ==>
              var req := ParseRegister(body, isEmail).value;
              && o.user == User(userId, req.email, hash(req.password), req.role)
              && db.users == old(db.users)[userId := o.user]
              && db.students == (if MakesStudent(req) then old(db.students)[profileId := StudentRow(profileId, userId, req.student.value)]
                                 else old(db.students))
              && db.faculty == (if MakesFaculty(req) then old(db.faculty)[profileId := FacultyRow(profileId, userId, req.faculty.value)]
                                else old(db.faculty))
    ensures o.Registered? && o.user.role == Admin ==> db.students == old(db.students) && db.faculty == old(db.faculty)
  {
    var parsed := ParseRegister(body, isEmail);
    if parsed.None? {
      return RegisterInvalid;
    }
    var req := parsed.value;
    if UserWithEmail(db.users, req.email).Some? {
      return EmailTaken;
    }
    var passwordHash := hash(req.password);
    if Clash(db.users, db.students, db.faculty, req, userId, profileId) {
      return RegisterFailed;
    }
    var user := User(userId, req.email, passwordHash, req.role);
    InsertUserConsistent(db.users, db.students, db.faculty, user);
    db.users := db.users[userId := user];
    if MakesStudent(req) {
      InsertStudentConsistent(db.users, db.students, db.faculty, StudentRow(profileId, userId, req.student.value));
      db.students := db.students[profileId := StudentRow(profileId, userId, req.student.value)];
    }
    if MakesFaculty(req) {
      InsertFacultyConsistent(db.users, db.students, db.faculty, FacultyRow(profileId, userId, req.faculty.value));
      db.faculty := db.faculty[profileId := FacultyRow(profileId, userId, req.faculty.value)];
    }
    o := Registered(user);
  }

  // ---------------------------------------------------------------------------
  // POST /login and POST /refresh

  /** The two signing keys; the access token lives 15 minutes and the refresh token 7 days. */
  datatype Secret = AccessSecret | RefreshSecret

  /**
   * `jwt.sign`: a token from the key, the claims and the issue time in
   * seconds (`iat`). The expiry `exp` is the issue time plus the key's
   * lifetime, so it is determined by the first and last arguments.
   */
  type Signer = (Secret, AuthPayload, int) -> string

  datatype LoginRequest = LoginRequest(email: Option<string>, password: Option<string>,
                                       regNo: Option<string>, phone: Option<string>)

  /** JavaScript truthiness of an optional string. */
  predicate Given(s: Option<string>) {
    s.Some? && s.value != ""
  }

  /** `loginSchema`: four optional fields, and the refinement that one of the two pairs is present. */
  function ParseLogin(body: Json, isEmail: string -> bool): (r: Option<LoginRequest>)
    ensures r.Some? <==>
              && body.Obj?
              && (Field(body, "email").Undefined? || (Field(body, "email").Str? && isEmail(Field(body, "email").s)))
              && (Field(body, "password").Undefined? || PasswordOk(Field(body, "password")))
              && OptionalString(Field(body, "regNo")).Some?
              && OptionalString(Field(body, "phone")).Some?
              && ((Truthy(Field(body, "email")) && Truthy(Field(body, "password")))
                  || (Truthy(Field(body, "regNo")) && Truthy(Field(body, "phone"))))
    ensures r.Some? ==>
              && (r.value.email.Some? <==> Field(body, "email").Str?)
              && (r.value.email.Some? ==> r.value.email.value == Field(body, "email").s)
              && (r.value.password.Some? <==> Field(body, "password").Str?)
              && (r.value.password.Some? ==> r.value.password.value == Field(body, "password").s)
              && r.value.regNo == OptionalString(Field(body, "regNo")).value
              && r.value.phone == OptionalString(Field(body, "phone")).value
              && ((Given(r.value.email) && Given(r.value.password)) || (Given(r.value.regNo) && Given(r.value.phone)))
  {
    var email, password := Field(body, "email"), Field(body, "password");
    var regNo, phone := OptionalString(Field(body, "regNo")), OptionalString(Field(body, "phone"));
    if body.Obj? && (email.Undefined? || (email.Str? && isEmail(email.s)))
       && (password.Undefined? || PasswordOk(password)) && regNo.Some? && phone.Some?
    then
      var req := LoginRequest(if email.Str? then Some(email.s) else None,
                              if password.Str? then Some(password.s) else None,
                              regNo.value, phone.value);
      if (Given(req.email) && Given(req.password)) || (Given(req.regNo) && Given(req.phone)) then Some(req) else None
    else None
  }

  datatype LoginOutcome =
    | LoggedIn(accessToken: string, refreshToken: string, user: User,
               student: Option<StudentProfile>, faculty: Option<FacultyProfile>)
    | LoginInvalid
    | BadCredentials

  function LoginStatusCode(o: LoginOutcome): (code: int)
    ensures code == 200 <==> o.LoggedIn?
    ensures code == 400 <==> o.LoginInvalid?
    ensures code == 401 <==> o.BadCredentials?
  {
    match o
    case LoggedIn(_, _, _, _, _) => 200
    case LoginInvalid => 400
    case BadCredentials => 401
  }

  /** The user's student row, as `include: { student: true }` loads it. */
  function StudentRowOf(students: map<string, StudentProfile>, userId: string): (r: Option<StudentProfile>)
    requires UniqueStudentUsers(students)
    ensures r.Some? <==> exists id :: id in students && students[id].userId == userId
    ensures r.Some? ==> r.value in students.Values && r.value.userId == userId
  {
    match StudentOfUser(students, userId)
    case None => None
    case Some(id) => Some(students[id])
  }

  /** The user's faculty row, as `include: { faculty: true }` loads it. */
  function FacultyRowOf(faculty: map<string, FacultyProfile>, userId: string): (r: Option<FacultyProfile>)
    requires UniqueFacultyUsers(faculty)
    ensures r.Some? <==> exists id :: id in faculty && faculty[id].userId == userId
    ensures r.Some? ==> r.value in faculty.Values && r.value.userId == userId
  {
    match FacultyOfUser(faculty, userId)
    case None => None
    case Some(id) => Some(faculty[id])
  }

  /** Both tokens of a login carry the user's id and role. */
  function Tokens(u: User, sign: Signer, now: int): (string, string) {
    (sign(AccessSecret, AuthPayload(u.id, u.role), now), sign(RefreshSecret, AuthPayload(u.id, u.role), now))
  }

  /**
   * POST /login. When an email and a password are both given, that branch is
   * taken whatever else was sent: 401 unless an account has that email and
   * `compare` accepts the password against its hash. Otherwise the
   * registration number and phone are used: 401 unless a student has that
   * registration number and exactly that phone. A successful login answers
   * with an access and a refresh token for the user's id and role, the user
   * and its student profile; its faculty profile is included only on the
   * email branch. Nothing is written.
   */
  function Login(users: map<string, User>, students: map<string, StudentProfile>, faculty: map<string, FacultyProfile>,
                 body: Json, isEmail: string -> bool, compare: (string, string) -> bool,
                 sign: Signer, now: int)
    : (o: LoginOutcome)
    requires Consistent(users, students, faculty)
    ensures o.LoginInvalid? <==> ParseLogin(body, isEmail).None?
    ensures ParseLogin(body, isEmail).Some? && Given(ParseLogin(body, isEmail).value.email) && Given(ParseLogin(body, isEmail).value.password) ==>
              var req := ParseLogin(body, isEmail).value;
              && (o.LoggedIn? <==> exists id :: id in users && users[id].email == req.email.value &&
                                                compare(req.password.value, users[id].passwordHash))
              && (o.LoggedIn? ==> o.user.email == req.email.value &&
                                  o.student == StudentRowOf(students, o.user.id) && o.faculty == FacultyRowOf(faculty, o.user.id))
    ensures ParseLogin(body, isEmail).Some? && !(Given(ParseLogin(body, isEmail).value.email) && Given(ParseLogin(body, isEmail).value.password)) ==>
              var req := ParseLogin(body, isEmail).value;
              && (o.LoggedIn? <==> exists id :: id in students && students[id].regNo == req.regNo.value &&
                                                students[id].phone == req.phone.value)
              && (o.LoggedIn? ==> o.student.Some? && o.student.value.regNo == req.regNo.value && o.faculty.None?)
    ensures o.LoggedIn? ==>
              && o.user.id in users && users[o.user.id] == o.user
              && (o.accessToken, o.refreshToken) == Tokens(o.user, sign, now)
              && (o.student.Some? ==> o.student.value in students.Values && o.student.value.userId == o.user.id)
  {
    match ParseLogin(body, isEmail)
    case None => LoginInvalid
    case Some(req) =>
      if Given(req.email) && Given(req.password) then
        match UserWithEmail(users, req.email.value)
        case None => BadCredentials
        case Some(id) =>
          if !compare(req.password.value, users[id].passwordHash) then BadCredentials
          else
            var u := users[id];
            LoggedIn(Tokens(u, sign, now).0, Tokens(u, sign, now).1, u, StudentRowOf(students, id), FacultyRowOf(faculty, id))
      else
        match StudentWithRegNo(students, req.regNo.value)
        case None => BadCredentials
        case Some(sid) =>
          if students[sid].phone != req.phone.value then BadCredentials
          else
            var u := users[students[sid].userId];
            LoggedIn(Tokens(u, sign, now).0, Tokens(u, sign, now).1, u, Some(students[sid]), None)
  }

  /**
   * With both pairs given, the email branch decides alone: an email that no
   * account uses gives 401 even when the registration number and phone
   * match a student.
   */
  lemma EmailBranchFirst(users: map<string, User>, students: map<string, StudentProfile>, faculty: map<string, FacultyProfile>,
                         body: Json, isEmail: string -> bool, compare: (string, string) -> bool,
                         sign: Signer, now: int)
    requires Consistent(users, students, faculty)
    requires ParseLogin(body, isEmail).Some?
    requires Given(ParseLogin(body, isEmail).value.email) && Given(ParseLogin(body, isEmail).value.password)
    requires !EmailRegistered(users, ParseLogin(body, isEmail).value.email.value)
    ensures Login(users, students, faculty, body, isEmail, compare, sign, now) == BadCredentials
  {
  }

  /** After a password change, logging in by email with the new password succeeds as that account. */
  lemma LoginAfterReset(users: map<string, User>, students: map<string, StudentProfile>, faculty: map<string, FacultyProfile>,
                        uid: string, newHash: string, body: Json, isEmail: string -> bool,
                        compare: (string, string) -> bool, sign: Signer, now: int)
    requires Consistent(users, students, faculty) && uid in users
    requires ParseLogin(body, isEmail).Some?
    requires var req := ParseLogin(body, isEmail).value;
             Given(req.email) && Given(req.password) && req.email.value == users[uid].email &&
             compare(req.password.value, newHash)
    ensures Consistent(users[uid := users[uid].(passwordHash := newHash)], students, faculty)
    ensures var o := Login(users[uid := users[uid].(passwordHash := newHash)], students, faculty, body, isEmail, compare, sign, now);
            o.LoggedIn? && o.user.id == uid && o.user.passwordHash == newHash
  {
    var after := users[uid := users[uid].(passwordHash := newHash)];
    forall a, b | a in after && b in after && after[a].email == after[b].email
      ensures a == b
    {
      assert users[a].email == after[a].email && users[b].email == after[b].email;
    }
    var o := Login(after, students, faculty, body, isEmail, compare, sign, now);
    assert after[uid].email == ParseLogin(body, isEmail).value.email.value;
    assert o.user.email == after[uid].email;
  }

  // ---------------------------------------------------------------------------
  // POST /reset-password

  datatype ResetRequest = ResetRequest(regNo: string, phone: string, newPassword: string)

  /** `resetSchema`: registration number, phone and a new password of at least six units. */
  function ParseReset(body: Json): (r: Option<ResetRequest>)
    ensures r.Some? <==>
              body.Obj? && Field(body, "regNo").Str? && Field(body, "phone").Str? && PasswordOk(Field(body, "newPassword"))
    ensures r.Some? ==>
              r.value == ResetRequest(Field(body, "regNo").s, Field(body, "phone").s, Field(body, "newPassword").s)
  {
    var regNo, phone, password := Field(body, "regNo"), Field(body, "phone"), Field(body, "newPassword");
    if body.Obj? && regNo.Str? && phone.Str? && PasswordOk(password) then
      Some(ResetRequest(regNo.s, phone.s, password.s))
    else None
  }

  datatype ResetOutcome = PasswordReset | ResetInvalid | VerificationFailed

  function ResetStatusCode(o: ResetOutcome): (code: int)
    ensures code == 200 <==> o.PasswordReset?
    ensures code == 400 <==> o.ResetInvalid?
    ensures code == 401 <==> o.VerificationFailed?
  {
    match o
    case PasswordReset => 200
    case ResetInvalid => 400
    case VerificationFailed => 401
  }

  /** Whether a student has this registration number and exactly this phone. */
  predicate Verifies(students: map<string, StudentProfile>, regNo: string, phone: string) {
    exists id :: id in students && students[id].regNo == regNo && students[id].phone == phone
  }

  /**
   * POST /reset-password. 400 for a body the schema rejects, 401 unless a
   * student has the registration number and exactly the phone; in both cases
   * nothing changes. Otherwise the password hash of that student's account
   * becomes the hash of the new password, and nothing else changes.
   */
  method ResetPassword(db: Db, body: Json, hash: string -> string) returns (o: ResetOutcome)
    requires db.Valid()
    modifies db
    ensures db.Valid()
    ensures db.students == old(db.students) && db.faculty == old(db.faculty)
    ensures db.sessions == old(db.sessions) && db.records == old(db.records)
    ensures o.ResetInvalid? <==> ParseReset(body).None?
    ensures o.VerificationFailed? <==>
              ParseReset(body).Some? && !Verifies(db.students, ParseReset(body).value.regNo, ParseReset(body).value.phone)
    ensures !o.PasswordReset? ==> db.users == old(db.users)
    ensures o.PasswordReset? ==>
              var req := ParseReset(body).value;
              var uid := db.students[StudentWithRegNo(db.students, req.regNo).value].userId;
              && uid in old(db.users)
              && db.users == old(db.users)[uid := old(db.users)[uid].(passwordHash := hash(req.newPassword))]
  {
    var parsed := ParseReset(body);
    if parsed.None? {
      return ResetInvalid;
    }
    var req := parsed.value;
    var found := StudentWithRegNo(db.students, req.regNo);
    if found.None? || db.students[found.value].phone != req.phone {
      return VerificationFailed;
    }
    var uid := db.students[found.value].userId;
    var passwordHash := hash(req.newPassword);
    ghost var before := db.users;
    db.users := db.users[uid := db.users[uid].(passwordHash := passwordHash)];
    forall a, b | a in db.users && b in db.users && db.users[a].email == db.users[b].email
      ensures a == b
    {
      assert before[a].email == db.users[a].email && before[b].email == db.users[b].email;
    }
    o := PasswordReset;
  }

  /** Once a reset has succeeded, a registration-number login with the same number and phone reaches the same account. */
  lemma ResetAndRegNoLoginAgree(users: map<string, User>, students: map<string, StudentProfile>,
                                faculty: map<string, FacultyProfile>, body: Json, isEmail: string -> bool,
                                compare: (string, string) -> bool, sign: Signer, now: int)
    requires Consistent(users, students, faculty)
    requires ParseLogin(body, isEmail).Some?
    requires var req := ParseLogin(body, isEmail).value;
             !(Given(req.email) && Given(req.password)) && Verifies(students, req.regNo.value, req.phone.value)
    ensures var req := ParseLogin(body, isEmail).value;
            var o := Login(users, students, faculty, body, isEmail, compare, sign, now);
            o.LoggedIn? && o.user.id == students[StudentWithRegNo(students, req.regNo.value).value].userId
  {
  }

  // ---------------------------------------------------------------------------
  // POST /refresh

  datatype RefreshOutcome = Refreshed(accessToken: string) | MissingToken | InvalidToken

  function RefreshStatusCode(o: RefreshOutcome): (code: int)
    ensures code == 200 <==> o.Refreshed?
    ensures code == 400 <==> o.MissingToken?
    ensures code == 401 <==> o.InvalidToken?
  {
    match o
    case Refreshed(_) => 200
    case MissingToken => 400
    case InvalidToken => 401
  }

  /**
   * POST /refresh. A falsy `refreshToken` gives 400. A token that is not a
   * string or does not verify against the refresh secret gives 401.
   * Otherwise the answer is only a new access token with the same user id
   * and role as the refresh token.
   */
  function Refresh(body: Json, verifyRefresh: string -> Option<AuthPayload>, sign: Signer, now: int)
    : (o: RefreshOutcome)
    ensures o.MissingToken? <==> !Truthy(Field(body, "refreshToken"))
    ensures o.InvalidToken? <==>
              Truthy(Field(body, "refreshToken")) &&
              (!Field(body, "refreshToken").Str? || verifyRefresh(Field(body, "refreshToken").s).None?)
    ensures o.Refreshed? ==>
              var claims := verifyRefresh(Field(body, "refreshToken").s).value;
              o.accessToken == sign(AccessSecret, AuthPayload(claims.userId, claims.role), now)
  {
    var token := Field(body, "refreshToken");
    if !Truthy(token) then MissingToken
    else if !token.Str? then InvalidToken
    else match verifyRefresh(token.s)
      case None => InvalidToken
      case Some(claims) => Refreshed(sign(AccessSecret, AuthPayload(claims.userId, claims.role), now))
  }

  /**
   * Refreshing at time `now` with the refresh token of a login made at time
   * `issued`, when `jwt.verify` (at the refresh) accepts it with the claims it
   * was signed with, yields an access token for the login's user and role
   * issued at `now`. It is the login's own access token when both fall in the
   * same second; a later refresh signs a later `iat` and `exp`.
   */
  lemma RefreshAfterLogin(o: LoginOutcome, verifyRefresh: string -> Option<AuthPayload>, sign: Signer,
                          issued: int, now: int)
    requires o.LoggedIn? && (o.accessToken, o.refreshToken) == Tokens(o.user, sign, issued)
    requires o.refreshToken != ""
    requires verifyRefresh(o.refreshToken) == Some(AuthPayload(o.user.id, o.user.role))
    ensures Refresh(Obj(map["refreshToken" := Str(o.refreshToken)]), verifyRefresh, sign, now)
            == Refreshed(sign(AccessSecret, AuthPayload(o.user.id, o.user.role), now))
    ensures now == issued ==>
              Refresh(Obj(map["refreshToken" := Str(o.refreshToken)]), verifyRefresh, sign, now) == Refreshed(o.accessToken)
  {
    var body := Obj(map["refreshToken" := Str(o.refreshToken)]);
    assert Field(body, "refreshToken") == Str(o.refreshToken);
  }
}
