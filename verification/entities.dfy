/** The rows of the relational store and the enumerations of its columns. */
module Entities {
  import opened Values

  datatype Role = Student | Faculty | Admin

  datatype AttendanceStatus = Present | Absent | Late | Excused

  datatype AttendanceMethod = Face | Biometric | Manual

  /** The claims a signed token carries. */
  datatype AuthPayload = AuthPayload(userId: string, role: Role)

  datatype User = User(id: string, email: string, passwordHash: string, role: Role)

  datatype StudentProfile = StudentProfile(
    id: string, userId: string, regNo: string, name: string,
    phone: string, year: string, branch: string, section: string)

  datatype FacultyProfile = FacultyProfile(id: string, userId: string, name: string, department: string)

  /** A class session; `status` is compared against the literal "OPEN". */
  datatype Session = Session(
    id: string, classId: string, date: string, periodNo: int,
    startTime: string, endTime: string,
    location: Option<string>, latitude: Option<real>, longitude: Option<real>, radius: Option<real>,
    status: string)

  /** One attendance record; (sessionId, studentId) is the table's compound unique key. */
  datatype AttendanceRecord = AttendanceRecord(
    sessionId: string, studentId: string,
    status: AttendanceStatus, markMethod: AttendanceMethod,
    latitude: Option<real>, longitude: Option<real>)

  /** The name the database enum gives each attendance status. */
  function StatusName(st: AttendanceStatus): string {
    match st
    case Present => "PRESENT"
    case Absent => "ABSENT"
    case Late => "LATE"
    case Excused => "EXCUSED"
  }

  /** `z.enum(["PRESENT", "ABSENT", "LATE", "EXCUSED"])`. */
  function StatusNamed(s: string): (r: Option<AttendanceStatus>)
    ensures r.Some? <==> s in {"PRESENT", "ABSENT", "LATE", "EXCUSED"}
    ensures r.Some? ==> StatusName(r.value) == s
  {
    if s == "PRESENT" then Some(Present)
    else if s == "ABSENT" then Some(Absent)
    else if s == "LATE" then Some(Late)
    else if s == "EXCUSED" then Some(Excused)
    else None
  }

  /** The name the database enum gives each attendance method. */
  function MethodName(m: AttendanceMethod): string {
    match m
    case Face => "FACE"
    case Biometric => "BIOMETRIC"
    case Manual => "MANUAL"
  }

  /** `z.enum(["FACE", "BIOMETRIC", "MANUAL"])`. */
  function MethodNamed(s: string): (r: Option<AttendanceMethod>)
    ensures r.Some? <==> s in {"FACE", "BIOMETRIC", "MANUAL"}
    ensures r.Some? ==> MethodName(r.value) == s
  {
    if s == "FACE" then Some(Face)
    else if s == "BIOMETRIC" then Some(Biometric)
    else if s == "MANUAL" then Some(Manual)
    else None
  }

  /** The name the database enum gives each role. */
  function RoleName(role: Role): string {
    match role
    case Student => "STUDENT"
    case Faculty => "FACULTY"
    case Admin => "ADMIN"
  }

  /** `z.enum(["STUDENT", "FACULTY", "ADMIN"])`. */
  function RoleNamed(s: string): (r: Option<Role>)
    ensures r.Some? <==> s in {"STUDENT", "FACULTY", "ADMIN"}
    ensures r.Some? ==> RoleName(r.value) == s
  {
    if s == "STUDENT" then Some(Student)
    else if s == "FACULTY" then Some(Faculty)
    else if s == "ADMIN" then Some(Admin)
    else None
  }

  /** Every status's own name parses back to it, so no two statuses share a name. */
  lemma StatusNameRoundTrip(st: AttendanceStatus)
    ensures StatusNamed(StatusName(st)) == Some(st)
  {
  }

  /** Every method's own name parses back to it. */
  lemma MethodNameRoundTrip(m: AttendanceMethod)
    ensures MethodNamed(MethodName(m)) == Some(m)
  {
  }

  /** Every role's own name parses back to it. */
  lemma RoleNameRoundTrip(role: Role)
    ensures RoleNamed(RoleName(role)) == Some(role)
  {
  }
}
