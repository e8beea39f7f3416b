/**
 * The relational store behind both backends: users, student and faculty
 * profiles and sessions keyed by their primary id, and the attendance-record
 * table whose rows are unique on (sessionId, studentId).
 */
module Store {
  import opened Values
  import opened Entities

  // ---------------------------------------------------------------------------
  // Unique columns

  predicate UniqueEmails(users: map<string, User>) {
    forall a, b :: a in users && b in users && users[a].email == users[b].email ==> a == b
  }

  predicate UniqueStudentUsers(students: map<string, StudentProfile>) {
    forall a, b :: a in students && b in students && students[a].userId == students[b].userId ==> a == b
  }

  predicate UniqueRegNos(students: map<string, StudentProfile>) {
    forall a, b :: a in students && b in students && students[a].regNo == students[b].regNo ==> a == b
  }

  predicate UniqueFacultyUsers(faculty: map<string, FacultyProfile>) {
    forall a, b :: a in faculty && b in faculty && faculty[a].userId == faculty[b].userId ==> a == b
  }

  /**
   * The constraints of the identity tables: rows sit under their own id, every
   * profile belongs to an existing user, a user owns at most one student and
   * at most one faculty profile, and emails and registration numbers are unique.
   */
  predicate Consistent(users: map<string, User>, students: map<string, StudentProfile>,
                       faculty: map<string, FacultyProfile>)
  {
    && (forall id :: id in users ==> users[id].id == id)
    && (forall id :: id in students ==> students[id].id == id && students[id].userId in users)
    && (forall id :: id in faculty ==> faculty[id].id == id && faculty[id].userId in users)
    && UniqueEmails(users)
    && UniqueStudentUsers(students)
    && UniqueRegNos(students)
    && UniqueFacultyUsers(faculty)
  }

  // ---------------------------------------------------------------------------
  // findUnique on a unique column

  /** `user.findUnique({ where: { email } })`. */
  function UserWithEmail(users: map<string, User>, email: string): (r: Option<string>)
    requires UniqueEmails(users)
    ensures r.Some? ==> r.value in users && users[r.value].email == email
    ensures r.None? ==> forall id :: id in users ==> users[id].email != email
  {
    if exists id :: id in users && users[id].email == email then
      var id :| id in users && users[id].email == email;
      Some(id)
    else None
  }

  /** `student.findUnique({ where: { regNo } })`. */
  function StudentWithRegNo(students: map<string, StudentProfile>, regNo: string): (r: Option<string>)
    requires UniqueRegNos(students)
    ensures r.Some? ==> r.value in students && students[r.value].regNo == regNo
    ensures r.None? ==> forall id :: id in students ==> students[id].regNo != regNo
  {
    if exists id :: id in students && students[id].regNo == regNo then
      var id :| id in students && students[id].regNo == regNo;
      Some(id)
    else None
  }

  /** The `student` relation of a user (`include: { student: true }`). */
  function StudentOfUser(students: map<string, StudentProfile>, userId: string): (r: Option<string>)
    requires UniqueStudentUsers(students)
    ensures r.Some? ==> r.value in students && students[r.value].userId == userId
    ensures r.None? ==> forall id :: id in students ==> students[id].userId != userId
  {
    if exists id :: id in students && students[id].userId == userId then
      var id :| id in students && students[id].userId == userId;
      Some(id)
    else None
  }

  /** The `faculty` relation of a user (`include: { faculty: true }`). */
  function FacultyOfUser(faculty: map<string, FacultyProfile>, userId: string): (r: Option<string>)
    requires UniqueFacultyUsers(faculty)
    ensures r.Some? ==> r.value in faculty && faculty[r.value].userId == userId
    ensures r.None? ==> forall id :: id in faculty ==> faculty[id].userId != userId
  {
    if exists id :: id in faculty && faculty[id].userId == userId then
      var id :| id in faculty && faculty[id].userId == userId;
      Some(id)
    else None
  }

  /**
   * `findUnique({ where: { id: userId }, include: { student: true } })`
   * followed by `user?.student`: the caller's student profile, if the user
   * exists and owns one.
   */
  function ProfileOf(users: map<string, User>, students: map<string, StudentProfile>, userId: string)
    : (r: Option<string>)
    requires UniqueStudentUsers(students)
    ensures r.Some? <==> userId in users && exists id :: id in students && students[id].userId == userId
    ensures r.Some? ==> r.value in students && students[r.value].userId == userId
  {
    if userId !in users then None else StudentOfUser(students, userId)
  }

  // ---------------------------------------------------------------------------
  // The attendance-record table

  predicate HasKey(r: AttendanceRecord, sessionId: string, studentId: string) {
    r.sessionId == sessionId && r.studentId == studentId
  }

  /** The `sessionId_studentId` unique constraint: no two rows share the pair. */
  predicate UniquePairs(t: seq<AttendanceRecord>) {
    forall i, j :: 0 <= i < j < |t| ==> !HasKey(t[j], t[i].sessionId, t[i].studentId)
  }

  /** The position of the first row with the given key. */
  function IndexOf(t: seq<AttendanceRecord>, sessionId: string, studentId: string): (r: Option<nat>)
    ensures r.Some? ==> r.value < |t| && HasKey(t[r.value], sessionId, studentId)
    ensures r.Some? ==> forall i :: 0 <= i < r.value ==> !HasKey(t[i], sessionId, studentId)
    ensures r.None? ==> forall i :: 0 <= i < |t| ==> !HasKey(t[i], sessionId, studentId)
  {
    if t == [] then None
    else if HasKey(t[0], sessionId, studentId) then Some(0)
    else match IndexOf(t[1..], sessionId, studentId)
      case None => None
      case Some(j) => Some(j + 1)
  }

  /** Two tables whose rows carry the same key at every position find a key at the same place. */
  lemma {:induction false} IndexOfFollowsKeys(t: seq<AttendanceRecord>, u: seq<AttendanceRecord>, sessionId: string, studentId: string)
    requires |t| == |u|
    requires forall i :: 0 <= i < |t| ==> (HasKey(t[i], sessionId, studentId) <==> HasKey(u[i], sessionId, studentId))
    ensures IndexOf(t, sessionId, studentId) == IndexOf(u, sessionId, studentId)
  {
    if t != [] {
      forall i | 0 <= i < |t[1..]|
        ensures HasKey(t[1..][i], sessionId, studentId) <==> HasKey(u[1..][i], sessionId, studentId)
      {
        assert t[1..][i] == t[i + 1] && u[1..][i] == u[i + 1];
      }
      IndexOfFollowsKeys(t[1..], u[1..], sessionId, studentId);
    }
  }

  /** `attendanceRecord.findUnique({ where: { sessionId_studentId } })`. */
  function Lookup(t: seq<AttendanceRecord>, sessionId: string, studentId: string): (r: Option<AttendanceRecord>)
    ensures r.Some? ==> r.value in t && HasKey(r.value, sessionId, studentId)
    ensures r.None? ==> forall i :: 0 <= i < |t| ==> !HasKey(t[i], sessionId, studentId)
  {
    match IndexOf(t, sessionId, studentId)
    case None => None
    case Some(i) => Some(t[i])
  }

  /** The columns an upsert writes besides the key; `position` is absent when the route does not write coordinates. */
  datatype RecordWrite = RecordWrite(status: AttendanceStatus, markMethod: AttendanceMethod, position: Option<(real, real)>)

  /** The row an upsert creates. */
  function Created(sessionId: string, studentId: string, w: RecordWrite): AttendanceRecord {
    AttendanceRecord(sessionId, studentId, w.status, w.markMethod,
                     if w.position.Some? then Some(w.position.value.0) else None,
                     if w.position.Some? then Some(w.position.value.1) else None)
  }

  /** The row an upsert leaves in place of an existing one: only the written columns change. */
  function Updated(r: AttendanceRecord, w: RecordWrite): AttendanceRecord {
    r.(status := w.status, markMethod := w.markMethod,
       latitude := if w.position.Some? then Some(w.position.value.0) else r.latitude,
       longitude := if w.position.Some? then Some(w.position.value.1) else r.longitude)
  }

  /**
   * `attendanceRecord.upsert` on the compound key: the existing row is
   * updated in place, or a new row is appended. Afterwards exactly one row has
   * the key (the table stays unique), it is the updated or the created row,
   * and the row found under every other key is what it was.
   */
  function Upsert(t: seq<AttendanceRecord>, sessionId: string, studentId: string, w: RecordWrite)
    : (u: seq<AttendanceRecord>)
    ensures UniquePairs(t) ==> UniquePairs(u)
    ensures Lookup(u, sessionId, studentId) ==
            Some(match Lookup(t, sessionId, studentId)
                 case Some(prev) => Updated(prev, w)
                 case None => Created(sessionId, studentId, w))
    ensures forall sid, stu :: !(sid == sessionId && stu == studentId) ==>
              Lookup(u, sid, stu) == Lookup(t, sid, stu)
  {
    match IndexOf(t, sessionId, studentId)
    case Some(i) =>
      var u := t[i := Updated(t[i], w)];
      assert UniquePairs(t) ==> UniquePairs(u) by {
        if UniquePairs(t) {
          forall a, b | 0 <= a < b < |u| ensures !HasKey(u[b], u[a].sessionId, u[a].studentId) {
            assert HasKey(u[a], t[a].sessionId, t[a].studentId);
            assert HasKey(u[b], t[b].sessionId, t[b].studentId);
          }
        }
      }
      IndexOfFollowsKeys(t, u, sessionId, studentId);
      forall sid, stu | !(sid == sessionId && stu == studentId)
        ensures Lookup(u, sid, stu) == Lookup(t, sid, stu)
      {
        IndexOfFollowsKeys(t, u, sid, stu);
      }
      u
    case None =>
      var c := Created(sessionId, studentId, w);
      var u := t + [c];
      IndexOfAppend(t, c, sessionId, studentId);
      forall sid, stu | !(sid == sessionId && stu == studentId)
        ensures Lookup(u, sid, stu) == Lookup(t, sid, stu)
      {
        IndexOfAppend(t, c, sid, stu);
      }
      u
  }

  /** Appending a row changes the first match of a key only when the key was absent and the new row has it. */
  lemma {:induction false} IndexOfAppend(t: seq<AttendanceRecord>, c: AttendanceRecord, sessionId: string, studentId: string)
    ensures IndexOf(t + [c], sessionId, studentId) ==
            match IndexOf(t, sessionId, studentId)
            case Some(i) => Some(i)
            case None => if HasKey(c, sessionId, studentId) then Some(|t|) else None
  {
    if t != [] {
      assert (t + [c])[1..] == t[1..] + [c];
      IndexOfAppend(t[1..], c, sessionId, studentId);
    }
  }

  // ---------------------------------------------------------------------------
  // The store

  class Db {
    var users: map<string, User>
    var students: map<string, StudentProfile>
    var faculty: map<string, FacultyProfile>
    var sessions: map<string, Session>
    var records: seq<AttendanceRecord>
    /** The schema's default for a new session's status column. */
    const defaultStatus: string

    ghost predicate Valid()
      reads this
    {
      && Consistent(users, students, faculty)
      && (forall id :: id in sessions ==> sessions[id].id == id)
      && UniquePairs(records)
    }

    constructor (defaultStatus: string)
      ensures Valid()
      ensures this.defaultStatus == defaultStatus
      ensures users == map[] && students == map[] && faculty == map[] && sessions == map[] && records == []
    {
      this.defaultStatus := defaultStatus;
      users, students, faculty, sessions, records := map[], map[], map[], map[], [];
    }
  }
}
