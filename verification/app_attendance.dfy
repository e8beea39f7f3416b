/**
 * The attendance routes of sih_app/lib/backend: session creation from the
 * five required fields only, and an unguarded mark that checks the caller's
 * student profile and then upserts status and method for any session id.
 */
module AppAttendance {
  import opened Values
  import opened Entities
  import opened Store
  import opened Schemas

  /**
   * POST /sessions. A body whose period number is not an integer in 1..10 (or
   * with any other required field malformed) is rejected with nothing created;
   * otherwise the session holds exactly classId, date, periodNo, startTime and
   * endTime, with no location, no geofence and the default status. `id` is the
   * key the store assigns; a clash fails the insert.
   */
  method CreateSession(db: Db, body: Json, id: string) returns (o: CreateOutcome)
    requires db.Valid()
    modifies db
    ensures db.Valid()
    ensures o.SessionInvalid? <==> ParseSessionCore(body).None?
    ensures o.StoreFailed? <==> ParseSessionCore(body).Some? && id in old(db.sessions)
    ensures o.SessionCreated? ==>
              var c := ParseSessionCore(body).value;
              o.session == Session(id, c.classId, c.date, c.periodNo, c.startTime, c.endTime,
                                   None, None, None, None, db.defaultStatus)
    ensures db.sessions == if o.SessionCreated? then old(db.sessions)[id := o.session] else old(db.sessions)
    ensures db.users == old(db.users) && db.students == old(db.students) && db.faculty == old(db.faculty)
    ensures db.records == old(db.records)
  {
    var parsed := ParseSessionCore(body);
    if parsed.None? {
      return SessionInvalid;
    }
    if id in db.sessions {
      return StoreFailed;
    }
    var c := parsed.value;
    var created := Session(id, c.classId, c.date, c.periodNo, c.startTime, c.endTime,
                           None, None, None, None, db.defaultStatus);
    db.sessions := db.sessions[id := created];
    o := SessionCreated(created);
  }

  /** A validated mark body: a session id, and status and method with their defaults. */
  datatype MarkRequest = MarkRequest(sessionId: string, status: AttendanceStatus, markMethod: AttendanceMethod)

  /** The mark schema; only the four status and three method names (or their absence) are accepted. */
  function ParseMark(body: Json): (r: Option<MarkRequest>)
    ensures r.Some? <==>
              && body.Obj? && Field(body, "sessionId").Str?
              && StatusOrDefault(Field(body, "status")).Some?
              && MethodOrDefault(Field(body, "method")).Some?
    ensures r.Some? ==>
              && r.value.sessionId == Field(body, "sessionId").s
              && r.value.status == StatusOrDefault(Field(body, "status")).value
              && r.value.markMethod == MethodOrDefault(Field(body, "method")).value
  {
    var sid, status, via := Field(body, "sessionId"), StatusOrDefault(Field(body, "status")), MethodOrDefault(Field(body, "method"));
    if body.Obj? && sid.Str? && status.Some? && via.Some? then
      Some(MarkRequest(sid.s, status.value, via.value))
    else None
  }

  /** An omitted status and method default to PRESENT and MANUAL. */
  lemma DefaultsApplied(sessionId: string)
    ensures ParseMark(Obj(map["sessionId" := Str(sessionId)])) == Some(MarkRequest(sessionId, Present, Manual))
  {
    var body := Obj(map["sessionId" := Str(sessionId)]);
    assert Field(body, "status") == Undefined && Field(body, "method") == Undefined;
  }

  datatype MarkOutcome = Marked(record: AttendanceRecord) | Invalid | NoProfile

  function MarkStatusCode(o: MarkOutcome): (code: int)
    ensures code == 200 <==> o.Marked?
    ensures code == 400 <==> o.Invalid?
    ensures code == 404 <==> o.NoProfile?
  {
    match o
    case Marked(_) => 200
    case Invalid => 400
    case NoProfile => 404
  }

  /** The write of one mark: status and method only, no position. */
  function MarkWrite(req: MarkRequest): (w: RecordWrite)
    ensures w.status == req.status && w.markMethod == req.markMethod && w.position.None?
  {
    RecordWrite(req.status, req.markMethod, None)
  }

  /**
   * Re-marking overwrites only status and method: the row keeps its key and
   * whatever position it had; a first mark creates a row with exactly the key,
   * status and method and no position.
   */
  lemma RemarkKeepsPosition(t: seq<AttendanceRecord>, sessionId: string, studentId: string, req: MarkRequest)
    requires UniquePairs(t)
    ensures var u := Upsert(t, sessionId, studentId, MarkWrite(req));
            Lookup(u, sessionId, studentId) ==
              Some(match Lookup(t, sessionId, studentId)
                   case Some(prev) => prev.(status := req.status, markMethod := req.markMethod)
                   case None => AttendanceRecord(sessionId, studentId, req.status, req.markMethod, None, None))
  {
  }

  /**
   * The rows produced by a sequence of marks, applied to the table in order;
   * each mark is a (sessionId, studentId, request) the checks accepted.
   */
  function MarkAll(t: seq<AttendanceRecord>, marks: seq<(string, string, MarkRequest)>): seq<AttendanceRecord>
    decreases |marks|
  {
    if marks == [] then t
    else MarkAll(Upsert(t, marks[0].0, marks[0].1, MarkWrite(marks[0].2)), marks[1..])
  }

  /** After any sequence of marks there is still at most one row per (sessionId, studentId). */
  lemma {:induction false} MarksKeepPairsUnique(t: seq<AttendanceRecord>, marks: seq<(string, string, MarkRequest)>)
    requires UniquePairs(t)
    ensures UniquePairs(MarkAll(t, marks))
    decreases |marks|
  {
    if marks != [] {
      MarksKeepPairsUnique(Upsert(t, marks[0].0, marks[0].1, MarkWrite(marks[0].2)), marks[1..]);
    }
  }

  /**
   * POST /mark. A malformed body gives 400 and a caller without a student
   * profile 404, neither writing anything. Otherwise the session id is not
   * checked at all: the caller's row for it is upserted, whether or not such
   * a session exists or is open, and every other row stays as it was.
   */
  method Mark(db: Db, userId: string, body: Json) returns (o: MarkOutcome)
    requires db.Valid()
    modifies db
    ensures db.Valid()
    ensures db.users == old(db.users) && db.students == old(db.students) && db.faculty == old(db.faculty)
    ensures db.sessions == old(db.sessions)
    ensures o.Invalid? <==> ParseMark(body).None?
    ensures o.NoProfile? <==> ParseMark(body).Some? && ProfileOf(db.users, db.students, userId).None?
    ensures o.Marked? <==> ParseMark(body).Some? && ProfileOf(db.users, db.students, userId).Some?
    ensures !o.Marked? ==> db.records == old(db.records)
    ensures o.Marked? ==>
              var req := ParseMark(body).value;
              var student := ProfileOf(db.users, db.students, userId).value;
              && db.records == Upsert(old(db.records), req.sessionId, student, MarkWrite(req))
              && Lookup(db.records, req.sessionId, student) == Some(o.record)
              && HasKey(o.record, req.sessionId, student)
              && o.record.status == req.status && o.record.markMethod == req.markMethod
  {
    var parsed := ParseMark(body);
    if parsed.None? {
      return Invalid;
    }
    var req := parsed.value;
    var student := ProfileOf(db.users, db.students, userId);
    if student.None? {
      return NoProfile;
    }
    db.records := Upsert(db.records, req.sessionId, student.value, MarkWrite(req));
    o := Marked(Lookup(db.records, req.sessionId, student.value).value);
  }
}
