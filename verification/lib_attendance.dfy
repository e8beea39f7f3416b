/**
 * The attendance routes of lib/backend: session creation with a default
 * geofence radius, the per-session PIN table kept in process memory, and
 * attendance marking — a fixed sequence of checks (student profile, session
 * exists, session OPEN, geofence) followed by one upsert keyed by
 * (sessionId, studentId). The Haversine distance is the parameter `distance`.
 */
module LibAttendance {
  import opened Values
  import opened Entities
  import opened Store
  import opened Schemas
  import JsString

  // ---------------------------------------------------------------------------
  // POST /sessions

  /** A validated session-creation body. */
  datatype NewSession = NewSession(
    core: SessionCore, location: Option<string>,
    latitude: Option<real>, longitude: Option<real>, radius: Option<real>)

  /** The session schema: the shared fields plus an optional location, latitude, longitude and radius. */
  function ParseSession(body: Json): (r: Option<NewSession>)
    ensures r.Some? <==>
              && ParseSessionCore(body).Some?
              && OptionalString(Field(body, "location")).Some?
              && OptionalNumber(Field(body, "latitude")).Some?
              && OptionalNumber(Field(body, "longitude")).Some?
              && OptionalNumber(Field(body, "radius")).Some?
    ensures r.Some? ==> r.value.core == ParseSessionCore(body).value && 1 <= r.value.core.periodNo <= 10
    ensures r.Some? ==>
              && r.value.location == OptionalString(Field(body, "location")).value
              && r.value.latitude == OptionalNumber(Field(body, "latitude")).value
              && r.value.longitude == OptionalNumber(Field(body, "longitude")).value
              && r.value.radius == OptionalNumber(Field(body, "radius")).value
  {
    var core := ParseSessionCore(body);
    var location := OptionalString(Field(body, "location"));
    var lat, lon := OptionalNumber(Field(body, "latitude")), OptionalNumber(Field(body, "longitude"));
    var radius := OptionalNumber(Field(body, "radius"));
    if core.Some? && location.Some? && lat.Some? && lon.Some? && radius.Some? then
      Some(NewSession(core.value, location.value, lat.value, lon.value, radius.value))
    else None
  }

  const DefaultRadius: real := 100.0

  /** `data.radius || 100`: an omitted or zero radius becomes 100 metres; any other value is kept. */
  function RadiusOrDefault(radius: Option<real>): (r: real)
    ensures radius.None? || radius.value == 0.0 ==> r == DefaultRadius
    ensures radius.Some? && radius.value != 0.0 ==> r == radius.value
  {
    if radius.Some? && radius.value != 0.0 then radius.value else DefaultRadius
  }

  /**
   * POST /sessions. `id` is the key the store assigns; if it is already taken
   * the insert fails (500) and nothing is written. A created session has the
   * submitted fields, the default status, and radius 100 when none or 0 was given.
   */
  method CreateSession(db: Db, body: Json, id: string) returns (o: CreateOutcome)
    requires db.Valid()
    modifies db
    ensures db.Valid()
    ensures o.SessionInvalid? <==> ParseSession(body).None?
    ensures o.StoreFailed? <==> ParseSession(body).Some? && id in old(db.sessions)
    ensures o.SessionCreated? ==>
              var data := ParseSession(body).value;
              && o.session == Session(id, data.core.classId, data.core.date, data.core.periodNo,
                                      data.core.startTime, data.core.endTime, data.location,
                                      data.latitude, data.longitude, Some(RadiusOrDefault(data.radius)),
                                      db.defaultStatus)
              && 1 <= o.session.periodNo <= 10
    ensures db.sessions == if o.SessionCreated? then old(db.sessions)[id := o.session] else old(db.sessions)
    ensures db.users == old(db.users) && db.students == old(db.students) && db.faculty == old(db.faculty)
    ensures db.records == old(db.records)
  {
    var parsed := ParseSession(body);
    if parsed.None? {
      return SessionInvalid;
    }
    var data := parsed.value;
    if id in db.sessions {
      return StoreFailed;
    }
    var created := Session(id, data.core.classId, data.core.date, data.core.periodNo,
                           data.core.startTime, data.core.endTime, data.location,
                           data.latitude, data.longitude, Some(RadiusOrDefault(data.radius)),
                           db.defaultStatus);
    db.sessions := db.sessions[id := created];
    o := SessionCreated(created);
  }

  // ---------------------------------------------------------------------------
  // POST /sessions/:id/generate-pin and GET /sessions/:id/pin

  /** `Math.floor(1000 + Math.random() * 9000)` for a draw in [0, 1): always 1000..9999. */
  function PinDraw(random: real): (n: int)
    requires 0.0 <= random < 1.0
    ensures 1000 <= n <= 9999
  {
    (1000.0 + random * 9000.0).Floor
  }

  /** A stored PIN: four decimal digits whose value is 1000..9999. */
  predicate IsPin(p: string) {
    && |p| == 4
    && (forall i :: 0 <= i < |p| ==> JsString.IsDigit(p[i]))
    && 1000 <= JsString.DigitsValue(p) <= 9999
  }

  datatype PinOutcome = Issued(sessionId: string, pin: string) | SessionMissing | NotOpen | PinMissing

  function PinStatusCode(o: PinOutcome): (code: int)
    ensures code == 200 <==> o.Issued?
    ensures code == 400 <==> o.NotOpen?
    ensures code == 404 <==> o.SessionMissing? || o.PinMissing?
  {
    match o
    case Issued(_, _) => 200
    case NotOpen => 400
    case _ => 404
  }

  /** The module-level `sessionPins` map. */
  class PinTable {
    var pins: map<string, string>

    ghost predicate Valid()
      reads this
    {
      forall id :: id in pins ==> IsPin(pins[id])
    }

    constructor ()
      ensures Valid() && pins == map[]
    {
      pins := map[];
    }

    /** GET /sessions/:id/pin: the last PIN stored for the session, always four digits, or 404 when there is none (or it is empty). */
    function Current(sessionId: string): (o: PinOutcome)
      reads this
      requires Valid()
      ensures o.Issued? <==> sessionId in pins && pins[sessionId] != ""
      ensures o.Issued? ==> IsPin(o.pin)
      ensures o.Issued? ==> o == Issued(sessionId, pins[sessionId])
      ensures !o.Issued? ==> o == PinMissing
    {
      if sessionId in pins && pins[sessionId] != "" then Issued(sessionId, pins[sessionId]) else PinMissing
    }

    /**
     * POST /sessions/:id/generate-pin. `random` is the value Math.random drew.
     * A missing session gives 404 and a session that is not OPEN gives 400,
     * neither touching the table; otherwise a fresh 4-digit PIN replaces the
     * session's earlier one, no other session's PIN changes, and reading the
     * PIN back returns it.
     */
    method Generate(db: Db, sessionId: string, random: real) returns (o: PinOutcome)
      requires Valid()
      requires 0.0 <= random < 1.0
      modifies this
      ensures Valid()
      ensures o.SessionMissing? <==> sessionId !in db.sessions
      ensures o.NotOpen? <==> sessionId in db.sessions && db.sessions[sessionId].status != "OPEN"
      ensures o.Issued? <==> sessionId in db.sessions && db.sessions[sessionId].status == "OPEN"
      ensures o.Issued? ==> o == Issued(sessionId, JsString.DecimalString(PinDraw(random))) && IsPin(o.pin)
      ensures pins == if o.Issued? then old(pins)[sessionId := o.pin] else old(pins)
      ensures o.Issued? ==> Current(sessionId) == o
    {
      if sessionId !in db.sessions {
        return SessionMissing;
      }
      if db.sessions[sessionId].status != "OPEN" {
        return NotOpen;
      }
      var n := PinDraw(random);
      var pin := JsString.DecimalString(n);
      JsString.FourDigits(n);
      pins := pins[sessionId := pin];
      o := Issued(sessionId, pin);
    }
  }

  // ---------------------------------------------------------------------------
  // POST /mark

  /** A validated mark body; latitude and longitude are required here. */
  datatype MarkRequest = MarkRequest(
    sessionId: string, status: AttendanceStatus, markMethod: AttendanceMethod,
    latitude: real, longitude: real)

  /** The mark schema: a session id, status and method (defaulting to PRESENT and MANUAL) and two numbers. */
  function ParseMark(body: Json): (r: Option<MarkRequest>)
    ensures r.Some? <==>
              && body.Obj? && Field(body, "sessionId").Str?
              && StatusOrDefault(Field(body, "status")).Some?
              && MethodOrDefault(Field(body, "method")).Some?
              && Field(body, "latitude").Num? && Field(body, "longitude").Num?
    ensures r.Some? ==>
              && r.value.sessionId == Field(body, "sessionId").s
              && r.value.status == StatusOrDefault(Field(body, "status")).value
              && r.value.markMethod == MethodOrDefault(Field(body, "method")).value
              && r.value.latitude == Field(body, "latitude").x
              && r.value.longitude == Field(body, "longitude").x
  {
    var sid, status, via := Field(body, "sessionId"), StatusOrDefault(Field(body, "status")), MethodOrDefault(Field(body, "method"));
    var lat, lon := Field(body, "latitude"), Field(body, "longitude");
    if body.Obj? && sid.Str? && status.Some? && via.Some? && lat.Num? && lon.Num? then
      Some(MarkRequest(sid.s, status.value, via.value, lat.x, lon.x))
    else None
  }

  /** The Haversine distance in metres between (lat1, lon1) and (lat2, lon2). */
  type Distance = (real, real, real, real) -> real

  /** `session.latitude && session.longitude && session.radius`: the geofence applies only when all three are non-zero. */
  predicate GeofenceOn(s: Session) {
    TruthyNum(s.latitude) && TruthyNum(s.longitude) && TruthyNum(s.radius)
  }

  datatype Rejection = Invalid | NoProfile | NoSession | Closed | OutOfRange(distance: real, allowed: real)

  /** The result of the checks: write the record, or reject. */
  datatype Verdict = Accept(sessionId: string, studentId: string, write: RecordWrite) | Reject(why: Rejection)

  datatype MarkOutcome = Marked(record: AttendanceRecord) | Rejected(why: Rejection)

  function MarkStatusCode(o: MarkOutcome): (code: int)
    ensures code == 200 <==> o.Marked?
    ensures code == 404 <==> o.Rejected? && (o.why.NoProfile? || o.why.NoSession?)
    ensures code == 400 <==> o.Rejected? && (o.why.Invalid? || o.why.Closed? || o.why.OutOfRange?)
  {
    match o
    case Marked(_) => 200
    case Rejected(why) => if why.NoProfile? || why.NoSession? then 404 else 400
  }

  /** The distance the geofence compares: from the submitted point to the session's centre. */
  function DistanceToCentre(req: MarkRequest, s: Session, distance: Distance): real
    requires GeofenceOn(s)
  {
    distance(req.latitude, req.longitude, s.latitude.value, s.longitude.value)
  }

  /**
   * The checks of POST /mark in their order: a malformed body (400), no
   * student profile for the caller (404), no such session (404), a session
   * whose status is not "OPEN" (400), and, only when the session has a
   * geofence, a distance strictly greater than the radius (400). Otherwise the
   * caller's record for the session is written with the submitted status,
   * method and position.
   */
  function Check(users: map<string, User>, students: map<string, StudentProfile>, sessions: map<string, Session>,
                 userId: string, body: Json, distance: Distance): (v: Verdict)
    requires UniqueStudentUsers(students)
    ensures v == Reject(Invalid) <==> ParseMark(body).None?
    ensures v == Reject(NoProfile) <==> ParseMark(body).Some? && ProfileOf(users, students, userId).None?
    ensures v == Reject(NoSession) <==>
              ParseMark(body).Some? && ProfileOf(users, students, userId).Some?
              && ParseMark(body).value.sessionId !in sessions
    ensures v == Reject(Closed) <==>
              ParseMark(body).Some? && ProfileOf(users, students, userId).Some?
              && ParseMark(body).value.sessionId in sessions
              && sessions[ParseMark(body).value.sessionId].status != "OPEN"
    ensures v.Reject? && v.why.OutOfRange? <==>
              ParseMark(body).Some? && ProfileOf(users, students, userId).Some?
              && ParseMark(body).value.sessionId in sessions
              && sessions[ParseMark(body).value.sessionId].status == "OPEN"
              && GeofenceOn(sessions[ParseMark(body).value.sessionId])
              && DistanceToCentre(ParseMark(body).value, sessions[ParseMark(body).value.sessionId], distance)
                 > sessions[ParseMark(body).value.sessionId].radius.value
    ensures v.Accept? ==>
              var req := ParseMark(body).value;
              && v.sessionId == req.sessionId && req.sessionId in sessions
              && sessions[req.sessionId].status == "OPEN"
              && Some(v.studentId) == ProfileOf(users, students, userId)
              && v.write == RecordWrite(req.status, req.markMethod, Some((req.latitude, req.longitude)))
  {
    match ParseMark(body)
    case None => Reject(Invalid)
    case Some(req) =>
      match ProfileOf(users, students, userId)
      case None => Reject(NoProfile)
      case Some(studentId) =>
        if req.sessionId !in sessions then Reject(NoSession)
        else
          var s := sessions[req.sessionId];
          if s.status != "OPEN" then Reject(Closed)
          else if GeofenceOn(s) && DistanceToCentre(req, s, distance) > s.radius.value then
            Reject(OutOfRange(DistanceToCentre(req, s, distance), s.radius.value))
          else Accept(req.sessionId, studentId, RecordWrite(req.status, req.markMethod, Some((req.latitude, req.longitude))))
  }

  /** A session that is not OPEN rejects as closed whatever the submitted position and whatever the distance oracle says. */
  lemma ClosedWhateverPosition(users: map<string, User>, students: map<string, StudentProfile>,
                               sessions: map<string, Session>, userId: string,
                               sessionId: string, status: Json, via: Json, lat: real, lon: real, distance: Distance)
    requires UniqueStudentUsers(students)
    requires ProfileOf(users, students, userId).Some?
    requires StatusOrDefault(status).Some? && MethodOrDefault(via).Some?
    requires sessionId in sessions && sessions[sessionId].status != "OPEN"
    ensures Check(users, students, sessions, userId, MarkBody(sessionId, status, via, lat, lon), distance) == Reject(Closed)
  {
    var body := MarkBody(sessionId, status, via, lat, lon);
    assert Field(body, "sessionId") == Str(sessionId);
    assert Field(body, "latitude") == Num(lat) && Field(body, "longitude") == Num(lon);
    assert Field(body, "status") == status && Field(body, "method") == via;
  }

  /** The JSON body of a mark request. */
  function MarkBody(sessionId: string, status: Json, via: Json, lat: real, lon: real): Json {
    Obj(map["sessionId" := Str(sessionId), "status" := status, "method" := via,
            "latitude" := Num(lat), "longitude" := Num(lon)])
  }

  /** A session centred on latitude 0 or longitude 0 has no geofence: marking it is never out of range. */
  lemma ZeroCentreSkipsGeofence(users: map<string, User>, students: map<string, StudentProfile>,
                                sessions: map<string, Session>, userId: string, body: Json, distance: Distance)
    requires UniqueStudentUsers(students)
    requires ParseMark(body).Some? && ParseMark(body).value.sessionId in sessions
    requires var s := sessions[ParseMark(body).value.sessionId];
             s.latitude == Some(0.0) || s.longitude == Some(0.0)
    ensures !(Check(users, students, sessions, userId, body, distance).Reject?
              && Check(users, students, sessions, userId, body, distance).why.OutOfRange?)
  {
  }

  /** A point exactly on the boundary is accepted: only a distance strictly beyond the radius rejects. */
  lemma BoundaryAccepted(users: map<string, User>, students: map<string, StudentProfile>,
                         sessions: map<string, Session>, userId: string, body: Json, distance: Distance)
    requires UniqueStudentUsers(students)
    requires ParseMark(body).Some? && ProfileOf(users, students, userId).Some?
    requires ParseMark(body).value.sessionId in sessions
    requires var s := sessions[ParseMark(body).value.sessionId];
             s.status == "OPEN" && GeofenceOn(s) && DistanceToCentre(ParseMark(body).value, s, distance) == s.radius.value
    ensures Check(users, students, sessions, userId, body, distance).Accept?
  {
  }

  /** When the route writes a position, the upsert's update and create give the same row. */
  lemma FullWriteOverwrites(r: AttendanceRecord, w: RecordWrite)
    requires w.position.Some?
    ensures Updated(r, w) == Created(r.sessionId, r.studentId, w)
  {
  }

  /**
   * Marking the same (session, student) twice leaves one record equal to the
   * second submission: status, method and position of the first are gone.
   */
  lemma LastWriteWins(t: seq<AttendanceRecord>, sessionId: string, studentId: string, w1: RecordWrite, w2: RecordWrite)
    requires UniquePairs(t)
    requires w1.position.Some? && w2.position.Some?
    ensures var u := Upsert(Upsert(t, sessionId, studentId, w1), sessionId, studentId, w2);
            && UniquePairs(u)
            && Lookup(u, sessionId, studentId) == Some(Created(sessionId, studentId, w2))
            && forall sid, stu :: !(sid == sessionId && stu == studentId) ==> Lookup(u, sid, stu) == Lookup(t, sid, stu)
  {
    var u1 := Upsert(t, sessionId, studentId, w1);
    var prev := Lookup(u1, sessionId, studentId).value;
    assert HasKey(prev, sessionId, studentId);
    FullWriteOverwrites(prev, w2);
  }

  /**
   * POST /mark. Only when the checks accept is the table written: exactly one
   * row then has the (session, student) key, holding the submitted status,
   * method and position, and the row under every other key is unchanged. A
   * rejection writes nothing.
   */
  method Mark(db: Db, userId: string, body: Json, distance: Distance) returns (o: MarkOutcome)
    requires db.Valid()
    modifies db
    ensures db.Valid()
    ensures db.users == old(db.users) && db.students == old(db.students) && db.faculty == old(db.faculty)
    ensures db.sessions == old(db.sessions)
    ensures match Check(old(db.users), old(db.students), old(db.sessions), userId, body, distance)
            case Reject(why) => o == Rejected(why) && db.records == old(db.records)
            case Accept(sid, stu, w) =>
              && db.records == Upsert(old(db.records), sid, stu, w)
              && o == Marked(Created(sid, stu, w))
              && Lookup(db.records, sid, stu) == Some(o.record)
  {
    var parsed := ParseMark(body);
    if parsed.None? {
      return Rejected(Invalid);
    }
    var req := parsed.value;
    var student := ProfileOf(db.users, db.students, userId);
    if student.None? {
      return Rejected(NoProfile);
    }
    if req.sessionId !in db.sessions {
      return Rejected(NoSession);
    }
    var session := db.sessions[req.sessionId];
    if session.status != "OPEN" {
      return Rejected(Closed);
    }
    if GeofenceOn(session) {
      var d := distance(req.latitude, req.longitude, session.latitude.value, session.longitude.value);
      if d > session.radius.value {
        return Rejected(OutOfRange(d, session.radius.value));
      }
    }
    var w := RecordWrite(req.status, req.markMethod, Some((req.latitude, req.longitude)));
    var before := db.records;
    db.records := Upsert(db.records, req.sessionId, student.value, w);
    var row := Lookup(db.records, req.sessionId, student.value).value;
    if prev :| Lookup(before, req.sessionId, student.value) == Some(prev) {
      FullWriteOverwrites(prev, w);
    }
    o := Marked(row);
  }
}
