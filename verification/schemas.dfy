/**
 * The Zod schema pieces both backends' attendance routes share: the required
 * session fields with the period-number range, optional strings and numbers,
 * and the attendance status and method enumerations with their defaults.
 */
module Schemas {
  import opened Values
  import opened Entities

  /** `z.number().int().min(1).max(10)`: an integral JSON number from 1 to 10. */
  function PeriodNo(v: Json): (r: Option<int>)
    ensures r.Some? <==> v.Num? && v.x.Floor as real == v.x && 1.0 <= v.x <= 10.0
    ensures r.Some? ==> r.value as real == v.x && 1 <= r.value <= 10
  {
    if v.Num? && v.x.Floor as real == v.x && 1.0 <= v.x <= 10.0 then Some(v.x.Floor) else None
  }

  /** A number that is not an integer, or lies outside 1..10, is not a period number. */
  lemma PeriodNoOutOfRange(x: real)
    requires x.Floor as real != x || x < 1.0 || x > 10.0
    ensures PeriodNo(Num(x)).None?
  {
  }

  /** `z.string().optional()`: `Some(None)` for an absent field, `None` for a malformed one. */
  function OptionalString(v: Json): Option<Option<string>> {
    match v
    case Undefined => Some(None)
    case Str(s) => Some(Some(s))
    case _ => None
  }

  /** `z.number().optional()`. */
  function OptionalNumber(v: Json): Option<Option<real>> {
    match v
    case Undefined => Some(None)
    case Num(x) => Some(Some(x))
    case _ => None
  }

  /** The fields every session-creation body carries. */
  datatype SessionCore = SessionCore(classId: string, date: string, periodNo: int, startTime: string, endTime: string)

  /** The answer of POST /sessions in either backend: the created row, 400 for a bad body, or 500 when the insert fails. */
  datatype CreateOutcome = SessionCreated(session: Session) | SessionInvalid | StoreFailed

  /** `{ classId, date, periodNo, startTime, endTime }` of the session schema. */
  function ParseSessionCore(body: Json): (r: Option<SessionCore>)
    ensures r.Some? <==>
              && body.Obj?
              && Field(body, "classId").Str? && Field(body, "date").Str?
              && PeriodNo(Field(body, "periodNo")).Some?
              && Field(body, "startTime").Str? && Field(body, "endTime").Str?
    ensures r.Some? ==>
              && r.value.classId == Field(body, "classId").s
              && r.value.date == Field(body, "date").s
              && r.value.periodNo as real == Field(body, "periodNo").x
              && 1 <= r.value.periodNo <= 10
              && r.value.startTime == Field(body, "startTime").s
              && r.value.endTime == Field(body, "endTime").s
  {
    var classId, date, period := Field(body, "classId"), Field(body, "date"), PeriodNo(Field(body, "periodNo"));
    var start, end := Field(body, "startTime"), Field(body, "endTime");
    if body.Obj? && classId.Str? && date.Str? && period.Some? && start.Str? && end.Str? then
      Some(SessionCore(classId.s, date.s, period.value, start.s, end.s))
    else None
  }

  /** `z.enum(["PRESENT", "ABSENT", "LATE", "EXCUSED"]).default("PRESENT")`. */
  function StatusOrDefault(v: Json): (r: Option<AttendanceStatus>)
    ensures v.Undefined? ==> r == Some(Present)
    ensures !v.Undefined? ==> (r.Some? <==> v.Str? && v.s in {"PRESENT", "ABSENT", "LATE", "EXCUSED"})
    ensures v.Str? && r.Some? ==> r == StatusNamed(v.s)
  {
    match v
    case Undefined => Some(Present)
    case Str(s) => StatusNamed(s)
    case _ => None
  }

  /** `z.enum(["FACE", "BIOMETRIC", "MANUAL"]).default("MANUAL")`. */
  function MethodOrDefault(v: Json): (r: Option<AttendanceMethod>)
    ensures v.Undefined? ==> r == Some(Manual)
    ensures !v.Undefined? ==> (r.Some? <==> v.Str? && v.s in {"FACE", "BIOMETRIC", "MANUAL"})
    ensures v.Str? && r.Some? ==> r == MethodNamed(v.s)
  {
    match v
    case Undefined => Some(Manual)
    case Str(s) => MethodNamed(s)
    case _ => None
  }
}
