/**
 * The student routes of sih_app/lib/backend: an update schema that only
 * requires a supplied name to be non-empty and takes year, branch and
 * section as they come, and PUT /me over it. GET /me is `Profiles.Me`.
 */
module AppStudents {
  import opened Values
  import opened JsString
  import opened Store
  import opened Profiles
  import opened Schemas

  /** `z.string().min(1).optional()`. */
  function OptionalName(v: Json): (r: Option<Option<string>>)
    ensures r == Some(None) <==> v.Undefined?
    ensures r.Some? && r.value.Some? <==> v.Str? && v.s != ""
    ensures r.Some? && r.value.Some? ==> r.value.value == v.s
  {
    match v
    case Undefined => Some(None)
    case Str(s) => if Utf16Length(s) >= 1 then Some(Some(s)) else None
    case _ => None
  }

  /** `updateSchema`: each of the four fields absent or a string, and a supplied name non-empty; values are kept verbatim. */
  function ParseUpdate(body: Json): (r: Option<ProfileUpdate>)
    ensures r.Some? <==>
              && body.Obj?
              && (Field(body, "name").Undefined? || (Field(body, "name").Str? && Field(body, "name").s != ""))
              && (Field(body, "year").Undefined? || Field(body, "year").Str?)
              && (Field(body, "branch").Undefined? || Field(body, "branch").Str?)
              && (Field(body, "section").Undefined? || Field(body, "section").Str?)
    ensures r.Some? ==>
              && r.value.name == (if Field(body, "name").Str? then Some(Field(body, "name").s) else None)
              && r.value.year == (if Field(body, "year").Str? then Some(Field(body, "year").s) else None)
              && r.value.branch == (if Field(body, "branch").Str? then Some(Field(body, "branch").s) else None)
              && r.value.section == (if Field(body, "section").Str? then Some(Field(body, "section").s) else None)
  {
    var name := OptionalName(Field(body, "name"));
    var year, branch, section := OptionalString(Field(body, "year")), OptionalString(Field(body, "branch")),
                                 OptionalString(Field(body, "section"));
    if body.Obj? && name.Some? && year.Some? && branch.Some? && section.Some? then
      Some(ProfileUpdate(name.value, year.value, branch.value, section.value))
    else None
  }

  /** An empty name is rejected, whatever else the body holds. */
  lemma EmptyNameRejected(body: Json)
    requires Field(body, "name") == Str("")
    ensures ParseUpdate(body).None?
  {
  }

  /**
   * Unlike lib/backend, nothing is trimmed: a name made only of white space
   * is accepted and stored as is, however many characters it has.
   */
  lemma {:induction false} BlankNameStoredVerbatim(name: string)
    requires name != "" && forall i :: 0 <= i < |name| ==> IsWhiteSpace(name[i])
    ensures ParseUpdate(Obj(map["name" := Str(name)])) == Some(ProfileUpdate(Some(name), None, None, None))
  {
    var body := Obj(map["name" := Str(name)]);
    assert Field(body, "year") == Undefined && Field(body, "branch") == Undefined && Field(body, "section") == Undefined;
  }

  /**
   * PUT /me: 400 and no change when the schema rejects the body, checked
   * before the profile lookup; 404 and no change when the caller has no
   * student profile; otherwise only the supplied columns of the caller's row
   * take the supplied values, and every other row is untouched.
   */
  method PutMe(db: Db, userId: string, body: Json) returns (o: PutOutcome)
    requires db.Valid()
    modifies db
    ensures db.Valid()
    ensures db.users == old(db.users) && db.faculty == old(db.faculty)
    ensures db.sessions == old(db.sessions) && db.records == old(db.records)
    ensures o.Invalid? <==> ParseUpdate(body).None?
    ensures o.NoProfile? <==> ParseUpdate(body).Some? && ProfileOf(db.users, old(db.students), userId).None?
    ensures !o.Updated? ==> db.students == old(db.students)
    ensures o.Updated? ==>
              var id := ProfileOf(db.users, old(db.students), userId).value;
              && db.students == old(db.students)[id := o.profile]
              && o.profile == Apply(old(db.students)[id], ParseUpdate(body).value)
              && (forall other :: other in db.students && other != id ==> db.students[other] == old(db.students)[other])
  {
    o := UpdateProfile(db, userId, ParseUpdate(body));
  }
}
