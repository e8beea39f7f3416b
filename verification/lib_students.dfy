/**
 * The student routes of lib/backend: the update schema, whose name, year,
 * branch and section rules each trim a supplied string and check it, and
 * PUT /me, which stores the trimmed values. GET /me is `Profiles.Me`.
 */
module LibStudents {
  import opened Values
  import opened JsString
  import opened TextFields
  import opened Store
  import opened Profiles

  /** `rule.optional()`: an absent field passes and supplies nothing; a present one must pass the rule. */
  predicate OptionalOk(v: Json, accepted: Option<string>) {
    v.Undefined? || accepted.Some?
  }

  function Supplied(v: Json, accepted: Option<string>): Option<string> {
    if v.Undefined? then None else accepted
  }

  /**
   * `updateSchema`: an object whose name, year, branch and section are each
   * absent or accepted by their rule. A supplied field is stored in its
   * trimmed form, which matches the rule's pattern.
   */
  function ParseUpdate(body: Json): (r: Option<ProfileUpdate>)
    ensures r.Some? <==>
              && body.Obj?
              && OptionalOk(Field(body, "name"), NameField(Field(body, "name")))
              && OptionalOk(Field(body, "year"), YearField(Field(body, "year")))
              && OptionalOk(Field(body, "branch"), BranchField(Field(body, "branch")))
              && OptionalOk(Field(body, "section"), SectionField(Field(body, "section")))
    ensures r.Some? ==>
              && (r.value.name.Some? <==> !Field(body, "name").Undefined?)
              && (r.value.year.Some? <==> !Field(body, "year").Undefined?)
              && (r.value.branch.Some? <==> !Field(body, "branch").Undefined?)
              && (r.value.section.Some? <==> !Field(body, "section").Undefined?)
    ensures r.Some? && r.value.name.Some? ==>
              r.value.name.value == Trim(Field(body, "name").s) && MatchesName(r.value.name.value)
    ensures r.Some? && r.value.year.Some? ==>
              r.value.year.value == Trim(Field(body, "year").s) && MatchesYear(r.value.year.value)
    ensures r.Some? && r.value.branch.Some? ==>
              r.value.branch.value == Trim(Field(body, "branch").s) && MatchesBranch(r.value.branch.value)
    ensures r.Some? && r.value.section.Some? ==>
              r.value.section.value == Trim(Field(body, "section").s) && MatchesSection(r.value.section.value)
  {
    var name, year := Field(body, "name"), Field(body, "year");
    var branch, section := Field(body, "branch"), Field(body, "section");
    if body.Obj? && OptionalOk(name, NameField(name)) && OptionalOk(year, YearField(year))
       && OptionalOk(branch, BranchField(branch)) && OptionalOk(section, SectionField(section))
    then
      Some(ProfileUpdate(Supplied(name, NameField(name)), Supplied(year, YearField(year)),
                         Supplied(branch, BranchField(branch)), Supplied(section, SectionField(section))))
    else None
  }

  /** A year outside '1'..'4' (after trimming) rejects the whole update. */
  lemma BadYearRejectsUpdate(body: Json)
    requires body.Obj? && Field(body, "year").Str?
    requires var t := Trim(Field(body, "year").s); |t| != 1 || !('1' <= t[0] <= '4')
    ensures ParseUpdate(body).None?
  {
  }

  /**
   * PUT /me: 400 and no change unless `updateSchema` accepts the body; 404
   * and no change when the caller has no student profile; otherwise only the
   * supplied fields of the caller's row change, to their trimmed values.
   */
  method PutMe(db: Db, userId: string, body: Json) returns (o: PutOutcome)
    requires db.Valid()
    modifies db
    ensures db.Valid()
    ensures db.users == old(db.users) && db.faculty == old(db.faculty)
    ensures db.sessions == old(db.sessions) && db.records == old(db.records)
    ensures o.Invalid? <==> ParseUpdate(body).None?
    ensures o.NoProfile? <==> ParseUpdate(body).Some? && ProfileOf(db.users, old(db.students), userId).None?
    ensures !o.Updated? ==> db.students == old(db.students)
    ensures o.Updated? ==>
              var id := ProfileOf(db.users, old(db.students), userId).value;
              var prev := old(db.students)[id];
              && db.students == old(db.students)[id := o.profile]
              && o.profile == Apply(prev, ParseUpdate(body).value)
              && o.profile.name == (if Field(body, "name").Undefined? then prev.name else Trim(Field(body, "name").s))
              && o.profile.year == (if Field(body, "year").Undefined? then prev.year else Trim(Field(body, "year").s))
              && o.profile.branch == (if Field(body, "branch").Undefined? then prev.branch else Trim(Field(body, "branch").s))
              && o.profile.section == (if Field(body, "section").Undefined? then prev.section else Trim(Field(body, "section").s))
  {
    o := UpdateProfile(db, userId, ParseUpdate(body));
  }
}
