/**
 * A student's own profile, shared by both backends: GET /me projects the
 * caller's student row and account email, and PUT /me overwrites the
 * supplied fields among name, year, branch and section of that row.
 */
module Profiles {
  import opened Values
  import opened Entities
  import opened Store

  /** The body GET /me answers with: no phone and no userId. */
  datatype MeView = MeView(id: string, regNo: string, name: string, year: string,
                           branch: string, section: string, email: string)

  datatype MeOutcome = Found(view: MeView) | ProfileMissing

  function MeStatusCode(o: MeOutcome): (code: int)
    ensures code == 200 <==> o.Found?
    ensures code == 404 <==> o.ProfileMissing?
  {
    if o.Found? then 200 else 404
  }

  /**
   * GET /me: 404 unless the caller's user exists and owns a student profile;
   * otherwise the profile's id, regNo, name, year, branch and section with
   * the account's email.
   */
  function Me(users: map<string, User>, students: map<string, StudentProfile>, userId: string)
    : (r: MeOutcome)
    requires UniqueStudentUsers(students)
    ensures r.ProfileMissing? <==> userId !in users || forall id :: id in students ==> students[id].userId != userId
    ensures r.Found? ==>
              exists id :: id in students && students[id].userId == userId &&
                var p := students[id];
                r.view == MeView(p.id, p.regNo, p.name, p.year, p.branch, p.section, users[userId].email)
  {
    match ProfileOf(users, students, userId)
    case None => ProfileMissing
    case Some(id) =>
      var p := students[id];
      Found(MeView(p.id, p.regNo, p.name, p.year, p.branch, p.section, users[userId].email))
  }

  /** The view does not depend on the profile's phone number or user id: neither is exposed. */
  lemma MeHidesPhone(users: map<string, User>, students: map<string, StudentProfile>, userId: string,
                     id: string, phone: string)
    requires UniqueStudentUsers(students)
    requires id in students
    ensures UniqueStudentUsers(students[id := students[id].(phone := phone)])
    ensures Me(users, students[id := students[id].(phone := phone)], userId) == Me(users, students, userId)
  {
    var changed := students[id := students[id].(phone := phone)];
    var a, b := ProfileOf(users, students, userId), ProfileOf(users, changed, userId);
    if a.Some? {
      assert changed[a.value].userId == userId;
      assert b.value == a.value;
    }
  }

  /** A partial update: `None` leaves the column as it is. */
  datatype ProfileUpdate = ProfileUpdate(name: Option<string>, year: Option<string>,
                                         branch: Option<string>, section: Option<string>)

  /** The row after `student.update` with the given data. */
  function Apply(p: StudentProfile, u: ProfileUpdate): (q: StudentProfile)
    ensures q.id == p.id && q.userId == p.userId && q.regNo == p.regNo && q.phone == p.phone
    ensures u.name.None? ==> q.name == p.name
    ensures u.year.None? ==> q.year == p.year
    ensures u.branch.None? ==> q.branch == p.branch
    ensures u.section.None? ==> q.section == p.section
    ensures u.name.Some? ==> q.name == u.name.value
    ensures u.year.Some? ==> q.year == u.year.value
    ensures u.branch.Some? ==> q.branch == u.branch.value
    ensures u.section.Some? ==> q.section == u.section.value
  {
    p.(name := if u.name.Some? then u.name.value else p.name,
       year := if u.year.Some? then u.year.value else p.year,
       branch := if u.branch.Some? then u.branch.value else p.branch,
       section := if u.section.Some? then u.section.value else p.section)
  }

  /** An update with no fields leaves the row unchanged. */
  lemma ApplyNothing(p: StudentProfile)
    ensures Apply(p, ProfileUpdate(None, None, None, None)) == p
  {
  }

  /** Sending the same update twice has the effect of sending it once. */
  lemma ApplyTwice(p: StudentProfile, u: ProfileUpdate)
    ensures Apply(Apply(p, u), u) == Apply(p, u)
  {
  }

  datatype PutOutcome = Updated(profile: StudentProfile) | Invalid | NoProfile

  function PutStatusCode(o: PutOutcome): (code: int)
    ensures code == 200 <==> o.Updated?
    ensures code == 400 <==> o.Invalid?
    ensures code == 404 <==> o.NoProfile?
  {
    match o
    case Updated(_) => 200
    case Invalid => 400
    case NoProfile => 404
  }

  /**
   * PUT /me once the body has been validated (`None` for a body the schema
   * rejects). Validation comes first: an invalid body gives 400 whether or
   * not the caller has a profile. A caller without a profile gets 404. In
   * both cases nothing changes. Otherwise the caller's row, and no other,
   * becomes `Apply(row, update)`, and that row is the answer.
   */
  method UpdateProfile(db: Db, userId: string, update: Option<ProfileUpdate>) returns (o: PutOutcome)
    requires db.Valid()
    modifies db
    ensures db.Valid()
    ensures db.users == old(db.users) && db.faculty == old(db.faculty)
    ensures db.sessions == old(db.sessions) && db.records == old(db.records)
    ensures o.Invalid? <==> update.None?
    ensures o.NoProfile? <==> update.Some? && ProfileOf(db.users, old(db.students), userId).None?
    ensures !o.Updated? ==> db.students == old(db.students)
    ensures o.Updated? ==>
              var id := ProfileOf(db.users, old(db.students), userId).value;
              && db.students == old(db.students)[id := Apply(old(db.students)[id], update.value)]
              && o.profile == db.students[id]
              && Me(db.users, db.students, userId) ==
                 Found(MeView(id, o.profile.regNo, o.profile.name, o.profile.year, o.profile.branch,
                              o.profile.section, db.users[userId].email))
  {
    if update.None? {
      return Invalid;
    }
    var found := ProfileOf(db.users, db.students, userId);
    if found.None? {
      return NoProfile;
    }
    var id := found.value;
    var row := Apply(db.students[id], update.value);
    db.students := db.students[id := row];
    assert UniqueRegNos(db.students) by {
      forall a, b | a in db.students && b in db.students && db.students[a].regNo == db.students[b].regNo
        ensures a == b
      {
        assert old(db.students)[a].regNo == db.students[a].regNo;
        assert old(db.students)[b].regNo == db.students[b].regNo;
      }
    }
    assert UniqueStudentUsers(db.students) by {
      forall a, b | a in db.students && b in db.students && db.students[a].userId == db.students[b].userId
        ensures a == b
      {
        assert old(db.students)[a].userId == db.students[a].userId;
        assert old(db.students)[b].userId == db.students[b].userId;
      }
    }
    o := Updated(row);
    assert db.students[id].userId == userId;
    assert ProfileOf(db.users, db.students, userId).value == id;
  }
}
