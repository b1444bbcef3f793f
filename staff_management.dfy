/** The staff query and its mutations (src/hooks/useStaffManagement.ts): the teachers'
    profiles joined with the classes they sponsor and the class subjects they teach, and the
    row updates that approve or revoke a teacher and assign or remove a subject or a class.
    The hosted tables are values: a query's answer is `None` when it reported an error, and
    a mutation is the table it leaves behind. */
module StaffManagement {
  import opened Common

  /** A `user_roles` row. */
  datatype RoleRow = RoleRow(userId: string, role: string)

  /** A `profiles` row (`is_approved` may be null). */
  datatype Profile = Profile(id: string, userId: string, fullName: string, email: string, isApproved: Option<bool>)

  /** A `classes` row. */
  datatype ClassRow = ClassRow(id: string, name: string, teacherId: Option<string>)

  /** A `class_subjects` row. */
  datatype ClassSubjectRow = ClassSubjectRow(id: string, subjectName: string, teacherId: Option<string>)

  /** An element of `staff`: the profile's columns with the classes it sponsors and the
      class subjects it teaches. */
  datatype StaffEntry = StaffEntry(profile: Profile, classes: seq<ClassRow>, subjects: seq<ClassSubjectRow>)

  /** `user_roles` narrowed to `.eq("role", "teacher")`, as user ids. */
  function TeacherUserIds(roles: seq<RoleRow>): (ids: seq<string>)
    ensures forall u :: u in ids <==> exists r | r in roles :: r.userId == u && r.role == "teacher"
  {
    if roles == [] then []
    else
      var rest := TeacherUserIds(roles[1..]);
      assert forall r | r in roles[1..] :: r in roles;
      (if roles[0].role == "teacher" then [roles[0].userId] else []) + rest
  }

  /** `profiles` narrowed to `.in("user_id", userIds)`. */
  function TeacherProfiles(profiles: seq<Profile>, userIds: seq<string>): (r: seq<Profile>)
    ensures forall p :: p in r <==> p in profiles && p.userId in userIds
  {
    var keep := (p: Profile) => p.userId in userIds;
    forall p { FilterMembers(profiles, keep, p); }
    Filter(profiles, keep)
  }

  function ClassTeacher(c: ClassRow): Option<string> { c.teacherId }
  function SubjectTeacher(s: ClassSubjectRow): Option<string> { s.teacherId }

  /** `rows.filter(r => r.teacher_id === id)` */
  function Owned<T(!new)>(rows: seq<T>, owner: T -> Option<string>, id: string): (r: seq<T>)
    ensures forall x :: x in r <==> x in rows && owner(x) == Some(id)
  {
    if rows == [] then []
    else
      assert forall x | x in rows[1..] :: x in rows;
      (if owner(rows[0]) == Some(id) then [rows[0]] else []) + Owned(rows[1..], owner, id)
  }

  /** `classes?.filter(c => c.teacher_id === profileId)` */
  function SponsoredBy(classes: seq<ClassRow>, profileId: string): seq<ClassRow>
  {
    Owned(classes, ClassTeacher, profileId)
  }

  /** `classSubjects?.filter(cs => cs.teacher_id === profileId)` */
  function TaughtBy(subjects: seq<ClassSubjectRow>, profileId: string): seq<ClassSubjectRow>
  {
    Owned(subjects, SubjectTeacher, profileId)
  }

  /** `profiles.map(profile => ({ ...profile, classes, subjects }))` */
  function Join(profiles: seq<Profile>, classes: seq<ClassRow>, subjects: seq<ClassSubjectRow>): (staff: seq<StaffEntry>)
    ensures |staff| == |profiles|
    ensures forall i | 0 <= i < |staff| ::
      staff[i].profile == profiles[i]
      && (forall c :: c in staff[i].classes <==> c in classes && c.teacherId == Some(profiles[i].id))
      && (forall s :: s in staff[i].subjects <==> s in subjects && s.teacherId == Some(profiles[i].id))
  {
    if profiles == [] then []
    else
      var p := profiles[0];
      [StaffEntry(p, SponsoredBy(classes, p.id), TaughtBy(subjects, p.id))] + Join(profiles[1..], classes, subjects)
  }

  /** `profiles.map(p => p.id)` */
  function ProfileIds(profiles: seq<Profile>): (ids: seq<string>)
    ensures |ids| == |profiles| && forall i | 0 <= i < |ids| :: ids[i] == profiles[i].id
  {
    if profiles == [] then [] else [profiles[0].id] + ProfileIds(profiles[1..])
  }

  /** `.in("teacher_id", ids)`: a null `teacher_id` is in no list. */
  function OwnedByAny<T(!new)>(rows: seq<T>, owner: T -> Option<string>, ids: seq<string>): (r: seq<T>)
    ensures forall x :: x in r <==> x in rows && owner(x).Some? && owner(x).value in ids
  {
    if rows == [] then []
    else
      assert forall x | x in rows[1..] :: x in rows;
      (if owner(rows[0]).Some? && owner(rows[0]).value in ids then [rows[0]] else []) + OwnedByAny(rows[1..], owner, ids)
  }

  /** Narrowing to a list of owners that includes `id` keeps every row `id` owns, in order. */
  lemma {:induction false} OwnedNarrowed<T(!new)>(rows: seq<T>, owner: T -> Option<string>, ids: seq<string>, id: string)
    requires id in ids
    ensures Owned(OwnedByAny(rows, owner, ids), owner, id) == Owned(rows, owner, id)
  {
    if rows != [] {
      OwnedNarrowed(rows[1..], owner, ids, id);
      var rest := OwnedByAny(rows[1..], owner, ids);
      if owner(rows[0]).Some? && owner(rows[0]).value in ids {
        var n := [rows[0]] + rest;
        assert OwnedByAny(rows, owner, ids) == n;
        assert n[1..] == rest;
      } else {
        assert OwnedByAny(rows, owner, ids) == rest;
      }
    }
  }

  /** Narrowing the class and class-subject queries to a list holding every teacher's id
      changes no entry: each entry filters by its own id again. */
  lemma {:induction false} JoinNarrowed(ps: seq<Profile>, classes: seq<ClassRow>, subjects: seq<ClassSubjectRow>, ids: seq<string>)
    requires forall i | 0 <= i < |ps| :: ps[i].id in ids
    ensures Join(ps, OwnedByAny(classes, ClassTeacher, ids), OwnedByAny(subjects, SubjectTeacher, ids))
         == Join(ps, classes, subjects)
  {
    if ps != [] {
      JoinNarrowed(ps[1..], classes, subjects, ids);
      OwnedNarrowed(classes, ClassTeacher, ids, ps[0].id);
      OwnedNarrowed(subjects, SubjectTeacher, ids, ps[0].id);
    }
  }

  /** The staff query function: `None` when a lookup reported an error. Without a teacher
      role row the other tables are not consulted and the staff list is empty; otherwise the
      narrowed class and class-subject lookups give the join over the whole tables. */
  function FetchStaff(roles: Option<seq<RoleRow>>, profiles: Option<seq<Profile>>,
                      classes: Option<seq<ClassRow>>, subjects: Option<seq<ClassSubjectRow>>): (r: Option<seq<StaffEntry>>)
    ensures roles.None? ==> r.None?
    ensures roles.Some? && TeacherUserIds(roles.value) == [] ==> r == Some([])
    ensures roles.Some? && TeacherUserIds(roles.value) != [] ==>
      (r.Some? <==> profiles.Some? && classes.Some? && subjects.Some?)
      && (r.Some? ==> r.value == Join(TeacherProfiles(profiles.value, TeacherUserIds(roles.value)), classes.value, subjects.value))
  {
    if roles.None? then None
    else
      var userIds := TeacherUserIds(roles.value);
      if userIds == [] then Some([])
      else if profiles.None? || classes.None? || subjects.None? then None
      else
        var ps := TeacherProfiles(profiles.value, userIds);
        var ids := ProfileIds(ps);
        JoinNarrowed(ps, classes.value, subjects.value, ids);
        Some(Join(ps, OwnedByAny(classes.value, ClassTeacher, ids), OwnedByAny(subjects.value, SubjectTeacher, ids)))
  }

  /** `update({ is_approved: approved }).eq("id", profileId)` */
  function SetApproval(profiles: seq<Profile>, profileId: string, approved: bool): (r: seq<Profile>)
    ensures |r| == |profiles|
    ensures forall i | 0 <= i < |r| ::
      if profiles[i].id == profileId then r[i] == profiles[i].(isApproved := Some(approved)) else r[i] == profiles[i]
  {
    if profiles == [] then []
    else
      var p := profiles[0];
      [if p.id == profileId then p.(isApproved := Some(approved)) else p] + SetApproval(profiles[1..], profileId, approved)
  }

  /** `classes.update({ teacher_id: teacher }).eq("id", classId)`: assigning a sponsor is
      `Some(teacherId)`, removing one is `None`. */
  function SetClassSponsor(classes: seq<ClassRow>, classId: string, teacher: Option<string>): (r: seq<ClassRow>)
    ensures |r| == |classes|
    ensures forall i | 0 <= i < |r| ::
      if classes[i].id == classId then r[i] == classes[i].(teacherId := teacher) else r[i] == classes[i]
  {
    if classes == [] then []
    else
      var c := classes[0];
      [if c.id == classId then c.(teacherId := teacher) else c] + SetClassSponsor(classes[1..], classId, teacher)
  }

  /** `class_subjects.update({ teacher_id: teacher }).eq("id", classSubjectId)` */
  function SetSubjectTeacher(subjects: seq<ClassSubjectRow>, classSubjectId: string, teacher: Option<string>): (r: seq<ClassSubjectRow>)
    ensures |r| == |subjects|
    ensures forall i | 0 <= i < |r| ::
      if subjects[i].id == classSubjectId then r[i] == subjects[i].(teacherId := teacher) else r[i] == subjects[i]
  {
    if subjects == [] then []
    else
      var s := subjects[0];
      [if s.id == classSubjectId then s.(teacherId := teacher) else s] + SetSubjectTeacher(subjects[1..], classSubjectId, teacher)
  }

  /** After a class is given a sponsor, the sponsor's entry lists the class and nobody
      else's does; after its sponsor is removed, no entry lists it. The other classes stay
      where they were. */
  lemma {:induction false} SponsorChangeShows(profiles: seq<Profile>, classes: seq<ClassRow>, subjects: seq<ClassSubjectRow>,
                                              classId: string, teacher: Option<string>)
    ensures var staff := Join(profiles, SetClassSponsor(classes, classId, teacher), subjects);
      var before := Join(profiles, classes, subjects);
      forall i | 0 <= i < |staff| ::
        (forall c | c in staff[i].classes && c.id == classId :: teacher == Some(profiles[i].id))
        && (forall k | 0 <= k < |classes| && classes[k].id == classId && teacher == Some(profiles[i].id) ::
              classes[k].(teacherId := teacher) in staff[i].classes)
        && (forall c: ClassRow | c.id != classId :: c in staff[i].classes <==> c in before[i].classes)
  {
    var updated := SetClassSponsor(classes, classId, teacher);
    SponsorRows(classes, classId, teacher);
    forall i, k | 0 <= i < |profiles| && 0 <= k < |classes| && classes[k].id == classId && teacher == Some(profiles[i].id)
      ensures classes[k].(teacherId := teacher) in Join(profiles, updated, subjects)[i].classes
    {
      assert updated[k] == classes[k].(teacherId := teacher);
    }
  }

  /** The targeted class rows now name the new teacher; every other row is as it was. */
  lemma SponsorRows(classes: seq<ClassRow>, classId: string, teacher: Option<string>)
    ensures forall c | c in SetClassSponsor(classes, classId, teacher) && c.id == classId :: c.teacherId == teacher
    ensures forall c: ClassRow | c.id != classId :: c in SetClassSponsor(classes, classId, teacher) <==> c in classes
  {
    var updated := SetClassSponsor(classes, classId, teacher);
    forall c | c in updated && c.id == classId ensures c.teacherId == teacher {
      var k :| 0 <= k < |updated| && updated[k] == c;
    }
    forall c: ClassRow | c.id != classId ensures c in updated <==> c in classes {
      if c in updated {
        var k :| 0 <= k < |updated| && updated[k] == c;
        assert classes[k] == c;
      }
      if c in classes {
        var k :| 0 <= k < |classes| && classes[k] == c;
        assert updated[k] == c;
      }
    }
  }

  /** The same for a class subject and its teacher. */
  lemma {:induction false} SubjectChangeShows(profiles: seq<Profile>, classes: seq<ClassRow>, subjects: seq<ClassSubjectRow>,
                                              classSubjectId: string, teacher: Option<string>)
    ensures var staff := Join(profiles, classes, SetSubjectTeacher(subjects, classSubjectId, teacher));
      var before := Join(profiles, classes, subjects);
      forall i | 0 <= i < |staff| ::
        (forall s | s in staff[i].subjects && s.id == classSubjectId :: teacher == Some(profiles[i].id))
        && (forall k | 0 <= k < |subjects| && subjects[k].id == classSubjectId && teacher == Some(profiles[i].id) ::
              subjects[k].(teacherId := teacher) in staff[i].subjects)
        && (forall s: ClassSubjectRow | s.id != classSubjectId :: s in staff[i].subjects <==> s in before[i].subjects)
  {
    var updated := SetSubjectTeacher(subjects, classSubjectId, teacher);
    SubjectRows(subjects, classSubjectId, teacher);
    forall i, k | 0 <= i < |profiles| && 0 <= k < |subjects| && subjects[k].id == classSubjectId && teacher == Some(profiles[i].id)
      ensures subjects[k].(teacherId := teacher) in Join(profiles, classes, updated)[i].subjects
    {
      assert updated[k] == subjects[k].(teacherId := teacher);
    }
  }

  /** The targeted class-subject rows now name the new teacher; every other row is as it was. */
  lemma SubjectRows(subjects: seq<ClassSubjectRow>, classSubjectId: string, teacher: Option<string>)
    ensures forall s | s in SetSubjectTeacher(subjects, classSubjectId, teacher) && s.id == classSubjectId :: s.teacherId == teacher
    ensures forall s: ClassSubjectRow | s.id != classSubjectId ::
      s in SetSubjectTeacher(subjects, classSubjectId, teacher) <==> s in subjects
  {
    var updated := SetSubjectTeacher(subjects, classSubjectId, teacher);
    forall s | s in updated && s.id == classSubjectId ensures s.teacherId == teacher {
      var k :| 0 <= k < |updated| && updated[k] == s;
    }
    forall s: ClassSubjectRow | s.id != classSubjectId ensures s in updated <==> s in subjects {
      if s in updated {
        var k :| 0 <= k < |updated| && updated[k] == s;
        assert subjects[k] == s;
      }
      if s in subjects {
        var k :| 0 <= k < |subjects| && subjects[k] == s;
        assert updated[k] == s;
      }
    }
  }
}
