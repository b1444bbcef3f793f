/** The teacher dashboard's summary (src/hooks/useTeacherAnalytics.ts): the students of the
    signed-in teacher's classes, each with the percentage of their summed scores over their
    summed maxima, counted as passing (50 and above), failing, at risk (below 40) or needing
    attention (40 to below 50), with rounded rates and the five best students. The hosted
    tables are inputs; a table whose query failed is `None`, which the hook reads as no rows. */
module TeacherAnalytics {
  import opened Common
  import opened Records
  import opened Sorting
  import opened JsNumbers
  import UseGrades

  /** A `class_subjects` row. */
  datatype ClassSubjectRow = ClassSubjectRow(id: string, classId: Option<string>, teacherId: Option<string>)

  /** A `students` row. */
  datatype StudentRow = StudentRow(id: string, fullName: string, classId: Option<string>)

  /** A `student_grades` row. */
  datatype GradeRow = GradeRow(studentId: string, score: Option<int>, maxScore: Option<int>, classSubjectId: string)

  /** The running totals kept per student in `studentMap`. */
  datatype Entry = Entry(totalScore: int, totalMax: int, fullName: string)

  /** One element of `results`. */
  datatype ResultRow = ResultRow(studentId: string, fullName: string, percent: real)

  datatype Analytics = Analytics(
    totalStudents: nat, passCount: nat, failCount: nat, atRiskCount: nat, attentionCount: nat,
    passRate: int, failRate: int, atRiskRate: int, attentionRate: int,
    topStudents: seq<ResultRow>)

  /** The result returned when the teacher has no class subjects or no students. */
  const NoStudents := Analytics(0, 0, 0, 0, 0, 0, 0, 0, 0, [])

  // ---------------------------------------------------------------- the queried rows

  /** `.eq("teacher_id", user.id)` */
  function TeacherClassSubjects(table: seq<ClassSubjectRow>, teacher: string): (r: seq<ClassSubjectRow>)
    ensures forall cs :: cs in r <==> cs in table && cs.teacherId == Some(teacher)
  {
    var p := (cs: ClassSubjectRow) => cs.teacherId == Some(teacher);
    forall cs { FilterMembers(table, p, cs); }
    Filter(table, p)
  }

  /** `classSubjects.map(cs => cs.id).filter(Boolean)` */
  function ClassSubjectIds(css: seq<ClassSubjectRow>): (ids: seq<string>)
    ensures forall x :: x in ids <==> x != "" && exists cs | cs in css :: cs.id == x
  {
    if css == [] then []
    else
      var rest := ClassSubjectIds(css[..|css| - 1]);
      var last := css[|css| - 1];
      assert forall cs :: cs in css <==> cs in css[..|css| - 1] || cs == last;
      if last.id != "" then rest + [last.id] else rest
  }

  /** `classSubjects.map(cs => cs.class_id).filter(Boolean)` */
  function ClassIds(css: seq<ClassSubjectRow>): (ids: seq<string>)
    ensures forall x :: x in ids <==> x != "" && exists cs | cs in css :: cs.classId == Some(x)
  {
    if css == [] then []
    else
      var rest := ClassIds(css[..|css| - 1]);
      var last := css[|css| - 1];
      assert forall cs :: cs in css <==> cs in css[..|css| - 1] || cs == last;
      if last.classId.Some? && last.classId.value != "" then rest + [last.classId.value] else rest
  }

  /** `.in("class_id", classIds.length ? classIds : [null])`: a null class id matches no row. */
  function StudentsIn(table: seq<StudentRow>, classIds: seq<string>): (r: seq<StudentRow>)
    ensures forall s :: s in r <==> s in table && s.classId.Some? && s.classId.value in classIds
  {
    var p := (s: StudentRow) => s.classId.Some? && s.classId.value in classIds;
    forall s { FilterMembers(table, p, s); }
    Filter(table, p)
  }

  /** `.in("class_subject_id", classSubjectIds.length ? classSubjectIds : [null])` */
  function GradesIn(table: seq<GradeRow>, classSubjectIds: seq<string>): (r: seq<GradeRow>)
    ensures forall g :: g in r <==> g in table && g.classSubjectId in classSubjectIds
  {
    var p := (g: GradeRow) => g.classSubjectId in classSubjectIds;
    forall g { FilterMembers(table, p, g); }
    Filter(table, p)
  }

  // ---------------------------------------------------------------- per-student totals

  /** `studentMap` after `studentsList.forEach`: every student at zero, keyed by id; a
      repeated id keeps its first position and the last name given. */
  function Roster(ss: seq<StudentRow>): seq<(string, Entry)>
  {
    if ss == [] then []
    else Put(Roster(ss[..|ss| - 1]), ss[|ss| - 1].id, Entry(0, 0, ss[|ss| - 1].fullName))
  }

  /** The roster holds exactly the ids of the students, once each, all at zero. */
  lemma {:induction false} RosterFacts(ss: seq<StudentRow>)
    ensures DistinctKeys(Roster(ss))
    ensures forall k :: k in Keys(Roster(ss)) <==> exists s | s in ss :: s.id == k
    ensures forall i | 0 <= i < |Roster(ss)| :: Roster(ss)[i].1.totalScore == 0 && Roster(ss)[i].1.totalMax == 0
  {
    if ss != [] {
      var init := ss[..|ss| - 1];
      var last := ss[|ss| - 1];
      RosterFacts(init);
      PutDistinct(Roster(init), last.id, Entry(0, 0, last.fullName));
      KeysPut(Roster(init), last.id, Entry(0, 0, last.fullName));
      PutValues(Roster(init), last.id, Entry(0, 0, last.fullName));
      assert forall s :: s in ss <==> s in init || s == last;
    }
  }

  /** Every entry of `Put(r, k, v)` is an entry of `r` or is `(k, v)`. */
  lemma {:induction false} PutValues<K, V>(r: seq<(K, V)>, k: K, v: V)
    ensures forall i | 0 <= i < |Put(r, k, v)| :: Put(r, k, v)[i] in r || Put(r, k, v)[i] == (k, v)
  {
    if r != [] && r[0].0 != k {
      PutValues(r[1..], k, v);
    }
  }

  function GradeStudentOf(g: GradeRow): string { g.studentId }

  /** `Number(x || 0)` */
  function OrZero(x: Option<int>): int { x.GetOr(0) }

  function SumScores(gs: seq<GradeRow>): int
  {
    if gs == [] then 0 else SumScores(gs[..|gs| - 1]) + OrZero(gs[|gs| - 1].score)
  }

  function SumMax(gs: seq<GradeRow>): int
  {
    if gs == [] then 0 else SumMax(gs[..|gs| - 1]) + OrZero(gs[|gs| - 1].maxScore)
  }

  /** One step of `grades.forEach`: a grade of a student on the roster adds to their totals;
      any other grade is skipped. */
  function AddGrade(m: seq<(string, Entry)>, g: GradeRow): seq<(string, Entry)>
  {
    match Get(m, g.studentId)
    case None => m
    case Some(e) => Put(m, g.studentId, Entry(e.totalScore + OrZero(g.score), e.totalMax + OrZero(g.maxScore), e.fullName))
  }

  function AddGrades(m: seq<(string, Entry)>, gs: seq<GradeRow>): seq<(string, Entry)>
  {
    if gs == [] then m else AddGrade(AddGrades(m, gs[..|gs| - 1]), gs[|gs| - 1])
  }

  /** After the grades, a student on the roster holds the sums of the scores and of the
      maxima of their own grades; students not on the roster never appear. */
  lemma {:induction false} AddGradesGet(m: seq<(string, Entry)>, gs: seq<GradeRow>, k: string)
    ensures Get(m, k).None? ==> Get(AddGrades(m, gs), k).None?
    ensures Get(m, k).Some? ==>
      var e := Get(m, k).value;
      var own := WithKey(gs, GradeStudentOf, k);
      Get(AddGrades(m, gs), k) == Some(Entry(e.totalScore + SumScores(own), e.totalMax + SumMax(own), e.fullName))
  {
    if gs != [] {
      var init := gs[..|gs| - 1];
      var g := gs[|gs| - 1];
      AddGradesGet(m, init, k);
      var before := AddGrades(m, init);
      var own := WithKey(init, GradeStudentOf, k);
      if g.studentId == k {
        assert WithKey(gs, GradeStudentOf, k) == own + [g];
        assert (own + [g])[..|own|] == own;
      } else {
        assert WithKey(gs, GradeStudentOf, k) == own;
      }
      match Get(before, g.studentId)
      case None =>
      case Some(e) =>
        GetPut(before, g.studentId, Entry(e.totalScore + OrZero(g.score), e.totalMax + OrZero(g.maxScore), e.fullName), k);
    }
  }

  /** The grades never add or remove a student, nor reorder them. */
  lemma {:induction false} AddGradesKeys(m: seq<(string, Entry)>, gs: seq<GradeRow>)
    ensures Keys(AddGrades(m, gs)) == Keys(m)
  {
    if gs != [] {
      var before := AddGrades(m, gs[..|gs| - 1]);
      var g := gs[|gs| - 1];
      AddGradesKeys(m, gs[..|gs| - 1]);
      match Get(before, g.studentId)
      case None =>
      case Some(e) =>
        GetKeys(before, g.studentId);
        KeysPut(before, g.studentId, Entry(e.totalScore + OrZero(g.score), e.totalMax + OrZero(g.maxScore), e.fullName));
    }
  }

  // ---------------------------------------------------------------- results and counts

  /** `v.totalMax > 0 ? (v.totalScore / v.totalMax) * 100 : 0` */
  function PercentOf(e: Entry): real
  {
    if e.totalMax > 0 then e.totalScore as real / e.totalMax as real * 100.0 else 0.0
  }

  /** `results`: one row per entry of `studentMap`, in its order. */
  function Results(m: seq<(string, Entry)>): (rs: seq<ResultRow>)
    ensures |rs| == |m|
    ensures forall i | 0 <= i < |m| :: rs[i] == ResultRow(m[i].0, m[i].1.fullName, PercentOf(m[i].1))
  {
    if m == [] then [] else Results(m[..|m| - 1]) + [ResultRow(m[|m| - 1].0, m[|m| - 1].1.fullName, PercentOf(m[|m| - 1].1))]
  }

  predicate Passes(r: ResultRow) { r.percent >= 50.0 }
  predicate Fails(r: ResultRow) { r.percent < 50.0 }
  predicate AtRisk(r: ResultRow) { r.percent < 40.0 }
  predicate NeedsAttention(r: ResultRow) { 40.0 <= r.percent < 50.0 }

  /** Every student passes or fails, never both; the failing ones are exactly the at-risk
      ones and the ones needing attention. */
  lemma {:induction false} OutcomesPartition(rs: seq<ResultRow>)
    ensures |Filter(rs, Passes)| + |Filter(rs, Fails)| == |rs|
    ensures |Filter(rs, AtRisk)| + |Filter(rs, NeedsAttention)| == |Filter(rs, Fails)|
  {
    FilterSplit(rs, Passes, Fails);
    if rs != [] {
      var init := rs[..|rs| - 1];
      var r := rs[|rs| - 1];
      OutcomesPartition(init);
      assert rs == init + [r];
      FilterSnoc(init, r, AtRisk);
      FilterSnoc(init, r, NeedsAttention);
      FilterSnoc(init, r, Fails);
    }
  }

  /** `n / totalStudents * 100`, rounded, or 0 without students. */
  function Rate(n: nat, total: nat): int
  {
    if total > 0 then Round(n as real / total as real * 100.0) else 0
  }

  /** A rate lies between 0 and 100, and is 100 when every student is counted. */
  lemma RateBounds(n: nat, total: nat)
    requires n <= total
    ensures 0 <= Rate(n, total) <= 100
    ensures 0 < n == total ==> Rate(n, total) == 100
  {
    if total > 0 {
      FractionBounds(n as real, total as real);
    }
  }

  function Percent(r: ResultRow): real { r.percent }

  // ---------------------------------------------------------------- the loops

  /** `studentsList.forEach` */
  method BuildRoster(ss: seq<StudentRow>) returns (studentMap: seq<(string, Entry)>)
    ensures studentMap == Roster(ss)
  {
    studentMap := [];
    var i := 0;
    while i < |ss|
      invariant 0 <= i <= |ss|
      invariant studentMap == Roster(ss[..i])
    {
      studentMap := Put(studentMap, ss[i].id, Entry(0, 0, ss[i].fullName));
      assert ss[..i + 1][..i] == ss[..i];
      i := i + 1;
    }
    assert ss[..|ss|] == ss;
  }

  /** `(grades || []).forEach` */
  method SumGrades(roster: seq<(string, Entry)>, gs: seq<GradeRow>) returns (studentMap: seq<(string, Entry)>)
    ensures studentMap == AddGrades(roster, gs)
  {
    studentMap := roster;
    var i := 0;
    while i < |gs|
      invariant 0 <= i <= |gs|
      invariant studentMap == AddGrades(roster, gs[..i])
    {
      var g := gs[i];
      assert gs[..i + 1][..i] == gs[..i];
      var found := Get(studentMap, g.studentId);
      if found.Some? {
        var entry := found.value;
        studentMap := Put(studentMap, g.studentId, Entry(entry.totalScore + OrZero(g.score), entry.totalMax + OrZero(g.maxScore), entry.fullName));
      }
      i := i + 1;
    }
    assert gs[..|gs|] == gs;
  }

  /** `studentMap.forEach` pushing into `results` */
  method CollectResults(studentMap: seq<(string, Entry)>) returns (results: seq<ResultRow>)
    ensures results == Results(studentMap)
  {
    results := [];
    var i := 0;
    while i < |studentMap|
      invariant 0 <= i <= |studentMap|
      invariant results == Results(studentMap[..i])
    {
      var (k, v) := studentMap[i];
      var percent := if v.totalMax > 0 then v.totalScore as real / v.totalMax as real * 100.0 else 0.0;
      results := results + [ResultRow(k, v.fullName, percent)];
      assert studentMap[..i + 1][..i] == studentMap[..i];
      i := i + 1;
    }
    assert studentMap[..|studentMap|] == studentMap;
  }

  /** One more result adds one to each count whose outcome it has. */
  lemma CountStep(rs: seq<ResultRow>, i: int)
    requires 0 <= i < |rs|
    ensures |Filter(rs[..i + 1], Passes)| == |Filter(rs[..i], Passes)| + if Passes(rs[i]) then 1 else 0
    ensures |Filter(rs[..i + 1], Fails)| == |Filter(rs[..i], Fails)| + if Fails(rs[i]) then 1 else 0
    ensures |Filter(rs[..i + 1], AtRisk)| == |Filter(rs[..i], AtRisk)| + if AtRisk(rs[i]) then 1 else 0
    ensures |Filter(rs[..i + 1], NeedsAttention)| == |Filter(rs[..i], NeedsAttention)| + if NeedsAttention(rs[i]) then 1 else 0
  {
    assert rs[..i + 1] == rs[..i] + [rs[i]];
    FilterSnoc(rs[..i], rs[i], Passes);
    FilterSnoc(rs[..i], rs[i], Fails);
    FilterSnoc(rs[..i], rs[i], AtRisk);
    FilterSnoc(rs[..i], rs[i], NeedsAttention);
  }

  /** `results.forEach` with the four counters. */
  method CountOutcomes(results: seq<ResultRow>) returns (passCount: nat, failCount: nat, atRiskCount: nat, attentionCount: nat)
    ensures passCount == |Filter(results, Passes)| && failCount == |Filter(results, Fails)|
    ensures atRiskCount == |Filter(results, AtRisk)| && attentionCount == |Filter(results, NeedsAttention)|
  {
    passCount, failCount, atRiskCount, attentionCount := 0, 0, 0, 0;
    var i := 0;
    while i < |results|
      invariant 0 <= i <= |results|
      invariant passCount == |Filter(results[..i], Passes)|
      invariant failCount == |Filter(results[..i], Fails)|
      invariant atRiskCount == |Filter(results[..i], AtRisk)|
      invariant attentionCount == |Filter(results[..i], NeedsAttention)|
    {
      var r := results[i];
      CountStep(results, i);
      if r.percent >= 50.0 {
        passCount := passCount + 1;
      } else {
        failCount := failCount + 1;
      }
      if r.percent < 40.0 {
        atRiskCount := atRiskCount + 1;
      } else if r.percent < 50.0 {
        attentionCount := attentionCount + 1;
      }
      i := i + 1;
    }
    assert results[..|results|] == results;
  }

  /** The students of the teacher's classes, as `studentMap` holds them before the grades. */
  function RosterOf(teacher: string, classSubjectTable: Option<seq<ClassSubjectRow>>, studentTable: Option<seq<StudentRow>>): seq<(string, Entry)>
  {
    Roster(StudentsIn(studentTable.GetOr([]), ClassIds(TeacherClassSubjects(classSubjectTable.GetOr([]), teacher))))
  }

  /** The results after the grades of the teacher's class subjects. */
  function ResultsOf(teacher: string, classSubjectTable: Option<seq<ClassSubjectRow>>, studentTable: Option<seq<StudentRow>>,
                     gradeTable: Option<seq<GradeRow>>): seq<ResultRow>
  {
    var css := TeacherClassSubjects(classSubjectTable.GetOr([]), teacher);
    Results(AddGrades(RosterOf(teacher, classSubjectTable, studentTable), GradesIn(gradeTable.GetOr([]), ClassSubjectIds(css))))
  }

  /** `a` reports on `results`: every count is the number of results with that outcome, every
      rate is that count's rounded percentage, and the top list is the five best. */
  predicate Summarizes(a: Analytics, results: seq<ResultRow>)
  {
    a.totalStudents == |results|
    && a.passCount == |Filter(results, Passes)| && a.failCount == |Filter(results, Fails)|
    && a.atRiskCount == |Filter(results, AtRisk)| && a.attentionCount == |Filter(results, NeedsAttention)|
    && a.passRate == Rate(a.passCount, a.totalStudents) && a.failRate == Rate(a.failCount, a.totalStudents)
    && a.atRiskRate == Rate(a.atRiskCount, a.totalStudents) && a.attentionRate == Rate(a.attentionCount, a.totalStudents)
    && a.topStudents == TopDesc(results, Percent, 5)
  }

  /** A signed-in teacher who is not an admin. */
  predicate IsPlainTeacher(user: Option<string>, roles: Option<seq<string>>)
  {
    user.Some? && UseGrades.HasRole(roles, "teacher") && !UseGrades.HasRole(roles, "admin")
  }

  /** The query function. It answers null (`None`) without a signed-in user and for anyone
      who is not a teacher or is also an admin; the zero result when the teacher has no
      class subjects or no students; otherwise the counts over the roster's results. */
  method ComputeTeacherAnalytics(user: Option<string>, roles: Option<seq<string>>, classSubjectTable: Option<seq<ClassSubjectRow>>,
                                 studentTable: Option<seq<StudentRow>>, gradeTable: Option<seq<GradeRow>>)
    returns (r: Option<Analytics>)
    ensures r.Some? <==> IsPlainTeacher(user, roles)
    ensures IsPlainTeacher(user, roles) ==>
      var css := TeacherClassSubjects(classSubjectTable.GetOr([]), user.value);
      var unassigned := ClassSubjectIds(css) == [] && ClassIds(css) == [];
      (unassigned || RosterOf(user.value, classSubjectTable, studentTable) == [] ==> r.value == NoStudents)
      && (!unassigned && RosterOf(user.value, classSubjectTable, studentTable) != [] ==>
            Summarizes(r.value, ResultsOf(user.value, classSubjectTable, studentTable, gradeTable)))
  {
    if user.None? {
      return None;
    }
    var isTeacher := UseGrades.HasRole(roles, "teacher");
    var isAdmin := UseGrades.HasRole(roles, "admin");
    if !isTeacher || isAdmin {
      return None;
    }
    var classSubjects := TeacherClassSubjects(classSubjectTable.GetOr([]), user.value);
    var classSubjectIds := ClassSubjectIds(classSubjects);
    var classIds := ClassIds(classSubjects);
    if |classSubjectIds| == 0 && |classIds| == 0 {
      return Some(NoStudents);
    }
    var roster := BuildRoster(StudentsIn(studentTable.GetOr([]), classIds));
    if |roster| == 0 {
      return Some(NoStudents);
    }
    var studentMap := SumGrades(roster, GradesIn(gradeTable.GetOr([]), classSubjectIds));
    var results := CollectResults(studentMap);
    var totalStudents := |results|;
    var passCount, failCount, atRiskCount, attentionCount := CountOutcomes(results);
    var topStudents := TopDesc(results, Percent, 5);
    r := Some(Analytics(totalStudents, passCount, failCount, atRiskCount, attentionCount,
                        Rate(passCount, totalStudents), Rate(failCount, totalStudents),
                        Rate(atRiskCount, totalStudents), Rate(attentionCount, totalStudents), topStudents));
  }

  /** What the results mean: one per rostered student, holding the percentage of that
      student's own grades. */
  lemma ResultsFacts(ss: seq<StudentRow>, gs: seq<GradeRow>, i: int)
    requires 0 <= i < |Results(AddGrades(Roster(ss), gs))|
    ensures var results := Results(AddGrades(Roster(ss), gs));
      var own := WithKey(gs, GradeStudentOf, results[i].studentId);
      |results| == |Roster(ss)|
      && (exists s | s in ss :: s.id == results[i].studentId)
      && results[i].percent == PercentOf(Entry(SumScores(own), SumMax(own), results[i].fullName))
  {
    var roster := Roster(ss);
    RosterFacts(ss);
    AddGradesShape(roster, gs);
    TotalsAt(roster, gs, i);
    KeysLength(roster);
    assert roster[i].0 in Keys(roster) by {
      assert Keys(roster)[i] == roster[i].0;
    }
  }

  /** Starting from zero, the i-th student's totals end as the sums over that student's own
      grades. */
  lemma TotalsAt(roster: seq<(string, Entry)>, gs: seq<GradeRow>, i: int)
    requires DistinctKeys(roster) && 0 <= i < |roster|
    requires roster[i].1.totalScore == 0 && roster[i].1.totalMax == 0
    ensures var k := roster[i].0;
      var own := WithKey(gs, GradeStudentOf, k);
      i < |AddGrades(roster, gs)|
      && AddGrades(roster, gs)[i] == (k, Entry(SumScores(own), SumMax(own), roster[i].1.fullName))
  {
    var m := AddGrades(roster, gs);
    var k := roster[i].0;
    AddGradesShape(roster, gs);
    GetDistinct(roster, i);
    GetDistinct(m, i);
    AddGradesGet(roster, gs, k);
  }

  /** The totals keep the roster's keys, in order and without duplicates. */
  lemma AddGradesShape(roster: seq<(string, Entry)>, gs: seq<GradeRow>)
    requires DistinctKeys(roster)
    ensures |AddGrades(roster, gs)| == |roster| && DistinctKeys(AddGrades(roster, gs))
    ensures forall i | 0 <= i < |roster| :: AddGrades(roster, gs)[i].0 == roster[i].0
  {
    var m := AddGrades(roster, gs);
    AddGradesKeys(roster, gs);
    KeysLength(roster);
    KeysLength(m);
    forall i | 0 <= i < |m| ensures m[i].0 == roster[i].0 {
      assert Keys(m)[i] == Keys(roster)[i];
    }
  }

  /** The counters' totals and the rates' bounds. */
  lemma CountsFacts(results: seq<ResultRow>)
    ensures |Filter(results, Passes)| + |Filter(results, Fails)| == |results|
    ensures |Filter(results, AtRisk)| + |Filter(results, NeedsAttention)| == |Filter(results, Fails)|
    ensures 0 <= Rate(|Filter(results, Passes)|, |results|) <= 100
    ensures 0 <= Rate(|Filter(results, Fails)|, |results|) <= 100
    ensures 0 <= Rate(|Filter(results, AtRisk)|, |results|) <= 100
    ensures 0 <= Rate(|Filter(results, NeedsAttention)|, |results|) <= 100
    ensures |Filter(results, Passes)| == |results| > 0 ==> Rate(|Filter(results, Passes)|, |results|) == 100
  {
    OutcomesPartition(results);
    RateBounds(|Filter(results, Passes)|, |results|);
    RateBounds(|Filter(results, Fails)|, |results|);
    RateBounds(|Filter(results, AtRisk)|, |results|);
    RateBounds(|Filter(results, NeedsAttention)|, |results|);
  }
}
