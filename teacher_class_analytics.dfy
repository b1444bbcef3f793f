/** The class teacher's view (src/hooks/useTeacherClassAnalytics.ts): for the first class the
    signed-in teacher sponsors, how many students each of its subjects has, each subject's
    average percentage, the letter-band distribution of every grade's percentage and the
    overall average. The hosted tables are inputs; a table whose query reported an error is
    `None`, which throws into the `catch`. */
module TeacherClassAnalytics {
  import opened Common
  import opened Records
  import opened JsNumbers
  import opened GradeBands

  /** A `classes` row. */
  datatype ClassRow = ClassRow(id: string, name: string, teacherId: Option<string>)

  /** A `students` row. */
  datatype StudentRow = StudentRow(id: string, classId: Option<string>)

  /** A `class_subjects` row with the name of its subject, when joined. */
  datatype ClassSubjectRow = ClassSubjectRow(id: string, classId: Option<string>, subjectName: Option<string>)

  /** A `student_grades` row with the name of its class subject's subject, when joined. */
  datatype GradeRow = GradeRow(score: Option<int>, maxScore: Option<int>, studentId: string, subjectName: Option<string>)

  datatype SubjectPerformance = SubjectPerformance(subjectName: string, averageScore: int, studentCount: nat)

  datatype Analytics = Analytics(
    studentDistributionBySubject: seq<(string, nat)>,
    subjectPerformance: seq<SubjectPerformance>,
    gradeDistribution: seq<(string, nat)>,
    totalStudents: nat, totalSubjects: nat, averagePerformance: int,
    className: string)

  /** The empty result under a given class name. */
  function EmptyFor(className: string): Analytics
  {
    Analytics([], [], [], 0, 0, 0, className)
  }

  /** `name || "Unknown Subject"` */
  function OrUnknown(name: Option<string>): (r: string)
    ensures name.None? || name.value == "" ==> r == "Unknown Subject"
    ensures name.Some? && name.value != "" ==> r == name.value
  {
    if name.Some? && name.value != "" then name.value else "Unknown Subject"
  }

  function SubjectOf(cs: ClassSubjectRow): string { OrUnknown(cs.subjectName) }
  function GradeSubjectOf(g: GradeRow): string { OrUnknown(g.subjectName) }

  // ---------------------------------------------------------------- percentages

  /** `(score / (max_score || 100)) * 100`, a null score counting as 0; the top-students
      hook computes the same percentage. */
  function ScorePercent(score: Option<int>, maxScore: Option<int>): real
  {
    var m := if maxScore.None? || maxScore.value == 0 then 100 else maxScore.value;
    score.GetOr(0) as real / m as real * 100.0
  }

  function Percentage(g: GradeRow): real
  {
    ScorePercent(g.score, g.maxScore)
  }

  /** A grade without a positive maximum is read out of 100, and a score within its
      maximum gives a percentage between 0 and 100. */
  lemma ScorePercentFacts(score: Option<int>, maxScore: Option<int>)
    ensures maxScore.None? || maxScore == Some(0) ==> ScorePercent(score, maxScore) == score.GetOr(0) as real
    ensures var m := if maxScore.None? || maxScore.value == 0 then 100 else maxScore.value;
      m > 0 && 0 <= score.GetOr(0) <= m ==> 0.0 <= ScorePercent(score, maxScore) <= 100.0
  {
    var m := if maxScore.None? || maxScore.value == 0 then 100 else maxScore.value;
    if m > 0 && 0 <= score.GetOr(0) <= m {
      FractionBounds(score.GetOr(0) as real, m as real);
    }
  }

  /** `allScores`: every grade's percentage, in order. */
  function Percentages(gs: seq<GradeRow>): (ps: seq<real>)
    ensures |ps| == |gs|
    ensures forall i | 0 <= i < |gs| :: ps[i] == Percentage(gs[i])
  {
    if gs == [] then [] else Percentages(gs[..|gs| - 1]) + [Percentage(gs[|gs| - 1])]
  }

  // ---------------------------------------------------------------- the subject maps

  /** `subjectDistributionMap` after `classSubjects.forEach`: every subject name at
      `totalStudents`. */
  function SubjectCounts(css: seq<ClassSubjectRow>, totalStudents: nat): seq<(string, nat)>
  {
    if css == [] then [] else Put(SubjectCounts(css[..|css| - 1], totalStudents), SubjectOf(css[|css| - 1]), totalStudents)
  }

  /** `subjectPerformanceMap` after `classSubjects.forEach`: every subject name with no
      scores yet. The `count` field always equals the number of scores and is not kept. */
  function NoScores(css: seq<ClassSubjectRow>): seq<(string, seq<real>)>
  {
    if css == [] then [] else Put(NoScores(css[..|css| - 1]), SubjectOf(css[|css| - 1]), [])
  }

  /** Both maps hold each subject name of the class once, the first with `totalStudents`
      and the second with no scores. */
  lemma {:induction false} SubjectMapsFacts(css: seq<ClassSubjectRow>, totalStudents: nat, name: string)
    ensures DistinctKeys(SubjectCounts(css, totalStudents)) && DistinctKeys(NoScores(css))
    ensures Keys(SubjectCounts(css, totalStudents)) == Keys(NoScores(css))
    ensures (exists cs | cs in css :: SubjectOf(cs) == name) ==>
      Get(SubjectCounts(css, totalStudents), name) == Some(totalStudents) && Get(NoScores(css), name) == Some([])
    ensures (forall cs | cs in css :: SubjectOf(cs) != name) ==>
      Get(SubjectCounts(css, totalStudents), name) == None && Get(NoScores(css), name) == None
  {
    if css != [] {
      var init := css[..|css| - 1];
      var last := css[|css| - 1];
      SubjectMapsFacts(init, totalStudents, name);
      PutDistinct(SubjectCounts(init, totalStudents), SubjectOf(last), totalStudents);
      PutDistinct(NoScores(init), SubjectOf(last), []);
      KeysPut(SubjectCounts(init, totalStudents), SubjectOf(last), totalStudents);
      KeysPut(NoScores(init), SubjectOf(last), []);
      GetPut(SubjectCounts(init, totalStudents), SubjectOf(last), totalStudents, name);
      GetPut(NoScores(init), SubjectOf(last), [], name);
      assert forall cs :: cs in css <==> cs in init || cs == last;
    }
  }

  /** One step of `grades.forEach` on `subjectPerformanceMap`: a grade of a listed subject
      adds its percentage to that subject's scores; any other grade changes nothing. */
  function AddScore(m: seq<(string, seq<real>)>, g: GradeRow): seq<(string, seq<real>)>
  {
    match Get(m, GradeSubjectOf(g))
    case None => m
    case Some(scores) => Put(m, GradeSubjectOf(g), scores + [Percentage(g)])
  }

  function AddScores(m: seq<(string, seq<real>)>, gs: seq<GradeRow>): seq<(string, seq<real>)>
  {
    if gs == [] then m else AddScore(AddScores(m, gs[..|gs| - 1]), gs[|gs| - 1])
  }

  /** After the grades, a listed subject holds the percentages of exactly its own grades, in
      order; a subject that is not listed never gains an entry. */
  lemma {:induction false} AddScoresGet(m: seq<(string, seq<real>)>, gs: seq<GradeRow>, name: string)
    ensures Get(AddScores(m, gs), name) == match Get(m, name)
      case None => None
      case Some(scores) => Some(scores + Percentages(WithKey(gs, GradeSubjectOf, name)))
  {
    if gs != [] {
      var init := gs[..|gs| - 1];
      var g := gs[|gs| - 1];
      AddScoresGet(m, init, name);
      AddScoreGet(AddScores(m, init), g, name);
      var own := WithKey(init, GradeSubjectOf, name);
      if GradeSubjectOf(g) == name {
        assert (own + [g])[..|own|] == own;
        assert WithKey(gs, GradeSubjectOf, name) == own + [g];
        if Get(m, name).Some? {
          var s0 := Get(m, name).value;
          assert s0 + Percentages(own) + [Percentage(g)] == s0 + (Percentages(own) + [Percentage(g)]);
        }
      } else {
        assert WithKey(gs, GradeSubjectOf, name) == own;
      }
    } else if Get(m, name).Some? {
      assert Get(m, name).value + [] == Get(m, name).value;
    }
  }

  /** One grade adds its percentage to its own subject's scores, when listed, and to no other. */
  lemma AddScoreGet(m: seq<(string, seq<real>)>, g: GradeRow, name: string)
    ensures Get(AddScore(m, g), name) ==
      if GradeSubjectOf(g) == name && Get(m, name).Some? then Some(Get(m, name).value + [Percentage(g)]) else Get(m, name)
  {
    var found := Get(m, GradeSubjectOf(g));
    if found.Some? {
      GetPut(m, GradeSubjectOf(g), found.value + [Percentage(g)], name);
    }
  }

  /** The grades never add, remove or reorder a subject. */
  lemma {:induction false} AddScoresKeys(m: seq<(string, seq<real>)>, gs: seq<GradeRow>)
    ensures Keys(AddScores(m, gs)) == Keys(m)
  {
    if gs != [] {
      var before := AddScores(m, gs[..|gs| - 1]);
      var g := gs[|gs| - 1];
      AddScoresKeys(m, gs[..|gs| - 1]);
      var found := Get(before, GradeSubjectOf(g));
      if found.Some? {
        GetKeys(before, GradeSubjectOf(g));
        KeysPut(before, GradeSubjectOf(g), found.value + [Percentage(g)]);
      }
    }
  }

  /** `subjectPerformance`: one row per subject, in the map's order, with the rounded mean of
      its scores (0 without scores) and the class's student count. */
  function PerformanceRows(m: seq<(string, seq<real>)>, totalStudents: nat): (rows: seq<SubjectPerformance>)
    ensures |rows| == |m|
    ensures forall i | 0 <= i < |m| :: rows[i] == SubjectPerformance(m[i].0, MeanRounded(m[i].1), totalStudents)
  {
    if m == [] then [] else [SubjectPerformance(m[0].0, MeanRounded(m[0].1), totalStudents)] + PerformanceRows(m[1..], totalStudents)
  }

  // ---------------------------------------------------------------- grade distribution

  function ClassLabel(b: Band): string
  {
    match b
    case A => "A (90-100%)"
    case B => "B (80-89%)"
    case C => "C (70-79%)"
    case D => "D (60-69%)"
    case F => "F (0-59%)"
  }

  /** `gradeRanges.map(...)` with each band counted by the intended, gap-free bands. */
  function Distribution(ps: seq<real>): seq<(string, nat)>
  {
    [(ClassLabel(A), CountInBand(ps, A)), (ClassLabel(B), CountInBand(ps, B)), (ClassLabel(C), CountInBand(ps, C)),
     (ClassLabel(D), CountInBand(ps, D)), (ClassLabel(F), CountInBand(ps, F))]
  }

  /** `gradeRanges.map(...)` as written: `s >= gr.min && s <= gr.max`. */
  function DistributionAsWritten(ps: seq<real>): seq<(string, nat)>
  {
    [(ClassLabel(A), CountAsWritten(ps, A)), (ClassLabel(B), CountAsWritten(ps, B)), (ClassLabel(C), CountAsWritten(ps, C)),
     (ClassLabel(D), CountAsWritten(ps, D)), (ClassLabel(F), CountAsWritten(ps, F))]
  }

  /** As written, a grade of 179 out of 200 (89.5%) is counted in no band; the intended
      bands count it in B. */
  lemma DistributionGap()
    ensures Percentages([GradeRow(Some(179), Some(200), "s", None)]) == [89.5]
    ensures DistributionAsWritten([89.5])[1] == (ClassLabel(B), 0)
    ensures Distribution([89.5])[1] == (ClassLabel(B), 1)
  {
    assert [89.5][..0] == [];
  }

  /** What the code as written reports beside the intended distribution: the same labels
      in the same order, no band counting more, a total of at most the number of grades,
      and the very same list when every percentage is a whole number. */
  lemma DistributionAsWrittenFacts(ps: seq<real>)
    ensures |DistributionAsWritten(ps)| == |Distribution(ps)| == |Bands|
    ensures forall j | 0 <= j < |Bands| ::
      DistributionAsWritten(ps)[j].0 == Distribution(ps)[j].0 && DistributionAsWritten(ps)[j].1 <= Distribution(ps)[j].1
    ensures SumValues(DistributionAsWritten(ps)) <= SumValues(Distribution(ps)) == CountInScale(ps)
    ensures WholeNumbers(ps) ==> DistributionAsWritten(ps) == Distribution(ps)
  {
    forall b: Band {
      CountAsWrittenAtMost(ps, b);
    }
    SumValuesFive(DistributionAsWritten(ps));
    SumValuesFive(Distribution(ps));
    TotalCountsScale(ps);
    if WholeNumbers(ps) {
      forall b: Band {
        CountsAgreeOnWholeNumbers(ps, b);
      }
    }
  }

  // ---------------------------------------------------------------- the loops

  /** `classSubjects?.forEach` filling both subject maps. */
  method FillSubjectMaps(css: seq<ClassSubjectRow>, totalStudents: nat)
    returns (subjectDistributionMap: seq<(string, nat)>, subjectPerformanceMap: seq<(string, seq<real>)>)
    ensures subjectDistributionMap == SubjectCounts(css, totalStudents)
    ensures subjectPerformanceMap == NoScores(css)
  {
    subjectDistributionMap, subjectPerformanceMap := [], [];
    var i := 0;
    while i < |css|
      invariant 0 <= i <= |css|
      invariant subjectDistributionMap == SubjectCounts(css[..i], totalStudents)
      invariant subjectPerformanceMap == NoScores(css[..i])
    {
      var subjectName := SubjectOf(css[i]);
      subjectDistributionMap := Put(subjectDistributionMap, subjectName, totalStudents);
      subjectPerformanceMap := Put(subjectPerformanceMap, subjectName, []);
      assert css[..i + 1][..i] == css[..i];
      i := i + 1;
    }
    assert css[..|css|] == css;
  }

  /** `grades?.forEach`: every percentage into `allScores`, and into its subject's scores
      when the subject is listed. */
  method ProcessGrades(gs: seq<GradeRow>, subjectPerformanceMap: seq<(string, seq<real>)>)
    returns (allScores: seq<real>, scoresBySubject: seq<(string, seq<real>)>)
    ensures allScores == Percentages(gs)
    ensures scoresBySubject == AddScores(subjectPerformanceMap, gs)
  {
    allScores, scoresBySubject := [], subjectPerformanceMap;
    var i := 0;
    while i < |gs|
      invariant 0 <= i <= |gs|
      invariant allScores == Percentages(gs[..i])
      invariant scoresBySubject == AddScores(subjectPerformanceMap, gs[..i])
    {
      var grade := gs[i];
      var percentage := ScorePercent(grade.score, grade.maxScore);
      var subjectName := GradeSubjectOf(grade);
      allScores := allScores + [percentage];
      var existing := Get(scoresBySubject, subjectName);
      if existing.Some? {
        scoresBySubject := Put(scoresBySubject, subjectName, existing.value + [percentage]);
      }
      assert gs[..i + 1][..i] == gs[..i];
      i := i + 1;
    }
    assert gs[..|gs|] == gs;
  }

  /** The query function. Without a user the result is empty with class name ""; a failed
      query gives the empty result named "Error loading class"; without a sponsored class it
      is named "No Class Assigned"; only the first sponsored class is used, and a class
      without students gives the empty result under its name. The `period` argument only
      keys the cache: no query is narrowed by it. */
  method ComputeClassAnalytics(user: Option<string>, classTable: Option<seq<ClassRow>>, studentTable: Option<seq<StudentRow>>,
                               classSubjectTable: Option<seq<ClassSubjectRow>>, gradeTable: Option<seq<GradeRow>>)
    returns (r: Analytics)
    ensures user.None? ==> r == EmptyFor("")
    ensures user.Some? && classTable.None? ==> r == EmptyFor("Error loading class")
    ensures user.Some? && classTable.Some? && TeacherClasses(classTable.value, user.value) == [] ==> r == EmptyFor("No Class Assigned")
    ensures user.Some? && classTable.Some? && TeacherClasses(classTable.value, user.value) != [] ==>
      var c := TeacherClasses(classTable.value, user.value)[0];
      (studentTable.None? ==> r == EmptyFor("Error loading class"))
      && (studentTable.Some? && ClassStudents(studentTable.value, c.id) == [] ==> r == EmptyFor(c.name))
      && (studentTable.Some? && ClassStudents(studentTable.value, c.id) != [] ==>
            var ss := ClassStudents(studentTable.value, c.id);
            (classSubjectTable.None? || gradeTable.None? ==> r == EmptyFor("Error loading class"))
            && (classSubjectTable.Some? && gradeTable.Some? ==>
                  var css := ClassSubjectsOf(classSubjectTable.value, c.id);
                  var gs := GradesOf(gradeTable.value, ss);
                  Reports(r, c.name, |ss|, css, gs)))
  {
    if user.None? {
      return EmptyFor("");
    }
    if classTable.None? {
      return EmptyFor("Error loading class");
    }
    var classList := TeacherClasses(classTable.value, user.value);
    if |classList| == 0 {
      return EmptyFor("No Class Assigned");
    }
    var classId := classList[0].id;
    var className := classList[0].name;
    if studentTable.None? {
      return EmptyFor("Error loading class");
    }
    var students := ClassStudents(studentTable.value, classId);
    var totalStudents := |students|;
    if totalStudents == 0 {
      return EmptyFor(className);
    }
    if classSubjectTable.None? {
      return EmptyFor("Error loading class");
    }
    var classSubjects := ClassSubjectsOf(classSubjectTable.value, classId);
    var totalSubjects := |classSubjects|;
    var subjectDistributionMap, subjectPerformanceMap := FillSubjectMaps(classSubjects, totalStudents);
    if gradeTable.None? {
      return EmptyFor("Error loading class");
    }
    var grades := GradesOf(gradeTable.value, students);
    var allScores, scoresBySubject := ProcessGrades(grades, subjectPerformanceMap);
    r := Analytics(subjectDistributionMap, PerformanceRows(scoresBySubject, totalStudents), Distribution(allScores),
                   totalStudents, totalSubjects, MeanRounded(allScores), className);
  }

  /** `.eq("teacher_id", user.id)` */
  function TeacherClasses(table: seq<ClassRow>, teacher: string): (r: seq<ClassRow>)
    ensures forall c :: c in r <==> c in table && c.teacherId == Some(teacher)
  {
    var p := (c: ClassRow) => c.teacherId == Some(teacher);
    forall c { FilterMembers(table, p, c); }
    Filter(table, p)
  }

  /** `.eq("class_id", classId)` on `students` */
  function ClassStudents(table: seq<StudentRow>, classId: string): (r: seq<StudentRow>)
    ensures forall s :: s in r <==> s in table && s.classId == Some(classId)
  {
    var p := (s: StudentRow) => s.classId == Some(classId);
    forall s { FilterMembers(table, p, s); }
    Filter(table, p)
  }

  /** `.eq("class_id", classId)` on `class_subjects` */
  function ClassSubjectsOf(table: seq<ClassSubjectRow>, classId: string): (r: seq<ClassSubjectRow>)
    ensures forall cs :: cs in r <==> cs in table && cs.classId == Some(classId)
  {
    var p := (cs: ClassSubjectRow) => cs.classId == Some(classId);
    forall cs { FilterMembers(table, p, cs); }
    Filter(table, p)
  }

  /** `.in("student_id", studentIds)` */
  function GradesOf(table: seq<GradeRow>, ss: seq<StudentRow>): (r: seq<GradeRow>)
    ensures forall g :: g in r <==> g in table && exists s | s in ss :: s.id == g.studentId
  {
    var p := (g: GradeRow) => exists s | s in ss :: s.id == g.studentId;
    forall g { FilterMembers(table, p, g); }
    Filter(table, p)
  }

  /** `r` reports on the class: every subject at the class's student count, each subject's
      average over the percentages of its own grades, the intended band counts and the
      overall average over every grade. */
  predicate Reports(r: Analytics, className: string, totalStudents: nat, css: seq<ClassSubjectRow>, gs: seq<GradeRow>)
  {
    r.className == className && r.totalStudents == totalStudents && r.totalSubjects == |css|
    && r.studentDistributionBySubject == SubjectCounts(css, totalStudents)
    && r.subjectPerformance == PerformanceRows(AddScores(NoScores(css), gs), totalStudents)
    && r.gradeDistribution == Distribution(Percentages(gs))
    && r.averagePerformance == MeanRounded(Percentages(gs))
  }

  /** What a subject performance row means: a subject of the class, whose average is the
      rounded mean of the percentages of the grades naming that subject (0 without any), with
      the class's student count. */
  lemma SubjectPerformanceFacts(css: seq<ClassSubjectRow>, gs: seq<GradeRow>, totalStudents: nat, i: int)
    requires 0 <= i < |PerformanceRows(AddScores(NoScores(css), gs), totalStudents)|
    ensures var row := PerformanceRows(AddScores(NoScores(css), gs), totalStudents)[i];
      (exists cs | cs in css :: SubjectOf(cs) == row.subjectName)
      && row.averageScore == MeanRounded(Percentages(WithKey(gs, GradeSubjectOf, row.subjectName)))
      && row.studentCount == totalStudents
  {
    var m0 := NoScores(css);
    var m := AddScores(m0, gs);
    var name := m[i].0;
    AddScoresKeys(m0, gs);
    KeysLength(m0);
    KeysLength(m);
    SubjectMapsFacts(css, totalStudents, name);
    assert Keys(m)[i] == name;
    assert DistinctKeys(m) by {
      forall a, b | 0 <= a < b < |m| ensures m[a].0 != m[b].0 {
        assert Keys(m)[a] == Keys(m0)[a] && Keys(m)[b] == Keys(m0)[b];
      }
    }
    GetDistinct(m, i);
    GetKeys(m0, name);
    AddScoresGet(m0, gs, name);
    assert [] + Percentages(WithKey(gs, GradeSubjectOf, name)) == Percentages(WithKey(gs, GradeSubjectOf, name));
  }

  /** A grade whose subject is not among the class's subjects still counts in the overall
      average but in no subject's scores. */
  lemma UnlistedSubjectIgnored(css: seq<ClassSubjectRow>, gs: seq<GradeRow>, i: int)
    requires 0 <= i < |gs|
    requires forall cs | cs in css :: SubjectOf(cs) != GradeSubjectOf(gs[i])
    ensures Percentage(gs[i]) in Percentages(gs)
    ensures Get(AddScores(NoScores(css), gs), GradeSubjectOf(gs[i])) == None
  {
    SubjectMapsFacts(css, 0, GradeSubjectOf(gs[i]));
    AddScoresGet(NoScores(css), gs, GradeSubjectOf(gs[i]));
  }
}
