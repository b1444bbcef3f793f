/** The class teacher's five best students (src/hooks/useTeacherTopStudents.ts): the grades of
    the students of the first class the teacher sponsors, narrowed to a period when it is
    one of the known periods, collected into each student's list of percentages, averaged,
    sorted best first and cut to five. The hosted tables are inputs; a table whose query
    reported an error is `None`, which throws into the `catch` and gives no students. */
module TeacherTopStudents {
  import opened Common
  import opened Records
  import opened Sorting
  import opened JsNumbers
  import TeacherClassAnalytics

  /** A `classes` row. */
  datatype ClassRow = ClassRow(id: string, teacherId: Option<string>)

  /** A `students` row. */
  datatype StudentRow = StudentRow(id: string, fullName: string, classId: Option<string>)

  /** A `student_grades` row with its student's name, when joined. */
  datatype GradeRow = GradeRow(score: Option<int>, maxScore: Option<int>, studentId: string, studentName: Option<string>, period: string)

  /** An entry of `studentScores`. */
  datatype Scores = Scores(name: string, scores: seq<real>)

  datatype TopStudent = TopStudent(id: string, name: string, average: int)

  /** The periods the grade query may be narrowed to. */
  const KnownPeriods: seq<string> := ["p1", "p2", "p3", "p4", "p5", "p6", "exam_s1", "exam_s2", "semester1", "semester2", "yearly"]

  /** `period && [...].includes(period)` */
  predicate NarrowsBy(period: Option<string>)
  {
    period.Some? && period.value != "" && period.value in KnownPeriods
  }

  /** The grade query: the grades of the class's students, and of the period when it is a
      known one; any other period narrows nothing. */
  function GradesFor(table: seq<GradeRow>, ss: seq<StudentRow>, period: Option<string>): (r: seq<GradeRow>)
    ensures forall g :: g in r <==>
      g in table && (exists s | s in ss :: s.id == g.studentId) && (NarrowsBy(period) ==> g.period == period.value)
  {
    var p := (g: GradeRow) => (exists s | s in ss :: s.id == g.studentId) && (NarrowsBy(period) ==> g.period == period.value);
    forall g { FilterMembers(table, p, g); }
    Filter(table, p)
  }

  /** Only the eleven listed periods narrow the query; the empty period and any unknown one
      leave every period in. */
  lemma KnownPeriodsOnly()
    ensures NarrowsBy(Some("p1")) && NarrowsBy(Some("yearly")) && NarrowsBy(Some("exam_s2"))
    ensures !NarrowsBy(Some("")) && !NarrowsBy(Some("p7")) && !NarrowsBy(None)
    ensures |KnownPeriods| == 11
  {
  }

  function StudentOf(g: GradeRow): string { g.studentId }

  function Percentage(g: GradeRow): real
  {
    TeacherClassAnalytics.ScorePercent(g.score, g.maxScore)
  }

  /** The entry a student's first grade creates: `grade.students?.full_name || "Unknown"`. */
  function FirstEntry(g: GradeRow): Scores
  {
    Scores(if g.studentName.Some? && g.studentName.value != "" then g.studentName.value else "Unknown", [])
  }

  /** `studentScores.get(studentId)?.scores.push(percentage)` */
  function PushScore(e: Scores, g: GradeRow): Scores
  {
    Scores(e.name, e.scores + [Percentage(g)])
  }

  /** `studentScores` after `grades.forEach`. */
  function StudentScores(gs: seq<GradeRow>): seq<(string, Scores)>
  {
    Accumulate(gs, StudentOf, FirstEntry, PushScore)
  }

  /** The percentages of a student's grades, in order. This hook selects its own grade rows
      (with the student's name and the period), so this is a separate definition from the
      class analytics' `allScores` over that hook's rows. */
  function Percentages(gs: seq<GradeRow>): (ps: seq<real>)
    ensures |ps| == |gs|
    ensures forall i | 0 <= i < |gs| :: ps[i] == Percentage(gs[i])
  {
    if gs == [] then [] else Percentages(gs[..|gs| - 1]) + [Percentage(gs[|gs| - 1])]
  }

  /** A student's entry is named after their first grade and lists the percentages of all
      their grades, in order. */
  lemma {:induction false} FoldScores(gs: seq<GradeRow>)
    requires |gs| > 0
    ensures FoldGroup(gs, FirstEntry, PushScore) == Scores(FirstEntry(gs[0]).name, Percentages(gs))
  {
    if |gs| > 1 {
      FoldScores(gs[..|gs| - 1]);
    } else {
      assert gs[..0] == [];
    }
  }

  /** Each graded student has exactly one entry, holding all their percentages; nobody
      else has one. */
  lemma StudentScoresGet(gs: seq<GradeRow>, id: string)
    ensures DistinctKeys(StudentScores(gs))
    ensures var own := WithKey(gs, StudentOf, id);
      Get(StudentScores(gs), id) == if own == [] then None else Some(Scores(FirstEntry(own[0]).name, Percentages(own)))
  {
    AccumulateKeys(gs, StudentOf, FirstEntry, PushScore);
    AccumulateGet(gs, StudentOf, FirstEntry, PushScore, id);
    if WithKey(gs, StudentOf, id) != [] {
      FoldScores(WithKey(gs, StudentOf, id));
    }
  }

  /** `.map(([id, data]) => ({ id, name, average: Math.round(sum / length) }))` */
  function Averages(m: seq<(string, Scores)>): (rows: seq<TopStudent>)
    ensures |rows| == |m|
    ensures forall i | 0 <= i < |m| :: rows[i] == TopStudent(m[i].0, m[i].1.name, MeanRounded(m[i].1.scores))
  {
    if m == [] then [] else [TopStudent(m[0].0, m[0].1.name, MeanRounded(m[0].1.scores))] + Averages(m[1..])
  }

  function AverageKey(t: TopStudent): real { t.average as real }
  function IdOf(t: TopStudent): string { t.id }

  /** `.sort((a, b) => b.average - a.average).slice(0, 5)` */
  function Top5(m: seq<(string, Scores)>): seq<TopStudent>
  {
    TopDesc(Averages(m), AverageKey, 5)
  }

  /** `grades?.forEach` filling `studentScores`. */
  method FillStudentScores(gs: seq<GradeRow>) returns (studentScores: seq<(string, Scores)>)
    ensures studentScores == StudentScores(gs)
  {
    studentScores := [];
    var i := 0;
    while i < |gs|
      invariant 0 <= i <= |gs|
      invariant studentScores == StudentScores(gs[..i])
    {
      var grade := gs[i];
      var studentId := grade.studentId;
      var percentage := Percentage(grade);
      ghost var before := studentScores;
      if Get(studentScores, studentId).None? {
        GetPut(studentScores, studentId, FirstEntry(grade), studentId);
        studentScores := Put(studentScores, studentId, FirstEntry(grade));
      }
      var entry := Get(studentScores, studentId).value;
      studentScores := Put(studentScores, studentId, Scores(entry.name, entry.scores + [percentage]));
      if Get(before, studentId).None? {
        PutTwice(before, studentId, FirstEntry(grade), Scores(entry.name, entry.scores + [percentage]));
      }
      assert gs[..i + 1][..i] == gs[..i];
      i := i + 1;
    }
    assert gs[..|gs|] == gs;
  }

  /** Setting a key twice is setting it once to the second value. */
  lemma {:induction false} PutTwice<K, V>(r: seq<(K, V)>, k: K, v: V, w: V)
    ensures Put(Put(r, k, v), k, w) == Put(r, k, w)
  {
    if r != [] && r[0].0 != k {
      PutTwice(r[1..], k, v, w);
    }
  }

  /** `.eq("teacher_id", user.id)` */
  function TeacherClasses(table: seq<ClassRow>, teacher: string): (r: seq<ClassRow>)
    ensures forall c :: c in r <==> c in table && c.teacherId == Some(teacher)
  {
    var p := (c: ClassRow) => c.teacherId == Some(teacher);
    forall c { FilterMembers(table, p, c); }
    Filter(table, p)
  }

  /** `.eq("class_id", classId)` */
  function ClassStudents(table: seq<StudentRow>, classId: string): (r: seq<StudentRow>)
    ensures forall s :: s in r <==> s in table && s.classId == Some(classId)
  {
    var p := (s: StudentRow) => s.classId == Some(classId);
    forall s { FilterMembers(table, p, s); }
    Filter(table, p)
  }

  /** The query function: no students without a user, on a failed query, without a
      sponsored class or without students in the first sponsored class; otherwise the five
      best averages over the class's grades. */
  method ComputeTopStudents(user: Option<string>, period: Option<string>, classTable: Option<seq<ClassRow>>,
                            studentTable: Option<seq<StudentRow>>, gradeTable: Option<seq<GradeRow>>)
    returns (top: seq<TopStudent>)
    ensures user.None? || classTable.None? || studentTable.None? || gradeTable.None? ==> top == []
    ensures user.Some? && classTable.Some? && TeacherClasses(classTable.value, user.value) == [] ==> top == []
    ensures user.Some? && classTable.Some? && TeacherClasses(classTable.value, user.value) != [] && studentTable.Some? ==>
      var ss := ClassStudents(studentTable.value, TeacherClasses(classTable.value, user.value)[0].id);
      (ss == [] ==> top == [])
      && (ss != [] && gradeTable.Some? ==> top == Top5(StudentScores(GradesFor(gradeTable.value, ss, period))))
  {
    if user.None? || classTable.None? {
      return [];
    }
    var classList := TeacherClasses(classTable.value, user.value);
    if |classList| == 0 {
      return [];
    }
    var classId := classList[0].id;
    if studentTable.None? {
      return [];
    }
    var students := ClassStudents(studentTable.value, classId);
    if |students| == 0 {
      return [];
    }
    if gradeTable.None? {
      return [];
    }
    var grades := GradesFor(gradeTable.value, students, period);
    var studentScores := FillStudentScores(grades);
    top := Top5(studentScores);
  }

  /** No student left out of the list has a better average than one on it. */
  lemma Top5LeftOut(m: seq<(string, Scores)>)
    ensures forall r, t | r in Averages(m) && r !in Top5(m) && t in Top5(m) :: t.average >= r.average
  {
    var rows := Averages(m);
    TopDescLeftOut(rows, AverageKey, 5);
    forall r, t | r in rows && r !in Top5(m) && t in Top5(m)
      ensures t.average >= r.average
    {
      assert AverageKey(t) >= AverageKey(r);
    }
  }

  /** What the list promises: at most five students, best average first, no student twice,
      and each one a graded student whose average is the rounded mean of the percentages of
      all their grades, named after their first grade. */
  lemma Top5Facts(gs: seq<GradeRow>)
    ensures |Top5(StudentScores(gs))| <= 5
    ensures SortedDesc(Top5(StudentScores(gs)), AverageKey)
    ensures DistinctBy(Top5(StudentScores(gs)), IdOf)
    ensures forall t | t in Top5(StudentScores(gs)) ::
      var own := WithKey(gs, StudentOf, t.id);
      own != [] && t.name == FirstEntry(own[0]).name && t.average == Round(Sum(Percentages(own)) / |own| as real)
    ensures forall r, t | r in Averages(StudentScores(gs)) && r !in Top5(StudentScores(gs)) && t in Top5(StudentScores(gs)) ::
      t.average >= r.average
  {
    var m := StudentScores(gs);
    var rows := Averages(m);
    StudentScoresGet(gs, "");
    TopDescCorrect(rows, AverageKey, 5);
    assert DistinctBy(rows, IdOf) by {
      forall i, j | 0 <= i < j < |rows| ensures rows[i].id != rows[j].id {
        assert rows[i].id == m[i].0 && rows[j].id == m[j].0;
      }
    }
    TopDescDistinct(rows, AverageKey, 5, IdOf);
    Top5LeftOut(m);
    forall t | t in Top5(m)
      ensures var own := WithKey(gs, StudentOf, t.id);
        own != [] && t.name == FirstEntry(own[0]).name && t.average == Round(Sum(Percentages(own)) / |own| as real)
    {
      assert t in rows;
      var i :| 0 <= i < |rows| && rows[i] == t;
      GetDistinct(m, i);
      StudentScoresGet(gs, t.id);
    }
  }
}
