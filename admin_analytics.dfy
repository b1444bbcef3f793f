/** The school-wide analytics of the admin dashboard (src/hooks/useAdminAnalytics.ts): how
    students spread over classes and departments, each class's average, each student's
    average and the letter-band distribution of those averages. The fetched rows are
    inputs; `None` is a query that reported an error. */
module AdminAnalytics {
  import opened Common
  import opened Records
  import opened Sorting
  import opened JsNumbers
  import opened GradeBands

  /** A `students` row with the names of its class and department, when joined. */
  datatype StudentRow = StudentRow(id: string, className: Option<string>, departmentName: Option<string>)

  /** A `student_grades` row with the name of its student's class, when joined. */
  datatype GradeRow = GradeRow(score: Option<int>, maxScore: Option<int>, studentId: string, className: Option<string>)

  /** `name || "Unassigned"` */
  function OrUnassigned(name: Option<string>): (r: string)
    ensures name.None? || name.value == "" ==> r == "Unassigned"
    ensures name.Some? && name.value != "" ==> r == name.value
  {
    if name.Some? && name.value != "" then name.value else "Unassigned"
  }

  function ClassOf(s: StudentRow): string { OrUnassigned(s.className) }
  function DepartmentOf(s: StudentRow): string { OrUnassigned(s.departmentName) }
  function GradeClassOf(g: GradeRow): string { OrUnassigned(g.className) }
  function GradeStudentOf(g: GradeRow): string { g.studentId }

  /** `Number(x || 0)` */
  function OrZero(x: Option<int>): int { x.GetOr(0) }

  // ---------------------------------------------------------------- per-key sums

  /** The running sums kept per class (and per student, where `count` goes unused). */
  datatype Totals = Totals(total: int, max: int, count: nat)

  function NoTotals(g: GradeRow): Totals { Totals(0, 0, 0) }

  function AddGrade(t: Totals, g: GradeRow): Totals
  {
    Totals(t.total + OrZero(g.score), t.max + OrZero(g.maxScore), t.count + 1)
  }

  function SumScores(gs: seq<GradeRow>): int
  {
    if gs == [] then 0 else SumScores(gs[..|gs| - 1]) + OrZero(gs[|gs| - 1].score)
  }

  function SumMax(gs: seq<GradeRow>): int
  {
    if gs == [] then 0 else SumMax(gs[..|gs| - 1]) + OrZero(gs[|gs| - 1].maxScore)
  }

  /** Folding `AddGrade` over a group sums its scores and its maxima and counts it. */
  lemma {:induction false} FoldTotals(gs: seq<GradeRow>)
    requires |gs| > 0
    ensures FoldGroup(gs, NoTotals, AddGrade) == Totals(SumScores(gs), SumMax(gs), |gs|)
  {
    if |gs| > 1 {
      FoldTotals(gs[..|gs| - 1]);
    } else {
      assert gs[..0] == [];
    }
  }

  /** `classScoreMap` */
  function ClassScores(grades: seq<GradeRow>): seq<(string, Totals)>
  {
    Accumulate(grades, GradeClassOf, NoTotals, AddGrade)
  }

  /** `studentGradeMap` */
  function StudentTotals(grades: seq<GradeRow>): seq<(string, Totals)>
  {
    Accumulate(grades, GradeStudentOf, NoTotals, AddGrade)
  }

  /** A class's entry in `classScoreMap` sums the scores and the maxima of exactly the grades
      of that class and counts them; a class with no grades has no entry. */
  lemma ClassScoresGet(grades: seq<GradeRow>, className: string)
    ensures var g := WithKey(grades, GradeClassOf, className);
      Get(ClassScores(grades), className) == if g == [] then None else Some(Totals(SumScores(g), SumMax(g), |g|))
  {
    AccumulateGet(grades, GradeClassOf, NoTotals, AddGrade, className);
    if WithKey(grades, GradeClassOf, className) != [] {
      FoldTotals(WithKey(grades, GradeClassOf, className));
    }
  }

  /** Likewise a student's entry in `studentGradeMap`. */
  lemma StudentTotalsGet(grades: seq<GradeRow>, studentId: string)
    ensures var g := WithKey(grades, GradeStudentOf, studentId);
      Get(StudentTotals(grades), studentId) == if g == [] then None else Some(Totals(SumScores(g), SumMax(g), |g|))
  {
    AccumulateGet(grades, GradeStudentOf, NoTotals, AddGrade, studentId);
    if WithKey(grades, GradeStudentOf, studentId) != [] {
      FoldTotals(WithKey(grades, GradeStudentOf, studentId));
    }
  }

  // ---------------------------------------------------------------- students per class

  function NoIds(s: StudentRow): set<string> { {} }
  function AddId(ids: set<string>, s: StudentRow): set<string> { ids + {s.id} }

  /** `classStudentMap`: class name to the set of its students' ids. */
  function ClassStudents(students: seq<StudentRow>): seq<(string, set<string>)>
  {
    Accumulate(students, ClassOf, NoIds, AddId)
  }

  lemma {:induction false} FoldIds(ss: seq<StudentRow>)
    requires |ss| > 0
    ensures FoldGroup(ss, NoIds, AddId) == set i | 0 <= i < |ss| :: ss[i].id
  {
    if |ss| > 1 {
      var init := ss[..|ss| - 1];
      FoldIds(init);
      assert (set i | 0 <= i < |ss| :: ss[i].id) == (set i | 0 <= i < |init| :: init[i].id) + {ss[|ss| - 1].id};
    }
  }

  /** A class's set holds the ids of exactly the students placed in that class. */
  lemma ClassStudentsGet(students: seq<StudentRow>, className: string)
    ensures var g := WithKey(students, ClassOf, className);
      Get(ClassStudents(students), className) == if g == [] then None else Some(set i | 0 <= i < |g| :: g[i].id)
  {
    AccumulateGet(students, ClassOf, NoIds, AddId, className);
    if WithKey(students, ClassOf, className) != [] {
      FoldIds(WithKey(students, ClassOf, className));
    }
  }

  // ---------------------------------------------------------------- class performance

  datatype ClassPerformance = ClassPerformance(className: string, averageScore: int, studentCount: nat)

  /** `scores.max > 0 ? Math.round((scores.total / scores.max) * 100) : 0` */
  function AverageScore(t: Totals): int
  {
    if t.max > 0 then Round(t.total as real / t.max as real * 100.0) else 0
  }

  /** `classStudentMap.get(className)?.size || 0` */
  function StudentCount(classStudents: seq<(string, set<string>)>, className: string): nat
  {
    match Get(classStudents, className)
    case Some(ids) => |ids|
    case None => 0
  }

  /** The unsorted rows: one per entry of `classScoreMap`, in its order. */
  function PerformanceRows(scores: seq<(string, Totals)>, classStudents: seq<(string, set<string>)>): (rows: seq<ClassPerformance>)
    ensures |rows| == |scores|
    ensures forall i | 0 <= i < |scores| :: rows[i] == ClassPerformance(scores[i].0, AverageScore(scores[i].1), StudentCount(classStudents, scores[i].0))
  {
    if scores == [] then []
    else [ClassPerformance(scores[0].0, AverageScore(scores[0].1), StudentCount(classStudents, scores[0].0))]
         + PerformanceRows(scores[1..], classStudents)
  }

  function AverageKey(c: ClassPerformance): real { c.averageScore as real }

  /** `classPerformance`: the rows sorted by `b.averageScore - a.averageScore`. */
  function ClassPerformanceOf(students: seq<StudentRow>, grades: seq<GradeRow>): seq<ClassPerformance>
  {
    SortDesc(PerformanceRows(ClassScores(grades), ClassStudents(students)), AverageKey)
  }

  /** What a class performance row means: its class has grades; its average is the rounded
      percentage of the class's summed scores over its summed maxima, or 0 when those maxima
      are not positive; its student count is the number of distinct students placed in it. */
  ghost predicate DescribesClass(c: ClassPerformance, students: seq<StudentRow>, grades: seq<GradeRow>)
  {
    var g := WithKey(grades, GradeClassOf, c.className);
    var s := WithKey(students, ClassOf, c.className);
    g != []
    && (SumMax(g) <= 0 ==> c.averageScore == 0)
    && (SumMax(g) > 0 ==> c.averageScore == Round(SumScores(g) as real / SumMax(g) as real * 100.0))
    && c.studentCount == |set k | 0 <= k < |s| :: s[k].id|
  }

  lemma ClassRowFacts(students: seq<StudentRow>, grades: seq<GradeRow>, j: int)
    requires 0 <= j < |ClassScores(grades)|
    ensures DescribesClass(PerformanceRows(ClassScores(grades), ClassStudents(students))[j], students, grades)
  {
    var scores := ClassScores(grades);
    var name := scores[j].0;
    AccumulateKeys(grades, GradeClassOf, NoTotals, AddGrade);
    GetDistinct(scores, j);
    ClassScoresGet(grades, name);
    ClassStudentsGet(students, name);
  }

  /** The class performance list is sorted by average, best first, has one row per class
      that has grades, and every row describes its class. */
  lemma ClassPerformanceFacts(students: seq<StudentRow>, grades: seq<GradeRow>)
    ensures SortedDesc(ClassPerformanceOf(students, grades), AverageKey)
    ensures |ClassPerformanceOf(students, grades)| == |ClassScores(grades)|
    ensures forall c | c in ClassPerformanceOf(students, grades) :: DescribesClass(c, students, grades)
  {
    var rows := PerformanceRows(ClassScores(grades), ClassStudents(students));
    SortDescCorrect(rows, AverageKey);
    forall c | c in ClassPerformanceOf(students, grades) ensures DescribesClass(c, students, grades) {
      assert c in multiset(rows);
      var j :| 0 <= j < |rows| && rows[j] == c;
      ClassRowFacts(students, grades, j);
    }
  }

  // ---------------------------------------------------------------- student averages

  /** `scores.max > 0 ? (scores.total / scores.max) * 100 : 0` */
  function AverageOf(t: Totals): real
  {
    if t.max > 0 then t.total as real / t.max as real * 100.0 else 0.0
  }

  /** `studentAverages`, one entry per entry of `studentGradeMap`. */
  function AverageMap(st: seq<(string, Totals)>): (r: seq<(string, real)>)
    ensures |r| == |st|
    ensures forall i | 0 <= i < |st| :: r[i] == (st[i].0, AverageOf(st[i].1))
  {
    if st == [] then [] else AverageMap(st[..|st| - 1]) + [(st[|st| - 1].0, AverageOf(st[|st| - 1].1))]
  }

  lemma {:induction false} AverageMapKeys(st: seq<(string, Totals)>)
    ensures Keys(AverageMap(st)) == Keys(st)
  {
    KeysLength(st);
    KeysLength(AverageMap(st));
  }

  /** The averages `studentAverages.forEach` walks, one per graded student. */
  function StudentAverages(grades: seq<GradeRow>): seq<real>
  {
    Values(AverageMap(StudentTotals(grades)))
  }

  /** Each graded student contributes exactly one average: the percentage of their summed
      scores over their summed maxima, or 0 when those maxima are 0. */
  lemma StudentAveragesFacts(grades: seq<GradeRow>, i: int)
    requires 0 <= i < |StudentAverages(grades)|
    ensures |StudentAverages(grades)| == |StudentTotals(grades)|
    ensures var sid := StudentTotals(grades)[i].0;
      var g := WithKey(grades, GradeStudentOf, sid);
      g != [] && StudentAverages(grades)[i] == AverageOf(Totals(SumScores(g), SumMax(g), |g|))
    ensures forall k | 0 <= k < |StudentTotals(grades)| && k != i :: StudentTotals(grades)[k].0 != StudentTotals(grades)[i].0
  {
    var st := StudentTotals(grades);
    AccumulateKeys(grades, GradeStudentOf, NoTotals, AddGrade);
    KeysLength(st);
    GetDistinct(st, i);
    StudentTotalsGet(grades, st[i].0);
  }

  /** A student whose scores lie between 0 and their maxima averages between 0 and 100. */
  lemma AverageBounds(t: Totals)
    requires 0 <= t.total <= t.max
    ensures 0.0 <= AverageOf(t) <= 100.0
  {
    if t.max > 0 {
      FractionBounds(t.total as real, t.max as real);
    }
  }

  // ---------------------------------------------------------------- grade distribution

  function AdminLabel(b: Band): string
  {
    match b
    case A => "A (90-100)"
    case B => "B (80-89)"
    case C => "C (70-79)"
    case D => "D (60-69)"
    case F => "F (0-59)"
  }

  /** `gradeDistribution`: the five labels in band order, each with the number of averages
      in that band. */
  function Distribution(xs: seq<real>): seq<(string, nat)>
  {
    [(AdminLabel(A), CountInBand(xs, A)), (AdminLabel(B), CountInBand(xs, B)), (AdminLabel(C), CountInBand(xs, C)),
     (AdminLabel(D), CountInBand(xs, D)), (AdminLabel(F), CountInBand(xs, F))]
  }

  /** The same list counted with the written, gapped bands. */
  function DistributionAsWritten(xs: seq<real>): seq<(string, nat)>
  {
    [(AdminLabel(A), CountAsWritten(xs, A)), (AdminLabel(B), CountAsWritten(xs, B)), (AdminLabel(C), CountAsWritten(xs, C)),
     (AdminLabel(D), CountAsWritten(xs, D)), (AdminLabel(F), CountAsWritten(xs, F))]
  }

  /** The position of a band in `Bands`. */
  function BandIndex(b: Band): (j: nat)
    ensures j < |Bands| && Bands[j] == b
    ensures forall i | 0 <= i < |Bands| :: Bands[i] == b <==> i == j
  {
    match b
    case A => 0
    case B => 1
    case C => 2
    case D => 3
    case F => 4
  }

  /** The labels of `gradeDistribution` are the five band labels, in band order, each once,
      both as intended and as written. */
  lemma DistributionLabels(xs: seq<real>)
    ensures |Distribution(xs)| == |Bands|
    ensures forall j | 0 <= j < |Bands| :: Distribution(xs)[j] == (AdminLabel(Bands[j]), CountInBand(xs, Bands[j]))
    ensures DistinctKeys(Distribution(xs))
    ensures |DistributionAsWritten(xs)| == |Bands|
    ensures forall j | 0 <= j < |Bands| ::
      DistributionAsWritten(xs)[j] == (AdminLabel(Bands[j]), CountAsWritten(xs, Bands[j]))
    ensures DistinctKeys(DistributionAsWritten(xs))
  {
  }

  /** Counting one more average: its band's entry is found holding that band's count so far,
      and setting it to one more gives the distribution with the average included; an
      average without a band changes nothing. */
  lemma DistributionStep(xs: seq<real>, x: real)
    ensures BandOf(x).Some? ==> Get(Distribution(xs), AdminLabel(BandOf(x).value)) == Some(CountInBand(xs, BandOf(x).value))
    ensures BandOf(x).Some? ==>
      Distribution(xs + [x]) == Put<string, nat>(Distribution(xs), AdminLabel(BandOf(x).value), CountInBand(xs, BandOf(x).value) + 1)
    ensures BandOf(x).None? ==> Distribution(xs + [x]) == Distribution(xs)
  {
    if BandOf(x).Some? {
      DistributionFound(xs, BandOf(x).value, CountInBand(xs, BandOf(x).value) + 1);
      DistributionCounted(xs, x, BandOf(x).value);
    } else {
      CountsInBandSnoc(xs, x);
    }
  }

  /** The entry of band `b` is found holding its count, and `Put` on its label replaces
      that entry in place. */
  lemma DistributionFound(xs: seq<real>, b: Band, v: nat)
    ensures Get(Distribution(xs), AdminLabel(b)) == Some(CountInBand(xs, b))
    ensures Put(Distribution(xs), AdminLabel(b), v) == Distribution(xs)[BandIndex(b) := (AdminLabel(b), v)]
  {
    var d := Distribution(xs);
    var j := BandIndex(b);
    DistributionLabels(xs);
    GetPutAt<string, nat>(d, j, v);
  }

  /** One more average in band `b` gives the list with that band's entry one higher. */
  lemma DistributionCounted(xs: seq<real>, x: real, b: Band)
    requires BandOf(x) == Some(b)
    ensures Distribution(xs + [x]) == Distribution(xs)[BandIndex(b) := (AdminLabel(b), CountInBand(xs, b) + 1)]
  {
    var j := BandIndex(b);
    CountsInBandSnoc(xs, x);
    forall i | 0 <= i < |Bands|
      ensures CountInBand(xs + [x], Bands[i]) == CountInBand(xs, Bands[i]) + if i == j then 1 else 0
    {
      assert BandOf(x) == Some(Bands[i]) <==> Bands[i] == b;
    }
    DistributionBumped(xs, xs + [x], j);
    DistributionLabels(xs);
  }

  /** The list after one more value in band `b`: that band's entry is one more. */
  lemma DistributionBumped(xs: seq<real>, ys: seq<real>, j: nat)
    requires j < |Bands|
    requires forall i | 0 <= i < |Bands| :: CountInBand(ys, Bands[i]) == CountInBand(xs, Bands[i]) + if i == j then 1 else 0
    ensures Distribution(ys) == Distribution(xs)[j := (Distribution(xs)[j].0, Distribution(xs)[j].1 + 1)]
  {
    DistributionLabels(xs);
    DistributionLabels(ys);
    var e := Distribution(xs)[j := (Distribution(xs)[j].0, Distribution(xs)[j].1 + 1)];
    forall i | 0 <= i < |Bands| ensures Distribution(ys)[i] == e[i] {
    }
  }

  /** The counts of `gradeDistribution` add up to the number of averages in some band. */
  lemma DistributionTotal(xs: seq<real>)
    ensures SumValues(Distribution(xs)) == Total(xs)
  {
    SumValuesFive(Distribution(xs));
  }

  /** Counting one more average as written: when a closed interval holds it, its band's
      entry is found holding that band's written count so far and is set to one more;
      an average between two bands, or outside 0..100, changes nothing. */
  lemma DistributionStepAsWritten(xs: seq<real>, x: real)
    ensures BandAsWritten(x).Some? ==>
      Get(DistributionAsWritten(xs), AdminLabel(BandAsWritten(x).value)) == Some(CountAsWritten(xs, BandAsWritten(x).value))
    ensures BandAsWritten(x).Some? ==>
      DistributionAsWritten(xs + [x])
        == Put<string, nat>(DistributionAsWritten(xs), AdminLabel(BandAsWritten(x).value), CountAsWritten(xs, BandAsWritten(x).value) + 1)
    ensures BandAsWritten(x).None? ==> DistributionAsWritten(xs + [x]) == DistributionAsWritten(xs)
  {
    if BandAsWritten(x).Some? {
      AsWrittenFound(xs, BandAsWritten(x).value, CountAsWritten(xs, BandAsWritten(x).value) + 1);
      AsWrittenCounted(xs, x, BandAsWritten(x).value);
    } else {
      CountsAsWrittenSnoc(xs, x);
    }
  }

  /** The same two facts for the list as written. */
  lemma AsWrittenFound(xs: seq<real>, b: Band, v: nat)
    ensures Get(DistributionAsWritten(xs), AdminLabel(b)) == Some(CountAsWritten(xs, b))
    ensures Put(DistributionAsWritten(xs), AdminLabel(b), v) == DistributionAsWritten(xs)[BandIndex(b) := (AdminLabel(b), v)]
  {
    var d := DistributionAsWritten(xs);
    var j := BandIndex(b);
    DistributionLabels(xs);
    GetPutAt<string, nat>(d, j, v);
  }

  /** One more average in the closed interval of band `b` gives the written list with that
      band's entry one higher. */
  lemma AsWrittenCounted(xs: seq<real>, x: real, b: Band)
    requires BandAsWritten(x) == Some(b)
    ensures DistributionAsWritten(xs + [x]) == DistributionAsWritten(xs)[BandIndex(b) := (AdminLabel(b), CountAsWritten(xs, b) + 1)]
  {
    var j := BandIndex(b);
    CountsAsWrittenSnoc(xs, x);
    forall i | 0 <= i < |Bands|
      ensures CountAsWritten(xs + [x], Bands[i]) == CountAsWritten(xs, Bands[i]) + if i == j then 1 else 0
    {
      assert BandAsWritten(x) == Some(Bands[i]) <==> Bands[i] == b;
    }
    AsWrittenBumped(xs, xs + [x], j);
    DistributionLabels(xs);
  }

  /** The written list after one more value in band `b`: that band's entry is one more. */
  lemma AsWrittenBumped(xs: seq<real>, ys: seq<real>, j: nat)
    requires j < |Bands|
    requires forall i | 0 <= i < |Bands| :: CountAsWritten(ys, Bands[i]) == CountAsWritten(xs, Bands[i]) + if i == j then 1 else 0
    ensures DistributionAsWritten(ys) == DistributionAsWritten(xs)[j := (DistributionAsWritten(xs)[j].0, DistributionAsWritten(xs)[j].1 + 1)]
  {
    DistributionLabels(xs);
    DistributionLabels(ys);
    var e := DistributionAsWritten(xs)[j := (DistributionAsWritten(xs)[j].0, DistributionAsWritten(xs)[j].1 + 1)];
    forall i | 0 <= i < |Bands| ensures DistributionAsWritten(ys)[i] == e[i] {
    }
  }

  /** What the code as written reports beside `gradeDistribution`: the same labels in the
      same order, no band counting more, a total of at most the averages in scale, and the
      very same list when every average is a whole number. */
  lemma DistributionAsWrittenFacts(xs: seq<real>)
    ensures |DistributionAsWritten(xs)| == |Distribution(xs)| == |Bands|
    ensures forall j | 0 <= j < |Bands| ::
      DistributionAsWritten(xs)[j].0 == Distribution(xs)[j].0 && DistributionAsWritten(xs)[j].1 <= Distribution(xs)[j].1
    ensures SumValues(DistributionAsWritten(xs)) <= SumValues(Distribution(xs)) == CountInScale(xs)
    ensures WholeNumbers(xs) ==> DistributionAsWritten(xs) == Distribution(xs)
  {
    forall b: Band {
      CountAsWrittenAtMost(xs, b);
    }
    SumValuesFive(DistributionAsWritten(xs));
    DistributionTotal(xs);
    TotalCountsScale(xs);
    if WholeNumbers(xs) {
      forall b: Band {
        CountsAgreeOnWholeNumbers(xs, b);
      }
    }
  }

  /** The written bands lose a student whose average is 89.5; the intended bands count it. */
  lemma DistributionGap()
    ensures DistributionAsWritten([89.5])[1] == (AdminLabel(B), 0)
    ensures Distribution([89.5])[1] == (AdminLabel(B), 1)
  {
    assert [89.5][..0] == [];
  }

  // ---------------------------------------------------------------- the whole result

  datatype Analytics = Analytics(
    studentDistributionByClass: seq<(string, nat)>,
    studentDistributionByDepartment: seq<(string, nat)>,
    classPerformance: seq<ClassPerformance>,
    gradeDistribution: seq<(string, nat)>,
    totalStudents: nat, totalClasses: nat, totalDepartments: nat,
    averagePerformance: int)

  /** The result of the `catch`: everything empty and zero. */
  const EmptyAnalytics := Analytics([], [], [], [], 0, 0, 0, 0)

  /** `students.forEach`: the class and department counts and the ids per class. */
  method TallyStudents(ss: seq<StudentRow>)
    returns (byClass: seq<(string, nat)>, byDepartment: seq<(string, nat)>, classStudentMap: seq<(string, set<string>)>)
    ensures byClass == CountBy(ss, ClassOf) && byDepartment == CountBy(ss, DepartmentOf)
    ensures classStudentMap == ClassStudents(ss)
  {
    byClass, byDepartment, classStudentMap := [], [], [];
    var i := 0;
    while i < |ss|
      invariant 0 <= i <= |ss|
      invariant byClass == CountBy(ss[..i], ClassOf)
      invariant byDepartment == CountBy(ss[..i], DepartmentOf)
      invariant classStudentMap == ClassStudents(ss[..i])
    {
      var student := ss[i];
      var className := ClassOf(student);
      var departmentName := DepartmentOf(student);
      byClass := Put(byClass, className, Get(byClass, className).GetOr(0) + 1);
      byDepartment := Put(byDepartment, departmentName, Get(byDepartment, departmentName).GetOr(0) + 1);
      classStudentMap := Put(classStudentMap, className, Get(classStudentMap, className).GetOr({}) + {student.id});
      assert ss[..i + 1][..i] == ss[..i];
      i := i + 1;
    }
    assert ss[..|ss|] == ss;
  }

  /** `grades.forEach` into `classScoreMap`. */
  method SumByClass(gs: seq<GradeRow>) returns (classScoreMap: seq<(string, Totals)>)
    ensures classScoreMap == ClassScores(gs)
  {
    classScoreMap := [];
    var k := 0;
    while k < |gs|
      invariant 0 <= k <= |gs|
      invariant classScoreMap == ClassScores(gs[..k])
    {
      var grade := gs[k];
      var className := GradeClassOf(grade);
      var existing := Get(classScoreMap, className).GetOr(Totals(0, 0, 0));
      classScoreMap := Put(classScoreMap, className, Totals(existing.total + OrZero(grade.score),
                                                            existing.max + OrZero(grade.maxScore), existing.count + 1));
      assert gs[..k + 1][..k] == gs[..k];
      k := k + 1;
    }
    assert gs[..|gs|] == gs;
  }

  /** `grades.forEach` into `studentGradeMap`. */
  method SumByStudent(gs: seq<GradeRow>) returns (studentGradeMap: seq<(string, Totals)>)
    ensures studentGradeMap == StudentTotals(gs)
  {
    studentGradeMap := [];
    var k := 0;
    while k < |gs|
      invariant 0 <= k <= |gs|
      invariant studentGradeMap == StudentTotals(gs[..k])
    {
      var grade := gs[k];
      var existing := Get(studentGradeMap, grade.studentId).GetOr(Totals(0, 0, 0));
      studentGradeMap := Put(studentGradeMap, grade.studentId, Totals(existing.total + OrZero(grade.score),
                                                                      existing.max + OrZero(grade.maxScore), existing.count + 1));
      assert gs[..k + 1][..k] == gs[..k];
      k := k + 1;
    }
    assert gs[..|gs|] == gs;
  }

  /** `studentGradeMap.forEach` into `studentAverages`: since the student ids are distinct,
      every `set` appends. */
  method AveragesOf(studentGradeMap: seq<(string, Totals)>) returns (studentAverages: seq<(string, real)>)
    requires DistinctKeys(studentGradeMap)
    ensures studentAverages == AverageMap(studentGradeMap)
  {
    studentAverages := [];
    var k := 0;
    while k < |studentGradeMap|
      invariant 0 <= k <= |studentGradeMap|
      invariant studentAverages == AverageMap(studentGradeMap[..k])
    {
      var (studentId, scores) := studentGradeMap[k];
      var average := if scores.max > 0 then scores.total as real / scores.max as real * 100.0 else 0.0;
      AverageMapKeys(studentGradeMap[..k]);
      KeysLength(studentGradeMap[..k]);
      PutNew(studentAverages, studentId, average);
      studentAverages := Put(studentAverages, studentId, average);
      assert studentGradeMap[..k + 1][..k] == studentGradeMap[..k];
      k := k + 1;
    }
    assert studentGradeMap[..|studentGradeMap|] == studentGradeMap;
  }

  /** `gradeRanges.forEach` setting every label to 0, then `studentAverages.forEach`
      counting each average in its band. */
  method CountBands(allScores: seq<real>) returns (gradeDistributionCount: seq<(string, nat)>)
    ensures gradeDistributionCount == Distribution(allScores)
  {
    gradeDistributionCount := [];
    var bi := 0;
    while bi < |Bands|
      invariant 0 <= bi <= |Bands|
      invariant gradeDistributionCount == Distribution([])[..bi]
    {
      DistributionLabels([]);
      KeysLength(gradeDistributionCount);
      assert AdminLabel(Bands[bi]) !in Keys(gradeDistributionCount) by {
        forall j | 0 <= j < bi ensures Keys(gradeDistributionCount)[j] != AdminLabel(Bands[bi]) {
          assert Distribution([])[j].0 != Distribution([])[bi].0;
        }
      }
      PutNew(gradeDistributionCount, AdminLabel(Bands[bi]), 0);
      assert Distribution([])[..bi + 1] == Distribution([])[..bi] + [Distribution([])[bi]];
      gradeDistributionCount := Put(gradeDistributionCount, AdminLabel(Bands[bi]), 0);
      bi := bi + 1;
    }
    var k := 0;
    while k < |allScores|
      invariant 0 <= k <= |allScores|
      invariant gradeDistributionCount == Distribution(allScores[..k])
    {
      var average := allScores[k];
      DistributionStep(allScores[..k], average);
      assert allScores[..k + 1] == allScores[..k] + [average];
      var band := BandOf(average);
      if band.Some? {
        var name := AdminLabel(band.value);
        gradeDistributionCount := Put<string, nat>(gradeDistributionCount, name, Get(gradeDistributionCount, name).GetOr(0) + 1);
      }
      k := k + 1;
    }
    assert allScores[..|allScores|] == allScores;
  }

  /** The query function. `students` is `None` when the students query failed, which throws
      into the `catch`; a failed grades query is only logged and counts as no grades; a
      failed count is 0. */
  method ComputeAnalytics(students: Option<seq<StudentRow>>, grades: Option<seq<GradeRow>>,
                          studentTotal: Option<nat>, classTotal: Option<nat>, departmentTotal: Option<nat>)
    returns (r: Analytics)
    ensures students.None? ==> r == EmptyAnalytics
    ensures students.Some? ==>
      var ss, gs := students.value, grades.GetOr([]);
      r.studentDistributionByClass == CountBy(ss, ClassOf)
      && r.studentDistributionByDepartment == CountBy(ss, DepartmentOf)
      && r.classPerformance == ClassPerformanceOf(ss, gs)
      && r.gradeDistribution == Distribution(StudentAverages(gs))
      && r.averagePerformance == MeanRounded(StudentAverages(gs))
      && r.totalStudents == studentTotal.GetOr(0) && r.totalClasses == classTotal.GetOr(0)
      && r.totalDepartments == departmentTotal.GetOr(0)
  {
    if students.None? {
      return EmptyAnalytics;
    }
    var ss := students.value;
    var gs := grades.GetOr([]);
    var byClass, byDepartment, classStudentMap := TallyStudents(ss);
    var classScoreMap := SumByClass(gs);
    var classPerformance := SortDesc(PerformanceRows(classScoreMap, classStudentMap), AverageKey);
    var studentGradeMap := SumByStudent(gs);
    AccumulateKeys(gs, GradeStudentOf, NoTotals, AddGrade);
    var studentAverages := AveragesOf(studentGradeMap);
    var allScores := Values(studentAverages);
    var gradeDistribution := CountBands(allScores);
    r := Analytics(byClass, byDepartment, classPerformance, gradeDistribution,
                   studentTotal.GetOr(0), classTotal.GetOr(0), departmentTotal.GetOr(0), MeanRounded(allScores));
  }

  /** What the result promises besides its definition: both student distributions account
      for every student, the class list is sorted best first, and the grade distribution
      lists the five labels in band order and counts each student average in scale once. */
  lemma AnalyticsFacts(ss: seq<StudentRow>, gs: seq<GradeRow>)
    ensures SumValues(CountBy(ss, ClassOf)) == |ss| && SumValues(CountBy(ss, DepartmentOf)) == |ss|
    ensures SortedDesc(ClassPerformanceOf(ss, gs), AverageKey)
    ensures Keys(Distribution(StudentAverages(gs))) == [AdminLabel(A), AdminLabel(B), AdminLabel(C), AdminLabel(D), AdminLabel(F)]
    ensures SumValues(Distribution(StudentAverages(gs))) == CountInScale(StudentAverages(gs))
    ensures SumValues(DistributionAsWritten(StudentAverages(gs))) <= CountInScale(StudentAverages(gs))
    ensures WholeNumbers(StudentAverages(gs)) ==> DistributionAsWritten(StudentAverages(gs)) == Distribution(StudentAverages(gs))
  {
    CountBySum(ss, ClassOf);
    CountBySum(ss, DepartmentOf);
    ClassPerformanceFacts(ss, gs);
    DistributionLabels(StudentAverages(gs));
    KeysLength(Distribution(StudentAverages(gs)));
    TotalCountsScale(StudentAverages(gs));
    DistributionTotal(StudentAverages(gs));
    DistributionAsWrittenFacts(StudentAverages(gs));
  }
}
