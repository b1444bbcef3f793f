/** The grade queries and the grade-saving mutation (src/hooks/useGrades.ts): who may read a
    class subject's grades, which rows the query keeps, how the save procedure's answer is
    classified, and which cached queries a successful save refreshes. The hosted tables and
    the remote procedure are inputs: a table is `None` when its query reported an error. */
module UseGrades {
  import opened Common

  /** A `student_grades` row. */
  datatype GradeRow = GradeRow(
    id: string, studentId: string, classSubjectId: string, assessmentTypeId: string,
    period: string, score: int, maxScore: int)

  /** An `assessment_types` row. */
  datatype AssessmentType = AssessmentType(id: string, departmentId: Option<string>, maxPoints: int)

  /** The state of a query: not started because it is disabled, failed (its function threw),
      or holding data. */
  datatype Query<T> = Idle | Failed | Data(value: T)

  /** `Array.isArray(roles) && roles.some(r => r.role === role)`; `None` is a failed or
      missing roles lookup. */
  predicate HasRole(roles: Option<seq<string>>, role: string)
  {
    roles.Some? && role in roles.value
  }

  /** The teacher check: a signed-in teacher who is not an admin, asking for a class subject
      that has no row or whose `teacher_id` is not theirs. `cs` is the class_subjects lookup:
      `None` when no row came back, else the row's `teacher_id`. */
  predicate TeacherBlocked(user: Option<string>, roles: Option<seq<string>>, classSubjectId: string, cs: Option<Option<string>>)
  {
    user.Some? && HasRole(roles, "teacher") && !HasRole(roles, "admin") && classSubjectId != ""
    && (cs.None? || cs.value != Some(user.value))
  }

  predicate MatchesQuery(g: GradeRow, classSubjectId: string, period: string)
  {
    (classSubjectId == "" || g.classSubjectId == classSubjectId) && (period == "" || g.period == period)
  }

  /** The grades query function: the teacher check first, then the table narrowed by class
      subject and by period when they are given. */
  method FetchGrades(user: Option<string>, roles: Option<seq<string>>, classSubjectId: string, period: string,
                     cs: Option<Option<string>>, table: Option<seq<GradeRow>>)
    returns (q: Query<seq<GradeRow>>)
    ensures !q.Idle?
    ensures TeacherBlocked(user, roles, classSubjectId, cs) ==> q == Data([])
    ensures !TeacherBlocked(user, roles, classSubjectId, cs) ==> (q.Failed? <==> table.None?)
    ensures !TeacherBlocked(user, roles, classSubjectId, cs) && q.Data? ==>
      |q.value| <= |table.value| &&
      forall g :: g in q.value <==> g in table.value && MatchesQuery(g, classSubjectId, period)
  {
    if user.Some? {
      var isTeacher := HasRole(roles, "teacher");
      var isAdmin := HasRole(roles, "admin");
      if isTeacher && !isAdmin && classSubjectId != "" {
        if cs.None? || cs.value != Some(user.value) {
          return Data([]);
        }
      }
    }
    if table.None? {
      return Failed;
    }
    var rows := table.value;
    if classSubjectId != "" {
      var p := (g: GradeRow) => g.classSubjectId == classSubjectId;
      forall g { FilterMembers(rows, p, g); }
      rows := Filter(rows, p);
    }
    if period != "" {
      var p := (g: GradeRow) => g.period == period;
      forall g { FilterMembers(rows, p, g); }
      rows := Filter(rows, p);
    }
    q := Data(rows);
  }

  /** `enabled: !!classSubjectId && !!period` */
  predicate GradesEnabled(classSubjectId: string, period: string)
  {
    classSubjectId != "" && period != ""
  }

  /** `useGrades`: the query runs only when both the class subject and the period are given,
      and then every row it returns belongs to both. */
  method UseGrades(user: Option<string>, roles: Option<seq<string>>, classSubjectId: string, period: string,
                   cs: Option<Option<string>>, table: Option<seq<GradeRow>>)
    returns (q: Query<seq<GradeRow>>)
    ensures q.Idle? <==> !GradesEnabled(classSubjectId, period)
    ensures q.Data? ==> forall g | g in q.value :: g.classSubjectId == classSubjectId && g.period == period
    ensures q.Data? && HasRole(roles, "admin") && table.Some? ==> forall g | g in table.value && g.classSubjectId == classSubjectId && g.period == period :: g in q.value
  {
    if !GradesEnabled(classSubjectId, period) {
      return Idle;
    }
    q := FetchGrades(user, roles, classSubjectId, period, cs, table);
  }

  /** `useAssessmentTypes`: disabled without a department; otherwise the types of that
      department (the server's `display_order` ordering is taken as given). */
  method UseAssessmentTypes(departmentId: string, table: Option<seq<AssessmentType>>)
    returns (q: Query<seq<AssessmentType>>)
    ensures q.Idle? <==> departmentId == ""
    ensures departmentId != "" ==> (q.Failed? <==> table.None?)
    ensures q.Data? ==> |q.value| <= |table.value|
    ensures q.Data? ==> forall t :: t in q.value <==> t in table.value && t.departmentId == Some(departmentId)
  {
    if departmentId == "" {
      return Idle;
    }
    if table.None? {
      return Failed;
    }
    var rows := table.value;
    var p := (t: AssessmentType) => t.departmentId == Some(departmentId);
    forall t { FilterMembers(rows, p, t); }
    rows := Filter(rows, p);
    q := Data(rows);
  }

  /** A row returned by the `upsert_student_grades` procedure: a saved total carries an id,
      a diagnostic row a missing id or a `diagnostics` text. */
  datatype RpcRow = RpcRow(id: Option<string>, diagnostics: Option<string>)

  predicate Truthy(s: Option<string>)
  {
    s.Some? && s.value != ""
  }

  /** `r && r.id` */
  predicate IsSaved(r: Option<RpcRow>)
  {
    r.Some? && Truthy(r.value.id)
  }

  /** `r && (!r.id || r.diagnostics)` */
  predicate IsDiagnostic(r: Option<RpcRow>)
  {
    r.Some? && (!Truthy(r.value.id) || Truthy(r.value.diagnostics))
  }

  /** Every non-null row is saved or diagnostic; it is both exactly when it has an id and a
      diagnostics text. */
  lemma RowClassification(rows: seq<Option<RpcRow>>, r: Option<RpcRow>)
    requires r in rows && r.Some?
    ensures r in Filter(rows, IsSaved) || r in Filter(rows, IsDiagnostic)
    ensures r in Filter(rows, IsSaved) && r in Filter(rows, IsDiagnostic) <==>
      Truthy(r.value.id) && Truthy(r.value.diagnostics)
  {
    FilterMembers(rows, IsSaved, r);
    FilterMembers(rows, IsDiagnostic, r);
  }

  /** How the save ended, as the toasts report it. */
  datatype SaveOutcome = SaveError | EmptyWarning | NothingSavedWarning | Saved(count: nat)

  /** `onSuccess` / `onError` of the save mutation. `rpc` is `None` when the procedure
      reported an error, else its `data`, which may be null. */
  function SaveOutcomeOf(rpc: Option<Option<seq<Option<RpcRow>>>>): (o: SaveOutcome)
    ensures o.SaveError? <==> rpc.None?
    ensures o.EmptyWarning? <==> rpc.Some? && rpc.value.GetOr([]) == []
    ensures o.NothingSavedWarning? <==>
      rpc.Some? && rpc.value.GetOr([]) != [] && forall r | r in rpc.value.GetOr([]) :: !IsSaved(r)
    ensures o.Saved? ==> o.count == |Filter(rpc.value.GetOr([]), IsSaved)| > 0
  {
    match rpc
    case None => SaveError
    case Some(data) =>
      var rows := data.GetOr([]);
      var saved := Filter(rows, IsSaved);
      forall r { FilterMembers(rows, IsSaved, r); }
      assert |saved| > 0 ==> saved[0] in saved;
      if |rows| == 0 then EmptyWarning
      else if |saved| == 0 then NothingSavedWarning
      else Saved(|saved|)
  }

  /** When nothing was saved, every non-null row the procedure returned is a diagnostic row. */
  lemma NothingSavedAllDiagnostic(rows: seq<Option<RpcRow>>)
    requires SaveOutcomeOf(Some(Some(rows))) == NothingSavedWarning
    ensures forall r | r in rows && r.Some? :: r in Filter(rows, IsDiagnostic)
  {
    forall r | r in rows && r.Some? ensures r in Filter(rows, IsDiagnostic) {
      RowClassification(rows, r);
      FilterMembers(rows, IsSaved, r);
    }
  }

  /** `queryKey[0] === "grades"` */
  predicate IsGradesKey(key: seq<Option<string>>)
  {
    |key| > 0 && key[0] == Some("grades")
  }

  /** The cached queries a save refreshes: those whose key starts with "grades", and only
      after a save that stored at least one row. */
  function Invalidated(o: SaveOutcome, keys: seq<seq<Option<string>>>): (r: seq<seq<Option<string>>>)
    ensures forall k :: k in r <==> o.Saved? && k in keys && IsGradesKey(k)
  {
    forall k { FilterMembers(keys, IsGradesKey, k); }
    if o.Saved? then Filter(keys, IsGradesKey) else []
  }

  /** The key `useGrades` caches under. */
  function GradesKey(classSubjectId: Option<string>, period: Option<string>): seq<Option<string>>
  {
    [Some("grades"), classSubjectId, period]
  }

  /** A successful save refreshes every grades query and no other query. */
  lemma SaveRefreshesGrades(o: SaveOutcome, keys: seq<seq<Option<string>>>, cs: Option<string>, p: Option<string>)
    requires o.Saved? && GradesKey(cs, p) in keys
    ensures GradesKey(cs, p) in Invalidated(o, keys)
    ensures [Some("admin-analytics"), p] !in Invalidated(o, keys)
  {
    assert IsGradesKey(GradesKey(cs, p));
    assert !IsGradesKey([Some("admin-analytics"), p]);
  }
}
