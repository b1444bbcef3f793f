/** The grade-entry grid of the Gradebook page (src/pages/Gradebook.tsx). The page keeps
    `editedGrades`, a record from student id to a record from assessment type id to the text
    typed in that cell; it fills the grid from the stored grades, cleans what is typed,
    normalises a cell when it loses focus, totals each row, colours cells from 60 to 69 red,
    and turns the grid into the batch sent to the grade-saving procedure. */
module Gradebook {
  import opened Common
  import opened Records
  import opened JsNumbers
  import opened Strings
  import opened UseGrades
  import GradeBands

  /** One student's cells: assessment type id to cell text, in insertion order. */
  type Row = seq<(string, string)>

  /** `editedGrades`: student id to that student's cells. */
  type Grid = seq<(string, Row)>

  /** A `students` row; only its id matters to the grid. */
  datatype Student = Student(id: string)

  // ---------------------------------------------------------------- typing into a cell

  /** `[\d.]`: the characters a cell may hold. */
  predicate IsGradeChar(c: char)
  {
    '0' <= c <= '9' || c == '.'
  }

  /** `value.replace(/[^\d.]/g, "")` */
  function Sanitize(s: string): (r: string)
    ensures forall i | 0 <= i < |r| :: IsGradeChar(r[i])
    ensures forall c :: c in r <==> c in s && IsGradeChar(c)
    ensures forall c :: multiset(r)[c] == if IsGradeChar(c) then multiset(s)[c] else 0
  {
    forall c { FilterMembers(s, IsGradeChar, c); }
    forall c { FilterCount(s, IsGradeChar, c); }
    Filter(s, IsGradeChar)
  }

  /** The cleaning works character by character and keeps the order: a digit or dot stays,
      any other character is dropped, and a text made of two parts is cleaned part by part. */
  lemma SanitizeInOrder(s: string, t: string, c: char)
    ensures Sanitize([c]) == if IsGradeChar(c) then [c] else []
    ensures Sanitize(s + t) == Sanitize(s) + Sanitize(t)
  {
    FilterSnoc([], c, IsGradeChar);
    assert [] + [c] == [c];
    FilterConcat(s, t, IsGradeChar);
  }

  /** Cleaning twice changes nothing more. */
  lemma SanitizeIdempotent(s: string)
    ensures Sanitize(Sanitize(s)) == Sanitize(s)
  {
    FilterKeepsAll(Sanitize(s), IsGradeChar);
  }

  /** A text is left alone by the cleaning exactly when it holds only digits and dots. */
  lemma SanitizeFixedPoint(s: string)
    ensures Sanitize(s) == s <==> forall i | 0 <= i < |s| :: IsGradeChar(s[i])
  {
    if forall i | 0 <= i < |s| :: IsGradeChar(s[i]) {
      FilterKeepsAll(s, IsGradeChar);
    }
  }

  // ---------------------------------------------------------------- cells of the grid

  /** `editedGrades[studentId]?.[assessmentTypeId]` */
  function Cell(g: Grid, studentId: string, typeId: string): Option<string>
  {
    match Get(g, studentId)
    case None => None
    case Some(row) => Get(row, typeId)
  }

  /** `{...prev, [studentId]: {...prev[studentId], [typeId]: v}}` */
  function SetCell(g: Grid, studentId: string, typeId: string, v: string): Grid
  {
    Put(g, studentId, Put(Get(g, studentId).GetOr([]), typeId, v))
  }

  /** Writing one cell changes that cell only: every other cell, and every other student's
      whole record, is as before. */
  lemma CellSetCell(g: Grid, studentId: string, typeId: string, v: string, s: string, t: string)
    ensures Cell(SetCell(g, studentId, typeId, v), s, t) ==
      if s == studentId && t == typeId then Some(v) else Cell(g, s, t)
    ensures s != studentId ==> Get(SetCell(g, studentId, typeId, v), s) == Get(g, s)
  {
    var row := Get(g, studentId).GetOr([]);
    GetPut(g, studentId, Put(row, typeId, v), s);
    GetPut(row, typeId, v, t);
  }

  // ---------------------------------------------------------------- leaving a cell

  /** `Math.min(Math.max(0, v), m)` */
  function Clamp(v: int, m: int): (r: int)
    ensures r <= m
    ensures m >= 0 ==> 0 <= r
    ensures 0 <= v <= m ==> r == v
    ensures m >= 0 && v > m ==> r == m
    ensures m >= 0 && v < 0 ==> r == 0
  {
    Min(Max(0, v), m)
  }

  /** What a cell holds after it loses focus: empty when it was empty or is not a number,
      otherwise the floor of its value clamped to [0, maxPoints], written back as text. */
  function BlurredCell(raw: Option<string>, maxPoints: int): string
  {
    var numValue := if raw.Some? && raw.value != "" then JsNumber(raw.value) else None;
    match numValue
    case None => ""
    case Some(n) => IntToString(Clamp(n.Floor, maxPoints))
  }

  lemma IntToStringNonEmpty(n: int)
    ensures IntToString(n) != ""
  {
    NatToStringRoundTrip(if n < 0 then -n else n);
  }

  /** A blurred cell is empty exactly when the typed text was empty or not a number;
      otherwise it reads back as the clamped floor of what was typed. */
  lemma BlurredCellValue(raw: Option<string>, maxPoints: int)
    ensures BlurredCell(raw, maxPoints) == "" <==>
      raw.None? || raw.value == "" || JsNumber(raw.value).None?
    ensures BlurredCell(raw, maxPoints) != "" ==>
      JsNumber(BlurredCell(raw, maxPoints)) == Some(Clamp(JsNumber(raw.value).value.Floor, maxPoints) as real)
  {
    if raw.Some? && raw.value != "" && JsNumber(raw.value).Some? {
      var k := Clamp(JsNumber(raw.value).value.Floor, maxPoints);
      IntToStringNonEmpty(k);
      IntToStringRoundTrip(k);
    }
  }

  /** Leaving a cell a second time changes nothing. */
  lemma BlurIdempotent(raw: Option<string>, maxPoints: int)
    ensures BlurredCell(Some(BlurredCell(raw, maxPoints)), maxPoints) == BlurredCell(raw, maxPoints)
  {
    BlurredCellValue(raw, maxPoints);
    var r := BlurredCell(raw, maxPoints);
    if r != "" {
      var k := Clamp(JsNumber(raw.value).value.Floor, maxPoints);
      assert (k as real).Floor == k;
      assert Clamp(k, maxPoints) == k;
    }
  }

  /** Texts with no number in them are cleared: two dots, or a dot alone. */
  lemma BlurClearsNonNumbers(maxPoints: int)
    ensures BlurredCell(Some("1.2.3"), maxPoints) == ""
    ensures BlurredCell(Some("."), maxPoints) == ""
    ensures BlurredCell(Some(""), maxPoints) == ""
  {
    assert IndexOf("1.2.3", '.') == 1;
    assert !AllDigits("2.3") by { assert !IsDigit("2.3"[1]); }
    assert IndexOf(".", '.') == 0;
  }

  // ---------------------------------------------------------------- the page state

  /** `grades.find(g => g.student_id === studentId && g.assessment_type_id === typeId)` */
  function ExistingGrade(grades: seq<GradeRow>, studentId: string, typeId: string): (r: Option<GradeRow>)
    ensures r.Some? ==> r.value in grades && r.value.studentId == studentId && r.value.assessmentTypeId == typeId
    ensures r.None? ==> forall g | g in grades :: !(g.studentId == studentId && g.assessmentTypeId == typeId)
  {
    if grades == [] then None
    else if grades[0].studentId == studentId && grades[0].assessmentTypeId == typeId then Some(grades[0])
    else ExistingGrade(grades[1..], studentId, typeId)
  }

  /** The initial text of a cell: the stored score, or empty when there is none. */
  function CellText(grades: seq<GradeRow>, studentId: string, typeId: string): string
  {
    match ExistingGrade(grades, studentId, typeId)
    case Some(g) => IntToString(g.score)
    case None => ""
  }

  /** One student's initial cells, one per assessment type. */
  function InitialRow(types: seq<AssessmentType>, grades: seq<GradeRow>, studentId: string): Row
  {
    if types == [] then []
    else
      var t := types[|types| - 1];
      Put(InitialRow(types[..|types| - 1], grades, studentId), t.id, CellText(grades, studentId, t.id))
  }

  /** The grid filled from the stored grades, one record per student. */
  function InitialGrid(students: seq<Student>, types: seq<AssessmentType>, grades: seq<GradeRow>): Grid
  {
    if students == [] then []
    else
      var s := students[|students| - 1];
      Put(InitialGrid(students[..|students| - 1], types, grades), s.id, InitialRow(types, grades, s.id))
  }

  lemma {:induction false} InitialRowGet(types: seq<AssessmentType>, grades: seq<GradeRow>, studentId: string, typeId: string)
    ensures Get(InitialRow(types, grades, studentId), typeId) ==
      if exists i | 0 <= i < |types| :: types[i].id == typeId then Some(CellText(grades, studentId, typeId)) else None
  {
    if types != [] {
      var init := types[..|types| - 1];
      var t := types[|types| - 1];
      InitialRowGet(init, grades, studentId, typeId);
      GetPut(InitialRow(init, grades, studentId), t.id, CellText(grades, studentId, t.id), typeId);
      if exists i | 0 <= i < |types| :: types[i].id == typeId {
        var i :| 0 <= i < |types| && types[i].id == typeId;
        if i < |init| { assert init[i].id == typeId; }
      }
    }
  }

  lemma {:induction false} InitialGridGet(students: seq<Student>, types: seq<AssessmentType>, grades: seq<GradeRow>, studentId: string)
    ensures Get(InitialGrid(students, types, grades), studentId) ==
      if exists i | 0 <= i < |students| :: students[i].id == studentId then Some(InitialRow(types, grades, studentId)) else None
  {
    if students != [] {
      var init := students[..|students| - 1];
      var s := students[|students| - 1];
      InitialGridGet(init, types, grades, studentId);
      GetPut(InitialGrid(init, types, grades), s.id, InitialRow(types, grades, s.id), studentId);
      if exists i | 0 <= i < |students| :: students[i].id == studentId {
        var i :| 0 <= i < |students| && students[i].id == studentId;
        if i < |init| { assert init[i].id == studentId; }
      }
    }
  }

  /** Every (student, assessment type) pair has a cell holding the stored score as text, or
      empty text when no grade is stored; there are no other cells. */
  lemma InitialGridCell(students: seq<Student>, types: seq<AssessmentType>, grades: seq<GradeRow>, studentId: string, typeId: string)
    ensures Cell(InitialGrid(students, types, grades), studentId, typeId) ==
      if (exists i | 0 <= i < |students| :: students[i].id == studentId) && (exists j | 0 <= j < |types| :: types[j].id == typeId)
      then Some(CellText(grades, studentId, typeId)) else None
    ensures ExistingGrade(grades, studentId, typeId).Some? ==>
      JsNumber(CellText(grades, studentId, typeId)) == Some(ExistingGrade(grades, studentId, typeId).value.score as real)
  {
    InitialGridGet(students, types, grades, studentId);
    InitialRowGet(types, grades, studentId, typeId);
    if ExistingGrade(grades, studentId, typeId).Some? {
      IntToStringRoundTrip(ExistingGrade(grades, studentId, typeId).value.score);
    }
  }

  // ---------------------------------------------------------------- the save batch

  /** An element of the batch sent to the grade-saving procedure. */
  datatype GradeEntry = GradeEntry(
    id: Option<string>, studentId: string, classSubjectId: string, assessmentTypeId: string,
    period: string, score: int, maxScore: int, isLocked: bool)

  /** The page state and the fetched rows a save reads. */
  datatype SaveContext = SaveContext(
    classSubjectId: string, period: string, isLocked: bool,
    grades: Option<seq<GradeRow>>, types: Option<seq<AssessmentType>>)

  /** `assessmentTypes?.find(at => at.id === typeId)?.max_points || 0` */
  function MaxScoreOf(types: Option<seq<AssessmentType>>, typeId: string): int
  {
    match types
    case None => 0
    case Some(ts) => MaxPointsIn(ts, typeId)
  }

  function MaxPointsIn(types: seq<AssessmentType>, typeId: string): int
  {
    if types == [] then 0
    else if types[0].id == typeId then types[0].maxPoints
    else MaxPointsIn(types[1..], typeId)
  }

  /** `existingGrade?.id`, kept only when it is a non-empty id. */
  function ExistingId(grades: Option<seq<GradeRow>>, studentId: string, typeId: string): Option<string>
  {
    if grades.None? then None
    else match ExistingGrade(grades.value, studentId, typeId)
      case Some(g) => if g.id != "" then Some(g.id) else None
      case None => None
  }

  /** `Math.min(Math.max(0, Math.floor((raw ? Number(raw) : 0) || 0)), maxScore)` */
  function SaveScore(raw: string, maxScore: int): (score: int)
    ensures score <= maxScore
    ensures maxScore >= 0 ==> 0 <= score
    ensures raw == "" && maxScore >= 0 ==> score == 0
    ensures raw != "" && JsNumber(raw).Some? ==> score == Clamp(JsNumber(raw).value.Floor, maxScore)
    ensures raw != "" && JsNumber(raw).None? && maxScore >= 0 ==> score == 0
  {
    var parsed := if raw != "" then JsNumber(raw) else Some(0.0);
    Clamp(parsed.GetOr(0.0).Floor, maxScore)
  }

  /** The batch entry built from one cell: `gradeData`. */
  function MakeEntry(studentId: string, typeId: string, raw: string, ctx: SaveContext): GradeEntry
  {
    var maxScore := MaxScoreOf(ctx.types, typeId);
    GradeEntry(ExistingId(ctx.grades, studentId, typeId), studentId, ctx.classSubjectId, typeId,
               ctx.period, SaveScore(raw, maxScore), maxScore, ctx.isLocked)
  }

  predicate IsHexDigit(c: char)
  {
    '0' <= c <= '9' || 'a' <= c <= 'f' || 'A' <= c <= 'F'
  }

  /** Position `i` of the accepted UUID layout: hyphens at 8, 13, 18 and 23, the version
      digit 1-5 at 14 (section 4.1.3 of RFC 4122), the variant digit 8, 9, a or b at 19
      (section 4.1.1 of RFC 4122), hexadecimal digits elsewhere. */
  predicate UuidCharOk(i: int, c: char)
  {
    if i == 8 || i == 13 || i == 18 || i == 23 then c == '-'
    else if i == 14 then '1' <= c <= '5'
    else if i == 19 then c in "89abAB"
    else IsHexDigit(c)
  }

  /** `uuidRegex.test(s)` */
  predicate IsUuid(s: string)
  {
    |s| == 36 && forall i | 0 <= i < 36 :: UuidCharOk(i, s[i])
  }

  /** An RFC 4122 version-1 id is accepted; the nil id (version 0) and an id of another
      variant are refused. */
  lemma UuidExamples()
    ensures IsUuid("123e4567-e89b-12d3-a456-426614174000")
    ensures !IsUuid("00000000-0000-0000-0000-000000000000")
    ensures !IsUuid("123e4567-e89b-12d3-c456-426614174000")
  {
    var s := "123e4567-e89b-12d3-a456-426614174000";
    forall i | 0 <= i < 36 ensures UuidCharOk(i, s[i]) {
    }
    assert !UuidCharOk(14, "00000000-0000-0000-0000-000000000000"[14]);
    assert !UuidCharOk(19, "123e4567-e89b-12d3-c456-426614174000"[19]);
  }

  /** `hasRequired && uuidsValid` */
  predicate IsValidEntry(e: GradeEntry)
  {
    e.studentId != "" && e.classSubjectId != "" && e.assessmentTypeId != ""
    && IsUuid(e.studentId) && IsUuid(e.classSubjectId) && IsUuid(e.assessmentTypeId)
  }

  predicate IsInvalidEntry(e: GradeEntry)
  {
    !IsValidEntry(e)
  }

  /** The presence check is implied by the pattern: an entry is valid exactly when its three
      ids have the UUID layout. */
  lemma ValidIffUuids(e: GradeEntry)
    ensures IsValidEntry(e) <==> IsUuid(e.studentId) && IsUuid(e.classSubjectId) && IsUuid(e.assessmentTypeId)
  {
    if IsUuid(e.studentId) && IsUuid(e.classSubjectId) && IsUuid(e.assessmentTypeId) {
      assert |e.studentId| == 36 && |e.classSubjectId| == 36 && |e.assessmentTypeId| == 36;
    }
  }

  /** The entry a cell (student id, assessment type id, text) becomes under `ctx`. */
  function EntryMaker(ctx: SaveContext): (string, string, string) -> GradeEntry
  {
    (studentId: string, typeId: string, raw: string) => MakeEntry(studentId, typeId, raw, ctx)
  }

  /** `mk` applied to each cell of one student's row, in the row's order. */
  function RowMap<E>(studentId: string, row: Row, mk: (string, string, string) -> E): (es: seq<E>)
    ensures |es| == |row|
  {
    if row == [] then []
    else RowMap(studentId, row[..|row| - 1], mk) + [mk(studentId, row[|row| - 1].0, row[|row| - 1].1)]
  }

  /** `mk` applied to each cell of the grid, student by student. */
  function GridMap<E>(g: Grid, mk: (string, string, string) -> E): seq<E>
  {
    if g == [] then []
    else GridMap(g[..|g| - 1], mk) + RowMap(g[|g| - 1].0, g[|g| - 1].1, mk)
  }

  /** One entry per cell of a row, in the row's order. */
  function RowEntries(studentId: string, row: Row, ctx: SaveContext): seq<GradeEntry>
  {
    RowMap(studentId, row, EntryMaker(ctx))
  }

  /** One entry per cell of the grid, student by student (the nested `for...in`). */
  function Entries(g: Grid, ctx: SaveContext): seq<GradeEntry>
  {
    GridMap(g, EntryMaker(ctx))
  }

  /** The cells of a grid as (student id, assessment type id, text), row after row. */
  function Cells(g: Grid): seq<(string, string, string)>
  {
    if g == [] then []
    else Cells(g[..|g| - 1]) + seq(|g[|g| - 1].1|, j requires 0 <= j < |g[|g| - 1].1| =>
                                     (g[|g| - 1].0, g[|g| - 1].1[j].0, g[|g| - 1].1[j].1))
  }

  lemma {:induction false} RowMapAt<E>(studentId: string, row: Row, mk: (string, string, string) -> E)
    ensures forall j | 0 <= j < |row| :: RowMap(studentId, row, mk)[j] == mk(studentId, row[j].0, row[j].1)
  {
    if row != [] {
      RowMapAt(studentId, row[..|row| - 1], mk);
    }
  }

  lemma RowMapSnoc<E>(studentId: string, row: Row, mk: (string, string, string) -> E, j: nat)
    requires j < |row|
    ensures RowMap(studentId, row[..j + 1], mk) == RowMap(studentId, row[..j], mk) + [mk(studentId, row[j].0, row[j].1)]
  {
    assert row[..j + 1][..j] == row[..j];
  }

  lemma {:induction false} GridMapAccount<E>(g: Grid, mk: (string, string, string) -> E)
    ensures |GridMap(g, mk)| == |Cells(g)|
    ensures forall k | 0 <= k < |Cells(g)| :: GridMap(g, mk)[k] == mk(Cells(g)[k].0, Cells(g)[k].1, Cells(g)[k].2)
  {
    if g != [] {
      var init := g[..|g| - 1];
      var last := g[|g| - 1];
      GridMapAccount(init, mk);
      RowMapAt(last.0, last.1, mk);
      var n := |Cells(init)|;
      var row := RowMap(last.0, last.1, mk);
      var tail := seq(|last.1|, j requires 0 <= j < |last.1| => (last.0, last.1[j].0, last.1[j].1));
      assert Cells(g) == Cells(init) + tail;
      assert GridMap(g, mk) == GridMap(init, mk) + row;
      forall k | 0 <= k < |Cells(g)| ensures GridMap(g, mk)[k] == mk(Cells(g)[k].0, Cells(g)[k].1, Cells(g)[k].2) {
        if k < n {
          assert Cells(g)[k] == Cells(init)[k];
          assert GridMap(g, mk)[k] == GridMap(init, mk)[k];
        } else {
          assert Cells(g)[k] == tail[k - n];
          assert GridMap(g, mk)[k] == row[k - n];
        }
      }
    }
  }

  /** The batch has one entry per cell of the grid, in the grid's order: its k-th entry is
      built from the k-th cell. */
  lemma EntriesAccount(g: Grid, ctx: SaveContext)
    ensures |Entries(g, ctx)| == |Cells(g)|
    ensures forall k | 0 <= k < |Cells(g)| ::
      Entries(g, ctx)[k] == MakeEntry(Cells(g)[k].0, Cells(g)[k].1, Cells(g)[k].2, ctx)
  {
    GridMapAccount(g, EntryMaker(ctx));
  }

  /** Every cell of the grid appears among the cells, and nothing else does. */
  lemma {:induction false} CellsMembers(g: Grid, s: string, t: string, v: string)
    ensures (s, t, v) in Cells(g) <==> exists i, j | 0 <= i < |g| && 0 <= j < |g[i].1| :: g[i].0 == s && g[i].1[j] == (t, v)
  {
    if g != [] {
      var init := g[..|g| - 1];
      var last := g[|g| - 1];
      CellsMembers(init, s, t, v);
      var tail := seq(|last.1|, j requires 0 <= j < |last.1| => (last.0, last.1[j].0, last.1[j].1));
      assert Cells(g) == Cells(init) + tail;
      if exists i, j | 0 <= i < |g| && 0 <= j < |g[i].1| :: g[i].0 == s && g[i].1[j] == (t, v) {
        var i, j :| 0 <= i < |g| && 0 <= j < |g[i].1| && g[i].0 == s && g[i].1[j] == (t, v);
        if i < |init| {
          assert init[i] == g[i];
        } else {
          assert tail[j] == (s, t, v);
        }
      }
      if (s, t, v) in tail {
        var j :| 0 <= j < |tail| && tail[j] == (s, t, v);
        assert g[|g| - 1].1[j] == (t, v);
      }
      if exists i, j | 0 <= i < |init| && 0 <= j < |init[i].1| :: init[i].0 == s && init[i].1[j] == (t, v) {
        var i, j :| 0 <= i < |init| && 0 <= j < |init[i].1| && init[i].0 == s && init[i].1[j] == (t, v);
        assert init[i] == g[i];
      }
    }
  }

  /** Every entry scores between 0 and its maximum, carries the page's class subject, period
      and lock, the maximum of its assessment type (0 for an unknown type), and the id of
      the stored grade when there is one. */
  lemma EntryFacts(studentId: string, typeId: string, raw: string, ctx: SaveContext)
    ensures var e := MakeEntry(studentId, typeId, raw, ctx);
      e.score <= e.maxScore && (e.maxScore >= 0 ==> 0 <= e.score)
      && e.maxScore == MaxScoreOf(ctx.types, typeId)
      && (ctx.types.Some? && (forall t | t in ctx.types.value :: t.id != typeId) ==> e.maxScore == 0)
      && e.classSubjectId == ctx.classSubjectId && e.period == ctx.period && e.isLocked == ctx.isLocked
      && (ctx.grades.Some? && ExistingGrade(ctx.grades.value, studentId, typeId).Some?
          && ExistingGrade(ctx.grades.value, studentId, typeId).value.id != "" ==>
            e.id == Some(ExistingGrade(ctx.grades.value, studentId, typeId).value.id))
  {
    if ctx.types.Some? && (forall t | t in ctx.types.value :: t.id != typeId) {
      UnknownTypeMax(ctx.types.value, typeId);
    }
  }

  lemma {:induction false} UnknownTypeMax(types: seq<AssessmentType>, typeId: string)
    requires forall t | t in types :: t.id != typeId
    ensures MaxPointsIn(types, typeId) == 0
  {
    if types != [] {
      assert types[0] in types;
      UnknownTypeMax(types[1..], typeId);
    }
  }

  /** The valid and invalid lists together account for every cell, each exactly once. */
  lemma SaveBatchPartition(g: Grid, ctx: SaveContext)
    ensures |Filter(Entries(g, ctx), IsValidEntry)| + |Filter(Entries(g, ctx), IsInvalidEntry)| == |Cells(g)|
    ensures multiset(Filter(Entries(g, ctx), IsValidEntry)) + multiset(Filter(Entries(g, ctx), IsInvalidEntry))
            == multiset(Entries(g, ctx))
    ensures forall e :: e in Filter(Entries(g, ctx), IsValidEntry) <==>
      e in Entries(g, ctx) && IsUuid(e.studentId) && IsUuid(e.classSubjectId) && IsUuid(e.assessmentTypeId)
  {
    var es := Entries(g, ctx);
    FilterSplit(es, IsValidEntry, IsInvalidEntry);
    EntriesAccount(g, ctx);
    forall e ensures e in Filter(es, IsValidEntry) <==>
      e in es && IsUuid(e.studentId) && IsUuid(e.classSubjectId) && IsUuid(e.assessmentTypeId)
    {
      FilterMembers(es, IsValidEntry, e);
      ValidIffUuids(e);
    }
  }

  // ---------------------------------------------------------------- totals and colour

  /** `Object.values(row).reduce((sum, v) => sum + (Number(v) || 0), 0)` */
  function RowTotal(row: Row): real
  {
    if row == [] then 0.0 else NumberOrZero(row[0].1) + RowTotal(row[1..])
  }

  /** Writing one cell moves the row total by the change in that cell's value; a missing
      cell counts as 0. */
  lemma {:induction false} RowTotalPut(row: Row, typeId: string, v: string)
    ensures RowTotal(Put(row, typeId, v)) == RowTotal(row) - NumberOrZero(Get(row, typeId).GetOr("")) + NumberOrZero(v)
  {
    if row != [] && row[0].0 != typeId {
      RowTotalPut(row[1..], typeId, v);
    }
  }

  /** A text that does not start with a minus sign has a value of at least 0. */
  lemma NumberOrZeroNonNegative(s: string)
    requires s == "" || s[0] != '-'
    ensures NumberOrZero(s) >= 0.0
  {
    if s != "" {
      var u := if s[0] == '+' then s[1..] else s;
      if UnsignedDecimal(u).Some? {
        UnsignedDecimalFloor(u);
      }
    }
  }

  /** A row of cleaned cells totals at least 0. */
  lemma {:induction false} RowTotalNonNegative(row: Row)
    requires forall i | 0 <= i < |row| :: forall k | 0 <= k < |row[i].1| :: IsGradeChar(row[i].1[k])
    ensures RowTotal(row) >= 0.0
  {
    if row != [] {
      assert forall k | 0 <= k < |row[0].1| :: IsGradeChar(row[0].1[k]);
      NumberOrZeroNonNegative(row[0].1);
      RowTotalNonNegative(row[1..]);
    }
  }

  /** The value the page shows for a cell: `Number(row[typeId] || "") || 0`. */
  function ShownValue(row: Row, typeId: string): real
  {
    NumberOrZero(Get(row, typeId).GetOr(""))
  }

  /** `numericValue >= 60 && numericValue <= 69` */
  predicate IsRedGrade(row: Row, typeId: string)
  {
    60.0 <= ShownValue(row, typeId) <= 69.0
  }

  /** A cell is red exactly when the value shown falls in the D band's written range; after
      leaving the cell that is exactly a clamped whole score from 60 to 69. */
  lemma RedGradeIsBandD(row: Row, typeId: string, raw: Option<string>, maxPoints: int)
    ensures IsRedGrade(row, typeId) <==> GradeBands.InRangeAsWritten(GradeBands.D, ShownValue(row, typeId))
    ensures var v := BlurredCell(raw, maxPoints);
      v != "" ==> (IsRedGrade(Put(row, typeId, v), typeId) <==> 60 <= Clamp(JsNumber(raw.value).value.Floor, maxPoints) <= 69)
  {
    var v := BlurredCell(raw, maxPoints);
    BlurredCellValue(raw, maxPoints);
    GetPut(row, typeId, v, typeId);
  }

  /** The Gradebook page's state and its handlers. */
  /** The inner `for...in` of `handleSaveGrades`: each cell of one student's row is pushed to
      the valid or the invalid list, after what earlier rows pushed. */
  method SplitRow(studentId: string, row: Row, ctx: SaveContext, valid0: seq<GradeEntry>, invalid0: seq<GradeEntry>,
                  ghost seen0: seq<GradeEntry>)
    returns (valid: seq<GradeEntry>, invalid: seq<GradeEntry>)
    requires valid0 == Filter(seen0, IsValidEntry) && invalid0 == Filter(seen0, IsInvalidEntry)
    ensures valid == Filter(seen0 + RowEntries(studentId, row, ctx), IsValidEntry)
    ensures invalid == Filter(seen0 + RowEntries(studentId, row, ctx), IsInvalidEntry)
  {
    valid, invalid := valid0, invalid0;
    ghost var seen := seen0;
    var j := 0;
    while j < |row|
      invariant 0 <= j <= |row|
      invariant seen == seen0 + RowEntries(studentId, row[..j], ctx)
      invariant valid == Filter(seen, IsValidEntry) && invalid == Filter(seen, IsInvalidEntry)
    {
      var gradeData := EntryMaker(ctx)(studentId, row[j].0, row[j].1);
      if IsValidEntry(gradeData) {
        valid := valid + [gradeData];
      } else {
        invalid := invalid + [gradeData];
      }
      FilterSnoc(seen, gradeData, IsValidEntry);
      FilterSnoc(seen, gradeData, IsInvalidEntry);
      RowMapSnoc(studentId, row, EntryMaker(ctx), j);
      seen := seen + [gradeData];
      j := j + 1;
    }
    assert row[..|row|] == row;
  }

  class GradebookPage {
    var selectedClass: string
    var selectedSubject: string
    var selectedPeriod: string
    var isLocked: bool
    var editedGrades: Grid

    constructor()
      ensures selectedClass == "" && selectedSubject == "" && selectedPeriod == "p1"
      ensures isLocked && editedGrades == []
    {
      selectedClass := "";
      selectedSubject := "";
      selectedPeriod := "p1";
      isLocked := true;
      editedGrades := [];
    }

    /** The effect that fills the grid once grades, students and assessment types are all
        loaded. */
    method InitGrades(grades: Option<seq<GradeRow>>, students: Option<seq<Student>>, types: Option<seq<AssessmentType>>)
      modifies this`editedGrades
      ensures grades.Some? && students.Some? && types.Some? ==>
        editedGrades == InitialGrid(students.value, types.value, grades.value)
      ensures !(grades.Some? && students.Some? && types.Some?) ==> editedGrades == old(editedGrades)
    {
      if !(grades.Some? && students.Some? && types.Some?) {
        return;
      }
      var gs, ss, ts := grades.value, students.value, types.value;
      var initialGrades: Grid := [];
      var i := 0;
      while i < |ss|
        invariant 0 <= i <= |ss|
        invariant initialGrades == InitialGrid(ss[..i], ts, gs)
      {
        var studentId := ss[i].id;
        var row: Row := [];
        var j := 0;
        while j < |ts|
          invariant 0 <= j <= |ts|
          invariant row == InitialRow(ts[..j], gs, studentId)
        {
          var typeId := ts[j].id;
          var existingGrade := ExistingGrade(gs, studentId, typeId);
          var text := if existingGrade.Some? then IntToString(existingGrade.value.score) else "";
          assert ts[..j + 1][..j] == ts[..j];
          row := Put(row, typeId, text);
          j := j + 1;
        }
        assert ts[..|ts|] == ts;
        assert ss[..i + 1][..i] == ss[..i];
        initialGrades := Put(initialGrades, studentId, row);
        i := i + 1;
      }
      assert ss[..|ss|] == ss;
      editedGrades := initialGrades;
    }

    /** `handleGradeChange`: the cell receives the typed text with everything but digits and
        dots removed; nothing else changes. */
    method HandleGradeChange(studentId: string, typeId: string, value: string)
      modifies this`editedGrades
      ensures editedGrades == SetCell(old(editedGrades), studentId, typeId, Sanitize(value))
      ensures Cell(editedGrades, studentId, typeId) == Some(Sanitize(value))
      ensures forall s, t | s != studentId || t != typeId :: Cell(editedGrades, s, t) == Cell(old(editedGrades), s, t)
    {
      ghost var before := editedGrades;
      var sanitized := Sanitize(value);
      editedGrades := SetCell(editedGrades, studentId, typeId, sanitized);
      forall s, t ensures Cell(editedGrades, s, t) == if s == studentId && t == typeId then Some(sanitized) else Cell(before, s, t) {
        CellSetCell(before, studentId, typeId, sanitized, s, t);
      }
    }

    /** `handleGradeBlur`: an empty or non-numeric cell is cleared; any other is replaced by
        its floor clamped to [0, maxPoints]; nothing else changes. */
    method HandleGradeBlur(studentId: string, typeId: string, maxPoints: int)
      modifies this`editedGrades
      ensures editedGrades == SetCell(old(editedGrades), studentId, typeId,
                                      BlurredCell(Cell(old(editedGrades), studentId, typeId), maxPoints))
      ensures forall s, t | s != studentId || t != typeId :: Cell(editedGrades, s, t) == Cell(old(editedGrades), s, t)
    {
      ghost var before := editedGrades;
      var raw := Cell(editedGrades, studentId, typeId);
      var numValue := if raw.Some? && raw.value != "" then JsNumber(raw.value) else None;
      var v: string;
      if numValue.None? {
        v := "";
      } else {
        var clamped := Min(Max(0, numValue.value.Floor), maxPoints);
        v := IntToString(clamped);
      }
      editedGrades := SetCell(editedGrades, studentId, typeId, v);
      forall s, t ensures Cell(editedGrades, s, t) == if s == studentId && t == typeId then Some(v) else Cell(before, s, t) {
        CellSetCell(before, studentId, typeId, v, s, t);
      }
    }

    /** `handleSaveGrades`: every cell becomes an entry, valid ones in `gradesToSave` and the
        rest in `invalidGrades`; the batch is sent only when it is not empty. */
    method HandleSaveGrades(grades: Option<seq<GradeRow>>, types: Option<seq<AssessmentType>>)
      returns (gradesToSave: seq<GradeEntry>, invalidGrades: seq<GradeEntry>, sent: Option<seq<GradeEntry>>)
      ensures var es := Entries(editedGrades, SaveContext(selectedSubject, selectedPeriod, isLocked, grades, types));
        gradesToSave == Filter(es, IsValidEntry) && invalidGrades == Filter(es, IsInvalidEntry)
      ensures sent.Some? <==> gradesToSave != []
      ensures sent.Some? ==> sent.value == gradesToSave
    {
      var ctx := SaveContext(selectedSubject, selectedPeriod, isLocked, grades, types);
      gradesToSave := [];
      invalidGrades := [];
      ghost var seen: seq<GradeEntry> := [];
      var i := 0;
      while i < |editedGrades|
        invariant 0 <= i <= |editedGrades|
        invariant seen == Entries(editedGrades[..i], ctx)
        invariant gradesToSave == Filter(seen, IsValidEntry) && invalidGrades == Filter(seen, IsInvalidEntry)
      {
        var studentId := editedGrades[i].0;
        var row := editedGrades[i].1;
        gradesToSave, invalidGrades := SplitRow(studentId, row, ctx, gradesToSave, invalidGrades, seen);
        seen := seen + RowEntries(studentId, row, ctx);
        assert editedGrades[..i + 1][..i] == editedGrades[..i];
        i := i + 1;
      }
      assert editedGrades[..|editedGrades|] == editedGrades;
      sent := if |gradesToSave| == 0 then None else Some(gradesToSave);
    }
  }
}
