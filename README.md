# smartgrade grade-book client, modelled in Dafny

smartgrade is a school-management web client: admins manage staff, users and students, and
teachers enter grades and read analytics. All data lives in a hosted relational database
whose tables the client queries and updates directly. This project models the logic the
client runs itself on rows it has already fetched, and proves what that logic guarantees.
It covers the following:

- **Grade-entry grid** (`Gradebook`): how typed text is cleaned, how a cell is floored and
  clamped when it loses focus, how the grid is filled from stored grades, row totals, the
  red-grade rule, and how the save batch is split into valid and invalid entries by the
  RFC 4122 layout check.
- **Grade queries and the save mutation** (`UseGrades`): the teacher-only visibility rule,
  when each query runs, the classification of the save procedure's answer, and which cached
  queries a save refreshes.
- **Analytics**:
  - `AdminAnalytics`: school-wide counts, class averages, student averages and the letter
    bands;
  - `TeacherAnalytics`: a teacher's pass, fail, at-risk and attention counts, rates and top
    five students;
  - `TeacherClassAnalytics`: per-subject figures and the letter bands for one class;
  - `TeacherTopStudents`: a class's five best students.

  The letter bands themselves are shared in `GradeBands`. The stable descending sort and
  the top-N cut are shared in `Sorting`.
- **Student tab** (`StudentManagement`): the next student number and the rows the add and
  edit dialogs write.
- **Approval gate** (`ProtectedRoute`) and the two page frames (`AdminLayout`,
  `TeacherLayout`, with the shared link and initials rules in `Sidebar`).
- **Staff and user administration** (`StaffManagement`, `StaffManagementTab`,
  `UserManagement`): the joins, the pending/approved split, and the row updates.
- **Sign-in page** (`Auth`): the student login address, and the check-then-insert that
  gives a staff member a profile and the teacher role.

How the model is built:

- **Pure logic** is written as functions, with lemmas stating what they mean.
- **Code that updates state step by step** is written as classes or as methods with loops,
  each proved against the functions.
  - React state becomes fields.
  - `forEach` loops over fetched rows become `while` loops.
  - `Map`s and keyed objects become insertion-ordered association lists (`Records`).
- **The hosted tables and the authentication service** are inputs. A query that reported
  an error is `None`.
- **JavaScript's numeric conversions** (`Number`, `parseInt`, `String`, `Math.round`) are
  modelled in `JsNumbers` over exact reals.

## Model

| member | source | states |
|---|---|---|
| Gradebook.Sanitize | src/pages/Gradebook.tsx:65 | the cleaned text holds only digits and dots, each digit and dot exactly as many times as the typed text does, and nothing else |
| Gradebook.SanitizeInOrder | src/pages/Gradebook.tsx:65 | a digit or dot is kept and any other character dropped, and a text of two parts is cleaned part by part, so the kept characters stay in their typed order |
| Gradebook.SanitizeIdempotent | src/pages/Gradebook.tsx:65 | cleaning a cleaned text changes nothing |
| Gradebook.SanitizeFixedPoint | src/pages/Gradebook.tsx:65 | a text is left as it is by the cleaning exactly when it holds only digits and dots |
| Gradebook.CellSetCell | src/pages/Gradebook.tsx:66-72 | writing one cell gives that cell the new text; every other cell of the student and every other student's record read as before |
| Gradebook.Clamp | src/pages/Gradebook.tsx:89 | the clamped score is at most the maximum, at least 0 when the maximum is not negative, the score itself when it is already in range, the maximum when the score is above it, and 0 when the score is negative |
| Gradebook.BlurredCellValue | src/pages/Gradebook.tsx:76-96 | a cell left empty or holding no number is cleared, and only then; otherwise it reads back as the floor of the typed value clamped to the maximum |
| Gradebook.BlurIdempotent | src/pages/Gradebook.tsx:75-96 | leaving a cell a second time changes nothing more |
| Gradebook.BlurClearsNonNumbers | src/pages/Gradebook.tsx:77-87 | "1.2.3", "." and "" are cleared on blur, whatever the maximum |
| Gradebook.ExistingGrade | src/pages/Gradebook.tsx:53-55 | a found grade is a stored row of that student and assessment type; when none is found no stored row matches both |
| Gradebook.InitialGridCell | src/pages/Gradebook.tsx:47-61 | every (student, assessment type) pair has a cell, holding the stored score as text (which reads back as that score) or "" when none is stored; no other pair has a cell |
| Gradebook.UuidExamples | src/pages/Gradebook.tsx:102 | the pattern accepts an RFC 4122 version-1 id and rejects the nil id and an id whose variant nibble is not 8, 9, a or b |
| Gradebook.ValidIffUuids | src/pages/Gradebook.tsx:129-132 | an entry is valid exactly when its student, class-subject and assessment-type ids all match the pattern; the presence check adds nothing |
| Gradebook.EntriesAccount | src/pages/Gradebook.tsx:104-138 | the save loop produces one entry per cell, in the grid's order, the k-th built from the k-th cell |
| Gradebook.CellsMembers | src/pages/Gradebook.tsx:104-105 | the cells walked by the two `for...in` loops are exactly the cells of the grid |
| Gradebook.EntryFacts | src/pages/Gradebook.tsx:106-126 | every entry scores between 0 and its maximum, the maximum is the type's `max_points` (0 for an unknown type), it carries the page's class subject, period and lock, and the stored grade's id when there is one |
| Gradebook.UnknownTypeMax | src/pages/Gradebook.tsx:109 | an assessment type that is not listed has maximum 0 |
| Gradebook.SaveBatchPartition | src/pages/Gradebook.tsx:102-138 | the valid and invalid lists together hold every entry exactly once (lengths and multisets), and an entry is valid exactly when its three ids match the pattern |
| Gradebook.SplitRow | src/pages/Gradebook.tsx:105-137 | the inner loop over one student's cells extends both lists so that they stay the valid and the invalid entries of everything seen so far |
| Gradebook.RowTotalPut | src/pages/Gradebook.tsx:306 | writing a cell moves the row total by the new cell value minus the old one, non-numbers counting as 0 |
| Gradebook.NumberOrZeroNonNegative | src/pages/Gradebook.tsx:306 | a text that does not start with a minus sign has a value of at least 0 |
| Gradebook.RowTotalNonNegative | src/pages/Gradebook.tsx:306 | a row of cleaned cells totals at least 0 |
| Gradebook.RedGradeIsBandD | src/pages/Gradebook.tsx:313-314 | a cell is red exactly when its shown value lies in the D band's written range [60, 69]; after a blur, exactly when the clamped floor is between 60 and 69 |
| Gradebook.GradebookPage.constructor | src/pages/Gradebook.tsx:15-19 | no class or subject is selected, the period is "p1", the grid is locked and empty |
| Gradebook.GradebookPage.InitGrades | src/pages/Gradebook.tsx:47-61 | once grades, students and types are all loaded the grid is the grid built from the stored grades; otherwise it is left unchanged |
| Gradebook.GradebookPage.HandleGradeChange | src/pages/Gradebook.tsx:63-73 | the cell receives the cleaned text and every other cell is unchanged |
| Gradebook.GradebookPage.HandleGradeBlur | src/pages/Gradebook.tsx:75-97 | the cell receives its blurred value and every other cell is unchanged |
| Gradebook.GradebookPage.HandleSaveGrades | src/pages/Gradebook.tsx:99-150 | `gradesToSave` and `invalidGrades` are the valid and the invalid entries of the grid, in order; the batch is sent exactly when it is not empty, and what is sent is `gradesToSave` |
| Gradebook.InitialRowGet | src/pages/Gradebook.tsx:50-58 | a student's initial row has a cell exactly for each listed assessment type, holding the stored score's text |
| Gradebook.InitialGridGet | src/pages/Gradebook.tsx:48-59 | the initial grid has a record exactly for each listed student, holding that student's initial row |
| Gradebook.RowMapAt | src/pages/Gradebook.tsx:105-137 | the entries built for one student's row correspond position by position to the row's cells |
| Gradebook.GridMapAccount | src/pages/Gradebook.tsx:104-138 | the entries built for the grid correspond position by position to the grid's cells, student by student |
| Gradebook.SaveScore | src/pages/Gradebook.tsx:111-112 | the score saved for a cell is the floor of its number clamped to 0..maximum; it is 0 for an empty cell or text that is not a number (the `|| 0`), and always within the bounds |
| Gradebook.BlurredCell | src/pages/Gradebook.tsx:76-96 | defines what a cell holds after it loses focus; `BlurredCellValue`, `BlurIdempotent` and `BlurClearsNonNumbers` state its properties |
| Gradebook.IsUuid | src/pages/Gradebook.tsx:102 | defines the id pattern: 36 characters, hex digits with dashes at positions 8, 13, 18 and 23, version 1 to 5, variant 8, 9, a or b; `UuidExamples` and `ValidIffUuids` state its properties |
| Gradebook.SetCell | src/pages/Gradebook.tsx:66-72 | defines writing one cell of the grid; `CellSetCell` states that only that cell changes |
| Gradebook.InitialGrid | src/pages/Gradebook.tsx:47-61 | defines the grid built from the stored grades; `InitialGridGet`, `InitialRowGet` and `InitialGridCell` state its contents |
| Gradebook.RowTotal | src/pages/Gradebook.tsx:306 | defines a row's total, non-numbers counting as 0; `RowTotalPut` and `RowTotalNonNegative` state its properties |
| Gradebook.IsRedGrade | src/pages/Gradebook.tsx:313-314 | defines the red colouring of a cell; `RedGradeIsBandD` states that it is the D band's written range |
| UseGrades.FetchGrades | src/hooks/useGrades.ts:9-54 | a teacher who is not an admin, asking for a class subject that is missing or not theirs, gets `[]`; otherwise the query fails exactly when the table lookup failed and returns exactly the rows matching the class subject and period that are given |
| UseGrades.UseGrades | src/hooks/useGrades.ts:6-56 | the query runs exactly when both the class subject and the period are given; every returned row belongs to both; an admin gets every matching row even with the teacher role |
| UseGrades.UseAssessmentTypes | src/hooks/useGrades.ts:144-170 | the query runs exactly when a department is given, fails exactly when the lookup fails, and returns exactly that department's types |
| UseGrades.RowClassification | src/hooks/useGrades.ts:100-102 | every non-null row is saved or diagnostic, and is both exactly when it has an id and a diagnostics text |
| UseGrades.SaveOutcomeOf | src/hooks/useGrades.ts:96-140 | an error gives the error toast; no rows gives the empty warning; rows none of which is saved give the nothing-saved warning; otherwise the success toast counts the saved rows |
| UseGrades.NothingSavedAllDiagnostic | src/hooks/useGrades.ts:114-122 | when nothing was saved every non-null row is a diagnostic row |
| UseGrades.Invalidated | src/hooks/useGrades.ts:124-127 | the refreshed queries are exactly the cached queries whose key starts with "grades", and only after a save that stored rows |
| UseGrades.SaveRefreshesGrades | src/hooks/useGrades.ts:124-127 | after a successful save every grades query is refreshed and the admin analytics query is not |
| AdminAnalytics.OrUnassigned | src/hooks/useAdminAnalytics.ts:69-70 | a missing or empty class or department name becomes "Unassigned"; any other name is kept |
| AdminAnalytics.FoldTotals | src/hooks/useAdminAnalytics.ts:120-129 | folding the grades of one group sums their scores and their maxima (missing counting as 0) and counts them |
| AdminAnalytics.ClassScoresGet | src/hooks/useAdminAnalytics.ts:118-129 | a class's entry in `classScoreMap` sums the scores and maxima of exactly the grades of that class and counts them; a class with no grades has no entry |
| AdminAnalytics.StudentTotalsGet | src/hooks/useAdminAnalytics.ts:150-160 | a student's entry in `studentGradeMap` sums the scores and maxima of exactly that student's grades; an ungraded student has no entry |
| AdminAnalytics.FoldIds | src/hooks/useAdminAnalytics.ts:79-82 | adding the ids of a group one by one gives the set of their ids |
| AdminAnalytics.ClassStudentsGet | src/hooks/useAdminAnalytics.ts:66-82 | a class's set in `classStudentMap` holds the ids of exactly the students placed in that class; a class with no students has no entry |
| AdminAnalytics.PerformanceRows | src/hooks/useAdminAnalytics.ts:131-136 | one row per entry of `classScoreMap`, in its order, with that class's rounded average and student count |
| AdminAnalytics.ClassRowFacts | src/hooks/useAdminAnalytics.ts:131-136 | each row's class has grades; its average is the rounded percentage of the class's summed scores over its summed maxima, or 0 when the maxima are not positive; its student count is the number of distinct student ids of the class |
| AdminAnalytics.ClassPerformanceFacts | src/hooks/useAdminAnalytics.ts:131-137 | the class list is sorted by average, best first, has one row per class with grades, and every row describes its class as above |
| AdminAnalytics.AverageMap | src/hooks/useAdminAnalytics.ts:162-165 | `studentAverages` has one entry per entry of `studentGradeMap`, with the same key and that student's average |
| AdminAnalytics.AverageMapKeys | src/hooks/useAdminAnalytics.ts:162-165 | `studentAverages` has the same keys as `studentGradeMap`, in the same order |
| AdminAnalytics.StudentAveragesFacts | src/hooks/useAdminAnalytics.ts:148-165 | each graded student contributes exactly one average, the percentage of their summed scores over their summed maxima (0 when the maxima are 0) |
| AdminAnalytics.AverageBounds | src/hooks/useAdminAnalytics.ts:163 | scores between 0 and their maxima give an average between 0 and 100 |
| AdminAnalytics.DistributionLabels | src/hooks/useAdminAnalytics.ts:140-182 | the grade distribution lists the five labels A, B, C, D, F in that order, each once, each with the number of averages in that band; the list as written has the same labels in the same order, each with its closed-interval count |
| AdminAnalytics.DistributionStep | src/hooks/useAdminAnalytics.ts:173-178 | counting one more average finds its band's label holding the count so far and adds one to it; an average in no band changes nothing |
| AdminAnalytics.DistributionTotal | src/hooks/useAdminAnalytics.ts:168-182 | the distribution's counts add up to the number of averages that lie in some band |
| AdminAnalytics.Distribution | src/hooks/useAdminAnalytics.ts:168-182 | defines `gradeDistribution` with the intended bands: the five labels in band order, each with its count; its properties are stated by `DistributionLabels`, `DistributionStep`, `DistributionTotal` and `DistributionAsWrittenFacts` |
| AdminAnalytics.DistributionAsWritten | src/hooks/useAdminAnalytics.ts:168-182 | defines `gradeDistribution` as the code computes it, each average counted by the closed interval `find` returns; its properties are stated by `DistributionLabels`, `DistributionStepAsWritten`, `DistributionAsWrittenFacts` and `DistributionGap` |
| AdminAnalytics.DistributionStepAsWritten | src/hooks/useAdminAnalytics.ts:173-178 | as written, counting one more average finds the label of the closed interval holding it at its count so far and sets it one higher; an average between two intervals or outside 0..100 changes nothing |
| AdminAnalytics.DistributionAsWrittenFacts | src/hooks/useAdminAnalytics.ts:168-182 | the list as written has the intended labels in the same order, no band counts more than intended, its total is at most the number of averages in scale, and it equals the intended list when every average is a whole number |
| AdminAnalytics.TallyStudents | src/hooks/useAdminAnalytics.ts:64-83 | the student loop leaves the class and department counts and `classStudentMap` as their definitions say |
| AdminAnalytics.SumByClass | src/hooks/useAdminAnalytics.ts:118-129 | the grade loop leaves `classScoreMap` as its definition says |
| AdminAnalytics.SumByStudent | src/hooks/useAdminAnalytics.ts:150-160 | the grade loop leaves `studentGradeMap` as its definition says |
| AdminAnalytics.AveragesOf | src/hooks/useAdminAnalytics.ts:149-165 | with distinct student ids, the loop leaves `studentAverages` as `AverageMap` defines it |
| AdminAnalytics.CountBands | src/hooks/useAdminAnalytics.ts:168-178 | the two loops leave `gradeDistributionCount` equal to the distribution of the averages |
| AdminAnalytics.ComputeAnalytics | src/hooks/useAdminAnalytics.ts:39-225 | a failed students query gives the all-empty, all-zero result; otherwise every field is its definition, a failed grades query counting as no grades and a failed count as 0 |
| AdminAnalytics.AnalyticsFacts | src/hooks/useAdminAnalytics.ts:68-182 | the class and department counts each add up to the number of students, the class list is sorted best first, and the grade distribution lists the five labels in band order and counts every average in scale once; the distribution as written counts at most that many, and is the same list when every average is a whole number |
| AdminAnalytics.DistributionGap | src/hooks/useAdminAnalytics.ts:173-178 | as written, a single 89.5 average leaves the B count at 0; with the intended bands it counts 1 |
| GradeBands.BandAsWritten | src/hooks/useAdminAnalytics.ts:140-174 | as written, a percentage is in band b exactly when it lies in b's closed interval [min, max] |
| GradeBands.BandOf | src/hooks/useAdminAnalytics.ts:140-146 | the intended band of a percentage is the one whose half-open range holds it, and a percentage has a band exactly when it lies between 0 and 100 |
| GradeBands.GapExample | src/hooks/useAdminAnalytics.ts:173-178 | 89.5 is in no band as written and in band B as intended |
| GradeBands.AsWrittenMisses | src/hooks/useAdminAnalytics.ts:173-178 | as written, a percentage finds no band exactly when it is below 0, above 100, or strictly between 59 and 60, 69 and 70, 79 and 80, or 89 and 90 |
| GradeBands.AgreeOnWholeNumbers | src/hooks/useAdminAnalytics.ts:140-146 | on whole-number percentages the written and the intended bands agree |
| GradeBands.TotalAsWrittenBound | src/hooks/useTeacherClassAnalytics.ts:178-184 | as written, the five band counts add up to at most the number of percentages |
| GradeBands.TotalCountsScale | src/hooks/useTeacherClassAnalytics.ts:170-184 | with the intended bands the five counts add up to exactly the number of percentages between 0 and 100 |
| GradeBands.TotalGapExample | src/hooks/useTeacherClassAnalytics.ts:178-184 | a single 89.5 is counted by none of the written bands and once by the intended ones |
| GradeBands.CountsAsWrittenSnoc | src/hooks/useTeacherClassAnalytics.ts:179 | as written, one more value adds one to the count of the band whose closed interval holds it and leaves every other count |
| GradeBands.CountAsWrittenAtMost | src/hooks/useTeacherClassAnalytics.ts:179 | no band counts more values as written than with the intended bands |
| GradeBands.CountsAgreeOnWholeNumbers | src/hooks/useTeacherClassAnalytics.ts:179 | on whole-number values every band's written count equals its intended count |
| TeacherClassAnalytics.OrUnknown | src/hooks/useTeacherClassAnalytics.ts:114-142 | a missing or empty subject name becomes "Unknown Subject"; any other name is kept |
| TeacherClassAnalytics.ScorePercentFacts | src/hooks/useTeacherClassAnalytics.ts:139-141 | a grade with a missing or zero maximum is read out of 100, and a score within a positive maximum gives a percentage between 0 and 100 |
| TeacherClassAnalytics.Percentages | src/hooks/useTeacherClassAnalytics.ts:137-144 | `allScores` holds one percentage per grade, in the grades' order |
| TeacherClassAnalytics.SubjectMapsFacts | src/hooks/useTeacherClassAnalytics.ts:110-117 | both subject maps hold each subject name of the class once and the same names; a subject of the class maps to `totalStudents` and to no scores, any other name to nothing |
| TeacherClassAnalytics.AddScoresGet | src/hooks/useTeacherClassAnalytics.ts:138-151 | after the grades a listed subject holds its earlier scores followed by the percentages of exactly its own grades, in order; an unlisted subject never gains an entry |
| TeacherClassAnalytics.AddScoresKeys | src/hooks/useTeacherClassAnalytics.ts:146-150 | the grades never add, remove or reorder a subject |
| TeacherClassAnalytics.PerformanceRows | src/hooks/useTeacherClassAnalytics.ts:159-167 | one row per subject in the map's order, with the rounded mean of its scores (0 without scores) and the class's student count |
| TeacherClassAnalytics.DistributionGap | src/hooks/useTeacherClassAnalytics.ts:178-184 | a grade of 179 out of 200 is 89.5%, counted in no band as written and in B as intended |
| TeacherClassAnalytics.Distribution | src/hooks/useTeacherClassAnalytics.ts:170-184 | defines `gradeDistribution` with the intended bands: the five labels in band order, each with its count; `DistributionAsWrittenFacts` relates it to the code as written |
| TeacherClassAnalytics.DistributionAsWritten | src/hooks/useTeacherClassAnalytics.ts:178-184 | defines `gradeDistribution` as the code computes it, each band counting the percentages in its closed interval; `DistributionGap` and `DistributionAsWrittenFacts` state how it differs from the intended one |
| TeacherClassAnalytics.DistributionAsWrittenFacts | src/hooks/useTeacherClassAnalytics.ts:178-184 | the distribution as written has the intended labels in the same order, no band counts more than intended, its total is at most the number of grades in scale, and it equals the intended distribution when every percentage is a whole number |
| TeacherClassAnalytics.FillSubjectMaps | src/hooks/useTeacherClassAnalytics.ts:113-117 | the loop over the class subjects leaves both maps as their definitions say |
| TeacherClassAnalytics.ProcessGrades | src/hooks/useTeacherClassAnalytics.ts:137-151 | the loop over the grades leaves `allScores` as every grade's percentage and each listed subject's scores as `AddScores` defines them |
| TeacherClassAnalytics.ComputeClassAnalytics | src/hooks/useTeacherClassAnalytics.ts:36-210 | no user gives the empty result named ""; a failed query gives the empty result named "Error loading class"; no sponsored class gives "No Class Assigned"; only the first sponsored class is used; a class without students gives the empty result under its name; otherwise the result reports on that class |
| TeacherClassAnalytics.TeacherClasses | src/hooks/useTeacherClassAnalytics.ts:51-54 | exactly the classes the teacher sponsors |
| TeacherClassAnalytics.ClassStudents | src/hooks/useTeacherClassAnalytics.ts:73-76 | exactly the students of the class |
| TeacherClassAnalytics.ClassSubjectsOf | src/hooks/useTeacherClassAnalytics.ts:95-104 | exactly the class subjects of the class |
| TeacherClassAnalytics.GradesOf | src/hooks/useTeacherClassAnalytics.ts:120-132 | exactly the grades of the class's students |
| TeacherClassAnalytics.SubjectPerformanceFacts | src/hooks/useTeacherClassAnalytics.ts:146-167 | each subject row names a subject of the class, its average is the rounded mean of the percentages of the grades naming that subject (0 without any), and it carries the class's student count |
| TeacherClassAnalytics.UnlistedSubjectIgnored | src/hooks/useTeacherClassAnalytics.ts:144-150 | a grade whose subject is not the class's counts in `allScores` but in no subject's scores |
| JsNumbers.DigitChar | src/components/StudentManagementTab.tsx:45 | the digit character written for a value below 10 reads back as that value |
| JsNumbers.NatToStringRoundTrip | src/components/StudentManagementTab.tsx:45 | `String(n)` of a natural number is a non-empty digit string that reads back as `n` |
| JsNumbers.FractionValue | src/pages/Gradebook.tsx:77 | the digits after a decimal point are worth at least 0 and less than 1 |
| JsNumbers.UnsignedDecimalFloor | src/pages/Gradebook.tsx:77-89 | an unsigned decimal literal is never negative and its floor is the value of its digits before the point |
| JsNumbers.FloorOfWholePlusFraction | src/pages/Gradebook.tsx:89 | a whole number plus a fraction in [0, 1) floors to the whole number |
| JsNumbers.IntToStringRoundTrip | src/pages/Gradebook.tsx:94 | `Number(String(n))` is `n` for every integer |
| JsNumbers.DigitPrefixLength | src/components/StudentManagementTab.tsx:44 | the counted prefix is all digits and is followed by a non-digit or the end |
| JsNumbers.IntToStringParsesBack | src/components/StudentManagementTab.tsx:44-45 | `parseInt(String(n))` is `n` for every integer |
| JsNumbers.Round | src/hooks/useAdminAnalytics.ts:134 | `Math.round(x)` is the integer within a half of `x`, halves rounding up |
| JsNumbers.MeanRoundedBounds | src/hooks/useAdminAnalytics.ts:185-188 | the rounded mean of percentages between 0 and 100 is between 0 and 100 |
| JsNumbers.MeanRounded | src/hooks/useAdminAnalytics.ts:185-188 | no values give 0; otherwise the result is the integer within a half of the mean, halves rounding up |
| JsNumbers.JsNumber | src/pages/Gradebook.tsx:77 | defines `Number(s)` on optionally signed decimals, "" reading as 0; `UnsignedDecimalFloor` and `IntToStringRoundTrip` state its properties |
| JsNumbers.JsParseInt | src/components/StudentManagementTab.tsx:44 | defines `parseInt(s)`: an optional sign and the longest digit prefix, nothing when there is no digit; `DigitPrefixLength` and `IntToStringParsesBack` state its properties |
| JsNumbers.IntToString | src/components/StudentManagementTab.tsx:45 | defines `String(n)` for integers; `IntToStringRoundTrip` and `IntToStringParsesBack` state that `Number` and `parseInt` read it back as `n` |
| TeacherAnalytics.TeacherClassSubjects | src/hooks/useTeacherAnalytics.ts:33-36 | exactly the class subjects the teacher teaches |
| TeacherAnalytics.ClassSubjectIds | src/hooks/useTeacherAnalytics.ts:38 | exactly the non-empty ids of those class subjects |
| TeacherAnalytics.ClassIds | src/hooks/useTeacherAnalytics.ts:39 | exactly the non-empty class ids of those class subjects |
| TeacherAnalytics.StudentsIn | src/hooks/useTeacherAnalytics.ts:57-60 | exactly the students whose class is one of the ids; a student without a class never matches |
| TeacherAnalytics.GradesIn | src/hooks/useTeacherAnalytics.ts:84-87 | exactly the grades of the listed class subjects |
| TeacherAnalytics.RosterFacts | src/hooks/useTeacherAnalytics.ts:63-66 | `studentMap` holds exactly the ids of the students, once each, all with zero totals |
| TeacherAnalytics.AddGradesGet | src/hooks/useTeacherAnalytics.ts:89-96 | after the grades a rostered student's totals grow by the sums of the scores and maxima of exactly their own grades, the name kept; a student not on the roster never appears |
| TeacherAnalytics.AddGradesKeys | src/hooks/useTeacherAnalytics.ts:89-96 | the grades never add, remove or reorder a student |
| TeacherAnalytics.Results | src/hooks/useTeacherAnalytics.ts:99-103 | `results` has one row per entry of `studentMap`, in its order, with its id, name and percentage (0 without a positive maximum) |
| TeacherAnalytics.OutcomesPartition | src/hooks/useTeacherAnalytics.ts:105-119 | every result passes or fails, never both; the failing ones are exactly those at risk (below 40) and those needing attention (40 up to 50) |
| TeacherAnalytics.RateBounds | src/hooks/useTeacherAnalytics.ts:121-124 | a rate of a count within the total is between 0 and 100, and is 100 when every student is counted |
| TeacherAnalytics.BuildRoster | src/hooks/useTeacherAnalytics.ts:63-66 | the loop over the students leaves `studentMap` as the roster |
| TeacherAnalytics.SumGrades | src/hooks/useTeacherAnalytics.ts:89-96 | the loop over the grades leaves `studentMap` as `AddGrades` defines it |
| TeacherAnalytics.CollectResults | src/hooks/useTeacherAnalytics.ts:99-103 | the loop pushing into `results` leaves it as `Results` defines it |
| TeacherAnalytics.CountStep | src/hooks/useTeacherAnalytics.ts:114-119 | one more result adds one to each count whose outcome it has and leaves the others |
| TeacherAnalytics.CountOutcomes | src/hooks/useTeacherAnalytics.ts:109-119 | the four counters end as the numbers of results that pass, fail, are at risk and need attention |
| TeacherAnalytics.ComputeTeacherAnalytics | src/hooks/useTeacherAnalytics.ts:23-141 | the answer is null exactly when there is no user, the user is not a teacher, or is an admin; a teacher without class subjects or students gets the zero result; otherwise the counts, rates and top five summarise the results |
| TeacherAnalytics.ResultsFacts | src/hooks/useTeacherAnalytics.ts:89-103 | there is one result per rostered student, it is a student of the teacher's classes, and its percentage is over that student's own grades |
| TeacherAnalytics.TotalsAt | src/hooks/useTeacherAnalytics.ts:89-96 | a student starting from zero ends with the sums of the scores and maxima of their own grades |
| TeacherAnalytics.AddGradesShape | src/hooks/useTeacherAnalytics.ts:89-96 | the grades keep the roster's length, keys and order, without duplicates |
| TeacherAnalytics.CountsFacts | src/hooks/useTeacherAnalytics.ts:105-124 | passing and failing add up to the number of students, at risk and attention add up to the failing ones, the pass, fail, at-risk and needs-attention rates all lie between 0 and 100, and everyone passing gives a pass rate of 100 |
| TeacherTopStudents.GradesFor | src/hooks/useTeacherTopStudents.ts:43-59 | exactly the grades of the class's students, and of the period when it is a whitelisted one |
| TeacherTopStudents.KnownPeriodsOnly | src/hooks/useTeacherTopStudents.ts:56-59 | the whitelist has 11 periods; "p1", "exam_s2" and "yearly" narrow the query, while "", "p7" and a missing period do not |
| TeacherTopStudents.Percentages | src/hooks/useTeacherTopStudents.ts:71-73 | one percentage per grade, in order, a missing or zero maximum reading as 100 |
| TeacherTopStudents.FoldScores | src/hooks/useTeacherTopStudents.ts:68-79 | a student's entry is named after their first grade and lists the percentages of all their grades in order |
| TeacherTopStudents.StudentScoresGet | src/hooks/useTeacherTopStudents.ts:66-79 | every graded student has exactly one entry, named after their first grade and holding all their percentages; nobody else has one |
| TeacherTopStudents.Averages | src/hooks/useTeacherTopStudents.ts:82-89 | one row per entry, in order, with the student's id, name and rounded mean percentage |
| TeacherTopStudents.FillStudentScores | src/hooks/useTeacherTopStudents.ts:68-79 | the loop over the grades leaves `studentScores` as its definition says |
| TeacherTopStudents.PutTwice | src/hooks/useTeacherTopStudents.ts:75-78 | creating a student's entry and then pushing onto it equals setting the entry once to its final value |
| TeacherTopStudents.TeacherClasses | src/hooks/useTeacherTopStudents.ts:21-24 | exactly the classes the teacher sponsors |
| TeacherTopStudents.ClassStudents | src/hooks/useTeacherTopStudents.ts:32-35 | exactly the students of the class |
| TeacherTopStudents.ComputeTopStudents | src/hooks/useTeacherTopStudents.ts:16-97 | the list is empty without a user, on a failed query, without a sponsored class or without students in the first sponsored class; otherwise it is the top five over that class's grades |
| TeacherTopStudents.Top5Facts | src/hooks/useTeacherTopStudents.ts:82-91 | at most five students, best average first, no student twice, and each one a graded student whose average is the rounded mean of all their percentages, named after their first grade; no student left out of the list has a better average than one on it |
| TeacherTopStudents.Top5LeftOut | src/hooks/useTeacherTopStudents.ts:90-91 | no student whose average is left out of the five beats an average kept |
| Sorting.InsertDesc | src/hooks/useAdminAnalytics.ts:137 | inserting an element gives one more element, each the new one or an old one (the same comparator sorts at useTeacherAnalytics.ts:127 and useTeacherTopStudents.ts:90) |
| Sorting.SortDesc | src/hooks/useAdminAnalytics.ts:137 | sorting keeps the length (the same comparator sorts at useTeacherAnalytics.ts:127 and useTeacherTopStudents.ts:90) |
| Sorting.InsertDescPerm | src/hooks/useAdminAnalytics.ts:137 | inserting adds exactly the new element to the multiset (the same comparator sorts at useTeacherAnalytics.ts:127 and useTeacherTopStudents.ts:90) |
| Sorting.InsertDescSorted | src/hooks/useAdminAnalytics.ts:137 | inserting into a list sorted best first keeps it sorted (the same comparator sorts at useTeacherAnalytics.ts:127 and useTeacherTopStudents.ts:90) |
| Sorting.SortDescCorrect | src/hooks/useAdminAnalytics.ts:137 | the sort orders by non-increasing key and is a permutation of its input (the same comparator sorts at useTeacherAnalytics.ts:127 and useTeacherTopStudents.ts:90) |
| Sorting.InsertDescTies | src/hooks/useAdminAnalytics.ts:137 | an inserted element comes after every element of equal key already in the sorted list |
| Sorting.SortDescStable | src/hooks/useAdminAnalytics.ts:137 | the sort is stable: the elements of one key keep their input order (the same comparator sorts at useTeacherAnalytics.ts:127 and useTeacherTopStudents.ts:90) |
| Sorting.InsertDescDistinct | src/hooks/useTeacherTopStudents.ts:90 | inserting an element whose id is new keeps ids distinct |
| Sorting.SortDescDistinct | src/hooks/useTeacherTopStudents.ts:90 | sorting keeps distinct ids distinct |
| Sorting.TopDescCorrect | src/hooks/useTeacherAnalytics.ts:127 | the top-N list has min(N, length) elements, sorted best first, drawn from the input, and no left-out element beats a kept one |
| Sorting.TopDescLeftOut | src/hooks/useTeacherTopStudents.ts:90-91 | no element left out of the top-N list has a larger key than any element kept |
| Sorting.TopDescDistinct | src/hooks/useTeacherTopStudents.ts:90-91 | the top-N list keeps distinct ids distinct |
| Sorting.TopDescStable | src/hooks/useTeacherTopStudents.ts:90-91 | ties at the cut go to the earlier elements: the elements of one key in the top-N list are the first ones of that key in the input |
| Records.Put | src/hooks/useAdminAnalytics.ts:73 | defines `map.set(k, v)` on an insertion-ordered list of entries; `GetPut`, `KeysPut`, `PutNew` and `PutDistinct` state its properties |
| Records.GetPut | src/hooks/useAdminAnalytics.ts:73 | after `map.set(k, v)`, `get(k)` is `v` and every other key reads as before |
| Records.KeysPut | src/hooks/useAdminAnalytics.ts:73 | `map.set` keeps the order of keys for an existing key and appends a new key last |
| Records.PutDistinct | src/hooks/useAdminAnalytics.ts:73 | `map.set` never creates a duplicate key |
| Strings.SplitOn | src/components/TeacherLayout.tsx:36 | `split` gives at least one piece; `SplitJoin`, `SplitPiecesNoSep` and `SplitFirst` state its properties |
| Strings.SplitJoin | src/components/TeacherLayout.tsx:36 | joining the pieces of a split with the separator gives back the original string |
| Strings.SplitPiecesNoSep | src/components/TeacherLayout.tsx:36 | no piece of a split holds the separator |
| Strings.SplitFirst | src/components/TeacherLayout.tsx:36 | the first piece is the text before the first separator, so `email.split("@")[0]` is the part before the first "@" |
| StudentManagement.MaxParsed | src/components/StudentManagementTab.tsx:44 | the maximum is at least every id's parsed value (0 when it has no leading digits) and is the parsed value of one of them |
| StudentManagement.NextStudentIdFacts | src/components/StudentManagementTab.tsx:36-46 | with no students the next id is "100"; otherwise it reads back as an integer that is at least 100 and above every id in use, and is the least such integer |
| StudentManagement.NextStudentId | src/components/StudentManagementTab.tsx:36-46 | defines `getNextStudentId` on the fetched ids; `NextStudentIdFacts` states that it is "100" with no students and otherwise the least admissible number, written so that `parseInt` reads it back |
| StudentManagement.Find | src/components/StudentManagementTab.tsx:95 | a found class is listed with that id; when none is found no listed class has it |
| StudentManagement.RecordFacts | src/components/StudentManagementTab.tsx:136-251 | the stored department is the chosen class's when it has one and the form's otherwise; an empty date of birth or phone number is stored as null and any other is kept; the name, class and photo are the ones given; the update writes the same columns as the insert |
| StudentManagement.UnchangedEditWritesBack | src/components/StudentManagementTab.tsx:188-251 | saving the edit dialog untouched writes back the listed name, class, date of birth and phone number, and keeps the photo unless a new file was stored |
| StudentManagement.StudentManagementTab.constructor | src/components/StudentManagementTab.tsx:49-58 | both dialogs are closed, no student is being edited, nothing is being created, the offered number is "Loading..." and both forms are empty |
| StudentManagement.StudentManagementTab.OpenAddDialog | src/components/StudentManagementTab.tsx:373-378 | the dialog takes the given open state, and opening it offers the next student id |
| StudentManagement.StudentManagementTab.HandleAddStudent | src/components/StudentManagementTab.tsx:83-176 | an empty name shows an error and inserts nothing; otherwise a rejected photo sends nothing, and the record is sent under the offered id; success closes the dialog and resets the form, failure leaves both; `isCreating` ends false |
| StudentManagement.StudentManagementTab.HandleEditClick | src/components/StudentManagementTab.tsx:178-201 | the edit dialog opens on the student, with missing date, photo and phone shown as "" |
| StudentManagement.StudentManagementTab.HandleUpdateStudent | src/components/StudentManagementTab.tsx:203-283 | without a student being edited nothing happens; otherwise the edited row is written with its photo kept unless a new file was stored; success closes the dialog and forgets the student, failure leaves the dialog |
| ProtectedRoute.Decide | src/components/ProtectedRoute.tsx:23-62 | the user is approved unless they are a teacher without the admin role whose profile lookup returned without approval; an admin is approved and keeps `isTeacher`; otherwise `isTeacher` becomes whether they hold the teacher role; a lookup that throws approves |
| ProtectedRoute.ViewOf | src/components/ProtectedRoute.tsx:68-117 | the spinner shows exactly while loading or checking; the pending screen exactly when done, signed in, a teacher and not approved; the page only for a signed-in user who is not a pending teacher |
| ProtectedRoute.PendingExactly | src/components/ProtectedRoute.tsx:13-84 | after a completed check the pending screen shows exactly for the held-back teacher, whatever the flags held before, and an admin always sees the page |
| ProtectedRoute.ProtectedRoute.constructor | src/components/ProtectedRoute.tsx:11-13 | the check is pending, the user counts as approved and not a teacher, and nothing was navigated |
| ProtectedRoute.ProtectedRoute.Effect | src/components/ProtectedRoute.tsx:15-66 | without a user once loading is done it navigates to "/auth" and changes no flag; with a user it ends the check with the decision's flags, and the pending screen then shows exactly for the held-back teacher |
| ProtectedRoute.ProtectedRoute.SignOut | src/components/ProtectedRoute.tsx:103-106 | the sign-out button navigates to "/auth" |
| ProtectedRoute.NoUserOnMount | src/components/ProtectedRoute.tsx:11-81 | a fresh route whose session has no user navigates to "/auth" but keeps the spinner, because the check never ends |
| AdminLayout.DisplayName | src/components/AdminLayout.tsx:25 | the shown name is never empty: the full name when it is a non-empty string, else the non-empty e-mail address, else "Admin User" (also when nobody is signed in) |
| AdminLayout.AdminLinksFacts | src/components/AdminLayout.tsx:111-116 | on any path at most one of the six side-bar links is highlighted; "/admin/users" highlights the users link and "/adminx" does not |
| AdminLayout.AdminLayout.constructor | src/components/AdminLayout.tsx:27-28 | the drawer starts closed and the side bar expanded |
| AdminLayout.AdminLayout.ToggleCollapsed | src/components/AdminLayout.tsx:82-103 | the collapse button flips `collapsed`, and the side bar's width class always changes with it ("w-20" collapsed, "w-72" expanded) |
| AdminLayout.AdminLayout.SetOpen | src/components/AdminLayout.tsx:36-43 | the menu button and the drawer's own report set the drawer's open state to the given value |
| TeacherLayout.TeacherLinksFacts | src/components/TeacherLayout.tsx:121-124 | on any path at most one of the four side-bar links is highlighted |
| TeacherLayout.LocalPart | src/components/TeacherLayout.tsx:36 | `email.split("@")[0]` is the text before the first "@" and holds no "@" |
| TeacherLayout.TeacherLayout.constructor | src/components/TeacherLayout.tsx:27-30 | the name starts as "Teacher", the drawer closed and the side bar expanded |
| TeacherLayout.TeacherLayout.NameEffect | src/components/TeacherLayout.tsx:32-38 | a non-empty full name becomes the name; otherwise a non-empty e-mail address gives its local part, a prefix of the address; with neither the name is left as it was |
| TeacherLayout.TeacherLayout.AvatarInitials | src/components/TeacherLayout.tsx:67-99 | the avatar fallback is at most two characters, each taken from the name and none a space |
| TeacherLayout.TeacherLayout.Context | src/components/TeacherLayout.tsx:41 | the layout context always says "not inside the admin layout" and "not an admin" |
| TeacherLayout.TeacherLayout.ToggleCollapsed | src/components/TeacherLayout.tsx:92-113 | the collapse button flips `collapsed`, and the side bar's width class always changes with it |
| TeacherLayout.TeacherLayout.SetOpen | src/components/TeacherLayout.tsx:47-54 | the menu button and the drawer's own report set the drawer's open state to the given value |
| Sidebar.ActiveMeansBelow | src/components/AdminLayout.tsx:10 | a link is highlighted exactly when the path starts with the link and either ends there or continues with "/" |
| Sidebar.ActivePrefixes | src/components/TeacherLayout.tsx:12 | two links highlighted on the same path are the same link or one lies below the other |
| Sidebar.SingleSegmentsUnnested | src/components/AdminLayout.tsx:111-116 | distinct one-segment paths never lie below one another |
| Sidebar.AtMostOneActive | src/components/AdminLayout.tsx:10 | when no link of a list lies below another, no path highlights two of them |
| Sidebar.FirstLetter | src/components/AdminLayout.tsx:56 | `n[0]` as `join` writes it: empty exactly for an empty word, otherwise the word's first character |
| Sidebar.InitialsFacts | src/components/AdminLayout.tsx:56-89 | the initials are at most two characters, each from the name and none a space |
| Sidebar.InitialsOfWords | src/components/TeacherLayout.tsx:67-99 | a name made of a first word, a space and a rest gets the first word's first letter followed by the first letter of the rest's first word |
| StaffManagement.TeacherUserIds | src/hooks/useStaffManagement.ts:14-23 | a user id is listed exactly when some `user_roles` row gives that user the teacher role |
| StaffManagement.TeacherProfiles | src/hooks/useStaffManagement.ts:26-29 | a profile is kept exactly when it is in the table and its user id is among the teachers' |
| StaffManagement.Owned | src/hooks/useStaffManagement.ts:53-54 | a row is kept exactly when its `teacher_id` is the given id; a null `teacher_id` matches no id |
| StaffManagement.Join | src/hooks/useStaffManagement.ts:51-55 | one entry per profile, in the profiles' order; each entry's classes are exactly the classes it sponsors and its subjects exactly the class subjects it teaches |
| StaffManagement.ProfileIds | src/hooks/useStaffManagement.ts:38-46 | `profiles.map(p => p.id)`, position by position |
| StaffManagement.OwnedByAny | src/hooks/useStaffManagement.ts:38-46 | `.in("teacher_id", ids)` keeps a row exactly when its teacher id is present and in the list |
| StaffManagement.OwnedNarrowed | src/hooks/useStaffManagement.ts:38-53 | narrowing to a list that contains an id first keeps every row that id owns, in order |
| StaffManagement.JoinNarrowed | src/hooks/useStaffManagement.ts:35-55 | narrowing the class and class-subject queries to the profiles' ids changes no entry of the joined staff list |
| StaffManagement.FetchStaff | src/hooks/useStaffManagement.ts:12-56 | a failed role lookup yields no data; with no teacher role row the staff list is empty; otherwise there is data exactly when the other three lookups succeed, and it is the join of the teachers' profiles with the whole class and class-subject tables |
| StaffManagement.SetApproval | src/hooks/useStaffManagement.ts:62-88 | approving or revoking sets `is_approved` on the profiles with that id and leaves every other row as it was |
| StaffManagement.SetClassSponsor | src/hooks/useStaffManagement.ts:156-183 | assigning or removing a sponsor sets `teacher_id` on the classes with that id and leaves every other row as it was |
| StaffManagement.SetSubjectTeacher | src/hooks/useStaffManagement.ts:108-135 | assigning or removing a subject's teacher sets `teacher_id` on the class subjects with that id and leaves every other row as it was |
| StaffManagement.SponsorChangeShows | src/hooks/useStaffManagement.ts:51-183 | after the change only the new sponsor's entry lists the class, and it does list it; a removed sponsor leaves the class in no entry; every other class stays where it was |
| StaffManagement.SponsorRows | src/hooks/useStaffManagement.ts:156-183 | the targeted class rows name the new teacher and the other rows are unchanged |
| StaffManagement.SubjectChangeShows | src/hooks/useStaffManagement.ts:51-135 | after the change only the new teacher's entry lists the class subject, and it does list it; a removed teacher leaves it in no entry; every other class subject stays where it was |
| StaffManagement.SubjectRows | src/hooks/useStaffManagement.ts:108-135 | the targeted class-subject rows name the new teacher and the other rows are unchanged |
| StaffManagementTab.Partition | src/components/StaffManagementTab.tsx:87-88 | without staff data both lists are empty; otherwise every entry lands in exactly one list, as often as it occurs: approved when `is_approved` is true, pending when it is false or null |
| StaffManagementTab.SectionsOf | src/components/StaffManagementTab.tsx:93-144 | the pending card shows exactly when some entry is not approved; the "no approved staff" message shows exactly when the approved count, which is the approved list's length, is zero |
| StaffManagementTab.ApproveMovesEntry | src/components/StaffManagementTab.tsx:87-165 | after approving (or revoking) a profile, its entries are in the approved list exactly when approved and in the pending list exactly when revoked; every other entry keeps its profile and its list |
| StaffManagementTab.ApprovalPlacement | src/components/StaffManagementTab.tsx:87-88 | the same for any two staff lists whose profiles differ by one approval decision |
| StaffManagementTab.EntryPlacement | src/components/StaffManagementTab.tsx:87-88 | an entry is in the approved list exactly when its approval is true, and in the pending list exactly otherwise |
| StaffManagementTab.StaffManagementTab.constructor | src/components/StaffManagementTab.tsx:23-25 | no teacher is selected, the dialog is closed and has no type |
| StaffManagementTab.StaffManagementTab.OpenDialog | src/components/StaffManagementTab.tsx:64-68 | the teacher and the dialog type are recorded and the dialog opens |
| StaffManagementTab.StaffManagementTab.SetDialogOpen | src/components/StaffManagementTab.tsx:250 | the dialog's own control sets its open state |
| StaffManagementTab.StaffManagementTab.Choose | src/components/StaffManagementTab.tsx:262-289 | choosing an option sends the assignment of that row to the selected teacher, a subject assignment in the subject dialog and a sponsorship in the class dialog, and closes the dialog |
| UserManagement.RolesOf | src/hooks/useUserManagement.ts:30 | a role row is kept exactly when it belongs to the given user |
| UserManagement.JoinRoles | src/hooks/useUserManagement.ts:28-31 | one entry per profile, in the profiles' order, each holding exactly its user's role rows |
| UserManagement.FetchUsers | src/hooks/useUserManagement.ts:12-32 | the query yields users exactly when both lookups succeed, and they are then the profiles joined with their roles (`JoinRoles`), one entry per profile |
| UserManagement.AssignRole | src/hooks/useUserManagement.ts:37-40 | granting a role keeps every existing row and adds the (user, role) row |
| UserManagement.RemoveRole | src/hooks/useUserManagement.ts:59-64 | withdrawing removes every row for that user and role and keeps every other row |
| UserManagement.AssignThenRemove | src/hooks/useUserManagement.ts:37-64 | granting a role and then withdrawing it leaves the table as withdrawing alone would |
| UserManagement.RemoveIdempotent | src/hooks/useUserManagement.ts:59-64 | withdrawing a role twice is the same as withdrawing it once |
| UserManagement.RoleChangesShow | src/hooks/useUserManagement.ts:28-64 | after a grant the role shows in every entry of that user; after a withdrawal it shows in no entry, and every other role row shows where it did before |
| UserManagement.SetApprovalByUser | src/hooks/useUserManagement.ts:84-118 | approving or disapproving sets `is_approved` on the profiles of that user and leaves every other profile as it was |
| UserManagement.ApprovalTwice | src/hooks/useUserManagement.ts:84-118 | of two decisions for the same user, the second is what holds |
| UserManagement.ApprovalShows | src/hooks/useUserManagement.ts:84-118 | after a decision, that user's entries carry it with their roles unchanged, and every other entry is as it was |
| UserManagement.JoinRolesAt | src/hooks/useUserManagement.ts:28-31 | the entry at each position is that profile with exactly its user's role rows, in table order |
| Auth.LoginEmail | src/pages/Auth.tsx:122-124 | a staff login uses the typed address unchanged; a student login uses the student id followed by "@student.local" |
| Auth.StudentEmailRoundTrip | src/pages/Auth.tsx:122-124 | for an id without "@", the student address's first "@" comes right after the id, so the id is recovered from the address and two ids never share one |
| Auth.IndexOfFirst | src/pages/Auth.tsx:123 | a character's first occurrence is the position after a run free of it |
| Auth.ProfileCountSnoc | src/pages/Auth.tsx:33-46 | appending a profile raises its user's count by one and no other user's |
| Auth.RoleCountSnoc | src/pages/Auth.tsx:51-62 | appending a role row raises the count of that (user, role) pair by one and no other |
| Auth.EnsureFacts | src/pages/Auth.tsx:31-65 | one pass keeps every existing row and adds at most one of each; a user with at most one profile (teacher row) ends with exactly one; a user with none gets a profile whose id is the user id and which awaits approval; no other user's or role's count changes |
| Auth.EnsureIdempotent | src/pages/Auth.tsx:31-65 | when the user starts with at most one profile and one teacher row, a second pass inserts nothing |
| Auth.DuplicatesGrow | src/pages/Auth.tsx:37-39 | with two profiles for a user `maybeSingle` finds none, so a pass adds a third |
| Auth.Database.constructor | src/pages/Auth.tsx:33-36 | the tables start with the given rows |
| Auth.Database.EnsureProfileAndRole | src/pages/Auth.tsx:31-65 | it succeeds exactly when no insert it attempts is refused (`EnsureFails`); a refused profile insert fails with both tables untouched; otherwise the profile step is applied, and then a refused role insert fails with the roles untouched, else it succeeds with the role step applied; the tables it leaves are `ProfilesAfter` and `RolesAfter` on every path |
| Auth.AuthPage.constructor | src/pages/Auth.tsx:14-19 | every field starts empty, the mode is staff and nothing is loading |
| Auth.AuthPage.HandleSignIn | src/pages/Auth.tsx:116-163 | the login is tried with the mode's address; a refusal shows only the error toast and writes nothing; a student, or a sign-in without a session user, is only welcomed; a staff sign-in with a session ensures the session user's profile and role, named by the typed name or else the account's: the toasts are exactly the setup warning and then the welcome when ensuring fails, else the welcome alone, the tables are what ensuring leaves on that path, and both only ever gain rows at the end; loading ends in every case |
| Auth.AuthPage.HandleSignUp | src/pages/Auth.tsx:67-114 | a refusal shows the error toast and a sign-up without a user does nothing, both keeping the fields and writing nothing; a user without a session gets the verify-email notice and cleared fields; a user with a session gets the profile and role ensured with the typed name and address, the tables being what ensuring leaves on every path and only gaining rows at the end; on success the pending-approval notice and cleared fields, on failure exactly the error toast with the email, password and name kept; loading ends in every case |

## Left out

- Network and storage calls are not modelled. This covers the hosted database, file storage, `getPublicUrl`, `signUp`, `signInWithPassword` and `getSession`. Their answers are parameters: a table's rows, `None` for a query that reported an error, and a flag saying whether an insert or update is refused.
- Server-side `.eq`, `.in` and `.order` narrowing is taken as already applied to the fetched rows, with a few exceptions. The model re-states it where the client's result depends on it: the grade query's filters, the staff query's `.in` lists, and the teacher-role lookups. The `created_at` ordering of profiles is the order the rows arrive in.
- The admin analytics `period` filter (src/hooks/useAdminAnalytics.ts:107-109) is applied by the database. The grades given to `AdminAnalytics.ComputeAnalytics` are that filtered answer.
- The query library's machinery is not modelled: caching, `staleTime`, background refetching, invalidation scheduling and async interleaving. A query whose `enabled` flag is false is the `Idle` state; an invalidation is the list of keys it refreshes.
- Rendering, toasts, console output, icons and styling are not modelled. They appear only as the flags or toast kinds that a stated property is about.
- Numbers are exact reals. IEEE-754 doubles are not modelled. `Math.round(x)` is `floor(x + 1/2)`. The `toFixed(0)` display of a row total (src/pages/Gradebook.tsx:336) is rendering and is not modelled.
- JsNumbers.JsNumber: accepts only the decimal subset of `Number(s)`. This means an optional sign, digits, at most one dot, and "" counting as 0. Exponents, hexadecimal, `Infinity` and surrounding white space are not modelled, because the grid's cleaning step removes every character they need.
- JsNumbers.JsParseInt: does not skip leading white space. The student numbers it reads are produced by the client itself.
- Records: JavaScript enumerates integer-like object keys first. The model keeps plain insertion order, because the keys used are UUIDs and names.
- StudentManagement: `handleDeleteStudent` and `handlePhotoSelect` are not modelled. They are a single remote delete and a file-picker callback. The outcome of a photo upload is an input.
- AdminAnalytics.CountBands: counts each average in the intended, gap-free band (`GradeBands.BandOf`). The code as written counts it in the closed interval `find` returns, so an average between two bands (89.5) is left out; that count is `AdminAnalytics.DistributionAsWritten`, see "## Findings".
- AdminAnalytics.ComputeAnalytics: `gradeDistribution` is the intended `AdminAnalytics.Distribution`. The code as written reports `AdminAnalytics.DistributionAsWritten`, which counts no band higher and is the same list when every average is a whole number (`AdminAnalytics.DistributionAsWrittenFacts`).
- AdminAnalytics.AnalyticsFacts: its total is that of the intended bands. As written the total can be smaller; only "at most the averages in scale" and equality on whole numbers are stated for it.
- AdminAnalytics.DistributionLabels: the counts it names are those of the intended bands; the written counts are listed beside them.
- AdminAnalytics.DistributionStep: steps with the intended bands, where every average from 0 to 100 is counted. The written step, which skips an average between two bands, is `AdminAnalytics.DistributionStepAsWritten`.
- AdminAnalytics.DistributionTotal: the sum of the intended counts. The written sum is only bounded, by `AdminAnalytics.DistributionAsWrittenFacts`.
- TeacherClassAnalytics.ComputeClassAnalytics: `gradeDistribution` is the intended `TeacherClassAnalytics.Distribution`. The code as written reports `TeacherClassAnalytics.DistributionAsWritten`; `TeacherClassAnalytics.DistributionAsWrittenFacts` states how the two relate.
- TeacherClassAnalytics.ComputeClassAnalytics: the `period` argument only distinguishes cached results. The hook never filters by it.
- Auth.EnsureIdempotent: assumes the user has at most one profile and at most one teacher row. `maybeSingle()` finds nothing when two rows match, so with duplicates every pass inserts again (`Auth.DuplicatesGrow`).
- UserManagement.AssignRole: appends the row even when an identical row exists. Whether the database would refuse a duplicate is part of its schema, which is not part of this model.
- UseGrades.FetchGrades: takes the signed-in user as an input. The code calls `useAuth()` inside the async query function (src/hooks/useGrades.ts:11), outside rendering; what the auth context does there depends on src/contexts/AuthContext.tsx, which is not part of this model. The model supplies the user the code tries to read.
- The redirect of an already signed-in user from the sign-in page to "/dashboard" (src/pages/Auth.tsx:24-28) is navigation only, and is not modelled.
- ProtectedRoute.NoUserOnMount: the check-state flag is set only on the signed-in path. So a visitor with no session keeps seeing the spinner while being sent to "/auth". The route does not render nothing in that case. The model follows the code.

## Findings

| source | as written | input that shows it | evidently intended | confidence | as-written member | corrected member |
|---|---|---|---|---|---|---|
| src/hooks/useAdminAnalytics.ts:173-178, src/hooks/useTeacherClassAnalytics.ts:178-184 | each letter band is the closed interval [min, max] (A 90-100, B 80-89, C 70-79, D 60-69, F 0-59), so a percentage strictly between two bands is counted in none | a student average or grade percentage of 89.5 (for example 179 out of 200) | bands that meet without gaps, so every percentage from 0 to 100 is counted exactly once | high; not executed | GradeBands.BandAsWritten, GradeBands.GapExample, GradeBands.TotalGapExample, AdminAnalytics.DistributionGap, TeacherClassAnalytics.DistributionGap | GradeBands.BandOf, GradeBands.TotalCountsScale, AdminAnalytics.DistributionAsWrittenFacts, TeacherClassAnalytics.DistributionAsWrittenFacts |
