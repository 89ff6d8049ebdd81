/** The gradebook endpoints: viewing an assignment's gradebook (which creates
    blank grades for students who have none), entering scores in a batch, and
    computing and submitting final letter grades for a course. Every endpoint
    first checks that the caller is the course's instructor. */
module GradeBookController {
  import opened Domain
  import opened Repository

  // ---------------------------------------------------------------------------
  // Authorization
  // ---------------------------------------------------------------------------

  /** The instructor of the course that assignment `assignmentId` belongs to. */
  function InstructorOf(store: Store, assignmentId: int): string
    reads store
    requires store.Valid() && 0 <= assignmentId < |store.assignments|
  {
    store.courses[store.assignments[assignmentId].courseId].instructor
  }

  /** Resolves the assignment and checks that `email` is its course's instructor.
      An unknown id is a bad request, any other caller is unauthorized. */
  function CheckAssignment(store: Store, assignmentId: int, email: string): (r: Result<Assignment>)
    reads store
    requires store.Valid()
    ensures r.Err? ==> r.status == BadRequest || r.status == Unauthorized
    ensures r.Err? && r.status == BadRequest <==> !(0 <= assignmentId < |store.assignments|)
    ensures r.Err? && r.status == Unauthorized <==>
              0 <= assignmentId < |store.assignments| && InstructorOf(store, assignmentId) != email
    ensures r.Ok? ==> 0 <= assignmentId < |store.assignments| && r.value == store.assignments[assignmentId]
  {
    if !(0 <= assignmentId < |store.assignments|) then Err(BadRequest)
    else
      var assignment := store.assignments[assignmentId];
      if store.courses[assignment.courseId].instructor != email then Err(Unauthorized)
      else Ok(assignment)
  }

  /** At most one caller passes the check for a given assignment. */
  lemma OnlyTheInstructorPasses(store: Store, assignmentId: int, email1: string, email2: string)
    requires store.Valid()
    requires CheckAssignment(store, assignmentId, email1).Ok?
    requires CheckAssignment(store, assignmentId, email2).Ok?
    ensures email1 == email2 == InstructorOf(store, assignmentId)
  {
  }

  // ---------------------------------------------------------------------------
  // Letter grades and averages
  // ---------------------------------------------------------------------------

  /** Maps an average to a letter; each band includes its lower bound. */
  function LetterGrade(grade: real): (r: string)
    ensures r == "A" <==> 90.0 <= grade
    ensures r == "B" <==> 80.0 <= grade < 90.0
    ensures r == "C" <==> 70.0 <= grade < 80.0
    ensures r == "D" <==> 60.0 <= grade < 70.0
    ensures r == "F" <==> grade < 60.0
  {
    if grade >= 90.0 then "A"
    else if grade >= 80.0 then "B"
    else if grade >= 70.0 then "C"
    else if grade >= 60.0 then "D"
    else "F"
  }

  /** The position of a letter in the order A, B, C, D, F. */
  function Rank(letter: string): int
  {
    if letter == "A" then 0
    else if letter == "B" then 1
    else if letter == "C" then 2
    else if letter == "D" then 3
    else 4
  }

  /** A higher average never earns a worse letter. */
  lemma LetterGradeMonotone(lower: real, higher: real)
    requires lower <= higher
    ensures Rank(LetterGrade(higher)) <= Rank(LetterGrade(lower))
  {
  }

  function Sum(s: seq<int>): int
  {
    if |s| == 0 then 0 else Sum(s[..|s| - 1]) + s[|s| - 1]
  }

  lemma SumAppend(s: seq<int>, x: int)
    ensures Sum(s + [x]) == Sum(s) + x
  {
    assert (s + [x])[..|s|] == s;
  }

  /** The mean of `scores`, or 0 when there are none. */
  function Average(scores: seq<int>): (avg: real)
    ensures |scores| == 0 ==> avg == 0.0
  {
    if |scores| > 0 then (Sum(scores) as real) / (|scores| as real) else 0.0
  }

  /** Scores that all lie in [lo, hi] add up to between |s| * lo and |s| * hi. */
  lemma {:induction false} SumWithin(s: seq<int>, lo: int, hi: int)
    requires forall i :: 0 <= i < |s| ==> lo <= s[i] <= hi
    ensures |s| * lo <= Sum(s) <= |s| * hi
  {
    if |s| > 0 {
      SumWithin(s[..|s| - 1], lo, hi);
      assert |s| * lo == (|s| - 1) * lo + lo;
      assert |s| * hi == (|s| - 1) * hi + hi;
    }
  }

  /** The average of scores that all lie in [lo, hi] lies in [lo, hi]. */
  lemma AverageWithin(s: seq<int>, lo: int, hi: int)
    requires |s| > 0
    requires forall i :: 0 <= i < |s| ==> lo <= s[i] <= hi
    ensures lo as real <= Average(s) <= hi as real
  {
    SumWithin(s, lo, hi);
    var n := |s| as real;
    assert Average(s) * n == Sum(s) as real;
    ScaleDown(lo as real, Average(s), n);
    ScaleDown(Average(s), hi as real, n);
  }

  lemma ScaleDown(x: real, y: real, n: real)
    requires n > 0.0 && x * n <= y * n
    ensures x <= y
  {
    assert (y - x) * n == y * n - x * n;
  }

  // ---------------------------------------------------------------------------
  // Final grades
  // ---------------------------------------------------------------------------

  /** The entered (non-null) scores among the grades of enrollment `e`, in the
      order the store holds them. */
  function EnrollmentScores(grades: seq<AssignmentGrade>, e: Enrollment): (s: seq<int>)
    ensures |s| <= |grades|
  {
    if |grades| == 0 then []
    else
      var g := grades[|grades| - 1];
      EnrollmentScores(grades[..|grades| - 1], e) + (if g.enrollment == e && g.score.Some? then [g.score.value] else [])
  }

  /** The scores of `e` are exactly the scores its entered grades hold. */
  lemma {:induction false} EnrollmentScoresMembers(grades: seq<AssignmentGrade>, e: Enrollment)
    ensures forall x :: x in EnrollmentScores(grades, e) <==>
              exists i :: 0 <= i < |grades| && grades[i].enrollment == e && grades[i].score == Some(x)
  {
    if |grades| > 0 {
      var n := |grades| - 1;
      EnrollmentScoresMembers(grades[..n], e);
      assert forall i :: 0 <= i < n ==> grades[..n][i] == grades[i];
    }
  }

  /** The positions of the grades of enrollment `e` that hold score `x`. */
  ghost function ScorePositions(grades: seq<AssignmentGrade>, e: Enrollment, x: int): set<int>
  {
    set i | 0 <= i < |grades| && grades[i].enrollment == e && grades[i].score == Some(x)
  }

  /** Each score occurs among the scores of `e` as many times as grades of
      `e` hold it, so a repeated score weighs in the average once per grade. */
  lemma EnrollmentScoresCounts(grades: seq<AssignmentGrade>, e: Enrollment)
    ensures forall x :: multiset(EnrollmentScores(grades, e))[x] == |ScorePositions(grades, e, x)|
  {
    forall x
      ensures multiset(EnrollmentScores(grades, e))[x] == |ScorePositions(grades, e, x)|
    {
      EnrollmentScoreCount(grades, e, x);
    }
  }

  /** The count for one score value `x`, by induction on the grades. */
  lemma {:induction false} EnrollmentScoreCount(grades: seq<AssignmentGrade>, e: Enrollment, x: int)
    ensures multiset(EnrollmentScores(grades, e))[x] == |ScorePositions(grades, e, x)|
  {
    if |grades| == 0 {
      assert ScorePositions(grades, e, x) == {};
    } else {
      var n := |grades| - 1;
      var g := grades[n];
      EnrollmentScoreCount(grades[..n], e, x);
      PositionsOfLast(grades, e, x);
      var last := if g.enrollment == e && g.score.Some? then [g.score.value] else [];
      var shorter := EnrollmentScores(grades[..n], e);
      assert multiset(shorter + last) == multiset(shorter) + multiset(last);
    }
  }

  /** The positions holding `x` grow by the last grade exactly when it holds `x`. */
  lemma PositionsOfLast(grades: seq<AssignmentGrade>, e: Enrollment, x: int)
    requires |grades| > 0
    ensures var n := |grades| - 1;
            var g := grades[n];
            ScorePositions(grades, e, x) ==
              ScorePositions(grades[..n], e, x) + (if g.enrollment == e && g.score == Some(x) then {n} else {})
  {
    var n := |grades| - 1;
    assert forall i :: 0 <= i < n ==> grades[..n][i] == grades[i];
  }

  /** The final grade record for enrollment `e` of course `courseId`. */
  function FinalGradeFor(grades: seq<AssignmentGrade>, e: Enrollment, courseId: int): FinalGradeDTO
  {
    FinalGradeDTO(e.studentEmail, e.studentName, LetterGrade(Average(EnrollmentScores(grades, e))), courseId)
  }

  /** A student without a single entered score averages 0 and fails. */
  lemma {:induction false} NoScoresMeansF(grades: seq<AssignmentGrade>, e: Enrollment, courseId: int)
    requires forall i :: 0 <= i < |grades| && grades[i].enrollment == e ==> grades[i].score.None?
    ensures EnrollmentScores(grades, e) == []
    ensures FinalGradeFor(grades, e, courseId).letterGrade == "F"
  {
    if |grades| > 0 {
      NoScoresMeansF(grades[..|grades| - 1], e, courseId);
    }
  }

  /** A student whose entered scores all lie in [lo, hi], and who has at
      least one, averages within [lo, hi]; in particular every score at 90 or
      above earns an "A" and every score below 60 an "F". */
  lemma FinalGradeWithin(grades: seq<AssignmentGrade>, e: Enrollment, courseId: int, lo: int, hi: int)
    requires exists i :: 0 <= i < |grades| && grades[i].enrollment == e && grades[i].score.Some?
    requires forall i :: 0 <= i < |grades| && grades[i].enrollment == e && grades[i].score.Some? ==>
               lo <= grades[i].score.value <= hi
    ensures lo as real <= Average(EnrollmentScores(grades, e)) <= hi as real
    ensures lo >= 90 ==> FinalGradeFor(grades, e, courseId).letterGrade == "A"
    ensures hi < 60 ==> FinalGradeFor(grades, e, courseId).letterGrade == "F"
  {
    var s := EnrollmentScores(grades, e);
    EnrollmentScoresMembers(grades, e);
    var i :| 0 <= i < |grades| && grades[i].enrollment == e && grades[i].score.Some?;
    assert grades[i].score.value in s;
    forall k | 0 <= k < |s|
      ensures lo <= s[k] <= hi
    {
      assert s[k] in s;
    }
    AverageWithin(s, lo, hi);
  }

  /** Grades appended without a score (as the gradebook view creates them)
      leave every student's entered scores, and so the final grades, as they
      were. */
  lemma {:induction false} BlankGradesKeepScores(grades: seq<AssignmentGrade>, blanks: seq<AssignmentGrade>, e: Enrollment)
    requires forall i :: 0 <= i < |blanks| ==> blanks[i].score.None?
    ensures EnrollmentScores(grades + blanks, e) == EnrollmentScores(grades, e)
  {
    if |blanks| > 0 {
      var shorter := blanks[..|blanks| - 1];
      BlankGradesKeepScores(grades, shorter, e);
      assert (grades + blanks)[..|grades + blanks| - 1] == grades + shorter;
      assert (grades + blanks)[|grades + blanks| - 1] == blanks[|blanks| - 1];
    } else {
      assert grades + blanks == grades;
    }
  }

  /** Three students of one course: one scored 100 and 80 and earns "A", one
      scored 60 and 50 with a third grade still blank and earns "F", and one
      whose only grade is blank earns "F". */
  lemma WorkedExamples(e: Enrollment, courseId: int)
    ensures var g := [AssignmentGrade(1, e, Some(100)), AssignmentGrade(2, e, Some(80))];
            Average(EnrollmentScores(g, e)) == 90.0 && FinalGradeFor(g, e, courseId).letterGrade == "A"
    ensures var g := [AssignmentGrade(1, e, Some(60)), AssignmentGrade(2, e, Some(50)), AssignmentGrade(3, e, None)];
            Average(EnrollmentScores(g, e)) == 55.0 && FinalGradeFor(g, e, courseId).letterGrade == "F"
    ensures FinalGradeFor([AssignmentGrade(1, e, None)], e, courseId).letterGrade == "F"
  {
    var g1 := [AssignmentGrade(1, e, Some(100)), AssignmentGrade(2, e, Some(80))];
    assert g1[..1] == [g1[0]] && [g1[0]][..0] == [];
    assert EnrollmentScores(g1, e) == [100, 80];
    assert [100, 80][..1] == [100] && [100][..0] == [];
    assert Sum([100, 80]) == 180;
    var g2 := [AssignmentGrade(1, e, Some(60)), AssignmentGrade(2, e, Some(50)), AssignmentGrade(3, e, None)];
    assert g2[..1][..0] == [] && g2[..2][..1] == g2[..1];
    assert EnrollmentScores(g2[..1], e) == [60];
    assert EnrollmentScores(g2[..2], e) == [60, 50];
    assert EnrollmentScores(g2, e) == [60, 50];
    assert [60, 50][..1] == [60] && [60][..0] == [];
    assert Sum([60, 50]) == 110;
    NoScoresMeansF([AssignmentGrade(1, e, None)], e, courseId);
  }

  /** The inner loop of `calcFinalGrades`: totals and counts the entered
      scores among the grades of `e` and divides, giving 0 when there are none. */
  method StudentAverage(grades: seq<AssignmentGrade>, e: Enrollment) returns (average: real)
    ensures average == Average(EnrollmentScores(grades, e))
  {
    var total := 0;
    var count := 0;
    for j := 0 to |grades|
      invariant total == Sum(EnrollmentScores(grades[..j], e))
      invariant count == |EnrollmentScores(grades[..j], e)|
    {
      assert grades[..j + 1][..j] == grades[..j];
      var ag := grades[j];
      ghost var before := EnrollmentScores(grades[..j], e);
      if ag.enrollment == e && ag.score.Some? {
        assert EnrollmentScores(grades[..j + 1], e) == before + [ag.score.value];
        SumAppend(before, ag.score.value);
        total := total + ag.score.value;
        count := count + 1;
      } else {
        assert EnrollmentScores(grades[..j + 1], e) == before + [];
        assert before + [] == before;
      }
    }
    assert grades[..|grades|] == grades;
    average := if count > 0 then (total as real) / (count as real) else 0.0;
  }

  /** `calcFinalGrades`: unless the course is unknown or the caller is not its
      instructor, averages each enrolled student's entered scores, converts the
      average to a letter, and returns the whole batch that goes to the
      registration service, one record per enrollment in enrollment order. */
  method CalcFinalGrades(store: Store, email: string, courseId: int) returns (r: Result<seq<FinalGradeDTO>>)
    ensures r.Err? <==> courseId !in store.courses || store.courses[courseId].instructor != email
    ensures r.Err? ==> r.status == (if courseId !in store.courses then NotFound else Unauthorized)
    ensures r.Ok? ==> |r.value| == |store.courses[courseId].enrollments|
    ensures r.Ok? ==> forall i :: 0 <= i < |r.value| ==>
              r.value[i] == FinalGradeFor(store.grades, store.courses[courseId].enrollments[i], courseId)
  {
    if courseId !in store.courses {
      return Err(NotFound);
    }
    var c := store.courses[courseId];
    if c.instructor != email {
      return Err(Unauthorized);
    }
    var students := c.enrollments;
    var finals: seq<FinalGradeDTO> := [];
    var grades := store.grades;
    for i := 0 to |students|
      invariant |finals| == i
      invariant forall k :: 0 <= k < i ==> finals[k] == FinalGradeFor(grades, students[k], courseId)
    {
      var e := students[i];
      var average := StudentAverage(grades, e);
      finals := finals + [FinalGradeDTO(e.studentEmail, e.studentName, LetterGrade(average), courseId)];
    }
    r := Ok(finals);
  }

  // ---------------------------------------------------------------------------
  // Gradebook view
  // ---------------------------------------------------------------------------

  /** The enrollments of the course that assignment `assignmentId` belongs to. */
  function EnrollmentsOf(store: Store, assignmentId: int): seq<Enrollment>
    reads store
    requires store.Valid() && 0 <= assignmentId < |store.assignments|
  {
    store.courses[store.assignments[assignmentId].courseId].enrollments
  }

  /** `row` shows student `e`'s grade for the assignment as `grades` hold it. */
  predicate RowShows(grades: seq<AssignmentGrade>, assignmentId: int, e: Enrollment, row: GradeDTO)
  {
    && FindGrade(grades, assignmentId, e.studentEmail) == Some(row.assignmentGradeId)
    && 0 <= row.assignmentGradeId < |grades|
    && row.studentName == e.studentName
    && row.studentEmail == e.studentEmail
    && row.grade == grades[row.assignmentGradeId].score
  }

  /** A grade the view created: blank, for this assignment, for an enrolled
      student who had no grade for it before the call. */
  predicate CreatedBlank(before: seq<AssignmentGrade>, students: seq<Enrollment>, assignmentId: int, g: AssignmentGrade)
  {
    && g.assignmentId == assignmentId
    && g.score == None
    && g.enrollment in students
    && FindGrade(before, assignmentId, g.enrollment.studentEmail) == None
  }

  /** What viewing the gradebook of assignment `assignmentId` leaves behind,
      the grades going from `before` to `after` and `rows` being shown:
      one row per student of `students`, in their order, each showing that
      student's grade in `after`; every grade in `before` kept as it was;
      at most one new grade per student, each of them blank and for a student
      who had none; and no new grade at all when every student had one. */
  ghost predicate GradebookViewed(before: seq<AssignmentGrade>, after: seq<AssignmentGrade>, assignmentId: int,
                                  students: seq<Enrollment>, rows: seq<GradeDTO>)
  {
    && |rows| == |students|
    && (forall i :: 0 <= i < |rows| ==> RowShows(after, assignmentId, students[i], rows[i]))
    && before <= after
    && |after| <= |before| + |students|
    && (forall id :: |before| <= id < |after| ==> CreatedBlank(before, students, assignmentId, after[id]))
    && ((forall e :: e in students ==> FindGrade(before, assignmentId, e.studentEmail).Some?) ==> after == before)
  }

  /** `getGradebook`: after the authorization check, one row per enrollment of
      the assignment's course, in enrollment order; a student without a grade
      for the assignment first gets a blank one. Existing grades are kept as
      they were, and on failure nothing is stored. */
  method GetGradebook(store: Store, email: string, assignmentId: int) returns (r: Result<seq<GradeDTO>>)
    requires store.Valid()
    modifies store`grades
    ensures store.Valid()
    ensures r.Err? <==> old(CheckAssignment(store, assignmentId, email)).Err?
    ensures r.Err? ==> r.status == old(CheckAssignment(store, assignmentId, email)).status
    ensures r.Err? ==> store.grades == old(store.grades)
    ensures r.Ok? ==> GradebookViewed(old(store.grades), store.grades, assignmentId,
                                      EnrollmentsOf(store, assignmentId), r.value)
  {
    var check := CheckAssignment(store, assignmentId, email);
    if check.Err? {
      return Err(check.status);
    }
    var rows := AssembleGradebook(store, assignmentId);
    r := Ok(rows);
  }

  /** The loop of `getGradebook`, once the caller is authorized: one row per
      enrollment, each showing the student's grade, created blank if missing. */
  method AssembleGradebook(store: Store, assignmentId: int) returns (shown: seq<GradeDTO>)
    requires store.Valid() && 0 <= assignmentId < |store.assignments|
    modifies store`grades
    ensures store.Valid()
    ensures GradebookViewed(old(store.grades), store.grades, assignmentId, EnrollmentsOf(store, assignmentId), shown)
  {
    var students := store.courses[store.assignments[assignmentId].courseId].enrollments;
    var rows := new GradeDTO[|students|];
    ghost var before := store.grades;
    ghost var shown' := [];
    var idx := 0;
    while idx < |students|
      invariant 0 <= idx <= |students|
      invariant store.Valid()
      invariant before <= store.grades
      invariant |store.grades| <= |before| + idx
      invariant forall id :: |before| <= id < |store.grades| ==>
                  CreatedBlank(before, students, assignmentId, store.grades[id])
      invariant |shown'| == idx && rows[..idx] == shown'
      invariant forall k :: 0 <= k < idx ==> RowShows(store.grades, assignmentId, students[k], shown'[k])
    {
      var e := students[idx];
      ghost var prior := store.grades;
      var gradeId := ProvideGrade(store, assignmentId, e);
      if |store.grades| > |prior| {
        RowsKept(prior, AssignmentGrade(assignmentId, e, None), assignmentId, students, idx, shown');
        FindGradePrefix(before, prior, assignmentId, e.studentEmail);
      }
      var row := GradeDTO(gradeId, e.studentName, e.studentEmail, store.grades[gradeId].score);
      rows[idx] := row;
      shown' := shown' + [row];
      idx := idx + 1;
    }
    shown := rows[..];
    NothingCreatedWhenAllGraded(before, store.grades, students, assignmentId);
  }

  /** If every student already had a grade, the view created none. */
  lemma NothingCreatedWhenAllGraded(before: seq<AssignmentGrade>, after: seq<AssignmentGrade>,
                                    students: seq<Enrollment>, assignmentId: int)
    requires before <= after
    requires forall id :: |before| <= id < |after| ==> CreatedBlank(before, students, assignmentId, after[id])
    ensures (forall e :: e in students ==> FindGrade(before, assignmentId, e.studentEmail).Some?) ==> after == before
  {
    if |after| > |before| {
      var g := after[|before|];
      assert CreatedBlank(before, students, assignmentId, g);
      assert FindGrade(before, assignmentId, g.enrollment.studentEmail).None?;
    }
  }

  /** The lookup the view does for one student: the grade the assignment holds
      for them, after storing a blank one if they had none. */
  method ProvideGrade(store: Store, assignmentId: int, e: Enrollment) returns (gradeId: int)
    requires store.Valid() && 0 <= assignmentId < |store.assignments|
    requires e in EnrollmentsOf(store, assignmentId)
    modifies store`grades
    ensures store.Valid()
    ensures FindGrade(store.grades, assignmentId, e.studentEmail) == Some(gradeId)
    ensures old(FindGrade(store.grades, assignmentId, e.studentEmail)).Some? ==> store.grades == old(store.grades)
    ensures old(FindGrade(store.grades, assignmentId, e.studentEmail)).None? ==>
              store.grades == old(store.grades) + [AssignmentGrade(assignmentId, e, None)]
  {
    var found := FindGrade(store.grades, assignmentId, e.studentEmail);
    if found.Some? {
      return found.value;
    }
    var ag := AssignmentGrade(assignmentId, e, None);
    assert GradeBelongs(store.courses, store.assignments, ag);
    ConsistentAppend(store.courses, store.assignments, store.grades, ag);
    FindGradeAppend(store.grades, ag, assignmentId, e.studentEmail);
    store.grades := store.grades + [ag];
    gradeId := |store.grades| - 1;
  }

  lemma RowsKept(prior: seq<AssignmentGrade>, ag: AssignmentGrade, assignmentId: int,
                 students: seq<Enrollment>, idx: int, rows: seq<GradeDTO>)
    requires 0 <= idx <= |students| && |rows| == idx
    requires forall k :: 0 <= k < idx ==> RowShows(prior, assignmentId, students[k], rows[k])
    ensures forall k :: 0 <= k < idx ==> RowShows(prior + [ag], assignmentId, students[k], rows[k])
  {
    forall k | 0 <= k < idx
      ensures RowShows(prior + [ag], assignmentId, students[k], rows[k])
    {
      FindGradeAppend(prior, ag, assignmentId, students[k].studentEmail);
    }
  }

  /** A student without a grade in a store has none in any earlier state of it. */
  lemma FindGradePrefix(before: seq<AssignmentGrade>, prior: seq<AssignmentGrade>, assignmentId: int, email: string)
    requires before <= prior
    requires FindGrade(prior, assignmentId, email) == None
    ensures FindGrade(before, assignmentId, email) == None
  {
    FindGradeFirst(prior, assignmentId, email);
    FindGradeFirst(before, assignmentId, email);
    assert forall j :: 0 <= j < |before| ==> before[j] == prior[j];
  }

  /** Viewing a gradebook twice: the second view stores no new grade and
      shows the same rows as the first. */
  method GetGradebookTwice(store: Store, email: string, assignmentId: int)
    returns (first: Result<seq<GradeDTO>>, second: Result<seq<GradeDTO>>, ghost afterFirst: seq<AssignmentGrade>)
    requires store.Valid()
    modifies store`grades
    ensures first.Ok? ==> second == first && store.grades == afterFirst
  {
    first := GetGradebook(store, email, assignmentId);
    afterFirst := store.grades;
    if first.Ok? {
      var students := EnrollmentsOf(store, assignmentId);
      forall e | e in students
        ensures FindGrade(afterFirst, assignmentId, e.studentEmail).Some?
      {
        var i :| 0 <= i < |students| && students[i] == e;
        assert RowShows(afterFirst, assignmentId, students[i], first.value[i]);
      }
    }
    second := GetGradebook(store, email, assignmentId);
    if first.Ok? {
      var rows1, rows2 := first.value, second.value;
      forall i | 0 <= i < |rows1|
        ensures rows1[i] == rows2[i]
      {
        assert rows1[i].assignmentGradeId == rows2[i].assignmentGradeId;
      }
      assert rows1 == rows2;
    }
  }

  // ---------------------------------------------------------------------------
  // Score updates
  // ---------------------------------------------------------------------------

  /** The score grade `id` ends up with after `batch`, starting from
      `current`: the one supplied by the last update naming it, if any. */
  function ScoreAfter(batch: seq<GradeDTO>, id: int, current: Option<int>): Option<int>
  {
    if |batch| == 0 then current
    else if batch[|batch| - 1].assignmentGradeId == id then batch[|batch| - 1].grade
    else ScoreAfter(batch[..|batch| - 1], id, current)
  }

  /** A grade the batch does not name keeps its score. */
  lemma {:induction false} ScoreAfterUnnamed(batch: seq<GradeDTO>, id: int, current: Option<int>)
    requires forall k :: 0 <= k < |batch| ==> batch[k].assignmentGradeId != id
    ensures ScoreAfter(batch, id, current) == current
  {
    if |batch| > 0 {
      ScoreAfterUnnamed(batch[..|batch| - 1], id, current);
    }
  }

  /** A grade the batch names gets the score of the last update naming it,
      null included. */
  lemma {:induction false} ScoreAfterLast(batch: seq<GradeDTO>, id: int, current: Option<int>, k: int)
    requires 0 <= k < |batch| && batch[k].assignmentGradeId == id
    requires forall j :: k < j < |batch| ==> batch[j].assignmentGradeId != id
    ensures ScoreAfter(batch, id, current) == batch[k].grade
  {
    if k < |batch| - 1 {
      ScoreAfterLast(batch[..|batch| - 1], id, current, k);
    }
  }

  /** Every grade id in the batch is a stored grade. */
  predicate AllKnown(grades: seq<AssignmentGrade>, batch: seq<GradeDTO>)
  {
    forall k :: 0 <= k < |batch| ==> 0 <= batch[k].assignmentGradeId < |grades|
  }

  /** `updateGradebook`: after the authorization check, gives each grade named
      in the batch its new score, in batch order. An unknown grade id is a bad
      request and, the endpoint being one transaction, the whole batch is then
      rolled back. */
  method UpdateGradebook(store: Store, email: string, batch: seq<GradeDTO>, assignmentId: int) returns (r: Result<()>)
    requires store.Valid()
    modifies store`grades
    ensures store.Valid()
    ensures r.Ok? <==> old(CheckAssignment(store, assignmentId, email)).Ok? && AllKnown(old(store.grades), batch)
    ensures r.Err? ==> r.status == (if old(CheckAssignment(store, assignmentId, email)).Err?
                                    then old(CheckAssignment(store, assignmentId, email)).status
                                    else BadRequest)
    ensures r.Err? ==> store.grades == old(store.grades)
    ensures |store.grades| == |old(store.grades)|
    ensures forall id :: 0 <= id < |store.grades| ==>
              store.grades[id] == old(store.grades)[id].(score := store.grades[id].score)
    ensures r.Ok? ==> forall id :: 0 <= id < |store.grades| ==>
              store.grades[id].score == ScoreAfter(batch, id, old(store.grades)[id].score)
  {
    var check := CheckAssignment(store, assignmentId, email);
    if check.Err? {
      return Err(check.status);
    }
    var saved := store.grades;
    for k := 0 to |batch|
      invariant store.Valid()
      invariant AllKnown(saved, batch[..k])
      invariant |store.grades| == |saved|
      invariant forall id :: 0 <= id < |saved| ==>
                  store.grades[id] == saved[id].(score := ScoreAfter(batch[..k], id, saved[id].score))
    {
      assert batch[..k + 1][..k] == batch[..k];
      var g := batch[k];
      if !(0 <= g.assignmentGradeId < |store.grades|) {
        store.grades := saved;
        return Err(BadRequest);
      }
      var ag := store.grades[g.assignmentGradeId];
      store.grades := store.grades[g.assignmentGradeId := ag.(score := g.grade)];
      assert AllKnown(saved, batch[..k + 1]) by {
        assert forall j :: 0 <= j < k ==> batch[..k + 1][j] == batch[..k][j];
      }
    }
    assert batch[..|batch|] == batch;
    r := Ok(());
  }
}
