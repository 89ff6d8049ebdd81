/** The persistent store behind both controllers and the repository queries
    they use. Courses are keyed by their id. Assignments and grades live in
    tables whose ids the store hands out in increasing order, so a record's id
    is its position in its table. */
module Repository {
  import opened Domain

  /** The course's instructor and enrollments are those of the stored course. */
  predicate TaughtBy(courses: map<int, Course>, a: Assignment, email: string)
  {
    a.courseId in courses && courses[a.courseId].instructor == email
  }

  /** A grade is for assignment `assignmentId` and the student with `email`. */
  predicate GradeMatches(g: AssignmentGrade, assignmentId: int, email: string)
  {
    g.assignmentId == assignmentId && g.enrollment.studentEmail == email
  }

  /** Referential integrity of the store: every assignment belongs to a stored
      course, every grade belongs to a stored assignment and to an enrollment
      of that assignment's course, and no assignment has two grades for the
      same student. */
  ghost predicate Consistent(courses: map<int, Course>, assignments: seq<Assignment>, grades: seq<AssignmentGrade>)
  {
    && (forall i :: 0 <= i < |assignments| ==> assignments[i].courseId in courses)
    && (forall i :: 0 <= i < |grades| ==> GradeBelongs(courses, assignments, grades[i]))
    && (forall i, j :: 0 <= i < j < |grades| ==>
          !GradeMatches(grades[j], grades[i].assignmentId, grades[i].enrollment.studentEmail))
  }

  ghost predicate GradeBelongs(courses: map<int, Course>, assignments: seq<Assignment>, g: AssignmentGrade)
  {
    && 0 <= g.assignmentId < |assignments|
    && assignments[g.assignmentId].courseId in courses
    && g.enrollment in courses[assignments[g.assignmentId].courseId].enrollments
  }

  class Store {
    var courses: map<int, Course>
    var assignments: seq<Assignment>
    var grades: seq<AssignmentGrade>

    ghost predicate Valid()
      reads this
    {
      Consistent(courses, assignments, grades)
    }
  }

  /** `findByAssignmentIdAndStudentEmail`: the id of the grade that assignment
      `assignmentId` holds for the student with `email`, if any (the first
      one, should there be several). */
  function FindGrade(grades: seq<AssignmentGrade>, assignmentId: int, email: string): (r: Option<int>)
    ensures r.Some? ==> 0 <= r.value < |grades| && GradeMatches(grades[r.value], assignmentId, email)
  {
    if |grades| == 0 then None
    else
      match FindGrade(grades[..|grades| - 1], assignmentId, email)
      case Some(id) => Some(id)
      case None =>
        if GradeMatches(grades[|grades| - 1], assignmentId, email) then Some(|grades| - 1) else None
  }

  /** The lookup finds the first matching grade, and finds nothing only when
      no grade matches. */
  lemma {:induction false} FindGradeFirst(grades: seq<AssignmentGrade>, assignmentId: int, email: string)
    ensures var r := FindGrade(grades, assignmentId, email);
            r.Some? ==> forall j :: 0 <= j < r.value ==> !GradeMatches(grades[j], assignmentId, email)
    ensures FindGrade(grades, assignmentId, email).None? <==>
              forall j :: 0 <= j < |grades| ==> !GradeMatches(grades[j], assignmentId, email)
  {
    if |grades| > 0 {
      var n := |grades| - 1;
      FindGradeFirst(grades[..n], assignmentId, email);
      assert forall j :: 0 <= j < n ==> grades[..n][j] == grades[j];
    }
  }

  /** Storing a new grade does not change which grade an earlier lookup finds,
      and a new grade is found when nothing matched before it. */
  lemma FindGradeAppend(grades: seq<AssignmentGrade>, g: AssignmentGrade, assignmentId: int, email: string)
    ensures FindGrade(grades, assignmentId, email).Some? ==>
              FindGrade(grades + [g], assignmentId, email) == FindGrade(grades, assignmentId, email)
    ensures FindGrade(grades, assignmentId, email).None? ==>
              FindGrade(grades + [g], assignmentId, email) ==
                (if GradeMatches(g, assignmentId, email) then Some(|grades|) else None)
  {
    assert (grades + [g])[..|grades|] == grades;
  }

  /** Storing a grade that belongs to the store and that no earlier grade
      duplicates keeps the store consistent. */
  lemma ConsistentAppend(courses: map<int, Course>, assignments: seq<Assignment>, grades: seq<AssignmentGrade>, g: AssignmentGrade)
    requires Consistent(courses, assignments, grades)
    requires GradeBelongs(courses, assignments, g)
    requires FindGrade(grades, g.assignmentId, g.enrollment.studentEmail) == None
    ensures Consistent(courses, assignments, grades + [g])
  {
    FindGradeFirst(grades, g.assignmentId, g.enrollment.studentEmail);
    var grown := grades + [g];
    forall i, j | 0 <= i < j < |grown|
      ensures !GradeMatches(grown[j], grown[i].assignmentId, grown[i].enrollment.studentEmail)
    {
      if j == |grades| {
        assert !GradeMatches(grades[i], g.assignmentId, g.enrollment.studentEmail);
      }
    }
  }

  /** `findByEmail`: the ids, in increasing order, of the assignments whose
      course is taught by `email`. */
  function FindByEmail(courses: map<int, Course>, assignments: seq<Assignment>, email: string): (ids: seq<int>)
    ensures forall k :: 0 <= k < |ids| ==> 0 <= ids[k] < |assignments| && TaughtBy(courses, assignments[ids[k]], email)
    ensures forall i :: 0 <= i < |assignments| && TaughtBy(courses, assignments[i], email) ==> i in ids
    ensures forall k, l :: 0 <= k < l < |ids| ==> ids[k] < ids[l]
  {
    if |assignments| == 0 then []
    else
      var n := |assignments| - 1;
      FindByEmail(courses, assignments[..n], email) + (if TaughtBy(courses, assignments[n], email) then [n] else [])
  }
}
