/** Entities of the gradebook, the request and response records of its two
    controllers, and the statuses with which an endpoint can fail. */
module Domain {

  /** The HTTP statuses the controllers raise. */
  datatype Status = BadRequest | Unauthorized | NotFound

  /** The outcome of an endpoint: a value, or the status it failed with. */
  datatype Result<T> = Ok(value: T) | Err(status: Status)

  /** A nullable value, such as a score that has not been entered yet. */
  datatype Option<T> = None | Some(value: T)

  /** One student's place in one course. */
  datatype Enrollment = Enrollment(id: int, studentName: string, studentEmail: string)

  /** A course, its instructor's email and its enrollments in stored order.
      Its id is the key under which the store holds it. */
  datatype Course = Course(title: string, instructor: string, enrollments: seq<Enrollment>)

  /** An assignment of a course. The due date is kept as its text. */
  datatype Assignment = Assignment(name: string, dueDate: string, courseId: int)

  /** One student's score for one assignment; `None` means not graded yet. */
  datatype AssignmentGrade = AssignmentGrade(assignmentId: int, enrollment: Enrollment, score: Option<int>)

  /** A gradebook row, both as returned by the gradebook view and as sent back
      in a batch of score updates. */
  datatype GradeDTO = GradeDTO(assignmentGradeId: int, studentName: string, studentEmail: string, grade: Option<int>)

  /** One student's final letter grade, as handed to the registration service. */
  datatype FinalGradeDTO = FinalGradeDTO(studentEmail: string, studentName: string, letterGrade: string, courseId: int)

  /** An assignment joined with its course's title and id. */
  datatype AssignmentDTO = AssignmentDTO(id: int, assignmentName: string, dueDate: string, courseTitle: string, courseId: int)
}
