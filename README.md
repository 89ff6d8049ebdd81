# Gradebook controllers — a Dafny model

This project models the business rules of the two REST controllers of the
CST438 gradebook: `GradeBookController` and `AssignmentController`.

- `GradeBookController` has three endpoints, each guarded by an instructor check:
  - the gradebook view of an assignment, which creates a blank grade for every
    enrolled student who has none;
  - the batch entry of scores;
  - the calculation of final letter grades for a course.
- `AssignmentController` creates and reads assignments. Its update endpoint
  validates its input and stores nothing. Its delete endpoint does nothing and
  always succeeds.

Layout, one module per file:

- `domain.dfy` (`Domain`): the entities (`Course`, `Enrollment`, `Assignment`,
  `AssignmentGrade`), the records the endpoints exchange (`GradeDTO`,
  `FinalGradeDTO`, `AssignmentDTO`), and `Result`. `Result` carries the HTTP
  status an endpoint fails with: `BadRequest`, `Unauthorized` or `NotFound`.
- `repository.dfy` (`Repository`): the store both controllers share. It is a
  class whose fields are the repositories:
  - `courses`, a map from course id to course;
  - `assignments` and `grades`, tables whose ids the store hands out in
    increasing order, so an id is a position.

  `Valid()` is referential integrity:
  - every assignment's course exists;
  - every grade's assignment exists, and its enrollment is one of that
    assignment's course;
  - no assignment holds two grades for the same student.

  Both repository queries the controllers use live here as functions:
  `FindGrade` (`findByAssignmentIdAndStudentEmail`) and `FindByEmail`.
- `gradebook_controller.dfy` (`GradeBookController`): the instructor check,
  the letter thresholds, averages, and the three gradebook endpoints as
  methods on the store.
- `assignment_controller.dfy` (`AssignmentController`): course resolution and
  the five assignment endpoints.

Some endpoints change the store:

- `GetGradebook` may store new blank grades.
- `UpdateGradebook` overwrites scores.
- `CreateAssignment` stores an assignment.

Each of these is a method with `modifies store`grades` or
`modifies store`assignments`. Its postcondition states the new table in terms of
the old one and says that a failed call leaves the table as it was.

The read-only endpoints are methods without a `modifies` clause, and so
cannot change the store: `CalcFinalGrades`, `GetAllAssignmentsForInstructor`,
`UpdateAssignment` and `DeleteAssignment`. Each one's postcondition gives its
result in terms of specification functions. Lemmas state what those functions
promise: threshold bands, average bounds, final-grade properties, and what a
batch does to a score.

Points where the model chooses between readings:

- `calcFinalGrades` looks up the course and dereferences it without a null
  check (GradeBookController.java:73-74). For an unknown course the model
  answers `NotFound` instead of failing with an unspecified error.
- Course resolution for an assignment request is modelled as written: it
  REFUSES a request whose course title equals the stored title, and accepts
  any other title for a stored course (AssignmentController.java:98).
  `TitleCheckIsInverted` states this. The intended rule was most likely the
  opposite, but the model keeps the code's behaviour.
- A score update names a grade by id only. The code does not check that the
  grade belongs to the assignment in the URL, so neither does the model.
- The assignment listing always serves the instructor whose email is
  hard-coded at AssignmentController.java:29. The model keeps that constant as
  `ListingInstructor`.
- An enrollment's grades (`e.getAssignmentGrades()`) are the stored grades
  whose enrollment is that enrollment, taken in id order.
- `findByAssignmentIdAndStudentEmail` returns the lowest-id match.
  `Valid()` guarantees that there is at most one match anyway.

## Model

| member | source | states |
|---|---|---|
| `Repository.FindGrade` | cst438_gradebook/src/main/java/com/cst438/controllers/GradeBookController.java:52 | a grade it finds is a stored grade of that assignment for the student with that email |
| `Repository.FindGradeFirst` | cst438_gradebook/src/main/java/com/cst438/controllers/GradeBookController.java:52-53 | the lookup finds the first matching grade, and finds nothing exactly when no stored grade matches |
| `Repository.FindGradeAppend` | cst438_gradebook/src/main/java/com/cst438/controllers/GradeBookController.java:52-55 | saving a grade does not change what an earlier lookup found; a student who had no grade is found at the new grade if it matches |
| `Repository.ConsistentAppend` | cst438_gradebook/src/main/java/com/cst438/controllers/GradeBookController.java:53-55 | saving a grade of the assignment's course for a student who has none keeps referential integrity and at most one grade per assignment and student |
| `Repository.FindByEmail` | cst438_gradebook/src/main/java/com/cst438/controllers/AssignmentController.java:30 | exactly the assignments whose course is taught by the email, each once, in increasing id order |
| `GradeBookController.CheckAssignment` | cst438_gradebook/src/main/java/com/cst438/controllers/GradeBookController.java:121-132 | an unknown assignment id is BAD_REQUEST; a known one whose course instructor is not the caller is UNAUTHORIZED; otherwise the stored assignment; no other failure |
| `GradeBookController.OnlyTheInstructorPasses` | cst438_gradebook/src/main/java/com/cst438/controllers/GradeBookController.java:127-130 | two callers who both pass the check for an assignment are the same, its course's instructor |
| `GradeBookController.LetterGrade` | cst438_gradebook/src/main/java/com/cst438/controllers/GradeBookController.java:135-141 | A for 90 and above, B for [80, 90), C for [70, 80), D for [60, 70), F below 60, each band including its lower bound |
| `GradeBookController.LetterGradeMonotone` | cst438_gradebook/src/main/java/com/cst438/controllers/GradeBookController.java:135-141 | a higher average never earns a worse letter |
| `GradeBookController.Average` | cst438_gradebook/src/main/java/com/cst438/controllers/GradeBookController.java:89 | the average of no scores is 0 |
| `GradeBookController.SumWithin` | cst438_gradebook/src/main/java/com/cst438/controllers/GradeBookController.java:81-88 | a total of n scores that lie in [lo, hi] lies in [n·lo, n·hi] |
| `GradeBookController.AverageWithin` | cst438_gradebook/src/main/java/com/cst438/controllers/GradeBookController.java:89 | the average of one or more scores in [lo, hi] lies in [lo, hi] |
| `GradeBookController.EnrollmentScores` | cst438_gradebook/src/main/java/com/cst438/controllers/GradeBookController.java:83-88 | a student has no more entered scores than there are grades |
| `GradeBookController.EnrollmentScoresMembers` | cst438_gradebook/src/main/java/com/cst438/controllers/GradeBookController.java:83-88 | a value is among the scores averaged for a student exactly when one of that enrollment's grades holds it as a non-null score; null scores are ignored (multiplicity: `EnrollmentScoresCounts`) |
| `GradeBookController.EnrollmentScoresCounts` | cst438_gradebook/src/main/java/com/cst438/controllers/GradeBookController.java:83-88 | each entered score is averaged once per grade of the enrollment that holds it, so repeated scores are counted as often as they occur |
| `GradeBookController.EnrollmentScoreCount` | cst438_gradebook/src/main/java/com/cst438/controllers/GradeBookController.java:83-88 | for one score value, the number of times it is averaged equals the number of the enrollment's grades holding it |
| `GradeBookController.NoScoresMeansF` | cst438_gradebook/src/main/java/com/cst438/controllers/GradeBookController.java:89-90 | a student with no non-null score averages 0 and gets "F" |
| `GradeBookController.FinalGradeWithin` | cst438_gradebook/src/main/java/com/cst438/controllers/GradeBookController.java:80-90 | a student whose entered scores all lie in [lo, hi] averages within [lo, hi]; all at 90 or above gives "A", all below 60 gives "F" |
| `GradeBookController.BlankGradesKeepScores` | cst438_gradebook/src/main/java/com/cst438/controllers/GradeBookController.java:83-88 | grades stored without a score, as the gradebook view creates them, change no student's averaged scores and hence no final grade |
| `GradeBookController.WorkedExamples` | cst438_gradebook/src/main/java/com/cst438/controllers/GradeBookController.java:80-90 | scores 100 and 80 average 90 and give "A"; 60, 50 and a null average 55 and give "F"; only a null gives "F" |
| `GradeBookController.StudentAverage` | cst438_gradebook/src/main/java/com/cst438/controllers/GradeBookController.java:81-89 | the total and count accumulated over the student's grades give the average of their non-null scores, or 0 when there are none |
| `GradeBookController.CalcFinalGrades` | cst438_gradebook/src/main/java/com/cst438/controllers/GradeBookController.java:66-94 | fails with UNAUTHORIZED unless the caller is the course's instructor (NOT_FOUND for an unknown course), before any grade is computed; otherwise the one batch sent to registration, one record per enrollment in enrollment order, carrying the student's email and name, the letter of their average and the course id |
| `GradeBookController.GetGradebook` | cst438_gradebook/src/main/java/com/cst438/controllers/GradeBookController.java:39-60 | fails exactly as the instructor check does and then stores nothing; otherwise one row per enrollment in order, each row being the grade's id, the student's name and email and the grade's score; existing grades are unchanged; new grades are blank and only for students who had none; nothing is created when every student had a grade |
| `GradeBookController.AssembleGradebook` | cst438_gradebook/src/main/java/com/cst438/controllers/GradeBookController.java:47-59 | the loop over the course's enrollments fills the row array in enrollment order and leaves the store as the view must leave it |
| `GradeBookController.ProvideGrade` | cst438_gradebook/src/main/java/com/cst438/controllers/GradeBookController.java:52-56 | the student's grade is found afterwards; the store is unchanged when they had one and gains exactly one blank grade when they had none |
| `GradeBookController.NothingCreatedWhenAllGraded` | cst438_gradebook/src/main/java/com/cst438/controllers/GradeBookController.java:52-56 | if every student already had a grade, the view stored no new one |
| `GradeBookController.RowsKept` | cst438_gradebook/src/main/java/com/cst438/controllers/GradeBookController.java:55-57 | saving a new grade leaves the rows already built showing the right grade |
| `GradeBookController.FindGradePrefix` | cst438_gradebook/src/main/java/com/cst438/controllers/GradeBookController.java:52-53 | a student with no grade now had none before the view started |
| `GradeBookController.GetGradebookTwice` | cst438_gradebook/src/main/java/com/cst438/controllers/GradeBookController.java:39-60 | viewing a gradebook a second time stores nothing and shows the same rows |
| `GradeBookController.ScoreAfterUnnamed` | cst438_gradebook/src/main/java/com/cst438/controllers/GradeBookController.java:108-117 | a grade the batch does not name keeps its score |
| `GradeBookController.ScoreAfterLast` | cst438_gradebook/src/main/java/com/cst438/controllers/GradeBookController.java:108-117 | a grade the batch names ends with the score of the last update naming it, null included |
| `GradeBookController.UpdateGradebook` | cst438_gradebook/src/main/java/com/cst438/controllers/GradeBookController.java:100-118 | succeeds exactly when the instructor check passes and every grade id in the batch is stored; an unknown id is BAD_REQUEST, and any failure leaves every grade as it was (the transaction is rolled back); on success only scores change, each to what the batch last supplied for it |
| `AssignmentController.SafeFindCourse` | cst438_gradebook/src/main/java/com/cst438/controllers/AssignmentController.java:92-107 | an unknown course id is NOT_FOUND; a title equal to the stored title is BAD_REQUEST; otherwise the stored course |
| `AssignmentController.TitleCheckIsInverted` | cst438_gradebook/src/main/java/com/cst438/controllers/AssignmentController.java:98-105 | a request naming its course's actual title is refused, and any other title is accepted |
| `AssignmentController.GetAssignment` | cst438_gradebook/src/main/java/com/cst438/controllers/AssignmentController.java:45-59 | an unknown id is NOT_FOUND; otherwise the assignment's id, name and due date with its course's title and course id |
| `AssignmentController.GetAllAssignmentsForInstructor` | cst438_gradebook/src/main/java/com/cst438/controllers/AssignmentController.java:26-43 | as many entries as the query returns, entry i equal to reading assignment i of the query on its own, all of the hard-coded instructor's courses; the store is not changed |
| `AssignmentController.CreateAssignment` | cst438_gradebook/src/main/java/com/cst438/controllers/AssignmentController.java:61-73 | fails exactly as course resolution does, storing nothing; otherwise appends exactly one assignment with the given name and due date, bound to the resolved course, returns its fresh id and leaves all other assignments unchanged |
| `AssignmentController.UpdateAssignment` | cst438_gradebook/src/main/java/com/cst438/controllers/AssignmentController.java:75-82 | fails exactly as course resolution does and otherwise succeeds; the store is not changed |
| `AssignmentController.DeleteAssignment` | cst438_gradebook/src/main/java/com/cst438/controllers/AssignmentController.java:84-88 | always succeeds; the store is not changed |

## Left out

- Spring plumbing is not modelled: routing, JSON (de)serialisation, `@CrossOrigin` and the mapping of `ResponseStatusException` to a response. An endpoint's failure is the `Err` status it returns, and the error message text is not modelled.
- Identity lookup (`userRepository.findByUsername(principal.getName()).getEmail()`) is not modelled. The caller's email is a parameter.
- The JPA repositories and their generated queries are replaced by the `Store` class and the two query functions. In particular, query result order is taken as increasing id.
- `RegistrationService.sendFinalGrades` is an external call. `CalcFinalGrades` returns the batch it would send.
- Due dates: `Date.valueOf` parsing and `toString` are not modelled. A due date is kept as its text, so a malformed date string, which the code would reject with an exception, is accepted.
- Scores are integers and averages exact rationals. Java `double` rounding is not modelled.
- Transactions are modelled only as all-or-nothing for a failed batch of score updates. Isolation and concurrent last-write-wins updates are not modelled.
- Logging (`System.out`) is not modelled.
- `GradeBookController.Average`: its own contract states only the empty case. The bounds of a non-empty average are stated by `AverageWithin`.
- `GradeBookController.EnrollmentScores`: its own contract states only a length bound. Which scores it holds is stated by `EnrollmentScoresMembers`.
