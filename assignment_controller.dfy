/** The assignment endpoints: list an instructor's assignments, read one,
    create one, update one (which validates its input but stores nothing) and
    delete one (which does nothing at all). */
module AssignmentController {
  import opened Domain
  import opened Repository

  /** The listing serves this one instructor, whoever asks. */
  const ListingInstructor: string := "dwisneski@csumb.edu"

  /** Resolves the course an assignment request names. An unknown course id is
      not found; a request whose course title EQUALS the stored title is a bad
      request (the check as the controller writes it); otherwise the course. */
  function SafeFindCourse(courses: map<int, Course>, dto: AssignmentDTO): (r: Result<Course>)
    ensures r.Err? ==> r.status == NotFound || r.status == BadRequest
    ensures r.Err? && r.status == NotFound <==> dto.courseId !in courses
    ensures r.Err? && r.status == BadRequest <==> dto.courseId in courses && courses[dto.courseId].title == dto.courseTitle
    ensures r.Ok? ==> dto.courseId in courses && r.value == courses[dto.courseId] && r.value.title != dto.courseTitle
  {
    if dto.courseId !in courses then Err(NotFound)
    else
      var course := courses[dto.courseId];
      if course.title == dto.courseTitle then Err(BadRequest)
      else Ok(course)
  }

  /** A request that names its course correctly, title and all, is refused,
      and one that gives any other title for a stored course is accepted. */
  lemma TitleCheckIsInverted(courses: map<int, Course>, dto: AssignmentDTO, other: string)
    requires dto.courseId in courses && other != courses[dto.courseId].title
    ensures SafeFindCourse(courses, dto.(courseTitle := courses[dto.courseId].title)) == Err(BadRequest)
    ensures SafeFindCourse(courses, dto.(courseTitle := other)).Ok?
  {
  }

  /** `getAssignment`: the assignment with its course's title and id, or not
      found for an unknown id. */
  function GetAssignment(store: Store, id: int): (r: Result<AssignmentDTO>)
    reads store
    requires store.Valid()
    ensures r.Err? <==> !(0 <= id < |store.assignments|)
    ensures r.Err? ==> r.status == NotFound
    ensures r.Ok? ==> var a := store.assignments[id];
              && r.value.id == id
              && r.value.assignmentName == a.name
              && r.value.dueDate == a.dueDate
              && r.value.courseId == a.courseId
              && r.value.courseTitle == store.courses[a.courseId].title
  {
    if 0 <= id < |store.assignments| then
      var a := store.assignments[id];
      Ok(AssignmentDTO(id, a.name, a.dueDate, store.courses[a.courseId].title, a.courseId))
    else
      Err(NotFound)
  }

  /** `getAllAssignmentsForInstructor`: one entry per assignment the query
      finds for the listing instructor, in query order, each the same as
      reading that assignment on its own. */
  method GetAllAssignmentsForInstructor(store: Store) returns (result: seq<AssignmentDTO>)
    requires store.Valid()
    ensures var ids := FindByEmail(store.courses, store.assignments, ListingInstructor);
            |result| == |ids| && forall i :: 0 <= i < |ids| ==> GetAssignment(store, ids[i]) == Ok(result[i])
    ensures forall i :: 0 <= i < |result| ==> store.courses[result[i].courseId].instructor == ListingInstructor
  {
    var assignments := FindByEmail(store.courses, store.assignments, ListingInstructor);
    var dtos := new AssignmentDTO[|assignments|];
    for i := 0 to |assignments|
      invariant forall k :: 0 <= k < i ==> GetAssignment(store, assignments[k]) == Ok(dtos[k])
    {
      var id := assignments[i];
      var a := store.assignments[id];
      var course := store.courses[a.courseId];
      dtos[i] := AssignmentDTO(id, a.name, a.dueDate, course.title, a.courseId);
    }
    result := dtos[..];
  }

  /** `createAssignment`: once the course is resolved, stores one new
      assignment of that course and returns its new id. When the course check
      fails, nothing is stored. */
  method CreateAssignment(store: Store, dto: AssignmentDTO) returns (r: Result<int>)
    requires store.Valid()
    modifies store`assignments
    ensures store.Valid()
    ensures r.Err? <==> SafeFindCourse(store.courses, dto).Err?
    ensures r.Err? ==> r.status == SafeFindCourse(store.courses, dto).status
    ensures r.Err? ==> store.assignments == old(store.assignments)
    ensures r.Ok? ==> r.value == |old(store.assignments)|
    ensures r.Ok? ==> store.assignments == old(store.assignments) + [Assignment(dto.assignmentName, dto.dueDate, dto.courseId)]
  {
    var found := SafeFindCourse(store.courses, dto);
    if found.Err? {
      return Err(found.status);
    }
    var assignment := Assignment(dto.assignmentName, dto.dueDate, dto.courseId);
    store.assignments := store.assignments + [assignment];
    r := Ok(|store.assignments| - 1);
  }

  /** `updateAssignment`: answers as the course check does and stores
      nothing. */
  method UpdateAssignment(store: Store, dto: AssignmentDTO, assignmentId: int) returns (r: Result<()>)
    ensures r.Err? <==> dto.courseId !in store.courses || store.courses[dto.courseId].title == dto.courseTitle
    ensures r.Err? ==> r.status == (if dto.courseId !in store.courses then NotFound else BadRequest)
  {
    var found := SafeFindCourse(store.courses, dto);
    if found.Err? {
      return Err(found.status);
    }
    r := Ok(());
  }

  /** `deleteAssignment`: always succeeds and stores nothing. */
  method DeleteAssignment(assignmentId: int) returns (r: Result<()>)
    ensures r == Ok(())
  {
    r := Ok(());
  }
}
