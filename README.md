# University management core, modelled in Dafny

This project models the domain core of a small university service. The core
has three kinds of object:

- people (`Student`, `Teacher`), who pass a validation when they are built;
- courses (`Course`), validated by type (`math` needs a difficulty level,
  `art` a set of material names), which keep a roster, a teacher, attendance
  per date and grades per student;
- the `University` registry, which stores all three kinds by identifier and
  keeps the two sides of every relation in step: the roster of a course
  and the enrolled courses of a student, and the teacher of a course and the
  assigned courses of a teacher.

The project has five modules, one per file:

- `Values` (`values.dfy`) holds the Python values the validators inspect, as
  a tagged `Value` type. It also holds the error kinds (`Invalid`), and the
  `Outcome`/`Result` types that stand in for a raised `ValueError`. It models
  `list(set)` as a loop (`SetToList`) that lists each element once in an
  unspecified order.
- `People` (`person.dfy`) holds the person validators as functions. `Student`
  and `Teacher` are classes whose course sets are changed in place by their
  methods.
- `Courses` (`course.dfy`) holds the course validator, and the effect of
  `take_attendance` and `assign_grade` as functions on a `CourseState` value.
  The class `Course` has methods proved against those functions.
- `Registry` (`registry.dfy`) gives the state of the whole university as a
  value: the enrolled sets, the assigned sets and the course states. Every
  mutating `University` operation and the two grade views are functions on
  it; the three list views (`get_course_roster`, `get_teacher_courses`,
  `get_student_courses`) serialise the stored objects directly. The registry invariant covers
  enrolment consistency, capacity and teaching consistency. Enrolment,
  withdrawal, teacher assignment, attendance and grading are proved to keep
  it for every input. The three `add` operations are proved to keep it only
  for a new identifier whose entity has no courses yet, as every freshly
  constructed entity is.
- `Universities` (`university.dfy`) holds the `University` class over maps
  of objects. `Abs()` maps its heap to a `Registry.State`, and every mutating
  method is proved to move `Abs()` exactly as the matching `Registry`
  function does. The cross-entity methods keep `Valid()` for every input;
  the `add` methods keep it under the same condition as their `Registry`
  counterparts.

Identifiers (UUID strings in the source) are parameters of the `Create`
methods. Dates are a `Date` value.

## Model

| member | source | states |
|---|---|---|
| Values.NameAccepted | models/person.py:19 | the name guard lets a value through iff it is a non-empty string (the same guard appears at models/course.py:31) |
| People.FirstMissing | models/person.py:23-26 | returns None exactly when every required field is present; otherwise returns a missing field, the first one when the head is missing |
| People.ValidatePerson | models/person.py:17-26 | passes iff the name is a non-empty string and the contact info is a dict holding `email` and `phone`; otherwise names the first failed check (name, then dict, then `email`, then `phone`) |
| People.AllStrings | models/person.py:84 | true iff every item is a string |
| People.ValidateSpecializations | models/person.py:75-88 | passes iff the value is a non-empty list of strings; reports a non-list, then a non-string item, then an empty list |
| People.ValidateTeacher | models/person.py:63-67 | a teacher is valid iff the person checks pass and then the specialization checks pass; a person error is reported first, otherwise the specialization error |
| People.PersonDict | models/person.py:28-35 | the serialised person has exactly the keys id, name, contact_info and role, holding the person's values |
| People.Student.Role | models/person.py:43-44 | the role is "student", never "teacher" |
| People.Student.Create | models/person.py:37-41 | raises (Err) iff the person validation fails, with that error; otherwise a fresh valid student holding the given values and no courses |
| People.Student.EnrollInCourse | models/person.py:46-48 | the enrolled set gains the course |
| People.Student.WithdrawFromCourse | models/person.py:50-52 | the enrolled set loses the course; a course not held changes nothing |
| People.Student.ToDict | models/person.py:54-60 | the person entries with role "student", plus `enrolled_courses` listing each enrolled course exactly once |
| People.Teacher.Role | models/person.py:69-73 | the role is "teacher", never "student" |
| People.Teacher.Create | models/person.py:62-67 | raises iff person validation or specialization validation fails, person errors first; otherwise a fresh valid teacher with the given specializations and no courses |
| People.Teacher.AssignCourse | models/person.py:90-94 | the assigned set gains the course |
| People.Teacher.RemoveCourse | models/person.py:96-100 | the assigned set loses the course; a course not assigned changes nothing |
| People.Teacher.ToDict | models/person.py:102-115 | the person entries with role "teacher", the specializations as given, and `assigned_courses` listing each assigned course exactly once |
| People.EnrollThenWithdraw | models/person.py:46-52 | a student enrolled in a course it did not hold and then withdrawn from it has its original enrolled set |
| People.WithdrawTwice | models/person.py:50-52 | withdrawing a student from a course twice leaves the same set as withdrawing once |
| People.AssignThenRemove | models/person.py:90-100 | a teacher assigned a course it did not hold and then relieved of it has its original assigned set |
| Courses.MaterialsOrEmpty | models/course.py:13 | a falsy materials value becomes the empty set; a truthy one is kept |
| Courses.ValidateCourse | models/course.py:20-45 | passes iff the name is a non-empty string, the capacity is a positive int, a math course has one of the three levels, and an art course has a set of strings; each failure names its check, in the order name, capacity, difficulty, materials-not-a-set, material-not-a-string |
| Courses.OtherCourseTypesUnchecked | models/course.py:37-45 | a course type other than math or art is accepted on its name and capacity alone |
| Courses.ArtWithoutMaterials | models/course.py:13 | an art course given no materials gets the empty set and passes the material checks |
| Courses.Course.Create | models/course.py:6-18 | raises iff validation of the defaulted fields fails, with that error; otherwise a fresh valid course with an empty roster, no teacher, no attendance and no grades |
| Courses.Course.ValidCourseFields | models/course.py:20-45 | the stored-course invariant is exactly what validation accepts |
| Courses.PresentFits | models/course.py:62-65 | a set of enrolled student ids is never larger than the roster |
| Courses.AttendanceCheck | models/course.py:56-66 | passes iff the value is a set of strings, all of them enrolled; reports a non-set, then a non-string, then more present than enrolled, then a present student not enrolled (the size guard is the intended `>`) |
| Courses.AttendanceCheckAsWritten | models/course.py:56-66 | as written: passes iff the value is a set of strings, all enrolled, and strictly fewer than the roster; as many present as enrolled is reported as too many |
| Courses.AttendanceAsWrittenDiffers | models/course.py:62 | the guard as written accepts exactly what the intended one accepts, minus the sets as large as the roster |
| Courses.FullRosterAttendance | models/course.py:62 | the full roster passes the intended check but is rejected as written, and on an empty course the as-written check rejects every request |
| Courses.AfterAttendance | models/course.py:47-68 | on success the date's entry becomes the present ids, replacing any earlier entry, and nothing else changes; on failure nothing changes |
| Courses.Course.TakeAttendance | models/course.py:47-68 | the outcome and the new course state are those of `AfterAttendance` on the old state |
| Courses.GradeRejectedAsWritten | models/course.py:80 | the guard as written raises for every non-int and for exactly the ints in 0..100 |
| Courses.GradeGuardInverted | models/course.py:80 | for ints the guard as written raises exactly for the grades in 0..100 (90 is refused, 150 is let through); non-ints are refused |
| Courses.AfterGrade | models/course.py:70-83 | succeeds iff the student is enrolled and the grade is an int in 0..100; reports not-enrolled first; on success only that student's grade is set, on failure nothing changes |
| Courses.GradeIsolated | models/course.py:83 | grading one student never changes another student's grade |
| Courses.Course.AssignGrade | models/course.py:70-83 | the outcome and the new course state are those of `AfterGrade` on the old state |
| Courses.Course.CommonDict | models/course.py:93-100 | the common serialised entries: id, name, type, capacity, current enrollment (roster size) and teacher id |
| Courses.Course.ToDict | models/course.py:85-107 | the common entries, plus `difficult_level` for math only and `materials_required` for art only, listing each material exactly once |
| Registry.Empty | models/university.py:7-10 | the empty registry satisfies the invariant |
| Registry.AddStudent | models/university.py:12-15 | the student's entry is set, replacing any earlier one; nothing else changes |
| Registry.AddTeacher | models/university.py:17-22 | the teacher's entry is set; nothing else changes |
| Registry.AddCourse | models/university.py:24-29 | the course's entry is set; nothing else changes |
| Registry.AddStudentPreservesInv | models/university.py:12-15 | adding a student with a new id and no courses keeps the invariant |
| Registry.AddTeacherPreservesInv | models/university.py:17-22 | adding a teacher with a new id and no courses keeps the invariant |
| Registry.AddCoursePreservesInv | models/university.py:24-29 | adding a new empty course without a teacher keeps the invariant |
| Registry.Enroll | models/university.py:31-39 | succeeds iff both ids are known and the roster is below capacity; on success both sides gain the enrolment and nothing else changes; on failure nothing changes |
| Registry.EnrollPreservesInv | models/university.py:31-39 | enrolment keeps consistency and capacity |
| Registry.EnrollAgainChangesNothing | models/university.py:34-38 | enrolling a student already on the roster of a course with room succeeds and leaves the state exactly as it was |
| Registry.FullCourseRefuses | models/university.py:35 | a full course refuses every enrolment and changes nothing |
| Registry.Withdraw | models/university.py:51-59 | succeeds iff both ids are known and the student is on the roster; on success both sides lose the enrolment; on failure nothing changes |
| Registry.WithdrawPreservesInv | models/university.py:51-59 | withdrawal keeps the invariant |
| Registry.WithdrawUndoesEnroll | models/university.py:31-59 | a successful enrolment followed by the matching withdrawal restores the exact state |
| Registry.CapacityOneScenario | models/university.py:31-59 | in a course of capacity one, the first student gets in, the second is refused, and after the first withdraws the second gets in |
| Registry.ReleaseCourse | models/university.py:45 | only the previous teacher, if any, loses the course |
| Registry.AssignTeacher | models/university.py:41-49 | succeeds iff both ids are known; the course names the new teacher, the new teacher gains it, only the previous teacher loses it, and nothing else changes |
| Registry.AssignTeacherPreservesInv | models/university.py:41-49 | reassignment keeps teaching consistency and the rest of the invariant |
| Registry.ReassignTeacher | models/university.py:41-49 | after assigning a course to one teacher and then to another, only the second teacher holds it |
| Registry.SameRostersKeepEnrolment | models/university.py:85-99 | a change that keeps the sets, rosters and capacities keeps enrolment consistency and capacity |
| Registry.SameTeachingKeepsTeaching | models/university.py:85-99 | a change that keeps the assigned sets and the course teachers, as attendance and grading do, keeps teaching consistency |
| Registry.SameRelationsPreserveInv | models/university.py:85-99 | a change only to attendance and grades keeps the invariant |
| Registry.RecordAttendance | models/university.py:85-91 | fails for an unknown course or when the intended attendance check fails; otherwise it is the course's attendance update |
| Registry.RecordAttendancePreservesInv | models/university.py:85-91 | recording attendance keeps the invariant |
| Registry.AssignGrade | models/university.py:93-99 | fails for an unknown course or student, a student not on the roster, or a grade outside 0..100 (the intended range check); otherwise it is the course's grade update |
| Registry.AssignGradePreservesInv | models/university.py:93-99 | assigning a grade keeps the invariant |
| Registry.CourseGrades | models/university.py:101-106 | None exactly for an unknown course |
| Registry.StudentGrades | models/university.py:108-114 | None exactly for an unknown student |
| Registry.StudentGradesAgree | models/university.py:108-114 | under the invariant, a student's grades are those of exactly the courses whose roster holds the student and that graded the student, each equal to that course's own record |
| Universities.University.AbsEquals | models/university.py:8-10 | the abstract state is determined by the stored entities' mutable state |
| Universities.University.ValidFrom | models/university.py:8-10 | keyed maps whose abstract state meets the invariant form a valid registry |
| Universities.University.RosterKnown | models/university.py:65 | in a valid registry every rostered student is registered |
| Universities.University.EnrolledKnown | models/university.py:81 | in a valid registry every enrolled course is registered |
| Universities.University.AssignedKnown | models/university.py:73 | in a valid registry every assigned course is registered |
| Universities.University.TeacherKnown | models/university.py:45 | in a valid registry a course's teacher is registered |
| Universities.University.constructor | models/university.py:7-10 | the registry starts empty and valid |
| Universities.University.AddStudent | models/university.py:12-15 | stores the student under its id and returns the id; the abstract state moves as `Registry.AddStudent`; a new valid student without courses keeps the registry valid |
| Universities.University.StoreStudent | models/university.py:14 | the map update, as `Registry.AddStudent` on the abstract state |
| Universities.University.AddTeacher | models/university.py:17-22 | as AddStudent, for teachers: a new valid teacher without courses keeps the registry valid |
| Universities.University.StoreTeacher | models/university.py:20 | the map update, as `Registry.AddTeacher` |
| Universities.University.AddCourse | models/university.py:24-29 | as AddStudent, for courses; a new valid empty course without a teacher keeps the registry valid |
| Universities.University.StoreCourse | models/university.py:27 | the map update, as `Registry.AddCourse` |
| Universities.University.EnrollStudent | models/university.py:31-39 | keeps `Valid()`; the result and the new abstract state are those of `Registry.Enroll` |
| Universities.University.Join | models/university.py:36-37 | both sides of the enrolment are added |
| Universities.University.SetRoster | models/university.py:36 | only that course's roster changes |
| Universities.University.StudentJoins | models/university.py:37 | only that student's enrolled set gains the course |
| Universities.University.WithdrawStudent | models/university.py:51-59 | keeps `Valid()`; the result and the new abstract state are those of `Registry.Withdraw` |
| Universities.University.Leave | models/university.py:56-57 | both sides of the enrolment are removed |
| Universities.University.StudentLeaves | models/university.py:57 | only that student's enrolled set loses the course |
| Universities.University.AssignTeacher | models/university.py:41-49 | keeps `Valid()`; the result and the new abstract state are those of `Registry.AssignTeacher` |
| Universities.University.HandOver | models/university.py:45-47 | steps 2-4 together move the abstract state as `Registry.AssignTeacher` |
| Universities.University.ReleaseFromPrevious | models/university.py:45 | only the previous teacher, if any, loses the course |
| Universities.University.SetTeacher | models/university.py:46 | only that course's teacher changes |
| Universities.University.TeacherTakes | models/university.py:47 | only that teacher's assigned set gains the course |
| Universities.University.RecordAttendance | models/university.py:85-91 | keeps `Valid()`; the result and the new abstract state are those of `Registry.RecordAttendance` |
| Universities.University.Attend | models/university.py:89 | the course's attendance update, seen on the abstract state |
| Universities.University.AssignGrade | models/university.py:93-99 | keeps `Valid()`; the result and the new abstract state are those of `Registry.AssignGrade` |
| Universities.University.Grade | models/university.py:97 | the course's grade update, seen on the abstract state |
| Universities.University.GetCourseRoster | models/university.py:61-67 | None iff the course is unknown; otherwise one serialised student per rostered student, each exactly once |
| Universities.University.GetTeacherCourses | models/university.py:69-75 | None iff the teacher is unknown; otherwise one serialised course per assigned course, each exactly once |
| Universities.University.GetStudentCourses | models/university.py:77-83 | None iff the student is unknown; otherwise one serialised course per enrolled course, each exactly once |
| Universities.University.CourseDicts | models/university.py:74 | the serialisations of the given registered courses, in order |
| Universities.University.GetCourseGrades | models/university.py:101-106 | None iff the course is unknown; otherwise that course's grades, as `Registry.CourseGrades` |
| Universities.University.GetStudentGrades | models/university.py:108-114 | None iff the student is unknown; otherwise the grade of each course that rosters and grades the student, as `Registry.StudentGrades` |

## Left out

- Identifiers are UUIDs drawn at random in the source. Here they are parameters of the `Create` methods, and the model does not show they are unique.
- `datetime`/`date` values become the `Date` datatype. Only their equality is used.
- The `Student.attendance` field (models/person.py:41) is never read or written after construction, so it is not modelled.
- `Person` as an abstract base class is flattened into the two role classes, and `get_role` is a constant function in each.
- `Course.take_attendance` stores the caller's own set object, so later changes to that set would show in the course. The model stores the set's value, so aliasing is not captured.
- `Person.__init__` keeps the caller's `contact_info` dict and `Teacher.__init__` the caller's `specializations` list (models/person.py:9, 65), and `to_dict` hands both out again (models/person.py:33, 111). Likewise `Course.__init__` keeps the caller's own `materials_required` set when it is truthy (models/course.py:13), so a caller can later add a non-string to a validated art course, and `to_dict` then lists it (models/course.py:105). In Python a caller can later delete `email` or empty the list and so make a stored person invalid. The model keeps `contactInfo`, `specializations` and `materialsRequired` as immutable values, so this aliasing, and the loss of validity it allows, is not captured.
- Python's `list(set)` order is left unspecified. The serialisation methods promise only that each element appears exactly once.
- Python's `bool` is a subclass of `int`, and floats reach the grade check. `Value` has no boolean case, so `True` as a grade or capacity is not modelled. Floats are always refused, as the `isinstance(grade, int)` check does.
- The `University` methods other than `add_student` have only numbered comments in the source, with no code. They are modelled from those steps.
- `get_student_grades` does not say what happens for an enrolled course with no grade. The model leaves such a course out of the result.
- The specialization strings of a teacher and the contact values are not checked beyond the source's own checks; they are kept as given.
- The validation comment in models/course.py lists a check that the course type is math or art, but the code does not make it. The model follows the code (see `Courses.OtherCourseTypesUnchecked`).
- Universities.University.AddStudent: keeps `Valid()` only when the student is valid, new and has no courses. The source overwrites silently. Storing the same object again changes nothing, but two cases can break the two-sided relations: a different object stored under an identifier already taken, and an entity that already holds courses.
- Universities.University.AddTeacher: keeps `Valid()` only for a valid new teacher with no courses, for the same reason.
- Universities.University.AddCourse: keeps `Valid()` only for a new valid course with an empty roster and no teacher, for the same reason.
- Courses.Course.TakeAttendance: uses the intended size guard rather than the one written (see Findings).
- Courses.Course.AssignGrade: uses the intended range guard rather than the one written (see Findings).
- Registry.RecordAttendance: inherits the intended size guard of `Courses.AttendanceCheck`, so a full-roster attendance succeeds where the code as written would return False.
- Universities.University.RecordAttendance: the same as `Registry.RecordAttendance`, which it follows.
- Registry.AssignGrade: inherits the intended range guard of `Courses.AfterGrade`, so a grade in 0..100 succeeds and one outside fails, the reverse of the code as written.
- Universities.University.AssignGrade: the same as `Registry.AssignGrade`, which it follows.
- Registry.Enroll: enrolling a student who is already on the roster of a course with room returns true and changes nothing (`Registry.EnrollAgainChangesNothing`), because the documented steps of `enroll_student` check only the identifiers and the capacity, not an existing enrolment. `Universities.University.EnrollStudent` behaves the same way.
- The Flask web layer and the scripts around it are not part of this model.

## Findings

| source | as written | input that shows it | evidently intended | confidence | as-written member | corrected member |
|---|---|---|---|---|---|---|
| models/course.py:62 | `len(present_student_ids) >= len(self.students)` raises | every enrolled student present, e.g. roster {"a"} and present {"a"}; on an empty course every request fails | raise only when more students are present than enrolled (`>`) | not executed | Courses.AttendanceCheckAsWritten (shown by Courses.FullRosterAttendance, Courses.AttendanceAsWrittenDiffers) | Courses.AttendanceCheck |
| models/course.py:80 | `not isinstance(grade, int) or 0 <= grade <= 100` raises | grade 90 for an enrolled student is refused, grade 150 is stored | raise when the grade is not an int or lies outside 0..100 | not executed | Courses.GradeRejectedAsWritten (shown by Courses.GradeGuardInverted) | Courses.AfterGrade |
