/** The university registry (models/university.py): three maps from
    identifier to Student, Teacher and Course objects, and the operations that
    span them. Only `add_student` has a body in the source; every other
    method is modelled from the numbered steps its own comment documents.
    Each mutating method is tied to the matching function of `Registry` on
    the abstract state `Abs()`, where the invariants are proved. */
module Universities {
  import opened Values
  import opened People
  import opened Courses
  import Registry

  class University {
    var students: map<Id, Student>
    var teachers: map<Id, Teacher>
    var courses: map<Id, Course>

    /** Every entity is stored under its own identifier (so no object is stored
        twice) and passed its constructor's validation. */
    ghost predicate Keyed()
      reads this
    {
      (forall s :: s in students ==> students[s].id == s && students[s].Valid()) &&
      (forall t :: t in teachers ==> teachers[t].id == t && teachers[t].Valid()) &&
      (forall c :: c in courses ==> courses[c].id == c && courses[c].Valid())
    }

    /** The mutable state of every stored entity, as a value. */
    ghost function Abs(): Registry.State
      reads this, students.Values, teachers.Values, courses.Values
    {
      Registry.State(
        map s | s in students :: students[s].enrolledCourses,
        map t | t in teachers :: teachers[t].assignedCourses,
        map c | c in courses :: courses[c].State())
    }

    ghost predicate Valid()
      reads this, students.Values, teachers.Values, courses.Values
    {
      Keyed() && Registry.Inv(Abs())
    }

    /** The abstract state is `st` when every stored entity's mutable state is
        the one `st` records for it. */
    lemma AbsEquals(st: Registry.State)
      requires st.students.Keys == students.Keys && st.teachers.Keys == teachers.Keys
      requires st.courses.Keys == courses.Keys
      requires forall s :: s in students ==> students[s].enrolledCourses == st.students[s]
      requires forall t :: t in teachers ==> teachers[t].assignedCourses == st.teachers[t]
      requires forall c :: c in courses ==> courses[c].State() == st.courses[c]
      ensures Abs() == st
    {
      var a := Abs();
      assert a.students == st.students;
      assert a.teachers == st.teachers;
      assert a.courses == st.courses;
    }

    /** The registry is valid once its entities are keyed and their states
        form a valid abstract state. */
    lemma ValidFrom(st: Registry.State)
      requires Keyed() && Abs() == st && Registry.Inv(st)
      ensures Valid()
    {
    }

    /** Every student on a roster is registered. */
    lemma RosterKnown(courseId: Id)
      requires Valid() && courseId in courses
      ensures courses[courseId].students <= students.Keys
    {
      var a := Abs();
      assert a.courses[courseId].students == courses[courseId].students;
      forall s | s in courses[courseId].students ensures s in students {
        assert s in a.students;
      }
    }

    /** Every course a student is enrolled in is registered. */
    lemma EnrolledKnown(studentId: Id)
      requires Valid() && studentId in students
      ensures students[studentId].enrolledCourses <= courses.Keys
    {
      var a := Abs();
      assert a.students[studentId] == students[studentId].enrolledCourses;
      forall c | c in students[studentId].enrolledCourses ensures c in courses {
        assert c in a.courses;
      }
    }

    /** Every course a teacher is assigned is registered. */
    lemma AssignedKnown(teacherId: Id)
      requires Valid() && teacherId in teachers
      ensures teachers[teacherId].assignedCourses <= courses.Keys
    {
      var a := Abs();
      assert a.teachers[teacherId] == teachers[teacherId].assignedCourses;
      forall c | c in teachers[teacherId].assignedCourses ensures c in courses {
        assert c in a.courses;
      }
    }

    /** A course's teacher, if it has one, is registered. */
    lemma TeacherKnown(courseId: Id)
      requires Valid() && courseId in courses
      ensures courses[courseId].teacherId.Some? ==> courses[courseId].teacherId.value in teachers
    {
      var a := Abs();
      assert a.courses[courseId].teacherId == courses[courseId].teacherId;
      if courses[courseId].teacherId.Some? {
        assert courses[courseId].teacherId.value in a.teachers;
      }
    }

    /** `University()`: no students, teachers or courses. */
    constructor ()
      ensures Valid()
      ensures students == map[] && teachers == map[] && courses == map[]
    {
      students := map[];
      teachers := map[];
      courses := map[];
      new;
      assert Abs() == Registry.Empty();
    }

    /** `add_student`: stores the student under its identifier and returns it.
        A student with a new identifier and no enrolments, as every
        constructed Student is, keeps the registry valid. */
    method AddStudent(student: Student) returns (id: Id)
      modifies this
      ensures id == student.id
      ensures students == old(students)[student.id := student]
      ensures teachers == old(teachers) && courses == old(courses)
      ensures Abs() == Registry.AddStudent(old(Abs()), student.id, student.enrolledCourses)
      ensures old(Valid()) && student.Valid() && student.id !in old(students) && student.enrolledCourses == {} ==>
        Valid()
    {
      ghost var before := Abs();
      ghost var wasValid := Valid();
      StoreStudent(student);
      id := student.id;
      if wasValid && student.Valid() && student.id !in old(students) && student.enrolledCourses == {} {
        assert forall s :: s in students ==> students[s].id == s && students[s].Valid();
        Registry.AddStudentPreservesInv(before, student.id);
        ValidFrom(Registry.AddStudent(before, student.id, {}));
      }
    }

    /** The map update of `add_student`. */
    method StoreStudent(student: Student)
      modifies this
      ensures students == old(students)[student.id := student]
      ensures teachers == old(teachers) && courses == old(courses)
      ensures Abs() == Registry.AddStudent(old(Abs()), student.id, student.enrolledCourses)
    {
      ghost var before := Abs();
      students := students[student.id := student];
      AbsEquals(Registry.AddStudent(before, student.id, student.enrolledCourses));
    }

    /** `add_teacher`, modelled from its documented steps. */
    method AddTeacher(teacher: Teacher) returns (id: Id)
      modifies this
      ensures id == teacher.id
      ensures teachers == old(teachers)[teacher.id := teacher]
      ensures students == old(students) && courses == old(courses)
      ensures Abs() == Registry.AddTeacher(old(Abs()), teacher.id, teacher.assignedCourses)
      ensures old(Valid()) && teacher.Valid() && teacher.id !in old(teachers) && teacher.assignedCourses == {} ==>
        Valid()
    {
      ghost var before := Abs();
      ghost var wasValid := Valid();
      StoreTeacher(teacher);
      id := teacher.id;
      if wasValid && teacher.Valid() && teacher.id !in old(teachers) && teacher.assignedCourses == {} {
        assert forall t :: t in teachers ==> teachers[t].id == t && teachers[t].Valid();
        Registry.AddTeacherPreservesInv(before, teacher.id);
        ValidFrom(Registry.AddTeacher(before, teacher.id, {}));
      }
    }

    /** The map update of `add_teacher`. */
    method StoreTeacher(teacher: Teacher)
      modifies this
      ensures teachers == old(teachers)[teacher.id := teacher]
      ensures students == old(students) && courses == old(courses)
      ensures Abs() == Registry.AddTeacher(old(Abs()), teacher.id, teacher.assignedCourses)
    {
      ghost var before := Abs();
      teachers := teachers[teacher.id := teacher];
      AbsEquals(Registry.AddTeacher(before, teacher.id, teacher.assignedCourses));
    }

    /** `add_course`, modelled from its documented steps. */
    method AddCourse(course: Course) returns (id: Id)
      modifies this
      ensures id == course.id
      ensures courses == old(courses)[course.id := course]
      ensures students == old(students) && teachers == old(teachers)
      ensures Abs() == Registry.AddCourse(old(Abs()), course.id, course.State())
      ensures (old(Valid()) && course.id !in old(courses) && course.Valid() &&
               course.students == {} && course.teacherId == None) ==> Valid()
    {
      ghost var before := Abs();
      ghost var wasValid := Valid();
      StoreCourse(course);
      id := course.id;
      if wasValid && course.id !in old(courses) && course.Valid() && course.students == {} && course.teacherId == None {
        assert forall c :: c in courses ==> courses[c].id == c && courses[c].Valid();
        Registry.AddCoursePreservesInv(before, course.id, course.State());
        ValidFrom(Registry.AddCourse(before, course.id, course.State()));
      }
    }

    /** The map update of `add_course`. */
    method StoreCourse(course: Course)
      modifies this
      ensures courses == old(courses)[course.id := course]
      ensures students == old(students) && teachers == old(teachers)
      ensures Abs() == Registry.AddCourse(old(Abs()), course.id, course.State())
    {
      ghost var before := Abs();
      courses := courses[course.id := course];
      AbsEquals(Registry.AddCourse(before, course.id, course.State()));
    }

    /** `enroll_student`, modelled from its documented steps: both identifiers
        must be known and the course must have room; then the roster and the
        student's enrolled set both gain the other side. */
    method EnrollStudent(studentId: Id, courseId: Id) returns (ok: bool)
      requires Valid()
      modifies students.Values, courses.Values
      ensures Valid()
      ensures students == old(students) && teachers == old(teachers) && courses == old(courses)
      ensures (ok, Abs()) == Registry.Enroll(old(Abs()), studentId, courseId)
    {
      ghost var before := Abs();
      Registry.EnrollPreservesInv(before, studentId, courseId);
      if studentId !in students || courseId !in courses {
        return false;
      }
      assert before.courses[courseId] == courses[courseId].State();
      if |courses[courseId].students| >= courses[courseId].maxCapacity {
        return false;
      }
      Join(studentId, courseId);
      ok := true;
      ValidFrom(Registry.Enroll(before, studentId, courseId).1);
    }

    /** Both sides of a new enrolment: the student joins the roster and the
        course joins the student's enrolled set. */
    method Join(studentId: Id, courseId: Id)
      requires Keyed() && studentId in students && courseId in courses
      modifies students[studentId], courses[courseId]
      ensures Abs() == old(Abs()).(
        students := old(Abs()).students[studentId := old(Abs()).students[studentId] + {courseId}],
        courses := old(Abs()).courses[courseId := old(Abs()).courses[courseId].(
          students := old(Abs()).courses[courseId].students + {studentId})])
    {
      SetRoster(courseId, courses[courseId].students + {studentId});
      StudentJoins(studentId, courseId);
    }

    /** `withdraw_student`, modelled from its documented steps: both
        identifiers must be known and the student on the roster; then both
        sides of the enrolment are removed. */
    method WithdrawStudent(studentId: Id, courseId: Id) returns (ok: bool)
      requires Valid()
      modifies students.Values, courses.Values
      ensures Valid()
      ensures students == old(students) && teachers == old(teachers) && courses == old(courses)
      ensures (ok, Abs()) == Registry.Withdraw(old(Abs()), studentId, courseId)
    {
      ghost var before := Abs();
      Registry.WithdrawPreservesInv(before, studentId, courseId);
      if studentId !in students || courseId !in courses {
        return false;
      }
      assert before.courses[courseId] == courses[courseId].State();
      if studentId !in courses[courseId].students {
        return false;
      }
      Leave(studentId, courseId);
      ok := true;
      ValidFrom(Registry.Withdraw(before, studentId, courseId).1);
    }

    /** Both sides of a withdrawal: the student leaves the roster and the
        course leaves the student's enrolled set. */
    method Leave(studentId: Id, courseId: Id)
      requires Keyed() && studentId in students && courseId in courses
      modifies students[studentId], courses[courseId]
      ensures Abs() == old(Abs()).(
        students := old(Abs()).students[studentId := old(Abs()).students[studentId] - {courseId}],
        courses := old(Abs()).courses[courseId := old(Abs()).courses[courseId].(
          students := old(Abs()).courses[courseId].students - {studentId})])
    {
      SetRoster(courseId, courses[courseId].students - {studentId});
      StudentLeaves(studentId, courseId);
    }

    /** `assign_teacher`, modelled from its documented steps: both identifiers
        must be known; the previous teacher, if any, gives the course up, the
        course names the new teacher, and the new teacher takes it on. */
    method AssignTeacher(teacherId: Id, courseId: Id) returns (ok: bool)
      requires Valid()
      modifies teachers.Values, courses.Values
      ensures Valid()
      ensures students == old(students) && teachers == old(teachers) && courses == old(courses)
      ensures (ok, Abs()) == Registry.AssignTeacher(old(Abs()), teacherId, courseId)
    {
      ghost var before := Abs();
      Registry.AssignTeacherPreservesInv(before, teacherId, courseId);
      if teacherId !in teachers || courseId !in courses {
        return false;
      }
      TeacherKnown(courseId);
      HandOver(teacherId, courseId);
      ok := true;
      ValidFrom(Registry.AssignTeacher(before, teacherId, courseId).1);
    }

    /** Steps 2 to 4 of `assign_teacher`, on known identifiers. */
    method HandOver(teacherId: Id, courseId: Id)
      requires Keyed() && teacherId in teachers && courseId in courses
      requires courses[courseId].teacherId.Some? ==> courses[courseId].teacherId.value in teachers
      modifies teachers.Values, courses[courseId]
      ensures Abs() == Registry.AssignTeacher(old(Abs()), teacherId, courseId).1
    {
      ghost var before := Abs();
      assert before.courses[courseId] == courses[courseId].State();
      ghost var released := Registry.ReleaseCourse(before.teachers, before.courses[courseId].teacherId, courseId);
      ghost var named := before.courses[courseId := before.courses[courseId].(teacherId := Some(teacherId))];
      ReleaseFromPrevious(courseId);
      assert Abs() == before.(teachers := released);
      SetTeacher(courseId, teacherId);
      assert Abs() == before.(teachers := released, courses := named);
      TeacherTakes(teacherId, courseId);
    }

    /** Step 2 of `assign_teacher`: the course's current teacher, if any, gives it up. */
    method ReleaseFromPrevious(courseId: Id)
      requires Keyed() && courseId in courses
      requires courses[courseId].teacherId.Some? ==> courses[courseId].teacherId.value in teachers
      modifies teachers.Values
      ensures Abs() == old(Abs()).(teachers := Registry.ReleaseCourse(old(Abs()).teachers, courses[courseId].teacherId, courseId))
    {
      ghost var before := Abs();
      var course := courses[courseId];
      if course.teacherId.Some? {
        var previous := teachers[course.teacherId.value];
        previous.RemoveCourse(courseId);
        forall t | t in teachers
          ensures teachers[t].assignedCourses ==
            Registry.ReleaseCourse(before.teachers, course.teacherId, courseId)[t]
        {
          if t != course.teacherId.value {
            assert teachers[t] != previous;
          }
        }
      }
      AbsEquals(before.(teachers := Registry.ReleaseCourse(before.teachers, course.teacherId, courseId)));
    }

    /** Step 3 of `assign_teacher`: the course names the teacher. */
    method SetTeacher(courseId: Id, teacherId: Id)
      requires Keyed() && courseId in courses
      modifies courses[courseId]
      ensures Abs() == old(Abs()).(courses := old(Abs()).courses[courseId :=
        old(Abs()).courses[courseId].(teacherId := Some(teacherId))])
    {
      ghost var before := Abs();
      var course := courses[courseId];
      course.teacherId := Some(teacherId);
      ghost var after := before.(courses := before.courses[courseId :=
        before.courses[courseId].(teacherId := Some(teacherId))]);
      forall c | c in courses ensures courses[c].State() == after.courses[c] {
        if c != courseId {
          assert courses[c] != course;
        }
      }
      AbsEquals(after);
    }

    /** Step 4 of `assign_teacher`: the teacher takes the course on. */
    method TeacherTakes(teacherId: Id, courseId: Id)
      requires Keyed() && teacherId in teachers
      modifies teachers[teacherId]
      ensures Abs() == old(Abs()).(teachers := old(Abs()).teachers[teacherId :=
        old(Abs()).teachers[teacherId] + {courseId}])
    {
      ghost var before := Abs();
      var teacher := teachers[teacherId];
      teacher.AssignCourse(courseId);
      ghost var after := before.(teachers := before.teachers[teacherId := before.teachers[teacherId] + {courseId}]);
      forall t | t in teachers ensures teachers[t].assignedCourses == after.teachers[t] {
        if t != teacherId {
          assert teachers[t] != teacher;
        }
      }
      AbsEquals(after);
    }

    /** The course's roster becomes `roster`; nothing else changes. */
    method SetRoster(courseId: Id, roster: set<Id>)
      requires Keyed() && courseId in courses
      modifies courses[courseId]
      ensures Abs() == old(Abs()).(courses := old(Abs()).courses[courseId :=
        old(Abs()).courses[courseId].(students := roster)])
    {
      ghost var before := Abs();
      var course := courses[courseId];
      course.students := roster;
      ghost var after := before.(courses := before.courses[courseId := before.courses[courseId].(students := roster)]);
      forall c | c in courses ensures courses[c].State() == after.courses[c] {
        if c != courseId {
          assert courses[c] != course;
        }
      }
      AbsEquals(after);
    }

    /** The student's `enroll_in_course`, seen on the abstract state. */
    method StudentJoins(studentId: Id, courseId: Id)
      requires Keyed() && studentId in students
      modifies students[studentId]
      ensures Abs() == old(Abs()).(students := old(Abs()).students[studentId :=
        old(Abs()).students[studentId] + {courseId}])
    {
      ghost var before := Abs();
      var student := students[studentId];
      student.EnrollInCourse(courseId);
      ghost var after := before.(students := before.students[studentId := before.students[studentId] + {courseId}]);
      forall s | s in students ensures students[s].enrolledCourses == after.students[s] {
        if s != studentId {
          assert students[s] != student;
        }
      }
      AbsEquals(after);
    }

    /** The student's `withdraw_from_course`, seen on the abstract state. */
    method StudentLeaves(studentId: Id, courseId: Id)
      requires Keyed() && studentId in students
      modifies students[studentId]
      ensures Abs() == old(Abs()).(students := old(Abs()).students[studentId :=
        old(Abs()).students[studentId] - {courseId}])
    {
      ghost var before := Abs();
      var student := students[studentId];
      student.WithdrawFromCourse(courseId);
      ghost var after := before.(students := before.students[studentId := before.students[studentId] - {courseId}]);
      forall s | s in students ensures students[s].enrolledCourses == after.students[s] {
        if s != studentId {
          assert students[s] != student;
        }
      }
      AbsEquals(after);
    }

    /** `record_attendance`, modelled from its documented steps: an unknown
        course fails; otherwise `take_attendance` decides, a raised error
        becoming a failure. */
    method RecordAttendance(courseId: Id, date: Date, present: Value) returns (ok: bool)
      requires Valid()
      modifies courses.Values
      ensures Valid()
      ensures students == old(students) && teachers == old(teachers) && courses == old(courses)
      ensures (ok, Abs()) == Registry.RecordAttendance(old(Abs()), courseId, date, present)
    {
      ghost var before := Abs();
      Registry.RecordAttendancePreservesInv(before, courseId, date, present);
      if courseId !in courses {
        return false;
      }
      var outcome := Attend(courseId, date, present);
      ok := outcome.Pass?;
      if !ok {
        assert before.courses[courseId := before.courses[courseId]] == before.courses;
      }
      ValidFrom(Registry.RecordAttendance(before, courseId, date, present).1);
    }

    /** The course's `take_attendance`, seen on the abstract state. */
    method Attend(courseId: Id, date: Date, present: Value) returns (outcome: Outcome)
      requires Keyed() && courseId in courses
      modifies courses[courseId]
      ensures outcome == AfterAttendance(old(Abs()).courses[courseId], date, present).0
      ensures Abs() == old(Abs()).(courses := old(Abs()).courses[courseId :=
        AfterAttendance(old(Abs()).courses[courseId], date, present).1])
    {
      ghost var before := Abs();
      var course := courses[courseId];
      assert before.courses[courseId] == course.State();
      outcome := course.TakeAttendance(date, present);
      ghost var after := before.(courses := before.courses[courseId :=
        AfterAttendance(before.courses[courseId], date, present).1]);
      forall c | c in courses ensures courses[c].State() == after.courses[c] {
        if c != courseId {
          assert courses[c] != course;
        }
      }
      AbsEquals(after);
    }

    /** `assign_grade`, modelled from its documented steps: an unknown course
        or student fails; otherwise the course's `assign_grade` decides, a
        raised error becoming a failure. */
    method AssignGrade(courseId: Id, studentId: Id, grade: Value) returns (ok: bool)
      requires Valid()
      modifies courses.Values
      ensures Valid()
      ensures students == old(students) && teachers == old(teachers) && courses == old(courses)
      ensures (ok, Abs()) == Registry.AssignGrade(old(Abs()), courseId, studentId, grade)
    {
      ghost var before := Abs();
      Registry.AssignGradePreservesInv(before, courseId, studentId, grade);
      if courseId !in courses || studentId !in students {
        return false;
      }
      var outcome := Grade(courseId, studentId, grade);
      ok := outcome.Pass?;
      if !ok {
        assert before.courses[courseId := before.courses[courseId]] == before.courses;
      }
      ValidFrom(Registry.AssignGrade(before, courseId, studentId, grade).1);
    }

    /** The course's `assign_grade`, seen on the abstract state. */
    method Grade(courseId: Id, studentId: Id, grade: Value) returns (outcome: Outcome)
      requires Keyed() && courseId in courses
      modifies courses[courseId]
      ensures outcome == AfterGrade(old(Abs()).courses[courseId], studentId, grade).0
      ensures Abs() == old(Abs()).(courses := old(Abs()).courses[courseId :=
        AfterGrade(old(Abs()).courses[courseId], studentId, grade).1])
    {
      ghost var before := Abs();
      var course := courses[courseId];
      assert before.courses[courseId] == course.State();
      outcome := course.AssignGrade(studentId, grade);
      ghost var after := before.(courses := before.courses[courseId :=
        AfterGrade(before.courses[courseId], studentId, grade).1]);
      forall c | c in courses ensures courses[c].State() == after.courses[c] {
        if c != courseId {
          assert courses[c] != course;
        }
      }
      AbsEquals(after);
    }

    /** `get_course_roster`, modelled from its documented steps: None for an
        unknown course, otherwise the serialisation of every student on the
        roster, each once, in the order `order` (which the model leaves open). */
    method GetCourseRoster(courseId: Id) returns (roster: Option<seq<Dict>>, ghost order: seq<Id>)
      requires Valid()
      ensures roster.Some? <==> courseId in courses
      ensures roster.Some? ==>
        Enumerates(order, courses[courseId].students) && |roster.value| == |order| &&
        forall i :: 0 <= i < |order| ==> order[i] in students && students[order[i]].Describes(roster.value[i])
    {
      if courseId !in courses {
        return None, [];
      }
      RosterKnown(courseId);
      var ids := SetToList(courses[courseId].students);
      order := ids;
      var dicts: seq<Dict> := [];
      var i := 0;
      while i < |ids|
        invariant 0 <= i <= |ids| && |dicts| == i
        invariant forall k :: 0 <= k < i ==> ids[k] in students && students[ids[k]].Describes(dicts[k])
      {
        assert ids[i] in courses[courseId].students;
        var d := students[ids[i]].ToDict();
        dicts := dicts + [d];
        i := i + 1;
      }
      roster := Some(dicts);
    }

    /** `get_teacher_courses`, modelled from its documented steps: None for an
        unknown teacher, otherwise the serialisation of every course assigned
        to the teacher, each once. */
    method GetTeacherCourses(teacherId: Id) returns (list: Option<seq<Dict>>, ghost order: seq<Id>)
      requires Valid()
      ensures list.Some? <==> teacherId in teachers
      ensures list.Some? ==>
        Enumerates(order, teachers[teacherId].assignedCourses) && |list.value| == |order| &&
        forall i :: 0 <= i < |order| ==>
          order[i] in courses && courses[order[i]].Valid() && courses[order[i]].Describes(list.value[i])
    {
      if teacherId !in teachers {
        return None, [];
      }
      AssignedKnown(teacherId);
      var ids := SetToList(teachers[teacherId].assignedCourses);
      order := ids;
      var dicts := CourseDicts(ids);
      list := Some(dicts);
    }

    /** `get_student_courses`, modelled from its documented steps: None for an
        unknown student, otherwise the serialisation of every course the
        student is enrolled in, each once. */
    method GetStudentCourses(studentId: Id) returns (list: Option<seq<Dict>>, ghost order: seq<Id>)
      requires Valid()
      ensures list.Some? <==> studentId in students
      ensures list.Some? ==>
        Enumerates(order, students[studentId].enrolledCourses) && |list.value| == |order| &&
        forall i :: 0 <= i < |order| ==>
          order[i] in courses && courses[order[i]].Valid() && courses[order[i]].Describes(list.value[i])
    {
      if studentId !in students {
        return None, [];
      }
      EnrolledKnown(studentId);
      var ids := SetToList(students[studentId].enrolledCourses);
      order := ids;
      var dicts := CourseDicts(ids);
      list := Some(dicts);
    }

    /** The serialisations of the given registered courses, in that order. */
    method CourseDicts(ids: seq<Id>) returns (dicts: seq<Dict>)
      requires Keyed()
      requires forall i :: 0 <= i < |ids| ==> ids[i] in courses
      ensures |dicts| == |ids|
      ensures forall i :: 0 <= i < |ids| ==> courses[ids[i]].Valid() && courses[ids[i]].Describes(dicts[i])
    {
      dicts := [];
      var i := 0;
      while i < |ids|
        invariant 0 <= i <= |ids| && |dicts| == i
        invariant forall k :: 0 <= k < i ==> courses[ids[k]].Valid() && courses[ids[k]].Describes(dicts[k])
      {
        var d := courses[ids[i]].ToDict();
        dicts := dicts + [d];
        i := i + 1;
      }
    }

    /** `get_course_grades`, modelled from its documented steps: a copy of the
        course's grades, None for an unknown course. */
    method GetCourseGrades(courseId: Id) returns (grades: Option<map<Id, int>>)
      ensures grades.Some? <==> courseId in courses
      ensures grades.Some? ==> grades.value == courses[courseId].grades
      ensures grades == Registry.CourseGrades(Abs(), courseId)
    {
      if courseId !in courses {
        return None;
      }
      grades := Some(courses[courseId].grades);
    }

    /** `get_student_grades`, modelled from its documented steps: None for an
        unknown student; otherwise, for every course whose roster holds the
        student and which has graded the student, that grade. */
    method GetStudentGrades(studentId: Id) returns (grades: Option<map<Id, int>>)
      requires Valid()
      ensures grades.Some? <==> studentId in students
      ensures grades.Some? ==> forall c :: c in grades.value <==>
        c in courses && studentId in courses[c].students && studentId in courses[c].grades
      ensures grades.Some? ==> forall c :: c in grades.value ==> grades.value[c] == courses[c].grades[studentId]
      ensures grades == Registry.StudentGrades(Abs(), studentId)
    {
      if studentId !in students {
        return None;
      }
      var enrolled := students[studentId].enrolledCourses;
      grades := Some(map c | c in enrolled && c in courses && studentId in courses[c].grades
                           :: courses[c].grades[studentId]);
      ghost var a := Abs();
      assert a.students[studentId] == enrolled;
      forall c | c in courses ensures a.courses[c].grades == courses[c].grades {
      }
      assert grades.value == Registry.StudentGrades(a, studentId).value;
      Registry.StudentGradesAgree(Abs(), studentId);
    }
  }
}
