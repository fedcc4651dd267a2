/** The state of a university (models/university.py) as a value: each
    student's enrolled courses, each teacher's assigned courses and each
    course's state, keyed by identifier. Every operation of `University` is
    given here as a function from the state before to its result and the
    state after, following the numbered steps documented in the source for
    each method, and the invariants those operations keep are proved here. */
module Registry {
  import opened Values
  import opened Courses

  datatype State = State(
    students: map<Id, set<Id>>,
    teachers: map<Id, set<Id>>,
    courses: map<Id, CourseState>)

  /** A course is in a student's enrolled set exactly when the student is on
      that course's roster, and both sides name only known entities. */
  ghost predicate EnrolmentConsistent(st: State) {
    (forall s, c :: s in st.students && c in st.students[s] ==> c in st.courses && s in st.courses[c].students) &&
    (forall c, s :: c in st.courses && s in st.courses[c].students ==> s in st.students && c in st.students[s])
  }

  /** No roster is larger than its course's capacity. */
  ghost predicate WithinCapacity(st: State) {
    forall c :: c in st.courses ==> |st.courses[c].students| <= st.courses[c].capacity
  }

  /** A course's teacher has the course among its assigned courses, and a
      teacher is assigned only courses that name it as their teacher. */
  ghost predicate TeachingConsistent(st: State) {
    (forall c :: c in st.courses && st.courses[c].teacherId.Some? ==>
       st.courses[c].teacherId.value in st.teachers && c in st.teachers[st.courses[c].teacherId.value]) &&
    (forall t, c :: t in st.teachers && c in st.teachers[t] ==> c in st.courses && st.courses[c].teacherId == Some(t))
  }

  ghost predicate Inv(st: State) {
    EnrolmentConsistent(st) && WithinCapacity(st) && TeachingConsistent(st)
  }

  /** `University.__init__`: three empty registries. */
  function Empty(): (st: State)
    ensures Inv(st)
  {
    State(map[], map[], map[])
  }

  /** `add_student`, `add_teacher`, `add_course`: the entity is stored under
      its identifier, replacing any entry already there. */
  function AddStudent(st: State, id: Id, enrolled: set<Id>): (r: State)
    ensures r.students.Keys == st.students.Keys + {id} && r.students[id] == enrolled
    ensures forall s :: s in st.students && s != id ==> r.students[s] == st.students[s]
    ensures r.teachers == st.teachers && r.courses == st.courses
  {
    st.(students := st.students[id := enrolled])
  }

  function AddTeacher(st: State, id: Id, assignedCourses: set<Id>): (r: State)
    ensures r.teachers.Keys == st.teachers.Keys + {id} && r.teachers[id] == assignedCourses
    ensures forall t :: t in st.teachers && t != id ==> r.teachers[t] == st.teachers[t]
    ensures r.students == st.students && r.courses == st.courses
  {
    st.(teachers := st.teachers[id := assignedCourses])
  }

  function AddCourse(st: State, id: Id, course: CourseState): (r: State)
    ensures r.courses.Keys == st.courses.Keys + {id} && r.courses[id] == course
    ensures forall c :: c in st.courses && c != id ==> r.courses[c] == st.courses[c]
    ensures r.students == st.students && r.teachers == st.teachers
  {
    st.(courses := st.courses[id := course])
  }

  /** Adding a new student (fresh identifier, no enrolments yet, as every
      constructed Student is) keeps the invariant. */
  lemma {:induction false} AddStudentPreservesInv(st: State, id: Id)
    requires Inv(st) && id !in st.students
    ensures Inv(AddStudent(st, id, {}))
  {
    var st' := AddStudent(st, id, {});
    forall s, c | s in st'.students && c in st'.students[s]
      ensures c in st'.courses && s in st'.courses[c].students
    {
      assert s != id && c in st.students[s];
    }
    forall c, s | c in st'.courses && s in st'.courses[c].students
      ensures s in st'.students && c in st'.students[s]
    {
      assert s in st.students && c in st.students[s];
    }
  }

  /** Adding a new teacher (fresh identifier, no courses yet) keeps the invariant. */
  lemma {:induction false} AddTeacherPreservesInv(st: State, id: Id)
    requires Inv(st) && id !in st.teachers
    ensures Inv(AddTeacher(st, id, {}))
  {
    var st' := AddTeacher(st, id, {});
    forall t, c | t in st'.teachers && c in st'.teachers[t]
      ensures c in st'.courses && st'.courses[c].teacherId == Some(t)
    {
      assert t != id && c in st.teachers[t];
    }
    forall c | c in st'.courses && st'.courses[c].teacherId.Some?
      ensures st'.courses[c].teacherId.value in st'.teachers && c in st'.teachers[st'.courses[c].teacherId.value]
    {
      var t := st.courses[c].teacherId.value;
      assert t in st.teachers && c in st.teachers[t];
    }
  }

  /** Adding a new course (fresh identifier, empty roster, no teacher, as
      every constructed Course is) keeps the invariant. */
  lemma {:induction false} AddCoursePreservesInv(st: State, id: Id, course: CourseState)
    requires Inv(st) && id !in st.courses && course.students == {} && course.teacherId == None
    ensures Inv(AddCourse(st, id, course))
  {
    var st' := AddCourse(st, id, course);
    forall s, c | s in st'.students && c in st'.students[s]
      ensures c in st'.courses && s in st'.courses[c].students
    {
      assert c in st.courses && c != id;
    }
    forall c, s | c in st'.courses && s in st'.courses[c].students
      ensures s in st'.students && c in st'.students[s]
    {
      assert c != id && s in st.courses[c].students;
    }
    forall t, c | t in st'.teachers && c in st'.teachers[t]
      ensures c in st'.courses && st'.courses[c].teacherId == Some(t)
    {
      assert c in st.courses && c != id;
    }
  }

  /** `enroll_student`: fails, changing nothing, when either identifier is
      unknown or the roster is already at capacity; otherwise the student
      joins the roster and the course joins the student's enrolled set. */
  function Enroll(st: State, studentId: Id, courseId: Id): (r: (bool, State))
    ensures r.0 <==>
      studentId in st.students && courseId in st.courses &&
      |st.courses[courseId].students| < st.courses[courseId].capacity
    ensures !r.0 ==> r.1 == st
    ensures r.0 ==>
      r.1.students.Keys == st.students.Keys && r.1.courses.Keys == st.courses.Keys &&
      r.1.teachers == st.teachers &&
      r.1.students[studentId] == st.students[studentId] + {courseId} &&
      r.1.courses[courseId] == st.courses[courseId].(students := st.courses[courseId].students + {studentId}) &&
      (forall s :: s in st.students && s != studentId ==> r.1.students[s] == st.students[s]) &&
      (forall c :: c in st.courses && c != courseId ==> r.1.courses[c] == st.courses[c])
  {
    if studentId !in st.students || courseId !in st.courses then (false, st)
    else
      var c := st.courses[courseId];
      if |c.students| >= c.capacity then (false, st)
      else
        (true, State(st.students[studentId := st.students[studentId] + {courseId}],
                     st.teachers,
                     st.courses[courseId := c.(students := c.students + {studentId})]))
  }

  /** `withdraw_student`: fails, changing nothing, when either identifier is
      unknown or the student is not on the roster; otherwise both sides of the
      enrolment are removed. */
  function Withdraw(st: State, studentId: Id, courseId: Id): (r: (bool, State))
    ensures r.0 <==>
      studentId in st.students && courseId in st.courses && studentId in st.courses[courseId].students
    ensures !r.0 ==> r.1 == st
    ensures r.0 ==>
      r.1.students.Keys == st.students.Keys && r.1.courses.Keys == st.courses.Keys &&
      r.1.teachers == st.teachers &&
      r.1.students[studentId] == st.students[studentId] - {courseId} &&
      r.1.courses[courseId] == st.courses[courseId].(students := st.courses[courseId].students - {studentId}) &&
      (forall s :: s in st.students && s != studentId ==> r.1.students[s] == st.students[s]) &&
      (forall c :: c in st.courses && c != courseId ==> r.1.courses[c] == st.courses[c])
  {
    if studentId !in st.students || courseId !in st.courses then (false, st)
    else
      var c := st.courses[courseId];
      if studentId !in c.students then (false, st)
      else
        (true, State(st.students[studentId := st.students[studentId] - {courseId}],
                     st.teachers,
                     st.courses[courseId := c.(students := c.students - {studentId})]))
  }

  /** The teachers after the course's previous teacher, if any, gave it up. */
  function ReleaseCourse(teachers: map<Id, set<Id>>, previous: Option<Id>, courseId: Id): (r: map<Id, set<Id>>)
    ensures r.Keys == teachers.Keys
    ensures forall t :: t in teachers ==>
      r[t] == if previous == Some(t) then teachers[t] - {courseId} else teachers[t]
  {
    match previous
    case Some(p) => if p in teachers then teachers[p := teachers[p] - {courseId}] else teachers
    case None => teachers
  }

  /** `assign_teacher`: fails, changing nothing, when either identifier is
      unknown; otherwise the previous teacher loses the course, the course
      names the new teacher, and the new teacher gains the course. */
  function AssignTeacher(st: State, teacherId: Id, courseId: Id): (r: (bool, State))
    ensures r.0 <==> teacherId in st.teachers && courseId in st.courses
    ensures !r.0 ==> r.1 == st
    ensures r.0 ==>
      r.1.students == st.students &&
      r.1.teachers.Keys == st.teachers.Keys && r.1.courses.Keys == st.courses.Keys &&
      r.1.courses[courseId] == st.courses[courseId].(teacherId := Some(teacherId)) &&
      r.1.teachers[teacherId] == st.teachers[teacherId] + {courseId} &&
      (forall t :: t in st.teachers && t != teacherId ==>
         r.1.teachers[t] == if st.courses[courseId].teacherId == Some(t) then st.teachers[t] - {courseId}
                            else st.teachers[t]) &&
      (forall c :: c in st.courses && c != courseId ==> r.1.courses[c] == st.courses[c])
  {
    if teacherId !in st.teachers || courseId !in st.courses then (false, st)
    else
      var c := st.courses[courseId];
      var released := ReleaseCourse(st.teachers, c.teacherId, courseId);
      (true, State(st.students,
                   released[teacherId := released[teacherId] + {courseId}],
                   st.courses[courseId := c.(teacherId := Some(teacherId))]))
  }

  /** `record_attendance`: fails for an unknown course or when
      `take_attendance` raises; otherwise its effect on the course. */
  function RecordAttendance(st: State, courseId: Id, date: Date, present: Value): (r: (bool, State))
    ensures r.0 <==> courseId in st.courses && AttendanceCheck(st.courses[courseId].students, present).Pass?
    ensures !r.0 ==> r.1 == st
    ensures r.0 ==>
      r.1.students == st.students && r.1.teachers == st.teachers &&
      r.1.courses == st.courses[courseId := AfterAttendance(st.courses[courseId], date, present).1]
  {
    if courseId !in st.courses then (false, st)
    else
      var (outcome, c) := AfterAttendance(st.courses[courseId], date, present);
      if outcome.Fail? then (false, st)
      else (true, st.(courses := st.courses[courseId := c]))
  }

  /** `assign_grade`: fails for an unknown course or student or when the
      course's `assign_grade` raises; otherwise its effect on the course. */
  function AssignGrade(st: State, courseId: Id, studentId: Id, grade: Value): (r: (bool, State))
    ensures r.0 <==>
      courseId in st.courses && studentId in st.students &&
      studentId in st.courses[courseId].students && GradeAccepted(grade)
    ensures !r.0 ==> r.1 == st
    ensures r.0 ==>
      r.1.students == st.students && r.1.teachers == st.teachers &&
      r.1.courses == st.courses[courseId := AfterGrade(st.courses[courseId], studentId, grade).1]
  {
    if courseId !in st.courses || studentId !in st.students then (false, st)
    else
      var (outcome, c) := AfterGrade(st.courses[courseId], studentId, grade);
      if outcome.Fail? then (false, st)
      else (true, st.(courses := st.courses[courseId := c]))
  }

  /** `get_course_grades`: a copy of the course's grades, None when unknown. */
  function CourseGrades(st: State, courseId: Id): (r: Option<map<Id, int>>)
    ensures r.Some? <==> courseId in st.courses
  {
    if courseId in st.courses then Some(st.courses[courseId].grades) else None
  }

  /** `get_student_grades`: for each course the student is enrolled in and has
      a grade in, that grade; None for an unknown student. */
  function StudentGrades(st: State, studentId: Id): (r: Option<map<Id, int>>)
    ensures r.Some? <==> studentId in st.students
  {
    if studentId !in st.students then None
    else
      Some(map c | c in st.students[studentId] && c in st.courses && studentId in st.courses[c].grades
                 :: st.courses[c].grades[studentId])
  }

  lemma {:induction false} EnrollPreservesInv(st: State, studentId: Id, courseId: Id)
    requires Inv(st)
    ensures Inv(Enroll(st, studentId, courseId).1)
  {
    var (ok, st') := Enroll(st, studentId, courseId);
    if ok {
      var c := st.courses[courseId];
      assert |c.students + {studentId}| <= |c.students| + 1;
      assert EnrolmentConsistent(st') by {
        forall s, k | s in st'.students && k in st'.students[s]
          ensures k in st'.courses && s in st'.courses[k].students
        {
          if s != studentId || k != courseId {
            assert k in st.students[s];
          }
        }
      }
    }
  }

  lemma {:induction false} WithdrawPreservesInv(st: State, studentId: Id, courseId: Id)
    requires Inv(st)
    ensures Inv(Withdraw(st, studentId, courseId).1)
  {
    var (ok, st') := Withdraw(st, studentId, courseId);
    if ok {
      var c := st.courses[courseId];
      SubsetCard(c.students - {studentId}, c.students);
      assert EnrolmentConsistent(st') by {
        forall k, s | k in st'.courses && s in st'.courses[k].students
          ensures s in st'.students && k in st'.students[s]
        {
          assert s in st.courses[k].students;
        }
      }
    }
  }

  lemma {:induction false} AssignTeacherPreservesInv(st: State, teacherId: Id, courseId: Id)
    requires Inv(st)
    ensures Inv(AssignTeacher(st, teacherId, courseId).1)
  {
    var (ok, st') := AssignTeacher(st, teacherId, courseId);
    if ok {
      SameRostersKeepEnrolment(st, st');
      assert TeachingConsistent(st') by {
        forall t, c | t in st'.teachers && c in st'.teachers[t]
          ensures c in st'.courses && st'.courses[c].teacherId == Some(t)
        {
          if c != courseId {
            assert c in st.teachers[t];
          }
        }
      }
    }
  }

  /** Enrolment consistency and capacity depend only on the enrolled sets,
      the rosters and the capacities. */
  lemma {:induction false} SameRostersKeepEnrolment(st: State, st': State)
    requires EnrolmentConsistent(st) && WithinCapacity(st)
    requires st'.students == st.students && st'.courses.Keys == st.courses.Keys
    requires forall c :: c in st.courses ==>
      st'.courses[c].students == st.courses[c].students && st'.courses[c].capacity == st.courses[c].capacity
    ensures EnrolmentConsistent(st') && WithinCapacity(st')
  {
    forall s, c | s in st'.students && c in st'.students[s]
      ensures c in st'.courses && s in st'.courses[c].students
    {
      assert c in st.courses && s in st.courses[c].students;
    }
    forall c, s | c in st'.courses && s in st'.courses[c].students
      ensures s in st'.students && c in st'.students[s]
    {
      assert s in st.courses[c].students;
    }
    forall c | c in st'.courses
      ensures |st'.courses[c].students| <= st'.courses[c].capacity
    {
      assert |st.courses[c].students| <= st.courses[c].capacity;
    }
  }

  /** Teaching consistency depends only on the assigned sets and the
      courses' teachers. */
  lemma {:induction false} SameTeachingKeepsTeaching(st: State, st': State)
    requires TeachingConsistent(st)
    requires st'.teachers == st.teachers && st'.courses.Keys == st.courses.Keys
    requires forall c :: c in st.courses ==> st'.courses[c].teacherId == st.courses[c].teacherId
    ensures TeachingConsistent(st')
  {
    forall c | c in st'.courses && st'.courses[c].teacherId.Some?
      ensures st'.courses[c].teacherId.value in st'.teachers && c in st'.teachers[st'.courses[c].teacherId.value]
    {
      assert st.courses[c].teacherId.Some?;
    }
    forall t, c | t in st'.teachers && c in st'.teachers[t]
      ensures c in st'.courses && st'.courses[c].teacherId == Some(t)
    {
      assert st.courses[c].teacherId == Some(t);
    }
  }

  /** A state that differs only in attendance and grades keeps the invariant. */
  lemma {:induction false} SameRelationsPreserveInv(st: State, st': State)
    requires Inv(st)
    requires st'.students == st.students && st'.teachers == st.teachers && st'.courses.Keys == st.courses.Keys
    requires forall c :: c in st.courses ==>
      st'.courses[c].students == st.courses[c].students && st'.courses[c].teacherId == st.courses[c].teacherId &&
      st'.courses[c].capacity == st.courses[c].capacity
    ensures Inv(st')
  {
    SameRostersKeepEnrolment(st, st');
    SameTeachingKeepsTeaching(st, st');
  }

  /** Recording attendance touches neither rosters nor teachers. */
  lemma {:induction false} RecordAttendancePreservesInv(st: State, courseId: Id, date: Date, present: Value)
    requires Inv(st)
    ensures Inv(RecordAttendance(st, courseId, date, present).1)
  {
    var (ok, st') := RecordAttendance(st, courseId, date, present);
    if ok {
      SameRelationsPreserveInv(st, st');
    }
  }

  /** Assigning a grade touches neither rosters nor teachers. */
  lemma {:induction false} AssignGradePreservesInv(st: State, courseId: Id, studentId: Id, grade: Value)
    requires Inv(st)
    ensures Inv(AssignGrade(st, courseId, studentId, grade).1)
  {
    var (ok, st') := AssignGrade(st, courseId, studentId, grade);
    if ok {
      SameRelationsPreserveInv(st, st');
    }
  }

  /** A successful enrolment in a course the student did not hold, followed by
      the matching withdrawal, restores the state exactly. */
  lemma {:induction false} WithdrawUndoesEnroll(st: State, studentId: Id, courseId: Id)
    requires Inv(st)
    requires courseId in st.courses && studentId !in st.courses[courseId].students
    requires Enroll(st, studentId, courseId).0
    ensures Withdraw(Enroll(st, studentId, courseId).1, studentId, courseId) == (true, st)
  {
    var st1 := Enroll(st, studentId, courseId).1;
    var st2 := Withdraw(st1, studentId, courseId).1;
    assert courseId !in st.students[studentId];
    assert st2.students[studentId] == st.students[studentId];
    assert st2.students == st.students;
    assert st2.courses[courseId] == st.courses[courseId];
    assert st2.courses == st.courses;
  }

  /** Enrolling a student who is already on the roster of a course with room
      succeeds and changes nothing: the documented steps check only the
      identifiers and the capacity. */
  lemma {:induction false} EnrollAgainChangesNothing(st: State, studentId: Id, courseId: Id)
    requires Inv(st)
    requires courseId in st.courses && studentId in st.courses[courseId].students
    requires |st.courses[courseId].students| < st.courses[courseId].capacity
    ensures Enroll(st, studentId, courseId) == (true, st)
  {
    var c := st.courses[courseId];
    assert studentId in st.students && courseId in st.students[studentId];
    assert st.students[studentId] + {courseId} == st.students[studentId];
    assert c.students + {studentId} == c.students;
    assert st.students[studentId := st.students[studentId]] == st.students;
    assert st.courses[courseId := c] == st.courses;
  }

  /** Enrolment never succeeds in a full course and leaves its roster alone. */
  lemma FullCourseRefuses(st: State, studentId: Id, courseId: Id)
    requires courseId in st.courses && |st.courses[courseId].students| == st.courses[courseId].capacity
    ensures Enroll(st, studentId, courseId) == (false, st)
  {
  }

  /** Assigning a course to one teacher and then to another leaves the course
      with exactly the second teacher: the second has it, the first has lost it. */
  lemma {:induction false} ReassignTeacher(st: State, first: Id, second: Id, courseId: Id)
    requires Inv(st)
    requires first in st.teachers && second in st.teachers && first != second && courseId in st.courses
    ensures
      var st2 := AssignTeacher(AssignTeacher(st, first, courseId).1, second, courseId).1;
      st2.courses[courseId].teacherId == Some(second) &&
      courseId in st2.teachers[second] && courseId !in st2.teachers[first] &&
      forall t :: t in st2.teachers && courseId in st2.teachers[t] ==> t == second
  {
    var st1 := AssignTeacher(st, first, courseId).1;
    AssignTeacherPreservesInv(st, first, courseId);
    var st2 := AssignTeacher(st1, second, courseId).1;
    AssignTeacherPreservesInv(st1, second, courseId);
    assert st2.courses[courseId].teacherId == Some(second);
  }

  /** Under the invariant a student's grade view lists exactly the courses
      whose roster holds the student and which grade the student, each with
      the grade that course's own grade view shows. */
  lemma {:induction false} StudentGradesAgree(st: State, studentId: Id)
    requires Inv(st) && studentId in st.students
    ensures forall c :: c in StudentGrades(st, studentId).value <==>
      c in st.courses && studentId in st.courses[c].students && studentId in st.courses[c].grades
    ensures forall c :: c in StudentGrades(st, studentId).value ==>
      StudentGrades(st, studentId).value[c] == CourseGrades(st, c).value[studentId]
  {
    var view := StudentGrades(st, studentId).value;
    forall c ensures c in view <==>
      c in st.courses && studentId in st.courses[c].students && studentId in st.courses[c].grades
    {
      if c in st.courses && studentId in st.courses[c].students {
        assert c in st.students[studentId];
      }
    }
  }

  /** The capacity-one scenario: of two students only one fits, and once the
      first withdraws the second gets in. */
  lemma {:induction false} CapacityOneScenario(st: State, s1: Id, s2: Id, c1: Id)
    requires Inv(st) && s1 != s2 && s1 in st.students && s2 in st.students
    requires c1 in st.courses && st.courses[c1].capacity == 1 && st.courses[c1].students == {}
    ensures
      var (ok1, st1) := Enroll(st, s1, c1);
      var (ok2, st2) := Enroll(st1, s2, c1);
      var (ok3, st3) := Withdraw(st2, s1, c1);
      var (ok4, st4) := Enroll(st3, s2, c1);
      ok1 && !ok2 && ok3 && ok4 && st4.courses[c1].students == {s2}
  {
    var (ok1, st1) := Enroll(st, s1, c1);
    assert st1.courses[c1].students == {s1};
    var (ok3, st3) := Withdraw(st1, s1, c1);
    assert st3.courses[c1].students == {};
  }
}
