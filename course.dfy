/** Courses (models/course.py): validation by course type, the roster of
    enrolled students, attendance per date and grades per student. */
module Courses {
  import opened Values

  /** The difficulty levels a math course accepts. */
  const DifficultyLevels: set<Value> := {VStr("beginner"), VStr("intermediate"), VStr("advanced")}

  /** `materials_required or set()`: a falsy argument (None included) becomes the empty set. */
  function MaterialsOrEmpty(materials: Value): Value {
    if Truthy(materials) then materials else VSet({})
  }

  /** `Course.validate`. The name must be a non-empty string and the capacity a
      positive integer; a math course needs a known difficulty level and an art
      course a set of strings as materials. No other course type is rejected. */
  function ValidateCourse(name: Value, capacity: Value, courseType: string, difficulty: Value, materials: Value)
    : (r: Outcome)
    ensures r.Pass? <==>
      name.VStr? && name.s != "" && capacity.VInt? && capacity.n > 0 &&
      (courseType == "math" ==> difficulty in DifficultyLevels) &&
      (courseType == "art" ==> materials.VSet? && AllStrs(materials.elems))
    ensures !(name.VStr? && name.s != "") ==> r == Fail(BadCourseName)
    ensures (name.VStr? && name.s != "" && !(capacity.VInt? && capacity.n > 0)) ==> r == Fail(BadCapacity)
    ensures (name.VStr? && name.s != "" && capacity.VInt? && capacity.n > 0 &&
             courseType == "math" && difficulty !in DifficultyLevels) ==> r == Fail(BadDifficulty)
    ensures (name.VStr? && name.s != "" && capacity.VInt? && capacity.n > 0 &&
             courseType == "art" && !materials.VSet?) ==> r == Fail(MaterialsNotSet)
    ensures (name.VStr? && name.s != "" && capacity.VInt? && capacity.n > 0 &&
             courseType == "art" && materials.VSet? && !AllStrs(materials.elems)) ==> r == Fail(MaterialNotString)
    ensures (r.Fail? && r.why == BadDifficulty) ==> courseType == "math"
    ensures (r.Fail? && (r.why == MaterialsNotSet || r.why == MaterialNotString)) ==> courseType == "art"
  {
    if !NameAccepted(name) then Fail(BadCourseName)
    else if !capacity.VInt? || capacity.n <= 0 then Fail(BadCapacity)
    else if courseType == "math" && difficulty !in DifficultyLevels then Fail(BadDifficulty)
    else if courseType == "art" && !materials.VSet? then Fail(MaterialsNotSet)
    else if courseType == "art" && !AllStrs(materials.elems) then Fail(MaterialNotString)
    else Pass
  }

  /** A course type other than math and art is never checked: such a course is
      valid exactly when its name and capacity are, whatever else it holds. */
  lemma OtherCourseTypesUnchecked(name: Value, capacity: Value, courseType: string, difficulty: Value, materials: Value)
    requires courseType != "math" && courseType != "art"
    ensures ValidateCourse(name, capacity, courseType, difficulty, materials).Pass? <==>
      NameAccepted(name) && capacity.VInt? && capacity.n > 0
  {
  }

  /** An art course given no materials (None, or any falsy value) gets the
      empty set and passes the materials checks. */
  lemma ArtWithoutMaterials(name: Value, capacity: Value, difficulty: Value, materials: Value)
    requires !Truthy(materials)
    ensures ValidateCourse(name, capacity, "art", difficulty, MaterialsOrEmpty(materials)).Pass? <==>
      NameAccepted(name) && capacity.VInt? && capacity.n > 0
  {
    assert AllStrs({});
  }

  /** The part of a course that its methods and the university change, with
      the capacity that bounds the roster. */
  datatype CourseState = CourseState(
    capacity: nat,
    students: set<Id>,
    teacherId: Option<Id>,
    attendance: map<Date, set<Id>>,
    grades: map<Id, int>)

  /** A set of strings that are all enrolled holds no more elements than the
      roster, so once the size guard of `take_attendance` compares with `>`
      it never decides whether the check passes. */
  lemma {:induction false} PresentFits(elems: set<Value>, students: set<Id>)
    requires AllStrs(elems)
    ensures StrsIn(elems) <= students ==> |elems| <= |students|
  {
    StrsInCard(elems);
    if StrsIn(elems) <= students {
      SubsetCard(StrsIn(elems), students);
    }
  }

  /** The checks of `Course.take_attendance` with the size guard as its comment
      states it (more present students than enrolled ones is an error). The
      size guard then never decides whether the check passes, only which
      error is reported: a set of strings passes exactly when every one of
      them is on the roster. */
  function AttendanceCheck(students: set<Id>, present: Value): (r: Outcome)
    ensures r.Pass? <==> present.VSet? && AllStrs(present.elems) && StrsIn(present.elems) <= students
    ensures !present.VSet? ==> r == Fail(PresentNotSet)
    ensures present.VSet? && !AllStrs(present.elems) ==> r == Fail(PresentNotString)
    ensures present.VSet? && AllStrs(present.elems) && |present.elems| > |students| ==> r == Fail(TooManyPresent)
    ensures (present.VSet? && AllStrs(present.elems) && |present.elems| <= |students| &&
             !(StrsIn(present.elems) <= students)) ==> r == Fail(PresentNotEnrolled)
  {
    if !present.VSet? then Fail(PresentNotSet)
    else if !AllStrs(present.elems) then Fail(PresentNotString)
    else
      PresentFits(present.elems, students);
      if |present.elems| > |students| then Fail(TooManyPresent)
      else if !(StrsIn(present.elems) <= students) then Fail(PresentNotEnrolled)
      else Pass
  }

  /** The checks of `Course.take_attendance` as written: the size guard uses
      `>=`, so as many present students as enrolled ones is rejected too. */
  function AttendanceCheckAsWritten(students: set<Id>, present: Value): (r: Outcome)
    ensures r.Pass? <==>
      present.VSet? && AllStrs(present.elems) && |present.elems| < |students| &&
      StrsIn(present.elems) <= students
    ensures !present.VSet? ==> r == Fail(PresentNotSet)
    ensures present.VSet? && !AllStrs(present.elems) ==> r == Fail(PresentNotString)
    ensures present.VSet? && AllStrs(present.elems) && |present.elems| >= |students| ==> r == Fail(TooManyPresent)
  {
    if !present.VSet? then Fail(PresentNotSet)
    else if !AllStrs(present.elems) then Fail(PresentNotString)
    else if |present.elems| >= |students| then Fail(TooManyPresent)
    else if !(StrsIn(present.elems) <= students) then Fail(PresentNotEnrolled)
    else Pass
  }

  /** The as-written check accepts exactly what the intended one accepts minus
      the requests naming as many students as the roster holds. */
  lemma AttendanceAsWrittenDiffers(students: set<Id>, present: Value)
    ensures AttendanceCheckAsWritten(students, present).Pass? <==>
      AttendanceCheck(students, present).Pass? && |present.elems| < |students|
  {
  }

  /** The input that shows the defect: the whole roster present. The intended
      check accepts it, the as-written one rejects it, for every roster,
      and on an empty course the as-written check rejects every request. */
  lemma {:induction false} FullRosterAttendance(students: set<Id>)
    ensures AttendanceCheck(students, VSet(set s | s in students :: VStr(s))).Pass?
    ensures AttendanceCheckAsWritten(students, VSet(set s | s in students :: VStr(s))) == Fail(TooManyPresent)
    ensures students == {} ==> forall p :: AttendanceCheckAsWritten(students, p).Fail?
  {
    var all := set s | s in students :: VStr(s);
    assert StrsIn(all) == students by {
      forall x | x in students ensures x in StrsIn(all) {
        assert VStr(x) in all;
      }
    }
    StrsCard(students);
  }

  /** `Course.take_attendance` on the course's state, with the intended size
      guard: on success the entry for `date` becomes exactly the present set
      (replacing any earlier one) and nothing else changes; on failure
      nothing changes at all. */
  function AfterAttendance(c: CourseState, date: Date, present: Value): (r: (Outcome, CourseState))
    ensures r.0 == AttendanceCheck(c.students, present)
    ensures r.0.Pass? ==>
      r.1.attendance.Keys == c.attendance.Keys + {date} &&
      r.1.attendance[date] == StrsIn(present.elems) && r.1.attendance[date] <= c.students &&
      (forall d :: d in c.attendance && d != date ==> r.1.attendance[d] == c.attendance[d]) &&
      r.1.students == c.students && r.1.grades == c.grades &&
      r.1.teacherId == c.teacherId && r.1.capacity == c.capacity
    ensures r.0.Fail? ==> r.1 == c
  {
    var check := AttendanceCheck(c.students, present);
    if check.Fail? then (check, c)
    else (Pass, c.(attendance := c.attendance[date := StrsIn(present.elems)]))
  }

  /** The grade check `Course.assign_grade` means to make: an integer in 0..100. */
  predicate GradeAccepted(grade: Value) {
    grade.VInt? && 0 <= grade.n <= 100
  }

  /** The guard `not isinstance(grade, int) or 0 <= grade <= 100` as written:
      it raises for non-integers and for every grade in range. */
  predicate GradeRejectedAsWritten(grade: Value): (r: bool)
    ensures !grade.VInt? ==> r
    ensures grade.VInt? ==> (r <==> 0 <= grade.n <= 100)
  {
    !grade.VInt? || 0 <= grade.n <= 100
  }

  /** For integers the as-written guard is the intended one inverted: it lets
      through exactly the grades outside 0..100 and refuses the others. */
  lemma GradeGuardInverted(grade: Value)
    ensures grade.VInt? ==> (GradeRejectedAsWritten(grade) <==> GradeAccepted(grade))
    ensures !grade.VInt? ==> GradeRejectedAsWritten(grade) && !GradeAccepted(grade)
    ensures GradeAccepted(VInt(90)) && GradeRejectedAsWritten(VInt(90))
    ensures !GradeAccepted(VInt(150)) && !GradeRejectedAsWritten(VInt(150))
  {
  }

  /** `Course.assign_grade` on the course's state, with the intended range
      check: a student not on the roster is refused first; otherwise an
      integer grade in 0..100 replaces that student's grade and nothing else. */
  function AfterGrade(c: CourseState, studentId: Id, grade: Value): (r: (Outcome, CourseState))
    ensures r.0.Pass? <==> studentId in c.students && grade.VInt? && 0 <= grade.n <= 100
    ensures studentId !in c.students ==> r.0 == Fail(NotEnrolled)
    ensures studentId in c.students && r.0.Fail? ==> r.0 == Fail(BadGrade)
    ensures r.0.Pass? ==>
      r.1.grades.Keys == c.grades.Keys + {studentId} && r.1.grades[studentId] == grade.n &&
      (forall s :: s in c.grades && s != studentId ==> r.1.grades[s] == c.grades[s]) &&
      r.1.students == c.students && r.1.attendance == c.attendance &&
      r.1.teacherId == c.teacherId && r.1.capacity == c.capacity
    ensures r.0.Fail? ==> r.1 == c
  {
    if studentId !in c.students then (Fail(NotEnrolled), c)
    else if !GradeAccepted(grade) then (Fail(BadGrade), c)
    else (Pass, c.(grades := c.grades[studentId := grade.n]))
  }

  /** Grading one student never changes another student's grade, whatever
      the outcome. */
  lemma GradeIsolated(c: CourseState, studentId: Id, grade: Value, other: Id)
    requires other != studentId
    ensures other in AfterGrade(c, studentId, grade).1.grades <==> other in c.grades
    ensures other in c.grades ==> AfterGrade(c, studentId, grade).1.grades[other] == c.grades[other]
  {
  }

  /** The keys every serialised course has. */
  const CommonKeys: set<string> :=
    {"id", "name", "course_type", "max_capacity", "current_enrollment", "teacher_id"}

  /** The extra key a course of the given type is serialised with. */
  function TypeKeys(courseType: string): set<string> {
    if courseType == "math" then {"difficult_level"}
    else if courseType == "art" then {"materials_required"}
    else {}
  }

  class Course {
    const id: Id
    const name: string
    const maxCapacity: nat
    const courseType: string
    const difficultyLevel: Value
    const materialsRequired: Value
    var students: set<Id>
    var teacherId: Option<Id>
    var attendance: map<Date, set<Id>>
    var grades: map<Id, int>

    /** The constant fields hold what `Course.validate` lets through (see
        `ValidCourseFields`). */
    ghost predicate Valid() {
      name != "" && maxCapacity > 0 &&
      (courseType == "math" ==> difficultyLevel in DifficultyLevels) &&
      (courseType == "art" ==> materialsRequired.VSet? && AllStrs(materialsRequired.elems))
    }

    /** `Valid` is exactly what `Course.validate` accepts of these fields. */
    lemma ValidCourseFields()
      ensures Valid() <==>
        ValidateCourse(VStr(name), VInt(maxCapacity), courseType, difficultyLevel, materialsRequired).Pass?
    {
    }

    /** The mutable part of the course, with its capacity. */
    function State(): CourseState
      reads this
    {
      CourseState(maxCapacity, students, teacherId, attendance, grades)
    }

    constructor (id: Id, name: string, maxCapacity: nat, courseType: string, difficultyLevel: Value,
                 materialsRequired: Value)
      requires ValidateCourse(VStr(name), VInt(maxCapacity), courseType, difficultyLevel, materialsRequired).Pass?
      ensures Valid()
      ensures this.id == id && this.name == name && this.maxCapacity == maxCapacity
      ensures this.courseType == courseType && this.difficultyLevel == difficultyLevel
      ensures this.materialsRequired == materialsRequired
      ensures students == {} && teacherId == None && attendance == map[] && grades == map[]
    {
      this.id := id;
      this.name := name;
      this.maxCapacity := maxCapacity;
      this.courseType := courseType;
      this.difficultyLevel := difficultyLevel;
      this.materialsRequired := materialsRequired;
      students := {};
      teacherId := None;
      attendance := map[];
      grades := map[];
    }

    /** `Course(name, max_capacity, course_type, difficulty_level, materials_required)`:
        the materials default to the empty set, then the course is validated.
        A new course has an empty roster, no teacher, no attendance and no
        grades. The identifier, a fresh UUID in the source, is a parameter. */
    static method Create(id: Id, name: Value, maxCapacity: Value, courseType: string, difficultyLevel: Value,
                         materialsRequired: Value) returns (r: Result<Course>)
      ensures r.Err? <==>
        ValidateCourse(name, maxCapacity, courseType, difficultyLevel, MaterialsOrEmpty(materialsRequired)).Fail?
      ensures r.Err? ==>
        r.why == ValidateCourse(name, maxCapacity, courseType, difficultyLevel, MaterialsOrEmpty(materialsRequired)).why
      ensures r.Ok? ==>
        fresh(r.value) && r.value.Valid() && r.value.id == id &&
        VStr(r.value.name) == name && VInt(r.value.maxCapacity) == maxCapacity &&
        r.value.courseType == courseType && r.value.difficultyLevel == difficultyLevel &&
        r.value.materialsRequired == MaterialsOrEmpty(materialsRequired) &&
        r.value.State() == CourseState(r.value.maxCapacity, {}, None, map[], map[])
    {
      var materials := MaterialsOrEmpty(materialsRequired);
      var v := ValidateCourse(name, maxCapacity, courseType, difficultyLevel, materials);
      if v.Fail? {
        return Err(v.why);
      }
      var c := new Course(id, name.s, maxCapacity.n, courseType, difficultyLevel, materials);
      r := Ok(c);
    }

    /** `Course.take_attendance`, with the size guard as intended. */
    method TakeAttendance(date: Date, present: Value) returns (r: Outcome)
      modifies this
      ensures r == AfterAttendance(old(State()), date, present).0
      ensures State() == AfterAttendance(old(State()), date, present).1
    {
      r := AttendanceCheck(students, present);
      if r.Pass? {
        attendance := attendance[date := StrsIn(present.elems)];
      }
    }

    /** `Course.assign_grade`, with the range guard as intended. */
    method AssignGrade(studentId: Id, grade: Value) returns (r: Outcome)
      modifies this
      ensures r == AfterGrade(old(State()), studentId, grade).0
      ensures State() == AfterGrade(old(State()), studentId, grade).1
    {
      if studentId !in students {
        return Fail(NotEnrolled);
      }
      if !GradeAccepted(grade) {
        return Fail(BadGrade);
      }
      grades := grades[studentId := grade.n];
      r := Pass;
    }

    /** The entries `Course.to_dict` writes for every course type. */
    ghost predicate DescribesCommon(d: Dict)
      reads this
    {
      "id" in d && d["id"] == VStr(id) &&
      "name" in d && d["name"] == VStr(name) &&
      "course_type" in d && d["course_type"] == VStr(courseType) &&
      "max_capacity" in d && d["max_capacity"] == VInt(maxCapacity) &&
      "current_enrollment" in d && d["current_enrollment"] == VInt(|students|) &&
      "teacher_id" in d && d["teacher_id"] == (match teacherId case None => VNone case Some(t) => VStr(t))
    }

    /** The common part of the serialisation, before the type-specific entry. */
    function CommonDict(): (d: Dict)
      reads this
      ensures d.Keys == CommonKeys
      ensures DescribesCommon(d)
    {
      map["id" := VStr(id), "name" := VStr(name), "course_type" := VStr(courseType),
          "max_capacity" := VInt(maxCapacity), "current_enrollment" := VInt(|students|),
          "teacher_id" := (match teacherId case None => VNone case Some(t) => VStr(t))]
    }

    /** `d` is this course as `Course.to_dict` serialises it: the common
        entries, `difficult_level` (so spelt) for a math course only and the
        materials as a list for an art course only. */
    ghost predicate Describes(d: Dict)
      requires Valid()
      reads this
    {
      d.Keys == CommonKeys + TypeKeys(courseType) &&
      DescribesCommon(d) &&
      (courseType == "math" ==> d["difficult_level"] == difficultyLevel) &&
      (courseType == "art" ==> d["materials_required"].VList? &&
                               Enumerates(d["materials_required"].items, materialsRequired.elems))
    }

    /** `Course.to_dict`. */
    method ToDict() returns (d: Dict)
      requires Valid()
      ensures Describes(d)
    {
      d := CommonDict();
      if courseType == "math" {
        d := d["difficult_level" := difficultyLevel];
      } else if courseType == "art" {
        var materials := SetToList(materialsRequired.elems);
        d := d["materials_required" := VList(materials)];
      }
    }
  }
}
