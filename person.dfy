/** People of the university (models/person.py): the validation every person
    goes through, and the two roles, Student and Teacher, each owning a set of
    course identifiers that only its add and discard methods change. */
module People {
  import opened Values

  /** The contact keys `Person.validate` insists on, in the order it checks them. */
  const RequiredContactFields: seq<string> := ["email", "phone"]

  /** The first of `fields` that is not a key of `contact`, or None when all are. */
  function FirstMissing(fields: seq<string>, contact: map<string, Value>): (r: Option<string>)
    ensures r.None? <==> forall i :: 0 <= i < |fields| ==> fields[i] in contact
    ensures r.Some? ==> r.value in fields && r.value !in contact
    ensures r.Some? && |fields| > 0 && fields[0] !in contact ==> r.value == fields[0]
  {
    if fields == [] then None
    else if fields[0] !in contact then Some(fields[0])
    else FirstMissing(fields[1..], contact)
  }

  /** `Person.validate`: the name is a non-empty string and the contact
      information is a mapping holding both an email and a phone entry,
      whatever their values; the first failed check names the error. */
  function ValidatePerson(name: Value, contact: Value): (r: Outcome)
    ensures r.Pass? <==>
      name.VStr? && name.s != "" && contact.VDict? &&
      "email" in contact.entries && "phone" in contact.entries
    ensures !(name.VStr? && name.s != "") ==> r == Fail(BadName)
    ensures name.VStr? && name.s != "" && !contact.VDict? ==> r == Fail(ContactNotDict)
    ensures name.VStr? && name.s != "" && contact.VDict? && "email" !in contact.entries ==>
      r == Fail(MissingContactField("email"))
    ensures (name.VStr? && name.s != "" && contact.VDict? && "email" in contact.entries &&
             "phone" !in contact.entries) ==> r == Fail(MissingContactField("phone"))
  {
    if !NameAccepted(name) then Fail(BadName)
    else if !contact.VDict? then Fail(ContactNotDict)
    else
      assert RequiredContactFields[0] == "email" && RequiredContactFields[1] == "phone";
      match FirstMissing(RequiredContactFields, contact.entries)
      case Some(field) => Fail(MissingContactField(field))
      case None => Pass
  }

  /** `all(isinstance(x, str) for x in items)`. */
  function AllStrings(items: seq<Value>): (r: bool)
    ensures r <==> forall i :: 0 <= i < |items| ==> items[i].VStr?
  {
    if items == [] then true else items[0].VStr? && AllStrings(items[1..])
  }

  /** `Teacher.validate_specializations`: a non-empty list of strings. The
      strings themselves may be empty. */
  function ValidateSpecializations(specs: Value): (r: Outcome)
    ensures r.Pass? <==>
      specs.VList? && |specs.items| > 0 && forall i :: 0 <= i < |specs.items| ==> specs.items[i].VStr?
    ensures !specs.VList? ==> r == Fail(SpecializationsNotList)
    ensures specs.VList? && (exists i :: 0 <= i < |specs.items| && !specs.items[i].VStr?) ==>
      r == Fail(SpecializationNotString)
    ensures specs == VList([]) ==> r == Fail(NoSpecializations)
  {
    if !specs.VList? then Fail(SpecializationsNotList)
    else if !AllStrings(specs.items) then Fail(SpecializationNotString)
    else if |specs.items| == 0 then Fail(NoSpecializations)
    else Pass
  }

  /** Validation of a whole teacher: the person checks run first (in the base
      constructor), the specialization checks after them. */
  function ValidateTeacher(name: Value, contact: Value, specs: Value): (r: Outcome)
    ensures r.Pass? <==> ValidatePerson(name, contact).Pass? && ValidateSpecializations(specs).Pass?
    ensures ValidatePerson(name, contact).Fail? ==> r == ValidatePerson(name, contact)
    ensures ValidatePerson(name, contact).Pass? ==> r == ValidateSpecializations(specs)
  {
    var p := ValidatePerson(name, contact);
    if p.Fail? then p else ValidateSpecializations(specs)
  }

  /** The keys and values `Person.to_dict` puts in every serialised person. */
  ghost predicate DescribesPerson(d: Dict, id: Id, name: string, contact: map<string, Value>, role: string) {
    "id" in d && d["id"] == VStr(id) &&
    "name" in d && d["name"] == VStr(name) &&
    "contact_info" in d && d["contact_info"] == VDict(contact) &&
    "role" in d && d["role"] == VStr(role)
  }

  /** `Person.to_dict`. */
  function PersonDict(id: Id, name: string, contact: map<string, Value>, role: string): (d: Dict)
    ensures d.Keys == {"id", "name", "contact_info", "role"}
    ensures DescribesPerson(d, id, name, contact, role)
  {
    map["id" := VStr(id), "name" := VStr(name), "contact_info" := VDict(contact), "role" := VStr(role)]
  }

  class Student {
    const id: Id
    const name: string
    const contactInfo: map<string, Value>
    var enrolledCourses: set<Id>

    /** `Student.get_role`: the same role for every student, and not the teacher's. */
    function Role(): (r: string)
      ensures r == "student" && r != "teacher"
    {
      "student"
    }

    /** The student's fields hold values that passed `Person.validate`. */
    ghost predicate Valid() {
      ValidatePerson(VStr(name), VDict(contactInfo)).Pass?
    }

    constructor (id: Id, name: string, contactInfo: map<string, Value>)
      requires ValidatePerson(VStr(name), VDict(contactInfo)).Pass?
      ensures Valid()
      ensures this.id == id && this.name == name && this.contactInfo == contactInfo
      ensures enrolledCourses == {}
    {
      this.id := id;
      this.name := name;
      this.contactInfo := contactInfo;
      enrolledCourses := {};
    }

    /** `Student(name, contact_info)`: raises unless the person is valid; the
        identifier, a fresh UUID in the source, is a parameter here. */
    static method Create(id: Id, name: Value, contactInfo: Value) returns (r: Result<Student>)
      ensures r.Err? <==> ValidatePerson(name, contactInfo).Fail?
      ensures r.Err? ==> r.why == ValidatePerson(name, contactInfo).why
      ensures r.Ok? ==>
        fresh(r.value) && r.value.Valid() && r.value.id == id &&
        VStr(r.value.name) == name && VDict(r.value.contactInfo) == contactInfo &&
        r.value.enrolledCourses == {}
    {
      var v := ValidatePerson(name, contactInfo);
      if v.Fail? {
        return Err(v.why);
      }
      var s := new Student(id, name.s, contactInfo.entries);
      r := Ok(s);
    }

    method EnrollInCourse(courseId: Id)
      modifies this
      ensures enrolledCourses == old(enrolledCourses) + {courseId}
    {
      enrolledCourses := enrolledCourses + {courseId};
    }

    /** Discards the course; nothing happens when it is not held. */
    method WithdrawFromCourse(courseId: Id)
      modifies this
      ensures enrolledCourses == old(enrolledCourses) - {courseId}
    {
      enrolledCourses := enrolledCourses - {courseId};
    }

    /** `d` is this student as `Student.to_dict` serialises it. */
    ghost predicate Describes(d: Dict)
      reads this
    {
      d.Keys == {"id", "name", "contact_info", "role", "enrolled_courses"} &&
      DescribesPerson(d, id, name, contactInfo, "student") &&
      ListsIds(d["enrolled_courses"], enrolledCourses)
    }

    /** `Student.to_dict`: the person fields, role "student", and the enrolled
        courses as a list holding each of them once. */
    method ToDict() returns (d: Dict)
      ensures Describes(d)
    {
      d := PersonDict(id, name, contactInfo, Role());
      var courses := IdsToList(enrolledCourses);
      d := d["enrolled_courses" := courses];
    }
  }

  class Teacher {
    const id: Id
    const name: string
    const contactInfo: map<string, Value>
    const specializations: seq<Value>
    var assignedCourses: set<Id>

    /** `Teacher.get_role`: the same role for every teacher, and not the student's. */
    function Role(): (r: string)
      ensures r == "teacher" && r != "student"
    {
      "teacher"
    }

    /** The teacher's fields hold values that passed `Person.validate` and
        `Teacher.validate_specializations`. */
    ghost predicate Valid() {
      ValidateTeacher(VStr(name), VDict(contactInfo), VList(specializations)).Pass?
    }

    constructor (id: Id, name: string, contactInfo: map<string, Value>, specializations: seq<Value>)
      requires ValidateTeacher(VStr(name), VDict(contactInfo), VList(specializations)).Pass?
      ensures Valid()
      ensures this.id == id && this.name == name && this.contactInfo == contactInfo
      ensures this.specializations == specializations
      ensures assignedCourses == {}
    {
      this.id := id;
      this.name := name;
      this.contactInfo := contactInfo;
      this.specializations := specializations;
      assignedCourses := {};
    }

    /** `Teacher(name, contact_info, specializations)`: raises unless the
        person and then the specializations are valid. */
    static method Create(id: Id, name: Value, contactInfo: Value, specializations: Value)
      returns (r: Result<Teacher>)
      ensures r.Err? <==> ValidateTeacher(name, contactInfo, specializations).Fail?
      ensures r.Err? ==> r.why == ValidateTeacher(name, contactInfo, specializations).why
      ensures r.Ok? ==>
        fresh(r.value) && r.value.Valid() && r.value.id == id &&
        VStr(r.value.name) == name && VDict(r.value.contactInfo) == contactInfo &&
        VList(r.value.specializations) == specializations && r.value.assignedCourses == {}
    {
      var v := ValidateTeacher(name, contactInfo, specializations);
      if v.Fail? {
        return Err(v.why);
      }
      var t := new Teacher(id, name.s, contactInfo.entries, specializations.items);
      r := Ok(t);
    }

    method AssignCourse(courseId: Id)
      modifies this
      ensures assignedCourses == old(assignedCourses) + {courseId}
    {
      assignedCourses := assignedCourses + {courseId};
    }

    /** Discards the course; nothing happens when it is not assigned. */
    method RemoveCourse(courseId: Id)
      modifies this
      ensures assignedCourses == old(assignedCourses) - {courseId}
    {
      assignedCourses := assignedCourses - {courseId};
    }

    /** `d` is this teacher as `Teacher.to_dict` serialises it. */
    ghost predicate Describes(d: Dict)
      reads this
    {
      d.Keys == {"id", "name", "contact_info", "role", "specializations", "assigned_courses"} &&
      DescribesPerson(d, id, name, contactInfo, "teacher") &&
      d["specializations"] == VList(specializations) &&
      ListsIds(d["assigned_courses"], assignedCourses)
    }

    /** `Teacher.to_dict`: the person fields, role "teacher", the
        specializations list as given, and the assigned courses as a list. */
    method ToDict() returns (d: Dict)
      ensures Describes(d)
    {
      d := PersonDict(id, name, contactInfo, Role());
      var courses := IdsToList(assignedCourses);
      d := d["specializations" := VList(specializations)]["assigned_courses" := courses];
    }
  }

  /** Enrolling a student in a course it does not hold and withdrawing it
      again leaves its enrolled set as it was. */
  method EnrollThenWithdraw(s: Student, c: Id)
    requires c !in s.enrolledCourses
    modifies s
    ensures s.enrolledCourses == old(s.enrolledCourses)
  {
    s.EnrollInCourse(c);
    s.WithdrawFromCourse(c);
  }

  /** Withdrawing a student from the same course twice is the same as once. */
  method WithdrawTwice(s: Student, c: Id)
    modifies s
    ensures s.enrolledCourses == old(s.enrolledCourses) - {c}
  {
    s.WithdrawFromCourse(c);
    s.WithdrawFromCourse(c);
  }

  /** Assigning a teacher a course it does not hold and removing it again
      leaves its assigned set as it was. */
  method AssignThenRemove(t: Teacher, c: Id)
    requires c !in t.assignedCourses
    modifies t
    ensures t.assignedCourses == old(t.assignedCourses)
  {
    t.AssignCourse(c);
    t.RemoveCourse(c);
  }
}
