/** Values shared by the whole model: the dynamically typed Python values the
    validators inspect, the error kinds they raise, and the result types that
    stand in for a raised `ValueError`. */
module Values {

  /** Identifiers of students, teachers and courses (UUID strings in the source). */
  type Id = string

  /** Attendance is keyed by a calendar date; only equality on it matters. */
  datatype Date = Date(year: int, month: int, day: int)

  datatype Option<T> = None | Some(value: T)

  /** A Python value, reduced to the shapes the validators tell apart. */
  datatype Value =
    | VNone
    | VStr(s: string)
    | VInt(n: int)
    | VFloat(x: real)
    | VList(items: seq<Value>)
    | VSet(elems: set<Value>)
    | VDict(entries: map<string, Value>)

  /** A serialised entity, as `to_dict` returns it. */
  type Dict = map<string, Value>

  /** The reasons for which a constructor or a course method raises `ValueError`. */
  datatype Invalid =
    | BadName
    | ContactNotDict
    | MissingContactField(field: string)
    | SpecializationsNotList
    | SpecializationNotString
    | NoSpecializations
    | BadCourseName
    | BadCapacity
    | BadDifficulty
    | MaterialsNotSet
    | MaterialNotString
    | PresentNotSet
    | PresentNotString
    | TooManyPresent
    | PresentNotEnrolled
    | NotEnrolled
    | BadGrade

  /** Either nothing was raised, or the `ValueError` that was. */
  datatype Outcome = Pass | Fail(why: Invalid)

  /** A constructor call: the new object, or the `ValueError` it raised. */
  datatype Result<T> = Ok(value: T) | Err(why: Invalid)

  /** Python truthiness, as `not x` and `x or default` use it. */
  predicate Truthy(v: Value) {
    match v
    case VNone => false
    case VStr(s) => s != ""
    case VInt(n) => n != 0
    case VFloat(x) => x != 0.0
    case VList(items) => items != []
    case VSet(elems) => elems != {}
    case VDict(entries) => entries != map[]
  }

  /** The guard `not x or not isinstance(x, str)` does not raise exactly for
      non-empty strings. */
  predicate NameAccepted(v: Value)
    ensures NameAccepted(v) <==> v.VStr? && v.s != ""
  {
    Truthy(v) && v.VStr?
  }

  /** Every element is a Python `str`. */
  predicate AllStrs(s: set<Value>) {
    forall v :: v in s ==> v.VStr?
  }

  /** The strings held in a set of values. */
  function StrsIn(s: set<Value>): set<string> {
    set v | v in s && v.VStr? :: v.s
  }

  /** `xs` lists every element of `s` exactly once, in some order. */
  ghost predicate Enumerates<T(!new)>(xs: seq<T>, s: set<T>) {
    |xs| == |s| &&
    (forall i, j :: 0 <= i < j < |xs| ==> xs[i] != xs[j]) &&
    (forall x :: x in xs <==> x in s)
  }

  /** `v` is a Python list of the strings in `ids`, each once, in some order. */
  ghost predicate ListsIds(v: Value, ids: set<Id>) {
    v.VList? && Enumerates(v.items, set x | x in ids :: VStr(x))
  }

  /** Python's `list(s)`: the elements of a set in an unspecified order. */
  method SetToList<T(!new)>(s: set<T>) returns (xs: seq<T>)
    ensures Enumerates(xs, s)
  {
    xs := [];
    var rest := s;
    while rest != {}
      invariant rest <= s
      invariant forall x :: x in xs <==> x in s && x !in rest
      invariant forall i, j :: 0 <= i < j < |xs| ==> xs[i] != xs[j]
      invariant |xs| + |rest| == |s|
      decreases |rest|
    {
      var x :| x in rest;
      xs := xs + [x];
      rest := rest - {x};
    }
  }

  /** Python's `list(ids)` for a set of identifier strings. */
  method IdsToList(ids: set<Id>) returns (v: Value)
    ensures ListsIds(v, ids)
  {
    var xs := SetToList(ids);
    var items := seq(|xs|, i requires 0 <= i < |xs| => VStr(xs[i]));
    forall x | x in items ensures x in (set y | y in ids :: VStr(y)) {
      var i :| 0 <= i < |items| && items[i] == x;
    }
    forall y | y in ids ensures VStr(y) in items {
      var i :| 0 <= i < |xs| && xs[i] == y;
      assert items[i] == VStr(y);
    }
    StrsCard(ids);
    v := VList(items);
  }

  /** Wrapping every identifier in `VStr` keeps the number of elements. */
  lemma {:induction false} StrsCard(ids: set<Id>)
    ensures |set x | x in ids :: VStr(x)| == |ids|
  {
    if ids != {} {
      var y :| y in ids;
      var rest := ids - {y};
      StrsCard(rest);
      assert (set x | x in ids :: VStr(x)) == (set x | x in rest :: VStr(x)) + {VStr(y)};
    }
  }

  /** When every element is a string, unwrapping them keeps the number of elements. */
  lemma {:induction false} StrsInCard(s: set<Value>)
    requires AllStrs(s)
    ensures |StrsIn(s)| == |s|
  {
    if s != {} {
      var v :| v in s;
      var rest := s - {v};
      StrsInCard(rest);
      assert StrsIn(s) == StrsIn(rest) + {v.s};
      assert v.s !in StrsIn(rest);
    }
  }

  /** A subset is no larger than the set that holds it. */
  lemma {:induction false} SubsetCard<T>(a: set<T>, b: set<T>)
    requires a <= b
    ensures |a| <= |b|
  {
    assert b == a + (b - a);
  }
}
