/** What the form components share: the error map `validate()` returns,
    the outcome of a submit, and the two pieces of the course forms that
    are written identically in both copies (the initial state drawn from
    the `initial` prop, and reading the selected prerequisite options). */
module Forms {
  import opened Wrappers
  import opened JsValue
  import opened JsNumber
  import opened JsRuntime
  import Lists

  /** Field name to message; submitting is allowed only when it is empty. */
  type Errors = map<string, string>

  /** The text of the three fields of an instance form. */
  datatype InstanceFields = InstanceFields(courseId: string, year: string, semester: string)

  const EMPTY_INSTANCE_FIELDS := InstanceFields("", "", "")

  /** A course form's state. Fields start from the `initial` prop and so
      may hold any value; typing replaces them with text, and choosing
      prerequisites replaces that field with an array of numbers. */
  datatype CourseFields = CourseFields(courseId: Value, name: Value, description: Value, prerequisites: Value)

  /** What pressing submit did: blocked by validation errors, handed a
      payload to the parent's callback, or threw while building it. */
  datatype Submission = Blocked(errors: Errors) | Sent(payload: Value) | Threw(error: JsError)

  /** One check of `validate()`: the field it reports on, whether it
      failed, and its message. */
  datatype Check = Check(key: string, failed: bool, message: string)

  /** The map `validate()` builds by running its checks in order and
      setting `newErrors[key] = message` for each that fails. */
  function ErrorsOf(checks: seq<Check>): (errs: Errors)
    ensures errs.Keys == set i | 0 <= i < |checks| && checks[i].failed :: checks[i].key
    ensures errs == map[] <==> forall i :: 0 <= i < |checks| ==> !checks[i].failed
    ensures (forall i, j :: 0 <= i < j < |checks| ==> checks[i].key != checks[j].key) ==>
      forall i :: 0 <= i < |checks| && checks[i].failed ==> errs[checks[i].key] == checks[i].message
  {
    if |checks| == 0 then map[]
    else
      var init := checks[..|checks| - 1];
      var last := checks[|checks| - 1];
      var errs := ErrorsOf(init);
      assert forall i :: 0 <= i < |init| ==> init[i] == checks[i];
      if last.failed then
        var r := errs[last.key := last.message];
        assert last.key in r;
        r
      else errs
  }

  /** Every form here runs three checks on three different fields. */
  lemma ThreeChecks(a: Check, b: Check, c: Check)
    requires a.key != b.key && a.key != c.key && b.key != c.key
    ensures ErrorsOf([a, b, c]).Keys <= {a.key, b.key, c.key}
    ensures a.key in ErrorsOf([a, b, c]) <==> a.failed
    ensures b.key in ErrorsOf([a, b, c]) <==> b.failed
    ensures c.key in ErrorsOf([a, b, c]) <==> c.failed
    ensures a.failed ==> ErrorsOf([a, b, c])[a.key] == a.message
    ensures b.failed ==> ErrorsOf([a, b, c])[b.key] == b.message
    ensures c.failed ==> ErrorsOf([a, b, c])[c.key] == c.message
    ensures ErrorsOf([a, b, c]) == map[] <==> !a.failed && !b.failed && !c.failed
  {
    var cs := [a, b, c];
    assert cs[0] == a && cs[1] == b && cs[2] == c;
  }

  /** `initial.x || default` for each field: a falsy or missing field
      starts as `''`, a falsy or missing prerequisite list as `[]`.
      (A `null` prop would make the component throw while rendering.) */
  function InitialCourseForm(initial: Value): (f: CourseFields)
    requires !initial.Null?
    ensures Truthy(Field(initial, "courseId")) ==> f.courseId == Field(initial, "courseId")
    ensures !Truthy(Field(initial, "courseId")) ==> f.courseId == Str("")
    ensures Truthy(Field(initial, "name")) ==> f.name == Field(initial, "name")
    ensures !Truthy(Field(initial, "name")) ==> f.name == Str("")
    ensures Truthy(Field(initial, "description")) ==> f.description == Field(initial, "description")
    ensures !Truthy(Field(initial, "description")) ==> f.description == Str("")
    ensures Truthy(Field(initial, "prerequisites")) ==> f.prerequisites == Field(initial, "prerequisites")
    ensures !Truthy(Field(initial, "prerequisites")) ==> f.prerequisites == Arr([])
  {
    CourseFields(
      OrDefault(Field(initial, "courseId"), Str("")),
      OrDefault(Field(initial, "name"), Str("")),
      OrDefault(Field(initial, "description"), Str("")),
      OrDefault(Field(initial, "prerequisites"), Arr([])))
  }

  /** `v || fallback` */
  function OrDefault(v: Value, fallback: Value): Value {
    if Truthy(v) then v else fallback
  }

  /** Initial state of a form opened without an `initial` prop. */
  lemma BlankCourseForm()
    ensures InitialCourseForm(Obj(map[])) == CourseFields(Str(""), Str(""), Str(""), Arr([]))
  {
  }

  /** `handlePrereqChange`: the selected options' values, each through
      `Number`. */
  function PrerequisiteSelection(optionValues: seq<string>): (r: Value)
    ensures r.Arr? && |r.items| == |optionValues|
    ensures forall i :: 0 <= i < |optionValues| ==> IsNumber(r.items[i])
    ensures forall i :: 0 <= i < |optionValues| ==> r.items[i] == FromNumber(ToNumber(optionValues[i]))
  {
    Arr(seq(|optionValues|, i requires 0 <= i < |optionValues| => FromNumber(ToNumber(optionValues[i]))))
  }

  /** Options are rendered with `value={c.courseId}`, so selecting courses
      with integer IDs yields exactly those IDs as numbers. */
  lemma SelectionRecoversCourseIds(ids: seq<int>)
    ensures PrerequisiteSelection(seq(|ids|, i requires 0 <= i < |ids| => Display(Num(ids[i]))))
         == Arr(seq(|ids|, i requires 0 <= i < |ids| => Num(ids[i])))
  {
    var values := seq(|ids|, i requires 0 <= i < |ids| => Display(Num(ids[i])));
    forall i | 0 <= i < |ids|
      ensures FromNumber(ToNumber(values[i])) == Num(ids[i])
    {
      IntStringRoundTrip(ids[i]);
    }
  }

  /** The courses offered as prerequisites:
      `allCourses.filter(c => !excluded(c.courseId))`. Reading `courseId`
      of a `null` or `undefined` entry throws, and the first such entry
      is the one that does. */
  function OfferedCourses(allCourses: seq<Value>, excluded: Value -> bool): (r: Result<seq<Value>, JsError>)
    ensures r.Success? <==> forall i :: 0 <= i < |allCourses| ==> !Nullish(allCourses[i])
    ensures r.Failure? ==>
      exists i :: 0 <= i < |allCourses| && Nullish(allCourses[i])
        && r.error == ReadOfNullish(allCourses[i], "courseId")
        && forall j :: 0 <= j < i ==> !Nullish(allCourses[j])
    ensures r.Success? ==>
      forall k :: 0 <= k < |r.value| ==> r.value[k] in allCourses && !excluded(Field(r.value[k], "courseId"))
    ensures r.Success? ==>
      forall i :: 0 <= i < |allCourses| && !excluded(Field(allCourses[i], "courseId")) ==> allCourses[i] in r.value
    ensures r.Success? ==> r.value == Lists.Filter(allCourses, c => !excluded(Field(c, "courseId")))
  {
    match Lists.TryMap(allCourses, c => Read(c, "courseId"))
    case Failure(e) => Failure(e)
    case Success(_) => Success(Lists.Filter(allCourses, c => !excluded(Field(c, "courseId"))))
  }
}
