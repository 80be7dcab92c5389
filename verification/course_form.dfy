/** The course form (`src/components/courses/CourseForm.jsx`): the course
    ID must be written in decimal digits only, title and description must
    be filled in; a valid form hands its fields to `onSubmit` with the
    prerequisites deduplicated, and the prerequisite list offers every
    course whose ID is not strictly equal to the one being edited. */
module CourseForm {
  import opened Wrappers
  import opened JsValue
  import opened JsNumber
  import opened JsRuntime
  import opened Forms
  import Decimal
  import Lists
  import Api

  const ID_REQUIRED := "Course ID is required and must be a valid number"
  const TITLE_REQUIRED := "Title is required"
  const DESCRIPTION_REQUIRED := "Description is required"

  /** `/^\d+$/.test(v)`: the text of `v` is one or more decimal digits. */
  predicate DigitsOnly(v: Value) {
    Display(v) != "" && Decimal.AllDigits(Display(v))
  }

  /** The course-ID check as written:
      `!form.courseId || isNaN(Number(form.courseId)) || !/^\d+$/.test(form.courseId)`. */
  predicate IdFails(courseId: Value) {
    !Truthy(courseId) || NumberOf(courseId).None? || !DigitsOnly(courseId)
  }

  /** `validate()` */
  function Validate(f: CourseFields): (errs: Errors)
    ensures errs.Keys <= {"courseId", "name", "description"}
    ensures "courseId" in errs <==> IdFails(f.courseId)
    ensures "name" in errs <==> !Truthy(f.name)
    ensures "description" in errs <==> !Truthy(f.description)
    ensures "courseId" in errs ==> errs["courseId"] == ID_REQUIRED
    ensures "name" in errs ==> errs["name"] == TITLE_REQUIRED
    ensures "description" in errs ==> errs["description"] == DESCRIPTION_REQUIRED
    ensures errs == map[] <==> !IdFails(f.courseId) && Truthy(f.name) && Truthy(f.description)
  {
    var id := Check("courseId", IdFails(f.courseId), ID_REQUIRED);
    var name := Check("name", !Truthy(f.name), TITLE_REQUIRED);
    var description := Check("description", !Truthy(f.description), DESCRIPTION_REQUIRED);
    ThreeChecks(id, name, description);
    ErrorsOf([id, name, description])
  }

  /** Text made of digits only always reads as a number, so the `isNaN`
      test never decides anything: the ID fails exactly when it is falsy
      or not all digits. */
  lemma IdCheckIsDigitsOnly(courseId: Value)
    ensures IdFails(courseId) <==> !(Truthy(courseId) && DigitsOnly(courseId))
  {
    if DigitsOnly(courseId) {
      DigitsNumber(courseId);
    }
  }

  /** A value whose text is all digits reads, through `Number`, as the
      number those digits spell. */
  lemma DigitsNumber(v: Value)
    requires DigitsOnly(v)
    ensures NumberOf(v) == Some(Decimal.DigitsValue(Display(v)))
  {
    match v
    case Num(n) => Decimal.DigitsRoundTrip(n);
    case Str(_) => DigitsAreNumber(Display(v));
    case Arr(_) => DigitsAreNumber(Display(v));
    case Obj(_) => DigitsAreNumber(Display(v));
    case _ =>
  }

  /** `handleSubmit`: a valid form is handed to `onSubmit` with
      `Array.from(new Set(form.prerequisites))` as its prerequisites, which
      throws when the field holds a value that cannot be iterated. */
  function HandleSubmit(f: CourseFields): (r: Submission)
    ensures r.Blocked? <==> Validate(f) != map[]
    ensures r.Blocked? ==> r.errors == Validate(f)
    ensures r.Threw? <==> Validate(f) == map[] && Elements(f.prerequisites).Failure?
    ensures r.Threw? ==> r.error.TypeFault?
    ensures r.Sent? ==>
      && r.payload.Obj? && r.payload.fields.Keys == Api.COURSE_KEYS
      && r.payload.fields["courseId"] == f.courseId
      && r.payload.fields["name"] == f.name
      && r.payload.fields["description"] == f.description
      && r.payload.fields["prerequisites"].Arr?
      && Lists.IsDedupOf(r.payload.fields["prerequisites"].items, Elements(f.prerequisites).value)
  {
    var errs := Validate(f);
    if errs != map[] then Blocked(errs)
    else
      match SetFrom(f.prerequisites)
      case Failure(e) => Threw(e)
      case Success(ps) =>
        var body := Api.CourseRecord(f.courseId, f.name, f.description, Arr(ps));
        Sent(body)
  }

  /** The prerequisite options: every course whose `courseId` is not
      strictly equal (`!==`) to the form's. */
  function PrerequisiteOptions(allCourses: seq<Value>, f: CourseFields): (r: Result<seq<Value>, JsError>)
    ensures r.Success? <==> forall i :: 0 <= i < |allCourses| ==> !Nullish(allCourses[i])
    ensures r.Success? ==>
      forall i :: 0 <= i < |allCourses| ==>
        (allCourses[i] in r.value <== !StrictEq(Field(allCourses[i], "courseId"), f.courseId))
    ensures r.Success? ==>
      forall k :: 0 <= k < |r.value| ==>
        r.value[k] in allCourses && !StrictEq(Field(r.value[k], "courseId"), f.courseId)
    ensures r.Success? ==> r.value == Lists.Filter(allCourses, c => !StrictEq(Field(c, "courseId"), f.courseId))
  {
    var excluded := id => StrictEq(id, f.courseId);
    Lists.FilterAgrees(allCourses, c => !excluded(Field(c, "courseId")),
                       c => !StrictEq(Field(c, "courseId"), f.courseId));
    OfferedCourses(allCourses, excluded)
  }
}
