/** The older course form (`src/components/CourseForm.jsx`): the course
    ID must be truthy and read as a number, name and description must be
    filled in; a valid form hands `onSubmit` the ID through `Number` and
    the prerequisites unchanged, and the prerequisite list compares IDs by
    their text. */
module LegacyCourseForm {
  import opened Wrappers
  import opened JsValue
  import opened JsNumber
  import opened JsRuntime
  import opened Forms
  import Api

  const ID_REQUIRED := "Course ID is required and must be a number"
  const NAME_REQUIRED := "Name is required"
  const DESCRIPTION_REQUIRED := "Description is required"

  /** `!form.courseId || isNaN(Number(form.courseId))` */
  predicate IdFails(courseId: Value) {
    !Truthy(courseId) || NumberOf(courseId).None?
  }

  /** `validate()` */
  function Validate(f: CourseFields): (errs: Errors)
    ensures errs.Keys <= {"courseId", "name", "description"}
    ensures "courseId" in errs <==> IdFails(f.courseId)
    ensures "name" in errs <==> !Truthy(f.name)
    ensures "description" in errs <==> !Truthy(f.description)
    ensures "courseId" in errs ==> errs["courseId"] == ID_REQUIRED
    ensures "name" in errs ==> errs["name"] == NAME_REQUIRED
    ensures "description" in errs ==> errs["description"] == DESCRIPTION_REQUIRED
    ensures errs == map[] <==> !IdFails(f.courseId) && Truthy(f.name) && Truthy(f.description)
  {
    var id := Check("courseId", IdFails(f.courseId), ID_REQUIRED);
    var name := Check("name", !Truthy(f.name), NAME_REQUIRED);
    var description := Check("description", !Truthy(f.description), DESCRIPTION_REQUIRED);
    ThreeChecks(id, name, description);
    ErrorsOf([id, name, description])
  }

  /** `handleSubmit`: it never throws, and a valid form always sends a
      numeric course ID. */
  function HandleSubmit(f: CourseFields): (r: Submission)
    ensures !r.Threw?
    ensures r.Blocked? <==> Validate(f) != map[]
    ensures r.Blocked? ==> r.errors == Validate(f)
    ensures r.Sent? ==>
      && r.payload.Obj? && r.payload.fields.Keys == Api.COURSE_KEYS
      && r.payload.fields["courseId"].Num?
      && NumberOf(f.courseId) == Some(r.payload.fields["courseId"].n)
      && r.payload.fields["name"] == f.name
      && r.payload.fields["description"] == f.description
      && r.payload.fields["prerequisites"] == f.prerequisites
  {
    var errs := Validate(f);
    if errs != map[] then Blocked(errs)
    else
      var id := FromNumber(NumberOf(f.courseId));
      var body := Api.CourseRecord(id, f.name, f.description, f.prerequisites);
      assert body.fields["courseId"] == id;
      Sent(body)
  }

  /** The prerequisite options: every course whose `courseId` differs in
      text (`String(c.courseId) !== String(form.courseId)`) from the
      form's. */
  function PrerequisiteOptions(allCourses: seq<Value>, f: CourseFields): (r: Result<seq<Value>, JsError>)
    ensures r.Success? <==> forall i :: 0 <= i < |allCourses| ==> !Nullish(allCourses[i])
    ensures r.Success? ==>
      forall i :: 0 <= i < |allCourses| ==>
        (allCourses[i] in r.value <== Display(Field(allCourses[i], "courseId")) != Display(f.courseId))
    ensures r.Success? ==>
      forall k :: 0 <= k < |r.value| ==>
        r.value[k] in allCourses && Display(Field(r.value[k], "courseId")) != Display(f.courseId)
    ensures r.Success? ==>
      r.value == Lists.Filter(allCourses, c => Display(Field(c, "courseId")) != Display(f.courseId))
  {
    var excluded := id => Display(id) == Display(f.courseId);
    Lists.FilterAgrees(allCourses, c => !excluded(Field(c, "courseId")),
                       c => Display(Field(c, "courseId")) != Display(f.courseId));
    OfferedCourses(allCourses, excluded)
  }
}
