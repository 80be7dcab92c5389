/** The older add-instance form (`src/components/InstanceForm.jsx`): it
    only checks that each field was filled in, offers semesters 1 to 8,
    sends all three fields as numbers, and lets a rejection of
    `onSuccess` escape `handleSubmit`. */
module LegacyInstanceForm {
  import opened Wrappers
  import opened JsValue
  import opened JsNumber
  import opened JsRuntime
  import opened Forms
  import Api
  import Decimal

  const COURSE_REQUIRED := "Course is required"
  const YEAR_REQUIRED := "Year is required"
  const SEMESTER_REQUIRED := "Semester is required"

  const SEMESTER_OPTIONS: seq<int> := [1, 2, 3, 4, 5, 6, 7, 8]

  /** `validate()`: each field must be non-empty text. */
  function Validate(f: InstanceFields): (errs: Errors)
    ensures errs.Keys <= {"courseId", "year", "semester"}
    ensures "courseId" in errs <==> f.courseId == ""
    ensures "year" in errs <==> f.year == ""
    ensures "semester" in errs <==> f.semester == ""
    ensures "courseId" in errs ==> errs["courseId"] == COURSE_REQUIRED
    ensures "year" in errs ==> errs["year"] == YEAR_REQUIRED
    ensures "semester" in errs ==> errs["semester"] == SEMESTER_REQUIRED
    ensures errs == map[] <==> f.courseId != "" && f.year != "" && f.semester != ""
  {
    var course := Check("courseId", f.courseId == "", COURSE_REQUIRED);
    var year := Check("year", f.year == "", YEAR_REQUIRED);
    var semester := Check("semester", f.semester == "", SEMESTER_REQUIRED);
    ThreeChecks(course, year, semester);
    ErrorsOf([course, year, semester])
  }

  /** What a valid form hands to `onSuccess`: every field through
      `Number`, so text that does not spell an integer is sent as NaN. */
  function Payload(f: InstanceFields): (v: Value)
    ensures v.Obj? && v.fields.Keys == Api.INSTANCE_DATA_KEYS
    ensures IsNumber(v.fields["courseId"]) && IsNumber(v.fields["year"]) && IsNumber(v.fields["semester"])
    ensures v.fields["courseId"].NaN? <==> ToNumber(f.courseId).None?
    ensures v.fields["year"].NaN? <==> ToNumber(f.year).None?
    ensures v.fields["semester"].NaN? <==> ToNumber(f.semester).None?
    ensures v.fields["courseId"] == FromNumber(ToNumber(f.courseId))
    ensures v.fields["year"] == FromNumber(ToNumber(f.year))
    ensures v.fields["semester"] == FromNumber(ToNumber(f.semester))
  {
    Api.InstanceData(FromNumber(ToNumber(f.courseId)), FromNumber(ToNumber(f.year)), FromNumber(ToNumber(f.semester)))
  }

  /** Fields filled with the spelling of integers (as the year and
      semester options and a course's ID are rendered) send exactly those
      integers. */
  lemma OptionTextsSent(courseId: int, year: int, semester: int)
    ensures Payload(InstanceFields(Decimal.IntToString(courseId), Decimal.IntToString(year),
                                   Decimal.IntToString(semester)))
         == Api.InstanceData(Num(courseId), Num(year), Num(semester))
  {
    IntStringRoundTrip(courseId);
    IntStringRoundTrip(year);
    IntStringRoundTrip(semester);
  }

  /** The payload is already in the form `createInstance` posts: its
      `parseInt` of year and semester changes nothing. */
  lemma PayloadSurvivesCreate(f: InstanceFields)
    ensures Api.CreateInstanceBody(Payload(f)) == Success(Payload(f))
  {
    var v := Payload(f);
    var r := Api.CreateInstanceBody(v);
    assert r.value.fields == v.fields;
  }

  datatype FormState = FormState(fields: InstanceFields, errors: Errors, submitting: bool)

  /** What pressing submit did: the payload handed to `onSuccess`, if
      any, the error that escaped `handleSubmit`, if any, and the form
      afterwards. */
  datatype SubmitRun = SubmitRun(sent: Option<Value>, escaped: Option<JsError>, after: FormState)

  /** `handleSubmit`: there is no `catch`, so a rejection of `onSuccess`
      propagates to the caller; the `finally` clears `submitting` either
      way, and only a resolved call clears the fields. */
  function HandleSubmit(st: FormState, rejection: Option<JsError>): (r: SubmitRun)
    ensures r.after.errors == Validate(st.fields)
    ensures r.sent.Some? <==> Validate(st.fields) == map[]
    ensures r.sent.None? ==> r.escaped.None? && r.after == FormState(st.fields, Validate(st.fields), st.submitting)
    ensures r.sent.Some? ==>
      && r.sent.value == Payload(st.fields)
      && r.escaped == rejection
      && !r.after.submitting
      && r.after.fields == (if rejection.None? then EMPTY_INSTANCE_FIELDS else st.fields)
  {
    var errs := Validate(st.fields);
    if errs != map[] then SubmitRun(None, None, FormState(st.fields, errs, st.submitting))
    else
      var after := if rejection.None? then EMPTY_INSTANCE_FIELDS else st.fields;
      SubmitRun(Some(Payload(st.fields)), rejection, FormState(after, errs, false))
  }
}
