/** The add-instance form (`src/components/instances/InstanceForm.jsx`):
    a course is required, the year must lie in 2000..2100 and the semester
    must be 1 or 2; a valid form hands the course ID as text and year and
    semester as numbers to `onSuccess`, and is cleared once that resolves. */
module InstanceForm {
  import opened Wrappers
  import opened JsValue
  import opened JsNumber
  import opened Forms
  import opened JsRuntime
  import Api
  import Decimal

  const COURSE_REQUIRED := "Course is required"
  const YEAR_RANGE := "Year must be between 2000 and 2100"
  const SEMESTER_ONE_OR_TWO := "Semester must be 1 or 2"

  const SEMESTER_OPTIONS: seq<int> := [1, 2]

  /** `form.year < 2000 || form.year > 2100` with text on the left: the
      text is read by `Number`, and NaN is neither smaller nor larger. */
  predicate YearOutOfRange(year: string) {
    ToNumber(year).Some? && (ToNumber(year).value < 2000 || ToNumber(year).value > 2100)
  }

  /** `[1,2].includes(Number(form.semester))` */
  predicate SemesterListed(semester: string) {
    ToNumber(semester) == Some(1) || ToNumber(semester) == Some(2)
  }

  /** The three checks of `validate()`, given the verdict on the year. */
  function InstanceErrors(f: InstanceFields, badYear: bool): (errs: Errors)
    ensures errs.Keys <= {"courseId", "year", "semester"}
    ensures "courseId" in errs <==> f.courseId == ""
    ensures "year" in errs <==> badYear
    ensures "semester" in errs <==> !SemesterListed(f.semester)
    ensures "courseId" in errs ==> errs["courseId"] == COURSE_REQUIRED
    ensures "year" in errs ==> errs["year"] == YEAR_RANGE
    ensures "semester" in errs ==> errs["semester"] == SEMESTER_ONE_OR_TWO
    ensures errs == map[] <==> f.courseId != "" && !badYear && SemesterListed(f.semester)
  {
    var course := Check("courseId", f.courseId == "", COURSE_REQUIRED);
    var year := Check("year", badYear, YEAR_RANGE);
    var semester := Check("semester", !SemesterListed(f.semester), SEMESTER_ONE_OR_TWO);
    ThreeChecks(course, year, semester);
    ErrorsOf([course, year, semester])
  }

  /** `validate()` as written. */
  function Validate(f: InstanceFields): (errs: Errors)
    ensures errs.Keys <= {"courseId", "year", "semester"}
    ensures "courseId" in errs <==> f.courseId == ""
    ensures "year" in errs <==> f.year == "" || YearOutOfRange(f.year)
    ensures "semester" in errs <==> !SemesterListed(f.semester)
    ensures "courseId" in errs ==> errs["courseId"] == COURSE_REQUIRED
    ensures "year" in errs ==> errs["year"] == YEAR_RANGE
    ensures "semester" in errs ==> errs["semester"] == SEMESTER_ONE_OR_TWO
    ensures errs == map[] <==> f.courseId != "" && f.year != "" && !YearOutOfRange(f.year) && SemesterListed(f.semester)
  {
    InstanceErrors(f, f.year == "" || YearOutOfRange(f.year))
  }

  /** An accepted form: a year text that `Number` reads as 2000..2100 (or
      cannot read at all) and a semester that reads as 1 or 2. */
  lemma AcceptedForm(f: InstanceFields)
    requires Validate(f) == map[]
    ensures f.courseId != ""
    ensures ToNumber(f.year).Some? ==> 2000 <= ToNumber(f.year).value <= 2100
    ensures ToNumber(f.semester) in {Some(1), Some(2)}
  {
    assert "courseId" !in Validate(f) && "year" !in Validate(f) && "semester" !in Validate(f);
  }

  /** A year text that `Number` cannot read passes the year check:
      `"abc" < 2000` and `"abc" > 2100` are both false, so such a year is
      submitted as NaN. */
  lemma NonNumericYearPasses(f: InstanceFields)
    requires f.courseId != "" && f.year != "" && ToNumber(f.year).None? && SemesterListed(f.semester)
    ensures Validate(f) == map[]
    ensures Payload(f).fields["year"] == NaN
  {
  }

  /** "abc" is such a year. */
  lemma LettersAreNotNumber()
    ensures ToNumber("abc") == None
  {
    TrimmedAlready("abc");
    assert SignSplit("abc") == (1, "abc");
    assert !Decimal.IsDigit("abc"[0]);
  }

  /** The evidently intended check: the year must read as a number in
      2000..2100. */
  function ValidateChecked(f: InstanceFields): (errs: Errors)
    ensures errs.Keys <= {"courseId", "year", "semester"}
    ensures "courseId" in errs <==> f.courseId == ""
    ensures "year" in errs <==> !YearInRange(f.year)
    ensures "semester" in errs <==> !SemesterListed(f.semester)
    ensures "courseId" in errs ==> errs["courseId"] == COURSE_REQUIRED
    ensures "year" in errs ==> errs["year"] == YEAR_RANGE
    ensures "semester" in errs ==> errs["semester"] == SEMESTER_ONE_OR_TWO
    ensures errs == map[] <==> f.courseId != "" && YearInRange(f.year) && SemesterListed(f.semester)
  {
    InstanceErrors(f, !YearInRange(f.year))
  }

  predicate YearInRange(year: string) {
    ToNumber(year).Some? && 2000 <= ToNumber(year).value <= 2100
  }

  /** The corrected check accepts only what the written one accepts. */
  lemma CheckedIsStricter(f: InstanceFields)
    requires ValidateChecked(f) == map[]
    ensures Validate(f) == map[]
  {
    assert "year" !in ValidateChecked(f);
    if f.year == "" {
      BlankIsZeroAndNaN("");
    }
    assert "year" !in Validate(f);
    assert Validate(f).Keys == {};
  }

  /** Where the year reads as a number, the two checks agree. */
  lemma ChecksAgreeOnNumbers(f: InstanceFields)
    requires ToNumber(f.year).Some?
    ensures ValidateChecked(f) == Validate(f)
  {
    YearVerdictsAgree(f.year);
  }

  lemma YearVerdictsAgree(year: string)
    requires ToNumber(year).Some?
    ensures (year == "" || YearOutOfRange(year)) == !YearInRange(year)
  {
    if year == "" {
      BlankIsZeroAndNaN("");
    }
  }

  /** What a valid form hands to `onSuccess`. */
  function Payload(f: InstanceFields): (v: Value)
    ensures v.Obj? && v.fields.Keys == Api.INSTANCE_DATA_KEYS
    ensures v.fields["courseId"] == Str(f.courseId)
    ensures IsNumber(v.fields["year"]) && IsNumber(v.fields["semester"])
    ensures v.fields["year"] == FromNumber(ToNumber(f.year))
    ensures v.fields["semester"] == FromNumber(ToNumber(f.semester))
  {
    Api.InstanceData(Str(f.courseId), FromNumber(ToNumber(f.year)), FromNumber(ToNumber(f.semester)))
  }

  /** A form filled from the year and semester options (the spelling of
      integers) sends the course text and exactly those integers. */
  lemma OptionTextsSent(courseId: string, year: int, semester: int)
    ensures Payload(InstanceFields(courseId, Decimal.IntToString(year), Decimal.IntToString(semester)))
         == Api.InstanceData(Str(courseId), Num(year), Num(semester))
  {
    IntStringRoundTrip(year);
    IntStringRoundTrip(semester);
  }

  const CREATE_FAILED := "Failed to create instance"

  /** The message shown when `onSuccess` rejects:
      `e?.response?.data?.message || e.message || 'Failed to create instance'`. */
  function FailureNotice(e: JsError): (m: string)
    ensures e.Response().Some? && Truthy(DataMessage(e.Response().value)) ==>
      m == Display(DataMessage(e.Response().value))
    ensures (e.Response().None? || !Truthy(DataMessage(e.Response().value))) ==>
      m == (if e.message != "" then e.message else CREATE_FAILED)
  {
    var serverMessage := if e.Response().Some? then DataMessage(e.Response().value) else Undefined;
    MessageOr(serverMessage, e.message, CREATE_FAILED)
  }

  datatype FormState = FormState(fields: InstanceFields, errors: Errors, submitting: bool)

  /** What pressing submit did: the payload handed to `onSuccess`, if
      any, the failure shown, if any, and the form afterwards. */
  datatype SubmitRun = SubmitRun(sent: Option<Value>, notice: Option<string>, after: FormState)

  /** `handleSubmit`, given how the promise `onSuccess` returns settles
      (`None` when it resolves, the error when it rejects). Errors block
      the call; a sent form ends not submitting, and is cleared only when
      `onSuccess` resolved, while a rejection is shown and keeps the
      fields. */
  function HandleSubmit(st: FormState, rejection: Option<JsError>): (r: SubmitRun)
    ensures r.after.errors == Validate(st.fields)
    ensures r.sent.Some? <==> Validate(st.fields) == map[]
    ensures r.sent.None? ==> r.notice.None? && r.after == FormState(st.fields, Validate(st.fields), st.submitting)
    ensures r.sent.Some? ==>
      && r.sent.value.Obj? && r.sent.value.fields.Keys == Api.INSTANCE_DATA_KEYS
      && r.sent.value.fields["courseId"] == Str(st.fields.courseId)
      && r.sent.value.fields["semester"] in {Num(1), Num(2)}
      && r.sent.value.fields["semester"] == FromNumber(ToNumber(st.fields.semester))
      && r.sent.value.fields["year"] == FromNumber(ToNumber(st.fields.year))
      && !r.after.submitting
      && r.after.fields == (if rejection.None? then EMPTY_INSTANCE_FIELDS else st.fields)
      && r.notice == (if rejection.None? then None else Some(FailureNotice(rejection.value)))
  {
    var errs := Validate(st.fields);
    if errs != map[] then SubmitRun(None, None, FormState(st.fields, errs, st.submitting))
    else
      AcceptedForm(st.fields);
      match rejection
      case None => SubmitRun(Some(Payload(st.fields)), None, FormState(EMPTY_INSTANCE_FIELDS, errs, false))
      case Some(e) => SubmitRun(Some(Payload(st.fields)), Some(FailureNotice(e)), FormState(st.fields, errs, false))
  }
}
