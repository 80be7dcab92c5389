/** How the two generations of forms, the instance search guard and the
    delete flow relate: which form is stricter, where the checks of one
    step let through what the next refuses, and what the delete page can
    see of a failed deletion. */
module FormRelations {
  import opened Wrappers
  import opened JsValue
  import opened JsNumber
  import opened JsRuntime
  import opened Forms
  import Api
  import InstanceForm
  import LegacyInstanceForm
  import CourseForm
  import LegacyCourseForm
  import InstanceList
  import Lists

  // ---------------------------------------------------------------------
  // Instance forms

  /** A form the corrected year check accepts also passes the search
      guard of the instance list page: its year and semester read the same
      through `parseInt` as through `Number`. */
  lemma CheckedFormFitsSearch(f: InstanceFields)
    requires InstanceForm.ValidateChecked(f) == map[]
    ensures InstanceList.SearchAccepts(f.year, f.semester)
  {
    assert "year" !in InstanceForm.ValidateChecked(f);
    assert "semester" !in InstanceForm.ValidateChecked(f);
    NumberAgreesWithParseInt(f.year);
    NumberAgreesWithParseInt(f.semester);
  }

  /** The form as written does not: it accepts the year "abc", which the
      search guard refuses. */
  lemma WrittenFormMissesSearch()
    ensures InstanceForm.Validate(InstanceFields("101", "abc", "1")) == map[]
    ensures !InstanceList.SearchAccepts("abc", "1")
  {
    var f := InstanceFields("101", "abc", "1");
    InstanceForm.LettersAreNotNumber();
    SemesterListedText("1", 1) by {
      IntStringRoundTrip(1);
      assert Decimal.IntToString(1) == "1";
    }
    InstanceForm.NonNumericYearPasses(f);
    LettersAreNotParsed();
  }

  lemma LettersAreNotParsed()
    ensures ParseInt("abc") == None
  {
    TrimmedAlready("abc");
    assert SignSplit("abc") == (1, "abc");
    assert DigitPrefix("abc") == "";
  }

  /** Whatever the newer instance form accepts, the older one accepts. */
  lemma InstanceFormStricterThanLegacy(f: InstanceFields)
    requires InstanceForm.Validate(f) == map[]
    ensures LegacyInstanceForm.Validate(f) == map[]
  {
    InstanceForm.AcceptedForm(f);
    if f.semester == "" {
      BlankIsZeroAndNaN("");
    }
  }

  /** The older form accepts semester "3", which the newer one refuses. */
  lemma LegacyAcceptsThirdSemester()
    ensures LegacyInstanceForm.Validate(InstanceFields("101", "2024", "3")) == map[]
    ensures "semester" in InstanceForm.Validate(InstanceFields("101", "2024", "3"))
  {
    var f := InstanceFields("101", "2024", "3");
    NumberOfText(3, "3");
    assert !InstanceForm.SemesterListed(f.semester);
    assert f.courseId != "" && f.year != "" && f.semester != "";
  }

  /** `text` is how `n` is written, so `Number` reads it back. */
  lemma NumberOfText(n: int, text: string)
    requires text == Decimal.IntToString(n)
    ensures ToNumber(text) == Some(n)
  {
    IntStringRoundTrip(n);
  }

  /** Of the older form's semester choices, the newer form's check
      accepts exactly the ones the newer form offers. */
  lemma SemesterOptionsAgainstCheck()
    ensures forall k :: 0 <= k < |LegacyInstanceForm.SEMESTER_OPTIONS| ==>
      (InstanceForm.SemesterListed(Display(Num(LegacyInstanceForm.SEMESTER_OPTIONS[k])))
       <==> LegacyInstanceForm.SEMESTER_OPTIONS[k] in InstanceForm.SEMESTER_OPTIONS)
  {
    forall k | 0 <= k < |LegacyInstanceForm.SEMESTER_OPTIONS|
      ensures InstanceForm.SemesterListed(Display(Num(LegacyInstanceForm.SEMESTER_OPTIONS[k])))
              <==> LegacyInstanceForm.SEMESTER_OPTIONS[k] in InstanceForm.SEMESTER_OPTIONS
    {
      var n := LegacyInstanceForm.SEMESTER_OPTIONS[k];
      IntStringRoundTrip(n);
      SemesterListedText(Display(Num(n)), n);
    }
  }

  /** Text that reads as `n` passes the semester check exactly when `n`
      is 1 or 2. */
  lemma SemesterListedText(t: string, n: int)
    requires ToNumber(t) == Some(n)
    ensures InstanceForm.SemesterListed(t) <==> n in InstanceForm.SEMESTER_OPTIONS
  {
    assert InstanceForm.SEMESTER_OPTIONS == [1, 2];
  }

  // ---------------------------------------------------------------------
  // Course forms

  /** Whatever the newer course form accepts, the older one accepts. */
  lemma CourseFormStricterThanLegacy(f: CourseFields)
    requires CourseForm.Validate(f) == map[]
    ensures LegacyCourseForm.Validate(f) == map[]
  {
    assert "courseId" !in CourseForm.Validate(f);
  }

  /** The course forms differ exactly on IDs that read as a number but
      are not written in digits only (a sign, surrounding blanks): the
      older form accepts them and the newer one refuses them. */
  lemma LegacyAcceptsNonDigitId(f: CourseFields)
    requires Truthy(f.courseId) && NumberOf(f.courseId).Some? && !CourseForm.DigitsOnly(f.courseId)
    requires Truthy(f.name) && Truthy(f.description)
    ensures LegacyCourseForm.Validate(f) == map[]
    ensures "courseId" in CourseForm.Validate(f)
  {
  }

  /** Negative IDs such as "-5" are among them. */
  lemma LegacyAcceptsNegativeId(n: int, name: Value, description: Value, prerequisites: Value)
    requires n < 0 && Truthy(name) && Truthy(description)
    ensures var f := CourseFields(Str(Decimal.IntToString(n)), name, description, prerequisites);
            LegacyCourseForm.Validate(f) == map[] && "courseId" in CourseForm.Validate(f)
  {
    var id := Decimal.IntToString(n);
    IntStringRoundTrip(n);
    assert !Decimal.IsDigit(id[0]);
    LegacyAcceptsNonDigitId(CourseFields(Str(id), name, description, prerequisites));
  }

  /** When the newer form sends a course, the older one sends the same
      course with its ID read as a number: the text the newer form sends
      reads, through `Number`, as the number the older one sends. */
  lemma SubmittedIdsAgree(f: CourseFields)
    requires CourseForm.HandleSubmit(f).Sent?
    ensures LegacyCourseForm.HandleSubmit(f).Sent?
    ensures var sent := CourseForm.HandleSubmit(f).payload.fields["courseId"];
            NumberOf(sent) == Some(LegacyCourseForm.HandleSubmit(f).payload.fields["courseId"].n)
    ensures NumberOf(f.courseId) == Some(Decimal.DigitsValue(Display(f.courseId)))
  {
    CourseFormStricterThanLegacy(f);
    assert "courseId" !in CourseForm.Validate(f);
    CourseForm.DigitsNumber(f.courseId);
  }

  /** Every course the older form offers as a prerequisite, the newer
      form offers too: IDs that differ in text are never strictly equal. */
  lemma LegacyOptionsAreOffered(allCourses: seq<Value>, f: CourseFields)
    ensures CourseForm.PrerequisiteOptions(allCourses, f).Success?
            <==> LegacyCourseForm.PrerequisiteOptions(allCourses, f).Success?
    ensures LegacyCourseForm.PrerequisiteOptions(allCourses, f).Success? ==>
      var older := LegacyCourseForm.PrerequisiteOptions(allCourses, f).value;
      forall k :: 0 <= k < |older| ==> older[k] in CourseForm.PrerequisiteOptions(allCourses, f).value
  {
    var older := LegacyCourseForm.PrerequisiteOptions(allCourses, f);
    if older.Success? {
      forall k | 0 <= k < |older.value|
        ensures older.value[k] in CourseForm.PrerequisiteOptions(allCourses, f).value
      {
        var c := older.value[k];
        assert !StrictEq(Field(c, "courseId"), f.courseId);
        var i :| 0 <= i < |allCourses| && allCourses[i] == c;
      }
    }
  }

  /** After the ID is typed (text "5"), the newer form still offers the
      course with the numeric ID 5 as its own prerequisite; the older one
      does not. */
  lemma TypedIdKeepsOwnCourse()
    ensures var course := Obj(map["courseId" := Num(5)]);
            var f := CourseFields(Str("5"), Str("Algebra"), Str("Groups"), Arr([]));
            && CourseForm.PrerequisiteOptions([course], f) == Success([course])
            && LegacyCourseForm.PrerequisiteOptions([course], f) == Success([])
  {
    var course := Obj(map["courseId" := Num(5)]);
    var f := CourseFields(Str("5"), Str("Algebra"), Str("Groups"), Arr([]));
    assert Field(course, "courseId") == Num(5);
    assert Display(Num(5)) == "5";
    assert !StrictEq(Num(5), Str("5"));
    var newer := CourseForm.PrerequisiteOptions([course], f);
    var older := LegacyCourseForm.PrerequisiteOptions([course], f);
    assert |newer.value| <= 1 && course in newer.value;
    assert newer.value == [course] by { assert newer.value[0] == course; }
    assert |older.value| <= 1 && course !in older.value;
    assert older.value == [];
  }

  // ---------------------------------------------------------------------
  // Opening and saving

  /** The instance list page passes `handleSave` as the instance form's
      `onSuccess`: whatever the form hands over is posted as it is, since
      `parseInt` leaves its numbers unchanged. */
  lemma SavedAsSubmitted(f: InstanceFields, editing: bool, outcome: AxiosOutcome)
    ensures InstanceList.HandleSave(InstanceForm.Payload(f), editing, outcome).posted
         == Some(InstanceForm.Payload(f))
  {
    var v := InstanceForm.Payload(f);
    var r := InstanceList.SavePayload(v);
    assert r.value.fields == v.fields;
  }

  /** A course as `getAllCourses` normalised it opens the course form with
      its own fields and its prerequisite IDs. The newer form accepts it
      exactly when its ID is written in digits, and then sends the same
      course back with those IDs de-duplicated. */
  lemma EditingNormalisedCourse(course: Value, out: Value)
    requires Api.NormalisedCourse(course, out)
    requires Truthy(Field(course, "courseId")) && Truthy(Field(course, "name"))
             && Truthy(Field(course, "description"))
    ensures InitialCourseForm(out)
         == CourseFields(Field(course, "courseId"), Field(course, "name"), Field(course, "description"),
                         out.fields["prerequisites"])
    ensures CourseForm.HandleSubmit(InitialCourseForm(out)).Sent?
            <==> CourseForm.DigitsOnly(Field(course, "courseId"))
    ensures CourseForm.HandleSubmit(InitialCourseForm(out)).Sent? ==>
      var payload := CourseForm.HandleSubmit(InitialCourseForm(out)).payload;
      && payload.fields["courseId"] == Field(course, "courseId")
      && payload.fields["name"] == Field(course, "name")
      && payload.fields["description"] == Field(course, "description")
      && Lists.IsDedupOf(payload.fields["prerequisites"].items, out.fields["prerequisites"].items)
  {
    OpenedOnNormalised(course, out);
    ResubmitFilledForm(InitialCourseForm(out));
  }

  /** Opening the course form on a normalised course copies its fields. */
  lemma OpenedOnNormalised(course: Value, out: Value)
    requires Api.NormalisedCourse(course, out)
    requires Truthy(Field(course, "courseId")) && Truthy(Field(course, "name"))
             && Truthy(Field(course, "description"))
    ensures InitialCourseForm(out)
         == CourseFields(Field(course, "courseId"), Field(course, "name"), Field(course, "description"),
                         out.fields["prerequisites"])
    ensures out.fields["prerequisites"].Arr?
  {
    assert Field(out, "courseId") == Field(course, "courseId");
    assert Field(out, "name") == Field(course, "name");
    assert Field(out, "description") == Field(course, "description");
    assert Field(out, "prerequisites") == out.fields["prerequisites"];
  }

  /** A filled-in course form with a list of prerequisites is sent exactly
      when its ID is written in digits, with its fields and the list
      de-duplicated. */
  lemma ResubmitFilledForm(f: CourseFields)
    requires Truthy(f.courseId) && Truthy(f.name) && Truthy(f.description) && f.prerequisites.Arr?
    ensures CourseForm.HandleSubmit(f).Sent? <==> CourseForm.DigitsOnly(f.courseId)
    ensures CourseForm.HandleSubmit(f).Sent? ==>
      var payload := CourseForm.HandleSubmit(f).payload;
      && payload.fields["courseId"] == f.courseId
      && payload.fields["name"] == f.name
      && payload.fields["description"] == f.description
      && Lists.IsDedupOf(payload.fields["prerequisites"].items, f.prerequisites.items)
  {
    CourseForm.IdCheckIsDigitsOnly(f.courseId);
  }

  /** A form opened without a course (every field falsy or missing) is
      refused by both course forms on all three fields. */
  lemma BlankFormBlocked(initial: Value)
    requires !initial.Null?
    requires !Truthy(Field(initial, "courseId")) && !Truthy(Field(initial, "name"))
             && !Truthy(Field(initial, "description"))
    ensures CourseForm.Validate(InitialCourseForm(initial)).Keys == {"courseId", "name", "description"}
    ensures LegacyCourseForm.Validate(InitialCourseForm(initial)).Keys == {"courseId", "name", "description"}
  {
  }

  // ---------------------------------------------------------------------
  // Deleting an instance

  /** `deleteInstance` re-raises every failure without its response, so
      the page's in-use alert (for a 409 response) never fires. */
  lemma InUseAlertUnreachable(st: InstanceList.ListState, year: Value, semester: Value, courseId: Value,
                              outcome: AxiosOutcome)
    requires Api.DeleteInstance(outcome) == Success(true) ==> InstanceList.EntriesReadable(st.instances)
    ensures !InstanceList.HandleDelete(st, year, semester, courseId, true, Api.DeleteInstance(outcome)).alerted
  {
  }

  /** With the response kept, the alert fires exactly when the server
      refused the deletion with 409. */
  lemma InUseAlertWithResponse(st: InstanceList.ListState, year: Value, semester: Value, courseId: Value,
                               outcome: AxiosOutcome)
    requires Api.DeleteInstanceKeepingResponse(outcome) == Success(true) ==> InstanceList.EntriesReadable(st.instances)
    ensures InstanceList.HandleDelete(st, year, semester, courseId, true,
                                      Api.DeleteInstanceKeepingResponse(outcome)).alerted
            <==> outcome.Rejected? && outcome.error.Response().Some?
                 && outcome.error.Response().value.status == 409
  {
  }

  /** Either way the list of instances ends the same. */
  lemma SameListEitherWay(st: InstanceList.ListState, year: Value, semester: Value, courseId: Value,
                          outcome: AxiosOutcome)
    requires Api.DeleteInstance(outcome) == Success(true) ==> InstanceList.EntriesReadable(st.instances)
    ensures InstanceList.HandleDelete(st, year, semester, courseId, true, Api.DeleteInstance(outcome)).after.instances
         == InstanceList.HandleDelete(st, year, semester, courseId, true,
                                      Api.DeleteInstanceKeepingResponse(outcome)).after.instances
  {
  }
}
