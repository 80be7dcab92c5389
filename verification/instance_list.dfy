/** The instance list page (`src/components/instances/InstanceList.jsx`):
    the search guard and response handling of `fetchInstances`, the list
    update of `handleDelete`, and the body `handleSave` passes on. The
    page's state is reduced to the list shown and the error text; the
    confirmation dialog's answer and every API result are parameters. */
module InstanceList {
  import opened Wrappers
  import opened Decimal
  import opened JsValue
  import opened JsNumber
  import opened JsRuntime
  import Lists
  import Api

  const ENTER_VALID := "Please enter valid year (1900-2100) and semester (1 or 2)"
  const OUT_OF_RANGE := "Invalid year or semester. Year must be between 1900-2100 and semester must be 1 or 2"
  const FETCH_FAILED := "Failed to fetch instances"

  datatype ListState = ListState(instances: seq<Value>, error: string)

  // ---------------------------------------------------------------------
  // fetchInstances

  /** The searches that reach the API: both texts parse, the year lies in
      1900..2100 and the semester in 1..2. */
  predicate SearchAccepts(year: string, semester: string) {
    && ParseInt(year).Some? && 1900 <= ParseInt(year).value <= 2100
    && ParseInt(semester).Some? && 1 <= ParseInt(semester).value <= 2
  }

  lemma EmptyIsUnparsable()
    ensures ParseInt("") == None
  {
    assert TrimStart("") == "";
    assert SignSplit("") == (1, "");
  }

  /** The two guards of `fetchInstances`: the message they set, or `None`
      when the search goes ahead. The emptiness checks never decide
      anything on their own, since `parseInt("")` is NaN. */
  function SearchGuard(year: string, semester: string): (r: Option<string>)
    ensures r.None? <==> SearchAccepts(year, semester)
    ensures r == Some(ENTER_VALID) <==> ParseInt(year).None? || ParseInt(semester).None?
    ensures r.Some? ==> r.value in {ENTER_VALID, OUT_OF_RANGE}
  {
    EmptyIsUnparsable();
    if year == "" || semester == "" || ParseInt(year).None? || ParseInt(semester).None? then
      Some(ENTER_VALID)
    else if ParseInt(year).value < 1900 || ParseInt(year).value > 2100
         || ParseInt(semester).value < 1 || ParseInt(semester).value > 2 then
      Some(OUT_OF_RANGE)
    else None
  }

  /** The shape check on what the API returned: an array is the new list,
      `null` or `undefined` is an empty list, anything else is malformed. */
  function AcceptResponse(response: Value): (r: Result<seq<Value>, JsError>)
    ensures response.Arr? ==> r == Success(response.items)
    ensures Nullish(response) ==> r == Success([])
    ensures !response.Arr? && !Nullish(response) ==> r == Failure(Thrown(Api.INVALID_FORMAT))
  {
    if response.Arr? then Success(response.items)
    else if Nullish(response) then Success([])
    else Failure(Thrown(Api.INVALID_FORMAT))
  }

  /** The text the `catch` of `fetchInstances` shows. */
  function FetchErrorText(e: JsError): (m: string)
    ensures m != ""
    ensures e.Code() == Some(NETWORK_ERROR_CODE) ==> m == Api.BACKEND_DOWN
    ensures e.Code() != Some(NETWORK_ERROR_CODE) ==> m == (if e.message != "" then e.message else FETCH_FAILED)
  {
    if e.Code() == Some(NETWORK_ERROR_CODE) then Api.BACKEND_DOWN
    else if e.message != "" then e.message
    else FETCH_FAILED
  }

  /** After the guard passed and the error was cleared: install the list
      the API gave, or show why not while keeping the old list. */
  function ApplyFetch(st: ListState, response: Result<Value, JsError>): (after: ListState)
    ensures response.Success? && AcceptResponse(response.value).Success? ==>
      after == ListState(AcceptResponse(response.value).value, "")
    ensures response.Success? && AcceptResponse(response.value).Failure? ==>
      after == ListState(st.instances, Api.INVALID_FORMAT)
    ensures response.Failure? ==> after == ListState(st.instances, FetchErrorText(response.error))
  {
    match response
    case Failure(e) => ListState(st.instances, FetchErrorText(e))
    case Success(v) =>
      match AcceptResponse(v)
      case Success(xs) => ListState(xs, "")
      case Failure(e) => ListState(st.instances, FetchErrorText(e))
  }

  datatype FetchRun = FetchRun(called: bool, after: ListState)

  /** `fetchInstances` with the page's year and semester text and what the
      call `api.getInstancesByYearSem(year, semester)` settles with. A
      refused search empties the list and explains, without calling the
      API; an accepted one clears the error and installs the rows the API
      returned, or shows the failure and keeps the old list. */
  function FetchInstances(st: ListState, year: string, semester: string,
                          result: Result<seq<Value>, JsError>): (r: FetchRun)
    ensures r.called <==> SearchAccepts(year, semester)
    ensures !r.called ==> r.after.instances == [] && r.after.error == SearchGuard(year, semester).value
    ensures r.called && result.Success? ==> r.after == ListState(result.value, "")
    ensures r.called && result.Failure? ==>
      r.after == ListState(st.instances, FetchErrorText(result.error))
    ensures r.after.error == "" <==> r.called && result.Success?
  {
    match SearchGuard(year, semester)
    case Some(message) => FetchRun(false, ListState([], message))
    case None =>
      var response :=
        match result
        case Success(rows) => Success(Arr(rows))
        case Failure(e) => Failure(e);
      FetchRun(true, ApplyFetch(ListState(st.instances, ""), response))
  }

  lemma DigitsOf2024()
    ensures DigitsValue("2024") == 2024
  {
    assert "2024"[..3] == "202";
    assert "202"[..2] == "20";
    assert "20"[..1] == "2";
    assert "2"[..0] == "";
  }

  lemma ParseIntStopsAtLetter()
    ensures ParseInt("2024x") == Some(2024)
  {
    TrimmedAlready("2024x");
    assert SignSplit("2024x") == (1, "2024x");
    DigitPrefixOfDigits("2024", "x");
    assert "2024" + "x" == "2024x";
    DigitsOf2024();
  }

  lemma NumberRejectsLetter()
    ensures ToNumber("2024x") == None
  {
    TrimmedAlready("2024x");
    assert SignSplit("2024x") == (1, "2024x");
    assert !IsDigit("2024x"[4]);
  }

  /** The page's guard reads the year with `parseInt`, the API's with
      `Number`: text such as "2024x" passes the first and is refused by the
      second, so the page shows the API's complaint instead of results. */
  lemma GuardsDisagree(st: ListState, outcome: AxiosOutcome)
    ensures SearchAccepts("2024x", "1")
    ensures FetchInstances(st, "2024x", "1", Api.GetInstancesByYearSem("2024x", "1", outcome)).after
         == ListState(st.instances, Api.INVALID_YEAR_SEMESTER)
  {
    ParseIntStopsAtLetter();
    NumberRejectsLetter();
    IntStringRoundTrip(1);
    assert IntToString(1) == "1";
  }

  // ---------------------------------------------------------------------
  // handleDelete

  /** `inst` is the instance deleted: all three keys strictly equal. */
  predicate Matches(inst: Value, year: Value, semester: Value, courseId: Value) {
    && StrictEq(Field(inst, "courseId"), courseId)
    && StrictEq(Field(inst, "year"), year)
    && StrictEq(Field(inst, "semester"), semester)
  }

  /** The list filter of `handleDelete`. */
  function RemoveInstance(instances: seq<Value>, year: Value, semester: Value, courseId: Value)
    : (r: seq<Value>)
    ensures forall k :: 0 <= k < |r| ==> r[k] in instances && !Matches(r[k], year, semester, courseId)
    ensures forall i :: 0 <= i < |instances| && !Matches(instances[i], year, semester, courseId) ==>
      instances[i] in r
  {
    Lists.Filter(instances, inst => !Matches(inst, year, semester, courseId))
  }

  /** Removal works entry by entry: it distributes over concatenation and
      drops a single entry exactly when it matches, so the survivors keep
      their order and only matching entries go. */
  lemma RemoveInstanceByParts(a: seq<Value>, b: seq<Value>, x: Value,
                              year: Value, semester: Value, courseId: Value)
    ensures RemoveInstance(a + b, year, semester, courseId)
         == RemoveInstance(a, year, semester, courseId) + RemoveInstance(b, year, semester, courseId)
    ensures RemoveInstance([x], year, semester, courseId)
         == if Matches(x, year, semester, courseId) then [] else [x]
  {
    Lists.FilterAppend(a, b, inst => !Matches(inst, year, semester, courseId));
    assert [x][1..] == [];
  }

  /** Nothing is removed when no entry matches. */
  lemma RemoveAbsentInstance(instances: seq<Value>, year: Value, semester: Value, courseId: Value)
    requires forall i :: 0 <= i < |instances| ==> !Matches(instances[i], year, semester, courseId)
    ensures RemoveInstance(instances, year, semester, courseId) == instances
  {
    Lists.FilterKeepsAll(instances, inst => !Matches(inst, year, semester, courseId));
  }

  /** Reading the keys of every entry is safe. */
  predicate EntriesReadable(instances: seq<Value>) {
    forall i :: 0 <= i < |instances| ==> !Nullish(instances[i])
  }

  datatype DeleteRun = DeleteRun(after: ListState, alerted: bool)

  /** `handleDelete` given the answer to the confirmation dialog and the
      result of `api.deleteInstance`. Only `true` updates the list; a
      rejection carrying a 409 response raises the in-use alert; every
      other failure shows a message and leaves the list alone. */
  function HandleDelete(st: ListState, year: Value, semester: Value, courseId: Value,
                        confirmed: bool, result: Result<bool, JsError>): (r: DeleteRun)
    requires confirmed && result == Success(true) ==> EntriesReadable(st.instances)
    ensures !confirmed ==> r == DeleteRun(st, false)
    ensures confirmed && result == Success(true) ==>
      r == DeleteRun(ListState(RemoveInstance(st.instances, year, semester, courseId), ""), false)
    ensures confirmed && result != Success(true) ==> r.after.instances == st.instances
    ensures confirmed && result == Success(false) ==> r.after.error == Api.DELETE_FAILED
    ensures confirmed && result.Failure? && result.error.Response().None? ==>
      r.after.error == (if result.error.message != "" then result.error.message else Api.DELETE_FAILED)
    ensures confirmed && result.Failure? && result.error.Response().Some? && !r.alerted ==>
      var resp := result.error.Response().value;
      r.after.error == MessageOr(DataMessage(resp), resp.statusText, Api.DELETE_FAILED)
    ensures r.alerted <==>
      confirmed && result.Failure? && result.error.Response().Some?
      && result.error.Response().value.status == 409
    ensures r.alerted ==> r.after == ListState(st.instances, "")
  {
    if !confirmed then DeleteRun(st, false)
    else
      match result
      case Success(true) =>
        DeleteRun(ListState(RemoveInstance(st.instances, year, semester, courseId), ""), false)
      case Success(false) =>
        DeleteRun(ListState(st.instances, Api.DELETE_FAILED), false)
      case Failure(e) =>
        match e.Response()
        case Some(resp) =>
          if resp.status == 409 then DeleteRun(ListState(st.instances, ""), true)
          else DeleteRun(ListState(st.instances,
                                   MessageOr(DataMessage(resp), resp.statusText, Api.DELETE_FAILED)), false)
        case None =>
          DeleteRun(ListState(st.instances, if e.message != "" then e.message else Api.DELETE_FAILED), false)
  }

  /** The identifier shown in the confirmation dialog. */
  function InstanceLabel(courseId: Value, year: Value, semester: Value): string {
    Display(courseId) + "-" + Display(year) + "-" + Display(semester)
  }

  lemma NoHyphenInNatural(n: nat)
    ensures '-' !in IntToString(n)
  {
    var d := IntToString(n);
    assert forall i :: 0 <= i < |d| ==> d[i] != '-' by {
      forall i | 0 <= i < |d| ensures d[i] != '-' { assert IsDigit(d[i]); }
    }
  }

  /** The identifier can be read back: for a course ID without a hyphen
      and non-negative integer year and semester, splitting it on `-`
      gives the three parts and `parseInt` recovers the numbers. */
  lemma InstanceLabelRoundTrip(courseId: Value, year: nat, semester: nat)
    requires '-' !in Display(courseId)
    ensures Lists.Split(InstanceLabel(courseId, Num(year), Num(semester)), '-')
         == [Display(courseId), IntToString(year), IntToString(semester)]
    ensures ParseInt(Lists.Split(InstanceLabel(courseId, Num(year), Num(semester)), '-')[1]) == Some(year)
    ensures ParseInt(Lists.Split(InstanceLabel(courseId, Num(year), Num(semester)), '-')[2]) == Some(semester)
  {
    var c := Display(courseId);
    var y := IntToString(year);
    var s := IntToString(semester);
    NoHyphenInNatural(year);
    NoHyphenInNatural(semester);
    ThreePartsSplit(c, y, s);
    assert InstanceLabel(courseId, Num(year), Num(semester)) == c + "-" + y + "-" + s;
    IntStringRoundTrip(year);
    IntStringRoundTrip(semester);
  }

  /** Three hyphen-free parts joined with `-` split back into themselves. */
  lemma ThreePartsSplit(c: string, y: string, s: string)
    requires '-' !in c && '-' !in y && '-' !in s
    ensures Lists.Split(c + "-" + y + "-" + s, '-') == [c, y, s]
  {
    Lists.SplitWhole(c, '-');
    Lists.SplitSnoc(c, y, '-');
    Lists.SplitSnoc(c + "-" + y, s, '-');
    assert c + "-" + y == c + ['-'] + y;
    assert c + "-" + y + "-" + s == (c + "-" + y) + ['-'] + s;
  }

  // ---------------------------------------------------------------------
  // handleSave

  /** The body `handleSave` builds: only the course ID, and the year and
      semester through `parseInt`. Reading the fields of a nullish form
      throws. It is the same projection `createInstance` applies again. */
  function SavePayload(form: Value): (r: Result<Value, JsError>)
    ensures r == Api.CreateInstanceBody(form)
    ensures r.Success? ==> r.value.Obj? && r.value.fields.Keys == Api.INSTANCE_DATA_KEYS
  {
    match Read(form, "courseId")
    case Failure(e) => Failure(e)
    case Success(courseId) =>
      Success(Api.InstanceData(courseId, FromNumber(ParseIntOf(Field(form, "year"))),
                               FromNumber(ParseIntOf(Field(form, "semester")))))
  }

  const SAVE_FAILED := "Failed to save instance"
  const INSTANCE_UPDATED := "Instance updated successfully"
  const INSTANCE_ADDED := "Instance added successfully"

  /** What saving did: the body posted, if any, whether the dialog was
      closed (and the list fetched again), and the toast shown. */
  datatype SaveRun = SaveRun(posted: Option<Value>, closed: bool, toast: string)

  /** `handleSave` given whether an instance was being edited and what the
      post settles with: success closes the dialog and refetches, any
      failure keeps it open and shows the error's message. */
  function HandleSave(form: Value, editing: bool, outcome: AxiosOutcome): (r: SaveRun)
    ensures r.posted.Some? <==> !Nullish(form)
    ensures r.posted.Some? ==> SavePayload(form) == Success(r.posted.value)
    ensures r.posted.Some? ==> Api.CreateInstanceBody(r.posted.value) == Success(r.posted.value)
    ensures r.closed <==> r.posted.Some? && Api.CreateInstance(r.posted.value, outcome).Success?
    ensures r.closed ==> r.toast == (if editing then INSTANCE_UPDATED else INSTANCE_ADDED)
    ensures r.posted.None? ==> r.toast == SavePayload(form).error.message
    ensures r.posted.Some? && !r.closed ==>
      var e := Api.CreateInstance(r.posted.value, outcome).error;
      r.toast == (if e.message != "" then e.message else SAVE_FAILED)
  {
    match SavePayload(form)
    case Failure(e) => SaveRun(None, false, if e.message != "" then e.message else SAVE_FAILED)
    case Success(body) =>
      SaveKeepsNumericForm(body.fields["courseId"], body.fields["year"], body.fields["semester"]);
      assert body == Api.InstanceData(body.fields["courseId"], body.fields["year"], body.fields["semester"]);
      match Api.CreateInstance(body, outcome)
      case Success(_) => SaveRun(Some(body), true, if editing then INSTANCE_UPDATED else INSTANCE_ADDED)
      case Failure(e) => SaveRun(Some(body), false, if e.message != "" then e.message else SAVE_FAILED)
  }

  /** Saving a form whose year and semester are already numbers sends
      them unchanged, and `createInstance` posts that body as it is. */
  lemma SaveKeepsNumericForm(courseId: Value, year: Value, semester: Value)
    requires IsNumber(year) && IsNumber(semester)
    ensures SavePayload(Api.InstanceData(courseId, year, semester))
         == Success(Api.InstanceData(courseId, year, semester))
    ensures Api.CreateInstanceBody(SavePayload(Api.InstanceData(courseId, year, semester)).value)
         == SavePayload(Api.InstanceData(courseId, year, semester))
  {
    var form := Api.InstanceData(courseId, year, semester);
    var r := SavePayload(form);
    assert r.value.fields == form.fields;
  }
}
