/** The client's REST wrapper (`src/api/api.js`): how each call turns the
    settled axios request into a value or a thrown error, and how it shapes
    request bodies and normalises response bodies. The request itself is a
    parameter: `outcome` is what axios settled with. */
module Api {
  import opened Wrappers
  import opened JsValue
  import opened JsNumber
  import opened JsRuntime
  import Lists
  import ApiPaths

  const NO_RESPONSE := "No response received"
  const UNKNOWN_ERROR := "Unknown error"
  const INVALID_FORMAT := "Invalid response format from server"
  const BACKEND_DOWN := "Backend server is not running. Please start the Spring Boot server."
  const INVALID_YEAR_SEMESTER := "Invalid year or semester value"
  const INSTANCE_NOT_FOUND := "Instance not found"
  const INSTANCE_IN_USE := "Cannot delete instance as it is still in use"
  const DELETE_FAILED := "Failed to delete instance"

  const COURSE_KEYS := {"courseId", "name", "description", "prerequisites"}
  const INSTANCE_KEYS := {"instanceId", "courseId", "year", "semester",
                          "courseName", "courseDescription", "coursePrerequisites"}
  const ROW_KEYS := {"instanceId", "courseId", "year", "semester"}
  const INSTANCE_DATA_KEYS := {"courseId", "year", "semester"}

  /** `{ courseId, name, description, prerequisites }` */
  function CourseRecord(courseId: Value, name: Value, description: Value, prerequisites: Value): (v: Value)
    ensures v.Obj? && v.fields.Keys == COURSE_KEYS
  {
    Obj(map["courseId" := courseId, "name" := name, "description" := description,
            "prerequisites" := prerequisites])
  }

  /** `{ courseId, year, semester }`, the body of an instance creation. */
  function InstanceData(courseId: Value, year: Value, semester: Value): (v: Value)
    ensures v.Obj? && v.fields.Keys == INSTANCE_DATA_KEYS
  {
    Obj(map["courseId" := courseId, "year" := year, "semester" := semester])
  }

  // ---------------------------------------------------------------------
  // Response classification

  /** `handleResponse`: no response is an error, a status of 400 or more is
      an error whose message falls back from `data.message` to the status
      text to a fixed text, and anything else yields the body unchanged. */
  function HandleResponse(response: Option<HttpResponse>): (r: Result<Value, JsError>)
    ensures r.Success? <==> response.Some? && response.value.status < 400
    ensures r.Success? ==> r.value == response.value.data
    ensures response.None? ==> r == Failure(Thrown(NO_RESPONSE))
    ensures response.Some? && response.value.status >= 400 ==>
      r == Failure(Thrown(MessageOr(DataMessage(response.value), response.value.statusText, UNKNOWN_ERROR)))
  {
    match response
    case None => Failure(Thrown(NO_RESPONSE))
    case Some(resp) =>
      if resp.status >= 400 then
        Failure(Thrown(MessageOr(DataMessage(resp), resp.statusText, UNKNOWN_ERROR)))
      else Success(resp.data)
  }

  /** The error-message choice of `handleResponse`, spelled out: a
      non-empty string `message` in the body wins, then a non-empty status
      text, then "Unknown error". */
  lemma HandleResponseMessage(resp: HttpResponse)
    requires resp.status >= 400
    ensures DataMessage(resp).Str? && DataMessage(resp).s != "" ==>
      HandleResponse(Some(resp)) == Failure(Thrown(DataMessage(resp).s))
    ensures Nullish(DataMessage(resp)) && resp.statusText != "" ==>
      HandleResponse(Some(resp)) == Failure(Thrown(resp.statusText))
    ensures Nullish(DataMessage(resp)) && resp.statusText == "" ==>
      HandleResponse(Some(resp)) == Failure(Thrown(UNKNOWN_ERROR))
  {
  }

  /** A request whose result is passed through `handleResponse`
      (`getCourseById`, `getCourseByCourseId`, `getInstanceByYearSemCourse`,
      and the sending half of `createCourse` and `createInstance`); their
      `catch` rethrows unchanged. */
  function ThroughHandleResponse(outcome: AxiosOutcome): (r: Result<Value, JsError>)
    ensures r.Success? <==> outcome.Resolved? && outcome.response.status < 400
    ensures r.Success? ==> r.value == outcome.response.data
    ensures outcome.Rejected? ==> r == Failure(outcome.error)
  {
    match outcome
    case Rejected(e) => Failure(e)
    case Resolved(resp) => HandleResponse(Some(resp))
  }

  /** The `catch` of `getAllCourses` and `getInstancesByYearSem`: a network
      failure becomes a hint to start the backend; other errors pass. */
  function NetworkAware(e: JsError): (r: JsError)
    ensures e.Code() == Some(NETWORK_ERROR_CODE) ==> r == Thrown(BACKEND_DOWN)
    ensures e.Code() != Some(NETWORK_ERROR_CODE) ==> r == e
  {
    if e.Code() == Some(NETWORK_ERROR_CODE) then Thrown(BACKEND_DOWN) else e
  }

  // ---------------------------------------------------------------------
  // Courses

  /** Which prerequisite lists `getAllCourses` can map: absent or falsy, or
      an array of objects. */
  predicate PrerequisitesReadable(p: Value) {
    !Truthy(p) || (p.Arr? && forall j :: 0 <= j < |p.items| ==> !Nullish(p.items[j]))
  }

  /** `out` is the normal form of `course`: the three scalar fields copied,
      every prerequisite replaced by its `courseId`, no list as `[]`. */
  predicate NormalisedCourse(course: Value, out: Value) {
    var p := Field(course, "prerequisites");
    && out.Obj? && out.fields.Keys == COURSE_KEYS
    && out.fields["courseId"] == Field(course, "courseId")
    && out.fields["name"] == Field(course, "name")
    && out.fields["description"] == Field(course, "description")
    && (!Truthy(p) ==> out.fields["prerequisites"] == Arr([]))
    && (Truthy(p) ==>
          && p.Arr? && out.fields["prerequisites"].Arr?
          && |out.fields["prerequisites"].items| == |p.items|
          && forall j :: 0 <= j < |p.items| ==>
               out.fields["prerequisites"].items[j] == Field(p.items[j], "courseId"))
  }

  function PrerequisiteId(p: Value): (r: Result<Value, JsError>)
    ensures r.Failure? ==> r.error.TypeFault?
  {
    Read(p, "courseId")
  }

  /** The mapping callback of `getAllCourses`. */
  function NormaliseCourse(course: Value): (r: Result<Value, JsError>)
    ensures r.Success? <==> !Nullish(course) && PrerequisitesReadable(Field(course, "prerequisites"))
    ensures r.Success? ==> NormalisedCourse(course, r.value)
    ensures r.Failure? ==> r.error.TypeFault?
  {
    if Nullish(course) then Failure(ReadOfNullish(course, "courseId"))
    else
      var p := Field(course, "prerequisites");
      var prerequisites: Result<Value, JsError> :=
        if !Truthy(p) then Success(Arr([]))
        else if p.Arr? then
          match Lists.TryMap(p.items, PrerequisiteId)
          case Success(ids) => Success(Arr(ids))
          case Failure(e) => Failure(e)
        else Failure(TypeFault("course.prerequisites.map is not a function"));
      match prerequisites
      case Failure(e) => Failure(e)
      case Success(ids) =>
        Success(CourseRecord(Field(course, "courseId"), Field(course, "name"),
                             Field(course, "description"), ids))
  }

  /** Which bodies `getAllCourses` normalises without throwing. */
  predicate CoursesReadable(data: Value) {
    data.Arr? &&
    forall i :: 0 <= i < |data.items| ==>
      !Nullish(data.items[i]) && PrerequisitesReadable(Field(data.items[i], "prerequisites"))
  }

  /** `getAllCourses`: an array body becomes the list of normalised courses,
      element by element in the same order; any other body is rejected as
      malformed; a network failure is reported as a stopped backend. */
  function GetAllCourses(outcome: AxiosOutcome): (r: Result<seq<Value>, JsError>)
    ensures r.Success? <==> outcome.Resolved? && CoursesReadable(outcome.response.data)
    ensures r.Success? ==>
      && |r.value| == |outcome.response.data.items|
      && forall i :: 0 <= i < |r.value| ==> NormalisedCourse(outcome.response.data.items[i], r.value[i])
    ensures outcome.Resolved? && !outcome.response.data.Arr? ==> r == Failure(Thrown(INVALID_FORMAT))
    ensures outcome.Resolved? && outcome.response.data.Arr? && !CoursesReadable(outcome.response.data) ==>
      r.Failure? && r.error.TypeFault?
    ensures outcome.Rejected? ==> r == Failure(NetworkAware(outcome.error))
  {
    match outcome
    case Rejected(e) => Failure(NetworkAware(e))
    case Resolved(resp) =>
      if !resp.data.Arr? then Failure(NetworkAware(Thrown(INVALID_FORMAT)))
      else
        match Lists.TryMap(resp.data.items, NormaliseCourse)
        case Success(courses) => Success(courses)
        case Failure(e) => Failure(NetworkAware(e))
  }

  // ---------------------------------------------------------------------
  // Instances

  /** `out` is the normal form of `instance`: six fields copied and a
      missing prerequisite list replaced by `[]`. */
  predicate NormalisedInstance(instance: Value, out: Value) {
    var p := Field(instance, "coursePrerequisites");
    && out.Obj? && out.fields.Keys == INSTANCE_KEYS
    && (forall k :: k in INSTANCE_KEYS && k != "coursePrerequisites" ==>
          out.fields[k] == Field(instance, k))
    && out.fields["coursePrerequisites"] == (if Truthy(p) then p else Arr([]))
  }

  /** The mapping callback of `getAllInstances`. */
  function NormaliseInstance(instance: Value): (r: Result<Value, JsError>)
    ensures r.Success? <==> !Nullish(instance)
    ensures r.Success? ==> NormalisedInstance(instance, r.value)
    ensures r.Failure? ==> r.error.TypeFault?
  {
    if Nullish(instance) then Failure(ReadOfNullish(instance, "instanceId"))
    else
      var p := Field(instance, "coursePrerequisites");
      var prerequisites := if Truthy(p) then p else Arr([]);
      Success(Obj(map k | k in INSTANCE_KEYS ::
                    if k == "coursePrerequisites" then prerequisites else Field(instance, k)))
  }

  /** `getAllInstances`: like `getAllCourses` for instances, without the
      network-failure hint. */
  function GetAllInstances(outcome: AxiosOutcome): (r: Result<seq<Value>, JsError>)
    ensures r.Success? <==> (outcome.Resolved? && outcome.response.data.Arr?
                             && forall i :: 0 <= i < |outcome.response.data.items| ==>
                                  !Nullish(outcome.response.data.items[i]))
    ensures r.Success? ==>
      && |r.value| == |outcome.response.data.items|
      && forall i :: 0 <= i < |r.value| ==> NormalisedInstance(outcome.response.data.items[i], r.value[i])
    ensures outcome.Resolved? && !outcome.response.data.Arr? ==> r == Failure(Thrown(INVALID_FORMAT))
    ensures outcome.Resolved? && outcome.response.data.Arr? && r.Failure? ==> r.error.TypeFault?
    ensures outcome.Rejected? ==> r == Failure(outcome.error)
  {
    match outcome
    case Rejected(e) => Failure(e)
    case Resolved(resp) =>
      if !resp.data.Arr? then Failure(Thrown(INVALID_FORMAT))
      else Lists.TryMap(resp.data.items, NormaliseInstance)
  }

  /** `out` is `instance` cut down to exactly the four identifying fields. */
  predicate ProjectedRow(instance: Value, out: Value) {
    && out.Obj? && out.fields.Keys == ROW_KEYS
    && forall k :: k in ROW_KEYS ==> out.fields[k] == Field(instance, k)
  }

  /** The mapping callback of `getInstancesByYearSem`. */
  function ProjectRow(instance: Value): (r: Result<Value, JsError>)
    ensures r.Success? <==> !Nullish(instance)
    ensures r.Success? ==> ProjectedRow(instance, r.value)
    ensures r.Failure? ==> r.error.TypeFault?
  {
    if Nullish(instance) then Failure(ReadOfNullish(instance, "instanceId"))
    else
      Success(Obj(map[
        "instanceId" := Field(instance, "instanceId"),
        "courseId" := Field(instance, "courseId"),
        "year" := Field(instance, "year"),
        "semester" := Field(instance, "semester")]))
  }

  /** `instances.map(...)` on whatever `handleResponse` returned. */
  function ProjectRows(data: Value): (r: Result<seq<Value>, JsError>)
    ensures r.Success? <==> data.Arr? && forall i :: 0 <= i < |data.items| ==> !Nullish(data.items[i])
    ensures r.Success? ==> |r.value| == |data.items|
                           && forall i :: 0 <= i < |r.value| ==> ProjectedRow(data.items[i], r.value[i])
    ensures r.Failure? ==> r.error.TypeFault?
  {
    if data.Arr? then Lists.TryMap(data.items, ProjectRow)
    else if Nullish(data) then Failure(ReadOfNullish(data, "map"))
    else Failure(TypeFault("instances.map is not a function"))
  }

  /** The check `getInstancesByYearSem` makes before sending anything:
      `isNaN` of either argument refuses; otherwise the path to fetch. */
  function YearSemesterRequest(year: string, semester: string): (r: Result<string, JsError>)
    ensures r.Failure? <==> ToNumber(year).None? || ToNumber(semester).None?
    ensures r.Failure? ==> r.error == Thrown(INVALID_YEAR_SEMESTER)
    ensures r.Success? ==> r.value == ApiPaths.InstancesByYearSem(Str(year), Str(semester))
  {
    if ToNumber(year).None? || ToNumber(semester).None? then Failure(Thrown(INVALID_YEAR_SEMESTER))
    else Success(ApiPaths.InstancesByYearSem(Str(year), Str(semester)))
  }

  /** `getInstancesByYearSem` with the form's raw year and semester text. */
  function GetInstancesByYearSem(year: string, semester: string, outcome: AxiosOutcome)
    : (r: Result<seq<Value>, JsError>)
    ensures YearSemesterRequest(year, semester).Failure? ==> r == Failure(Thrown(INVALID_YEAR_SEMESTER))
    ensures r.Success? ==>
      && YearSemesterRequest(year, semester).Success?
      && outcome.Resolved? && outcome.response.status < 400 && outcome.response.data.Arr?
      && |r.value| == |outcome.response.data.items|
      && forall i :: 0 <= i < |r.value| ==> ProjectedRow(outcome.response.data.items[i], r.value[i])
    ensures YearSemesterRequest(year, semester).Success? && outcome.Resolved? ==>
      (r.Success? <==> HandleResponse(Some(outcome.response)).Success?
                       && ProjectRows(outcome.response.data).Success?)
    ensures YearSemesterRequest(year, semester).Success? && outcome.Rejected? ==>
      r == Failure(NetworkAware(outcome.error))
    ensures YearSemesterRequest(year, semester).Success? && outcome.Resolved?
            && outcome.response.status >= 400 ==>
      var resp := outcome.response;
      r == Failure(Thrown(MessageOr(DataMessage(resp), resp.statusText, UNKNOWN_ERROR)))
    ensures YearSemesterRequest(year, semester).Success? && outcome.Resolved?
            && outcome.response.status < 400 && ProjectRows(outcome.response.data).Failure? ==>
      r.Failure? && r.error.TypeFault?
  {
    match YearSemesterRequest(year, semester)
    case Failure(e) => Failure(NetworkAware(e))
    case Success(_) =>
      match outcome
      case Rejected(e) => Failure(NetworkAware(e))
      case Resolved(resp) =>
        match HandleResponse(Some(resp))
        case Failure(e) => Failure(NetworkAware(e))
        case Success(data) =>
          match ProjectRows(data)
          case Failure(e) => Failure(NetworkAware(e))
          case Success(rows) => Success(rows)
  }

  // ---------------------------------------------------------------------
  // Creation

  /** The body `createCourse` posts: the scalar fields copied and the
      prerequisites de-duplicated in order of first occurrence, or `[]`
      when there are none. Building it can throw, before anything is sent. */
  function CreateCourseBody(courseData: Value): (r: Result<Value, JsError>)
    ensures r.Success? <==>
      !Nullish(courseData)
      && (Truthy(Field(courseData, "prerequisites")) ==> Elements(Field(courseData, "prerequisites")).Success?)
    ensures r.Success? ==>
      && r.value.Obj? && r.value.fields.Keys == COURSE_KEYS
      && r.value.fields["courseId"] == Field(courseData, "courseId")
      && r.value.fields["name"] == Field(courseData, "name")
      && r.value.fields["description"] == Field(courseData, "description")
      && r.value.fields["prerequisites"].Arr?
    ensures r.Success? && !Truthy(Field(courseData, "prerequisites")) ==>
      r.value.fields["prerequisites"] == Arr([])
    ensures r.Success? && Truthy(Field(courseData, "prerequisites")) ==>
      Lists.IsDedupOf(r.value.fields["prerequisites"].items,
                      Elements(Field(courseData, "prerequisites")).value)
  {
    if Nullish(courseData) then Failure(ReadOfNullish(courseData, "courseId"))
    else
      var p := Field(courseData, "prerequisites");
      var prerequisites := if Truthy(p) then SetFrom(p) else Success([]);
      match prerequisites
      case Failure(e) => Failure(e)
      case Success(xs) =>
        Success(CourseRecord(Field(courseData, "courseId"), Field(courseData, "name"),
                             Field(courseData, "description"), Arr(xs)))
  }

  /** `createCourse`: a body that cannot be built fails whatever the
      server would have said; otherwise the reply goes through
      `handleResponse`. */
  function CreateCourse(courseData: Value, outcome: AxiosOutcome): (r: Result<Value, JsError>)
    ensures CreateCourseBody(courseData).Failure? ==> r == Failure(CreateCourseBody(courseData).error)
    ensures CreateCourseBody(courseData).Success? ==> r == ThroughHandleResponse(outcome)
  {
    match CreateCourseBody(courseData)
    case Failure(e) => Failure(e)
    case Success(_) => ThroughHandleResponse(outcome)
  }

  /** The body `createInstance` posts: the course ID copied and year and
      semester passed through `parseInt`, which leaves numbers as they are. */
  function CreateInstanceBody(instanceData: Value): (r: Result<Value, JsError>)
    ensures r.Success? <==> !Nullish(instanceData)
    ensures r.Success? ==>
      && r.value.Obj? && r.value.fields.Keys == INSTANCE_DATA_KEYS
      && r.value.fields["courseId"] == Field(instanceData, "courseId")
      && r.value.fields["year"] == FromNumber(ParseIntOf(Field(instanceData, "year")))
      && r.value.fields["semester"] == FromNumber(ParseIntOf(Field(instanceData, "semester")))
    ensures r.Success? && IsNumber(Field(instanceData, "year")) ==>
      r.value.fields["year"] == Field(instanceData, "year")
    ensures r.Success? && IsNumber(Field(instanceData, "semester")) ==>
      r.value.fields["semester"] == Field(instanceData, "semester")
  {
    if Nullish(instanceData) then Failure(ReadOfNullish(instanceData, "courseId"))
    else
      var year := Field(instanceData, "year");
      var semester := Field(instanceData, "semester");
      ParseIntKeepsFields(year, semester);
      Success(InstanceData(Field(instanceData, "courseId"),
                           FromNumber(ParseIntOf(year)), FromNumber(ParseIntOf(semester))))
  }

  lemma ParseIntKeepsFields(year: Value, semester: Value)
    ensures IsNumber(year) ==> FromNumber(ParseIntOf(year)) == year
    ensures IsNumber(semester) ==> FromNumber(ParseIntOf(semester)) == semester
  {
    if IsNumber(year) { ParseIntKeepsNumbers(year); }
    if IsNumber(semester) { ParseIntKeepsNumbers(semester); }
  }

  /** `createInstance` */
  function CreateInstance(instanceData: Value, outcome: AxiosOutcome): (r: Result<Value, JsError>)
    ensures Nullish(instanceData) ==> r.Failure? && r.error.TypeFault?
    ensures !Nullish(instanceData) ==> r == ThroughHandleResponse(outcome)
  {
    match CreateInstanceBody(instanceData)
    case Failure(e) => Failure(e)
    case Success(_) => ThroughHandleResponse(outcome)
  }

  // ---------------------------------------------------------------------
  // Deletion

  /** The `try` block of `deleteInstance`: a settled request becomes `true`
      or the error thrown. */
  function DeleteAttempt(outcome: AxiosOutcome): Result<bool, JsError> {
    match outcome
    case Rejected(e) => Failure(e)
    case Resolved(resp) =>
      if resp.status == 200 then Success(true)
      else if resp.status == 404 then Failure(Thrown(INSTANCE_NOT_FOUND))
      else if resp.status == 409 then Failure(Thrown(INSTANCE_IN_USE))
      else Failure(Thrown(MessageOr(DataMessage(resp), resp.statusText, DELETE_FAILED)))
  }

  /** The `catch` block of `deleteInstance`: an error carrying a response
      is re-raised from that response's message or status text; any other
      keeps its own message. Either way the new error is a plain `Error`. */
  function DeleteCatch(e: JsError): (r: JsError)
    ensures r.Thrown?
    ensures e.Response().Some? ==>
      r.message == MessageOr(DataMessage(e.Response().value), e.Response().value.statusText, DELETE_FAILED)
    ensures e.Response().None? && e.message != "" ==> r.message == e.message
    ensures e.Response().None? && e.message == "" ==> r.message == DELETE_FAILED
  {
    match e.Response()
    case Some(resp) => Thrown(MessageOr(DataMessage(resp), resp.statusText, DELETE_FAILED))
    case None => Thrown(if e.message != "" then e.message else DELETE_FAILED)
  }

  /** `deleteInstance`: `true` exactly for status 200; 404 and 409 have
      fixed messages; every failure is a plain `Error` without a response. */
  function DeleteInstance(outcome: AxiosOutcome): (r: Result<bool, JsError>)
    ensures r.Success? <==> outcome.Resolved? && outcome.response.status == 200
    ensures r.Success? ==> r.value
    ensures r.Failure? ==> r.error.Thrown? && r.error.Response().None?
    ensures outcome.Resolved? && outcome.response.status == 404 ==> r == Failure(Thrown(INSTANCE_NOT_FOUND))
    ensures outcome.Resolved? && outcome.response.status == 409 ==> r == Failure(Thrown(INSTANCE_IN_USE))
    ensures outcome.Resolved? && outcome.response.status !in {200, 404, 409} ==>
      var m := MessageOr(DataMessage(outcome.response), outcome.response.statusText, DELETE_FAILED);
      r == Failure(Thrown(if m != "" then m else DELETE_FAILED))
    ensures outcome.Rejected? ==> r == Failure(DeleteCatch(outcome.error))
  {
    match DeleteAttempt(outcome)
    case Success(b) => Success(b)
    case Failure(e) => Failure(DeleteCatch(e))
  }

  /** The catch block of `deleteInstance` as its caller needs it: the
      re-raised error keeps the message but also the failed response, so
      that `error.response.status` can still be read. */
  function DeleteCatchKeepingResponse(e: JsError): (r: JsError)
    ensures r.message == DeleteCatch(e).message
    ensures r.Response() == e.Response()
    ensures r.Code().None?
  {
    match e.Response()
    case Some(resp) => Axios(DeleteCatch(e).message, None, Some(resp))
    case None => DeleteCatch(e)
  }

  /** `deleteInstance` with the corrected catch block: the same outcome
      and messages, and a rejection's response survives. */
  function DeleteInstanceKeepingResponse(outcome: AxiosOutcome): (r: Result<bool, JsError>)
    ensures r.Success? <==> DeleteInstance(outcome).Success?
    ensures r.Success? ==> r == DeleteInstance(outcome)
    ensures r.Failure? ==> r.error.message == DeleteInstance(outcome).error.message
    ensures r.Failure? ==> r.error.Response() == (if outcome.Rejected? then outcome.error.Response() else None)
  {
    match DeleteAttempt(outcome)
    case Success(b) => Success(b)
    case Failure(e) => Failure(DeleteCatchKeepingResponse(e))
  }
}
