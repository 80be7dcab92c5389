# Course management client: decision rules

This project models the logic of a browser client that manages courses
and course instances (a course offered in a given year and semester)
through a REST backend. It covers two parts of that client.

- The REST wrapper `src/api/api.js`:
  - the paths it builds;
  - how `handleResponse` classifies a reply;
  - how course and instance lists are normalised;
  - the body `createCourse` posts, with its prerequisites de-duplicated;
  - the body `createInstance` posts;
  - the status mapping and error re-raising of `deleteInstance`.
- The form and list components:
  - the two generations of course forms and of instance forms, each with its
    own `validate()`, submit payload and prerequisite options;
  - the instance list page, with its search guard, its response handling, its
    list update after a deletion, its confirmation label and its save handler.

JavaScript values are a datatype (`JsValue.Value`). JavaScript's `Number`,
`parseInt`, `String` and `new Set` are written out over it (`JsNumber`,
`Decimal`, `JsRuntime`, `Lists`), so each rule is stated about exactly
what the component does with a piece of text. Every axios request is a
parameter: `AxiosOutcome` is what the promise settled with. The same holds
for the answer to the confirmation dialog, for whether `onSuccess`
rejected, and for whether an instance was being edited.

Modules:

| module | models |
|---|---|
| `Wrappers` | `Option` and `Result` |
| `Decimal` | decimal digit strings, `String(n)` for integers |
| `JsValue` | values, truthiness, property reads, `===`, `String(v)` |
| `JsNumber` | `Number(s)`, `parseInt(s)` and how they relate |
| `JsRuntime` | axios responses and errors, `a \|\| b \|\| 'fallback'` messages, `new Set(v)` |
| `Lists` | `filter`, a `map` whose callback may throw, de-duplication, `split` |
| `ApiPaths` | the REST path builders |
| `Api` | the REST calls |
| `Forms` | what the forms share: the error map, the initial course form, reading selected options |
| `InstanceForm`, `LegacyInstanceForm` | `src/components/instances/InstanceForm.jsx`, `src/components/InstanceForm.jsx` |
| `CourseForm`, `LegacyCourseForm` | `src/components/courses/CourseForm.jsx`, `src/components/CourseForm.jsx` |
| `InstanceList` | `src/components/instances/InstanceList.jsx` |
| `FormRelations` | how the forms, the search guard and the delete flow fit together |

## Model

| member | source | states |
|---|---|---|
| Api.HandleResponse | src/api/api.js:38-51 | succeeds exactly when there is a response with status below 400, and then returns its body unchanged; no response fails with "No response received"; status 400 or more fails with the `data.message` / `statusText` / "Unknown error" message |
| Api.HandleResponseMessage | src/api/api.js:46-48 | the three fallback cases one by one: a non-empty body message wins, a nullish one falls back to a non-empty status text, and then to "Unknown error" |
| Api.ThroughHandleResponse | src/api/api.js:127-145 | the calls that only pass through `handleResponse` succeed exactly on a resolved reply below 400, with its body; a rejected request is rethrown unchanged |
| Api.NetworkAware | src/api/api.js:77-83 | an error with code `ERR_NETWORK` becomes the "Backend server is not running" error; every other error is rethrown as it is |
| Api.NormaliseCourse | src/api/api.js:68-73 | one course is normalised exactly when it is not nullish and its prerequisites are absent or falsy, or are an array of non-nullish entries; the result keeps `courseId`, `name` and `description`, replaces each prerequisite by its `courseId` in order, and turns a missing list into `[]`; every failure is a `TypeError` |
| Api.GetAllCourses | src/api/api.js:61-84 | succeeds exactly on a resolved array body whose entries are all readable; the result has the same length and order, each entry the normal form of the input entry; a non-array body fails with "Invalid response format from server"; an array with an unreadable entry throws a `TypeError`; a rejection goes through the network hint |
| Api.NormaliseInstance | src/api/api.js:92-100 | a non-nullish instance keeps its six fields and gets `[]` for a missing or falsy `coursePrerequisites`; a nullish one throws a `TypeError` |
| Api.GetAllInstances | src/api/api.js:86-108 | succeeds exactly on a resolved array body without nullish entries, element by element normalised in the same order; a non-array body is the invalid-format error; an array with a nullish entry throws a `TypeError`; a rejection is rethrown unchanged |
| Api.ProjectRow | src/api/api.js:199-204 | a non-nullish instance is cut down to exactly `instanceId`, `courseId`, `year` and `semester`, copied; a nullish one throws a `TypeError` |
| Api.ProjectRows | src/api/api.js:196-204 | the `map` over the returned body succeeds exactly on an array without nullish entries, projecting every element in order; otherwise it throws a `TypeError` |
| Api.YearSemesterRequest | src/api/api.js:192-195 | refuses with "Invalid year or semester value" exactly when `Number` cannot read the year or the semester; otherwise the path `/api/instances/{year}/{semester}` |
| Api.GetInstancesByYearSem | src/api/api.js:190-212 | a refused year or semester fails before any request; a success needs an accepted request, a resolved reply below 400 and an array body, and is its row-by-row projection; a reply of 400 or more fails with `data.message`, else the status text, else "Unknown error"; a body that cannot be mapped throws a `TypeError`; a rejection goes through the network hint |
| Api.CreateCourseBody | src/api/api.js:114-119 | the posted body copies `courseId`, `name` and `description`; truthy prerequisites are sent without duplicates, in first-occurrence order, with exactly the input's elements; missing ones are sent as `[]`; building it throws on nullish data or non-iterable prerequisites |
| Api.CreateCourse | src/api/api.js:112-125 | a body that cannot be built fails whatever the server says; otherwise the reply is classified by `handleResponse` |
| Api.CreateInstanceBody | src/api/api.js:178-182 | the posted body has exactly `courseId` (copied), `year` and `semester` (through `parseInt`); a year or semester that is already a number is sent unchanged |
| Api.ParseIntKeepsFields | src/api/api.js:180-181 | `parseInt` of a year or semester that is already a number, NaN included, gives it back |
| Api.CreateInstance | src/api/api.js:176-188 | nullish instance data throws a `TypeError`; any other data is posted, and the reply is classified by `handleResponse` |
| Api.DeleteCatch | src/api/api.js:236-242 | the catch re-raises a plain `Error`: with a response, its `data.message` / `statusText` / "Failed to delete instance"; without, the error's own message or that default |
| Api.DeleteInstance | src/api/api.js:224-243 | `true` exactly for a resolved status 200; 404 and 409 give their fixed messages; other statuses use the fallback chain; every failure comes out without a `response` |
| Api.DeleteCatchKeepingResponse | src/api/api.js:238-241 | the corrected catch: the same message as the original, but the failed response is kept on the error |
| Api.DeleteInstanceKeepingResponse | src/api/api.js:224-243 | the corrected `deleteInstance` has the same successes and the same messages as the original, and a rejection's response survives |
| ApiPaths.InstanceByYearSemCourse | src/api/api.js:17-18 | the path of one instance is the year/semester path plus one segment, the course ID |
| ApiPaths.DeleteInstance | src/api/api.js:18-19 | deletion uses the very path that fetches the instance |
| ApiPaths.YearSemSegments | src/api/api.js:17 | a year/semester path splits on `/` back into its two parameters when neither contains `/` |
| ApiPaths.InstanceSegments | src/api/api.js:19 | the instance path splits back into year, semester and course ID, so one-segment parameters with distinct texts give distinct paths (`5` and `"5"` build the same path) |
| ApiPaths.CourseByIdSegments | src/api/api.js:9 | `/api/courses/{id}` splits on `/` back into its parameter when it contains no `/` |
| ApiPaths.CourseByCourseIdSegments | src/api/api.js:10 | `/api/courses/by-course-id/{courseId}` splits back into its parameter when it contains no `/` |
| ApiPaths.CourseRoutesDistinct | src/api/api.js:9-10 | fetching a course by its database ID and by its course ID never hit the same path, for any one-segment parameters |
| JsRuntime.MessageOr | src/api/api.js:47 | `first \|\| second \|\| fallback`: the text of a truthy first value, else a non-empty second, else the fallback |
| JsRuntime.Elements | src/api/api.js:118 | what `new Set(v)` iterates: nothing for nullish values, the elements of an array, the characters of a string; anything else throws |
| JsRuntime.SetFrom | src/api/api.js:118 | `[...new Set(v)]` succeeds exactly when `v` is iterable, and is then a de-duplication of its elements |
| Lists.TryMap | src/api/api.js:68-73 | `map` with a callback that may throw succeeds exactly when every callback does, keeps length and order, and otherwise fails with the first failing element's error |
| Lists.Filter | src/components/instances/InstanceList.jsx:113-115 | the survivors are input elements that pass the test, and every passing element survives |
| Lists.FilterAppend | src/components/instances/InstanceList.jsx:113-115 | filtering distributes over concatenation, so the survivors keep their relative order |
| Lists.FilterAgrees | src/components/courses/CourseForm.jsx:131-132 | two tests that give the same verdict on every element keep the same survivors, in the same order and number |
| Lists.UniqueIsDedup | src/api/api.js:118 | insertion-order de-duplication lists each distinct element once, only elements of the input, all of them, ordered by first occurrence |
| Lists.UniqueOfDistinct | src/api/api.js:118 | a list without repeats is its own de-duplication |
| Lists.UniqueIdempotent | src/components/courses/CourseForm.jsx:50 | the prerequisites the form sends through `Array.from(new Set(...))` are a fixed point of de-duplication: de-duplicating them again changes nothing |
| Decimal.IntToString | src/components/instances/InstanceList.jsx:93 | `String(n)` of an integer starts with a digit exactly when `n >= 0` and with `-` exactly when `n < 0` |
| Decimal.DigitsRoundTrip | src/components/courses/CourseForm.jsx:37 | the digits `String(n)` writes for a natural number read back as `n` |
| JsNumber.DigitsAreNumber | src/components/courses/CourseForm.jsx:23 | a non-empty digit string is a number for `Number`, with its decimal value |
| JsNumber.BlankIsZeroAndNaN | src/components/instances/InstanceForm.jsx:19 | blank text is 0 for `Number` and NaN for `parseInt` |
| JsNumber.NumberAgreesWithParseInt | src/components/instances/InstanceList.jsx:58-64 | wherever `Number` reads non-blank text as an integer, `parseInt` reads the same integer |
| JsNumber.IntStringRoundTrip | src/components/courses/CourseForm.jsx:37 | `Number(String(n))` and `parseInt(String(n))` both give back `n` |
| JsNumber.ParseIntKeepsNumbers | src/components/instances/InstanceList.jsx:42-43 | `parseInt` leaves every number unchanged, NaN included |
| Forms.ErrorsOf | src/components/courses/CourseForm.jsx:21-29 | the error map has a key exactly for each failed check, is empty exactly when none failed, and holds each failed check's message |
| Forms.ThreeChecks | src/components/courses/CourseForm.jsx:21-29 | three checks on three different fields: each key is present exactly when its check fails, with its own message |
| Forms.InitialCourseForm | src/components/courses/CourseForm.jsx:4-9 | each field starts from a truthy `initial` field, else `''` (or `[]` for prerequisites); written the same in src/components/CourseForm.jsx:4-9 |
| Forms.BlankCourseForm | src/components/courses/CourseForm.jsx:3-9 | with the default `initial = {}` the form starts as `''`, `''`, `''`, `[]` |
| Forms.PrerequisiteSelection | src/components/courses/CourseForm.jsx:36-39 | the selection becomes an array with one number, or NaN, per selected option, each the option's value through `Number` |
| Forms.SelectionRecoversCourseIds | src/components/courses/CourseForm.jsx:131-135 | options rendered from integer course IDs are read back as exactly those IDs |
| Forms.OfferedCourses | src/components/courses/CourseForm.jsx:131-132 | filtering `allCourses` succeeds exactly when no entry is nullish (else the first such entry throws); the result holds only input courses that are not excluded, and every input course that is not excluded; it is `allCourses` filtered by the negated test, so the courses keep their order and multiplicity |
| InstanceList.SearchGuard | src/components/instances/InstanceList.jsx:58-68 | the search goes ahead exactly when `parseInt` reads a year in 1900..2100 and a semester in 1..2; unparsable input gets the "enter valid" message, parsable but out-of-range input gets the "Invalid year or semester" message |
| InstanceList.AcceptResponse | src/components/instances/InstanceList.jsx:74-80 | an array is the new list, `null` or `undefined` is `[]`, anything else is "Invalid response format from server" |
| InstanceList.FetchErrorText | src/components/instances/InstanceList.jsx:81-86 | the error shown is never empty; a network error shows the backend hint; any other error shows its own message, or the generic fetch failure when that message is empty |
| InstanceList.ApplyFetch | src/components/instances/InstanceList.jsx:72-86 | an accepted response installs its list and clears the error; a malformed one or a failure shows a message and keeps the old list |
| InstanceList.FetchInstances | src/components/instances/InstanceList.jsx:57-90 | the API is called exactly when the guard accepts; a refusal empties the list and sets the guard's message; the error ends empty exactly when the call succeeded |
| InstanceList.GuardsDisagree | src/components/instances/InstanceList.jsx:58-73 | the year "2024x" passes the page's `parseInt` guard, but the API's `isNaN` refuses it, so the page shows "Invalid year or semester value"; the page's year input is a number input, which never yields "2024x", so this needs a caller that passes text |
| InstanceList.RemoveInstance | src/components/instances/InstanceList.jsx:113-115 | the list after a deletion holds only entries that do not match on all of `courseId`, `year` and `semester`, and all those entries |
| InstanceList.RemoveInstanceByParts | src/components/instances/InstanceList.jsx:113-115 | removal works entry by entry: it distributes over concatenation and drops a single entry exactly when it matches, so order is kept |
| InstanceList.RemoveAbsentInstance | src/components/instances/InstanceList.jsx:113-115 | when no entry matches, the list is unchanged |
| InstanceList.HandleDelete | src/components/instances/InstanceList.jsx:92-139 | a declined dialog changes nothing; only `true` removes the instance and clears the error; any other result keeps the list; a 409 response raises the in-use alert and leaves the list and an empty error, as cleared before the request; other failures show their message |
| InstanceList.InstanceLabelRoundTrip | src/components/instances/InstanceList.jsx:93 | the label `courseId-year-semester` splits back into its three parts, and `parseInt` recovers the year and semester |
| InstanceList.SavePayload | src/components/instances/InstanceList.jsx:40-44 | the page builds exactly the body `createInstance` itself would build |
| InstanceList.HandleSave | src/components/instances/InstanceList.jsx:36-54 | a nullish form posts nothing; what is posted is exactly the body the page builds; that body is stable under `createInstance`'s own projection; the dialog closes exactly when the post succeeds, with "updated" or "added"; failures show the error's message |
| InstanceList.SaveKeepsNumericForm | src/components/instances/InstanceList.jsx:40-45 | a form whose year and semester are numbers is posted unchanged, and `createInstance` posts that body as it is |
| InstanceForm.Validate | src/components/instances/InstanceForm.jsx:15-21 | the keys are exactly the failed checks, with their messages: an empty course; an empty year or one `Number` reads outside 2000..2100; a semester that does not read as 1 or 2 |
| InstanceForm.AcceptedForm | src/components/instances/InstanceForm.jsx:15-21 | an accepted form has a course, a year in 2000..2100 if it reads as a number at all, and semester 1 or 2 |
| InstanceForm.NonNumericYearPasses | src/components/instances/InstanceForm.jsx:18 | as written, a non-empty year that `Number` cannot read passes validation and is submitted as NaN; latent, because the year is chosen from a select of the last five years (src/components/instances/InstanceForm.jsx:12) |
| InstanceForm.ValidateChecked | src/components/instances/InstanceForm.jsx:18 | the corrected check: the year must read as a number in 2000..2100 |
| InstanceForm.CheckedIsStricter | src/components/instances/InstanceForm.jsx:18 | whatever the corrected check accepts, the written one accepts |
| InstanceForm.ChecksAgreeOnNumbers | src/components/instances/InstanceForm.jsx:18 | wherever the year reads as a number, the two checks give the same errors |
| InstanceForm.Payload | src/components/instances/InstanceForm.jsx:35-39 | the payload has exactly `courseId` (the text), and `year` and `semester` each as the number `Number` reads from the text, NaN when it reads none |
| InstanceForm.OptionTextsSent | src/components/instances/InstanceForm.jsx:35-39 | a course text with a year and semester chosen from the selects, written in decimal, is sent as that text and exactly those numbers |
| InstanceForm.FailureNotice | src/components/instances/InstanceForm.jsx:46 | a truthy server message wins, then the error's own message, then "Failed to create instance" |
| InstanceForm.HandleSubmit | src/components/instances/InstanceForm.jsx:28-53 | errors are shown and block `onSuccess`; a valid form sends the course text, the year as a number and the semester as the number it reads, 1 or 2; it is reset only when `onSuccess` resolves; a rejection is shown; submitting ends false |
| LegacyInstanceForm.Validate | src/components/InstanceForm.jsx:15-21 | each of the three fields gets its "is required" error exactly when it is empty |
| LegacyInstanceForm.Payload | src/components/InstanceForm.jsx:36-40 | all three fields are sent as the numbers `Number` reads from their texts, each NaN exactly when `Number` cannot read it |
| LegacyInstanceForm.OptionTextsSent | src/components/InstanceForm.jsx:36-40 | the option values of the three selects, written in decimal, are sent back as exactly those numbers |
| LegacyInstanceForm.PayloadSurvivesCreate | src/api/api.js:176-182 | `createInstance` posts the legacy form's payload unchanged: its `parseInt` of a number that `Number` produced is that number, and NaN stays NaN |
| LegacyInstanceForm.HandleSubmit | src/components/InstanceForm.jsx:28-45 | errors block `onSuccess`; a rejection escapes; the fields are reset only on success; submitting ends false either way |
| CourseForm.Validate | src/components/courses/CourseForm.jsx:21-29 | the keys are exactly the failed checks (course ID; title; description), with their messages |
| CourseForm.IdCheckIsDigitsOnly | src/components/courses/CourseForm.jsx:23 | the course ID fails exactly when it is falsy or not written in digits only; the `isNaN` test never decides |
| CourseForm.DigitsNumber | src/components/courses/CourseForm.jsx:23 | a value whose text is all digits reads through `Number` as the number those digits spell |
| CourseForm.HandleSubmit | src/components/courses/CourseForm.jsx:41-52 | errors block `onSubmit`; a valid form sends its scalar fields unchanged and its prerequisites de-duplicated in first-occurrence order; non-iterable prerequisites throw |
| CourseForm.PrerequisiteOptions | src/components/courses/CourseForm.jsx:131-132 | reading the options succeeds exactly when no course is nullish; they are then `allCourses` minus the courses whose `courseId` is strictly equal (`===`) to the form's, as a filter: only courses of `allCourses`, every course that passes, in their order and with their multiplicity |
| LegacyCourseForm.Validate | src/components/CourseForm.jsx:12-18 | the course ID fails exactly when it is falsy or NaN for `Number`; name and description are required |
| LegacyCourseForm.HandleSubmit | src/components/CourseForm.jsx:30-41 | it never throws; errors block `onSubmit`; a valid form sends the ID as the number `Number` reads and the prerequisites as they are |
| LegacyCourseForm.PrerequisiteOptions | src/components/CourseForm.jsx:88-89 | reading the options succeeds exactly when no course is nullish; they are then `allCourses` minus the courses whose `courseId` has the same text as the form's, as a filter: only courses of `allCourses`, every course that passes, in their order and with their multiplicity |
| FormRelations.CheckedFormFitsSearch | src/components/instances/InstanceForm.jsx:17-19 | a form the corrected year check accepts also passes the instance list's 1900..2100 search guard |
| FormRelations.WrittenFormMissesSearch | src/components/instances/InstanceForm.jsx:18 | the form as written accepts the year "abc", which the search guard refuses; latent, because the year select (src/components/instances/InstanceForm.jsx:80-92) offers only recent years |
| FormRelations.InstanceFormStricterThanLegacy | src/components/instances/InstanceForm.jsx:15-21 | whatever the newer instance form accepts, the older one accepts |
| FormRelations.LegacyAcceptsThirdSemester | src/components/InstanceForm.jsx:13-19 | the older form accepts semester "3", which the newer one refuses |
| FormRelations.SemesterOptionsAgainstCheck | src/components/InstanceForm.jsx:13 | of the older form's options 1..8, the newer check accepts exactly those the newer form offers |
| FormRelations.SemesterListedText | src/components/instances/InstanceForm.jsx:19 | text that reads as `n` passes the semester check exactly when `n` is 1 or 2 |
| FormRelations.CourseFormStricterThanLegacy | src/components/courses/CourseForm.jsx:23 | whatever the newer course form accepts, the older one accepts |
| FormRelations.LegacyAcceptsNonDigitId | src/components/CourseForm.jsx:14 | an ID that reads as a number but is not written in digits only passes the older form and fails the newer one |
| FormRelations.LegacyAcceptsNegativeId | src/components/CourseForm.jsx:14 | negative IDs such as "-5" are among them |
| FormRelations.SubmittedIdsAgree | src/components/CourseForm.jsx:36 | when the newer form sends a course, the older sends it too, with the ID text read as the number the older form sends |
| FormRelations.LegacyOptionsAreOffered | src/components/CourseForm.jsx:88-89 | every prerequisite option of the older form is an option of the newer one |
| FormRelations.TypedIdKeepsOwnCourse | src/components/courses/CourseForm.jsx:131-132 | with the ID typed as "5", the newer form still offers course 5 as its own prerequisite; the older one does not |
| FormRelations.InUseAlertUnreachable | src/components/instances/InstanceList.jsx:122-129 | with `deleteInstance` as written, the in-use alert never fires |
| FormRelations.InUseAlertWithResponse | src/components/instances/InstanceList.jsx:122-129 | with the response kept, the alert fires exactly when the server refused the deletion with a 409 |
| FormRelations.SameListEitherWay | src/components/instances/InstanceList.jsx:110-119 | the list of instances ends the same with either version of `deleteInstance` |
| FormRelations.SavedAsSubmitted | src/components/instances/InstanceList.jsx:36-44 | whatever the instance form submits, the page posts exactly that payload, whether editing or adding and whatever the outcome |
| FormRelations.EditingNormalisedCourse | src/components/courses/CourseForm.jsx:4-9 | a course as `getAllCourses` normalised it opens the form with its own fields and prerequisite IDs; the form sends it exactly when its ID is written in digits, with the same fields and the IDs de-duplicated |
| FormRelations.OpenedOnNormalised | src/components/courses/CourseForm.jsx:4-9 | the form opened on a normalised course holds that course's ID, name and description and its list of prerequisite IDs |
| FormRelations.ResubmitFilledForm | src/components/courses/CourseForm.jsx:41-52 | a filled form with a list of prerequisites is sent exactly when its ID is written in digits, with its fields and the de-duplicated list |
| FormRelations.BlankFormBlocked | src/components/CourseForm.jsx:4-9 | a form opened on a course without truthy ID, name and description reports all three as errors, in both versions of the course form |

## Left out

- Rendering, toasts, `alert`, modal state, loading flags and `console.error` are left out. They are presentation. The confirmation dialog is a boolean parameter.
- The `useEffect([initial])` of src/components/courses/CourseForm.jsx:12-19 is left out. It rewrites the whole form from `initial` whenever `initial` changes identity. The only call site (src/components/courses/CourseManagement.jsx:61) passes no `initial`, so the default `{}` is a new object on every render and the effect resets the form to blank after each render. The model takes the form state as a parameter, so `CourseForm.HandleSubmit` is stated for any form, including ones that on the page would already have been reset.
- That call site also passes `onSuccess` and `courses`, which this form does not read. On the page `onSubmit` is therefore the default no-op and `allCourses` is `[]`. The model takes both as parameters.
- The effect that refetches whenever year and semester change is left out. It calls the modelled `fetchInstances` under a weaker guard.
- The axios calls, their interceptors and `axios` configuration are network I/O. Each call is replaced by its settled outcome. Which statuses axios itself rejects is part of that outcome, not of the model.
- `api.deleteCourseInstance` is left out. It only forwards to `deleteInstance`, which is modelled.
- `createCourseInstance` is left out. Despite its name it performs a GET and normalises the list exactly as `getAllInstances` does.
- The year dropdown of the instance forms is left out, because it depends on the clock. Years are free text in the model, so the model also covers texts the dropdown never offers.
- `Number` is modelled for optionally signed decimal integers, with surrounding white space, only. Fractions, exponents, `0x`/`0o`/`0b` prefixes and `Infinity` read as NaN in the model. The number inputs (src/components/instances/InstanceList.jsx:153, src/components/courses/CourseForm.jsx:62, src/components/CourseForm.jsx:48) can yield fractions and exponents such as "2024.5", "5.0" and "1e3". Integers are unbounded rather than doubles.
- `parseInt` is modelled as reading the leading decimal digits after an optional sign. It agrees with JavaScript on fractions and exponents ("2024.5" gives 2024, "1e3" gives 1). It reads a `0x` prefix as 0 where JavaScript reads hexadecimal; number inputs never produce that prefix.
- Api.YearSemesterRequest: refuses years or semesters such as "2024.5" or "1e3", which the `isNaN(Number(...))` guard lets through in JavaScript, because fractions and exponents are not modelled.
- LegacyCourseForm.Validate: refuses a course ID such as "5.0" or "1e3", which JavaScript accepts (and LegacyCourseForm.HandleSubmit would then send 5 or 1000), for the same reason.
- InstanceList.SearchGuard: matches JavaScript on fractions and exponents, but takes a `0x` text as the number 0. CourseForm.Validate is unaffected by any of this, because its digits-only test refuses such texts anyway.
- Objects compare by content, not by identity. `===` and `Set` on two distinct but equal objects therefore differ from the browser. The client only compares IDs.
- Engine texts of `TypeError`s are approximations. Only their kind and the fact that they are thrown is stated.
- Forms.InitialCourseForm: requires `initial` not to be `null`. A `null` prop makes the component throw while rendering, which is outside the model.
- InstanceList.HandleDelete: requires readable list entries when the deletion succeeded. The filter runs in a state updater outside the `try`, and a `null` entry would crash the render.
- CourseForm.PrerequisiteOptions and LegacyCourseForm.PrerequisiteOptions: take `allCourses` as a sequence. A non-array prop is not modelled.
- The option text of a course (`c.name \|\| c.title`) is left out. It is presentation.
- The other service files and the duplicate course-creation forms are left out. They are outside the modelled components.

## Findings

| source | as written | input that shows it | evidently intended | confidence | as-written member | corrected member |
|---|---|---|---|---|---|---|
| src/components/instances/InstanceForm.jsx:18 | `form.year < 2000 \|\| form.year > 2100` compares text with numbers, and NaN is neither smaller nor larger, so a year `Number` cannot read passes | year "abc" with course "101" and semester "1": no errors, and the year is submitted as NaN; latent on the page, whose year select (src/components/instances/InstanceForm.jsx:12, 80-92) only offers the last five years | the year must read as a number in 2000..2100 | not executed | InstanceForm.Validate, InstanceForm.NonNumericYearPasses, FormRelations.WrittenFormMissesSearch | InstanceForm.ValidateChecked, FormRelations.CheckedFormFitsSearch |
| src/api/api.js:238-241 | the catch of `deleteInstance` re-raises every axios error as a new `Error` without its `response`, so the caller's check of `error.response.status === 409` (src/components/instances/InstanceList.jsx:122-129) can never hold | a rejection carrying a response with status 409: the page shows the message instead of the in-use alert | the re-raised error keeps the failed response | not executed | Api.DeleteInstance, FormRelations.InUseAlertUnreachable | Api.DeleteInstanceKeepingResponse, FormRelations.InUseAlertWithResponse |
