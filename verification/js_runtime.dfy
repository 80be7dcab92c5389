/** What a call into axios can yield and what the client's code can throw.
    An axios request either resolves with a response object or rejects
    with an error that may carry the failed response and an error code;
    the client's own code throws plain `Error`s, and the engine throws
    `TypeError`s on `null.x`, on calling `.map` of a non-array, and on
    iterating a non-iterable. */
module JsRuntime {
  import opened Wrappers
  import opened JsValue
  import Lists

  /** The parts of an axios response object the client reads. */
  datatype HttpResponse = HttpResponse(status: int, statusText: string, data: Value)

  datatype JsError =
    | Thrown(message: string)
    | TypeFault(message: string)
    | Axios(message: string, code: Option<string>, response: Option<HttpResponse>)
  {
    /** `error.code` */
    function Code(): Option<string> {
      if Axios? then code else None
    }

    /** `error.response` */
    function Response(): Option<HttpResponse> {
      if Axios? then response else None
    }
  }

  /** The settled promise of one axios request. */
  datatype AxiosOutcome = Resolved(response: HttpResponse) | Rejected(error: JsError)

  /** The code axios gives an error when no server answered. */
  const NETWORK_ERROR_CODE := "ERR_NETWORK"

  /** The message of `new Error(first || second || fallback)` where `first`
      is any value and `second` a string. */
  function MessageOr(first: Value, second: string, fallback: string): (m: string)
    ensures Truthy(first) ==> m == Display(first)
    ensures !Truthy(first) && second != "" ==> m == second
    ensures !Truthy(first) && second == "" ==> m == fallback
  {
    if Truthy(first) then Display(first) else if second != "" then second else fallback
  }

  /** `response.data?.message` */
  function DataMessage(response: HttpResponse): Value {
    if Nullish(response.data) then Undefined else Field(response.data, "message")
  }

  /** The `TypeError` from reading property `key` of a nullish value. */
  function ReadOfNullish(v: Value, key: string): JsError
    requires Nullish(v)
  {
    TypeFault("Cannot read properties of " + Display(v) + " (reading '" + key + "')")
  }

  /** `v.key` where `v` may be nullish, in which case the read throws. */
  function Read(v: Value, key: string): (r: Result<Value, JsError>)
    ensures r.Success? <==> !Nullish(v)
    ensures r.Success? ==> r.value == Field(v, key)
  {
    if Nullish(v) then Failure(ReadOfNullish(v, key)) else Success(Field(v, key))
  }

  /** The elements `new Set(v)` iterates: nothing for `null`/`undefined`,
      the elements of an array, the characters of a string; anything else
      is not iterable. */
  function Elements(v: Value): (r: Result<seq<Value>, JsError>)
    ensures r.Success? <==> Nullish(v) || v.Arr? || v.Str?
    ensures v.Arr? ==> r == Success(v.items)
    ensures v.Str? ==> r.Success? && |r.value| == |v.s|
                       && forall i :: 0 <= i < |v.s| ==> r.value[i] == Str([v.s[i]])
  {
    match v
    case Arr(items) => Success(items)
    case Str(s) => Success(seq(|s|, i requires 0 <= i < |s| => Str([s[i]])))
    case Undefined => Success([])
    case Null => Success([])
    case _ => Failure(TypeFault(Display(v) + " is not iterable"))
  }

  /** `[...new Set(v)]` and `Array.from(new Set(v))`. Values are compared as
      `Set` compares them (NaN equals NaN); objects compare by content. */
  function SetFrom(v: Value): (r: Result<seq<Value>, JsError>)
    ensures r.Success? <==> Elements(v).Success?
    ensures r.Success? ==> Lists.IsDedupOf(r.value, Elements(v).value)
  {
    match Elements(v)
    case Success(xs) =>
      Lists.UniqueIsDedup(xs);
      Success(Lists.Unique(xs))
    case Failure(e) => Failure(e)
  }
}
