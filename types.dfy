/**
 * The records of the workbench (src/types/index.ts). Dates are opaque
 * integer timestamps; a response body is either parsed JSON or raw text.
 */
module Types {
  import opened Wrappers

  /** The five verbs the request editor offers. */
  datatype Method = GET | POST | PUT | DELETE | PATCH

  /** The verb as it is written on the wire and in saved-request names. */
  function MethodName(m: Method): string
  {
    match m
    case GET => "GET"
    case POST => "POST"
    case PUT => "PUT"
    case DELETE => "DELETE"
    case PATCH => "PATCH"
  }

  /**
   * One request as the editor emits it (`RequestMethod`); `body` is optional.
   * The source's field `method` is called `verb` here (`method` is a Dafny keyword).
   */
  datatype RequestMethod = RequestMethod(
    verb: Method,
    url: string,
    headers: map<string, string>,
    body: Option<string>)

  /** A parsed JSON value; numbers are reals, objects keep their member order. */
  datatype JsonValue =
    | JNull
    | JBool(b: bool)
    | JNumber(n: real)
    | JString(s: string)
    | JArray(items: seq<JsonValue>)
    | JObject(members: seq<(string, JsonValue)>)

  /** A response body: parsed JSON when the content type says so, raw text otherwise. */
  datatype ResponseBody = JsonBody(json: JsonValue) | TextBody(text: string)

  /** `ResponseData`; `time` is the measured latency in milliseconds. */
  datatype ResponseData = ResponseData(
    status: int,
    headers: map<string, string>,
    body: ResponseBody,
    time: int)

  /** `ErrorData`; `details` is optional in the type. */
  datatype ErrorData = ErrorData(message: string, details: Option<string>)

  /** `Documentation`; `tags` is an ordered list the editor keeps free of duplicates. */
  datatype Documentation = Documentation(
    title: string,
    description: string,
    notes: string,
    tags: seq<string>,
    lastUpdated: int)

  /** `SavedRequest`: a snapshot of a request with an optional documentation record. */
  datatype SavedRequest = SavedRequest(
    id: string,
    name: string,
    request: RequestMethod,
    createdAt: int,
    documentation: Option<Documentation>)

  /** One entry of a comparison: two nullable fields, not a tagged union. */
  datatype ComparisonEntry = ComparisonEntry(
    request: RequestMethod,
    response: Option<ResponseData>,
    error: Option<ErrorData>)

  /** `ComparisonResult`: the entries of one comparison run, in slot order. */
  datatype ComparisonResult = ComparisonResult(
    id: string,
    requests: seq<ComparisonEntry>,
    createdAt: int,
    name: string)
}
