/**
 * The decision procedure inside the workbench's `handleSend` and the entry
 * building of `handleCompare` (src/App.tsx), as pure functions. The network
 * is an oracle: a `Reply` says what `fetch` and the reading of the response
 * would produce if the call were made. `JSON.parse` is a parameter that
 * returns `None` when it throws.
 */
module Dispatch {
  import opened Wrappers
  import opened Types
  import Text

  const EmptyUrlMessage := "Please enter a URL"
  const InvalidJsonMessage := "Invalid JSON in request body"
  const FailedToFetch := "Failed to fetch"
  const NetworkDetails := "Network error or CORS issue. Make sure the URL is correct and accessible."
  const InvalidJsonDetails := "Please check your JSON syntax in the request body."
  const RequestFailed := "Request failed"
  const ContentType := "Content-Type"
  const ApplicationJson := "application/json"

  /** `JSON.parse`: the parsed value, or `None` when it throws. */
  type JsonParser = string -> Option<JsonValue>

  /** What a `catch` clause receives: an `Error` with its message, or any other thrown value. */
  datatype Thrown = ErrorThrown(message: string) | NonErrorThrown

  /**
   * What the transport does with a call: a response whose headers and body
   * have been read, or a throw from `fetch`, `json()` or `text()`.
   */
  datatype Reply = Responded(data: ResponseData) | Failed(thrown: Thrown)

  /** The arguments handed to `fetch`; `body` is the value that is serialised, if any. */
  datatype FetchCall = FetchCall(
    url: string,
    verb: Method,
    headers: map<string, string>,
    body: Option<JsonValue>)

  /** What `handleSend` returns: the response data, or `{ error }`. */
  datatype SendResult = Sent(data: ResponseData) | SendFailed(error: ErrorData)

  /** The value stored per slot in the workbench's `responses` map: two nullable fields. */
  datatype ResponseEntry = ResponseEntry(response: Option<ResponseData>, error: Option<ErrorData>)
  {
    /** Written when a send starts. */
    predicate IsPending() { response.None? && error.None? }

    /** Written when a send settles: exactly one of the two fields is set. */
    predicate IsSettled() { response.Some? != error.Some? }
  }

  const Pending := ResponseEntry(None, None)

  /** JavaScript truthiness of a parsed JSON value: null, false, 0 and "" are falsy. */
  predicate Truthy(v: JsonValue)
  {
    match v
    case JNull => false
    case JBool(b) => b
    case JNumber(n) => n != 0.0
    case JString(s) => s != ""
    case JArray(_) => true
    case JObject(_) => true
  }

  /** A body is parsed only for a verb other than GET and a non-empty body. */
  predicate HasBody(request: RequestMethod)
  {
    request.verb != GET && request.body.Some? && request.body.value != ""
  }

  /** The headers sent: the user's, with `Content-Type: application/json` forced in. */
  function SentHeaders(headers: map<string, string>): (r: map<string, string>)
    ensures ContentType in r && r[ContentType] == ApplicationJson
    ensures r.Keys == headers.Keys + {ContentType}
    ensures forall k | k in headers && k != ContentType :: r[k] == headers[k]
  {
    headers[ContentType := ApplicationJson]
  }

  /** The part of `handleSend` before the network: either a thrown error or the call to make. */
  datatype Prepared = Rejected(thrown: Thrown) | Ready(call: FetchCall)

  /**
   * What `handleSend` does before the call, as a value: `!request.url.trim()`
   * holds exactly when the URL is all whitespace (see `Text.Trim`).
   */
  function Prepare(request: RequestMethod, parse: JsonParser): Prepared
  {
    if Text.AllWhitespace(request.url) then
      Rejected(ErrorThrown(EmptyUrlMessage))
    else
      var parsed := if HasBody(request) then parse(request.body.value) else None;
      if HasBody(request) && parsed.None? then
        Rejected(ErrorThrown(InvalidJsonMessage))
      else
        var sent := if parsed.Some? && Truthy(parsed.value) then parsed else None;
        Ready(FetchCall(request.url, request.verb, SentHeaders(request.headers), sent))
  }

  /**
   * An all-whitespace URL is rejected first, then a body that does not
   * parse; otherwise the call goes out with the slot's URL, verb and
   * headers, and with the parsed body exactly when it parses to a truthy value.
   */
  lemma PrepareCases(request: RequestMethod, parse: JsonParser)
    ensures var p := Prepare(request, parse);
      && (p == Rejected(ErrorThrown(EmptyUrlMessage)) <==> Text.AllWhitespace(request.url))
      && (p == Rejected(ErrorThrown(InvalidJsonMessage)) <==>
            !Text.AllWhitespace(request.url) && HasBody(request) && parse(request.body.value).None?)
      && (p.Ready? <==> !Text.AllWhitespace(request.url) && (HasBody(request) ==> parse(request.body.value).Some?))
      && (p.Ready? ==>
            && p.call.url == request.url
            && p.call.verb == request.verb
            && p.call.headers == SentHeaders(request.headers))
      && (p.Ready? && request.verb == GET ==> p.call.body.None?)
      && (p.Ready? && p.call.body.Some? ==>
            HasBody(request) && parse(request.body.value) == p.call.body && Truthy(p.call.body.value))
      && (p.Ready? ==>
            (p.call.body.Some? <==>
              HasBody(request) && parse(request.body.value).Some? && Truthy(parse(request.body.value).value)))
  {
  }

  /** The `catch` clause: the message passes through and only two messages get details. */
  function Classify(t: Thrown): ErrorData
  {
    match t
    case NonErrorThrown => ErrorData(RequestFailed, Some(""))
    case ErrorThrown(m) =>
      var details :=
        if m == FailedToFetch then NetworkDetails
        else if m == InvalidJsonMessage then InvalidJsonDetails
        else "";
      ErrorData(m, Some(details))
  }

  /**
   * A thrown error keeps its message; only a failed fetch and a bad body get
   * their own details, anything else gets empty details, and a non-error
   * becomes "Request failed".
   */
  lemma ClassifyCases(t: Thrown)
    ensures var e := Classify(t);
      && e.details.Some?
      && (t.ErrorThrown? ==> e.message == t.message)
      && (t.NonErrorThrown? ==> e == ErrorData(RequestFailed, Some("")))
      && (e.details == Some(NetworkDetails) <==> t == ErrorThrown(FailedToFetch))
      && (e.details == Some(InvalidJsonDetails) <==> t == ErrorThrown(InvalidJsonMessage))
      && (e.details == Some("") <==>
            t.NonErrorThrown? || (t.message != FailedToFetch && t.message != InvalidJsonMessage))
  {
  }

  /** What `handleSend` settles to, given what the transport would reply. */
  function SendOutcome(request: RequestMethod, parse: JsonParser, reply: Reply): SendResult
  {
    match Prepare(request, parse)
    case Rejected(t) => SendFailed(Classify(t))
    case Ready(_) =>
      match reply
      case Responded(data) => Sent(data)
      case Failed(t) => SendFailed(Classify(t))
  }

  /**
   * A send fails with the empty-URL error, then with the invalid-JSON error,
   * and otherwise succeeds exactly when the call is made and answered; a
   * failure always carries details.
   */
  lemma SendOutcomeCases(request: RequestMethod, parse: JsonParser, reply: Reply)
    ensures var r := SendOutcome(request, parse, reply);
      && (Text.AllWhitespace(request.url) ==> r == SendFailed(ErrorData(EmptyUrlMessage, Some(""))))
      && (!Text.AllWhitespace(request.url) && HasBody(request) && parse(request.body.value).None? ==>
            r == SendFailed(ErrorData(InvalidJsonMessage, Some(InvalidJsonDetails))))
      && (r.Sent? <==> Prepare(request, parse).Ready? && reply.Responded?)
      && (r.Sent? ==> r.data == reply.data)
      && (Prepare(request, parse).Ready? && reply.Failed? ==> r == SendFailed(Classify(reply.thrown)))
      && (r.SendFailed? ==> r.error.details.Some?)
  {
  }

  /**
   * The `try` block of `handleSend` up to the response: the URL check, the
   * body parse and the call. `thrown` is what reaches the `catch` clause,
   * if anything; `call` is the call made, if any.
   */
  method Attempt(request: RequestMethod, parse: JsonParser, reply: Reply)
    returns (thrown: Option<Thrown>, call: Option<FetchCall>)
    ensures call == Fetched(request, parse)
    ensures thrown.None? <==> SendOutcome(request, parse, reply).Sent?
    ensures thrown.None? ==> reply.Responded?
    ensures thrown.Some? ==> SendOutcome(request, parse, reply) == SendFailed(Classify(thrown.value))
  {
    ghost var prepared := Prepare(request, parse);
    thrown, call := None, None;
    if Text.Trim(request.url) == [] {
      thrown := Some(ErrorThrown(EmptyUrlMessage));
      assert prepared == Rejected(thrown.value);
    } else {
      var parsed: Option<JsonValue> := None;
      if HasBody(request) {
        parsed := parse(request.body.value);
        if parsed.None? {
          thrown := Some(ErrorThrown(InvalidJsonMessage));
        }
      }
      if thrown.None? {
        var sent := if parsed.Some? && Truthy(parsed.value) then parsed else None;
        call := Some(FetchCall(request.url, request.verb, SentHeaders(request.headers), sent));
        assert prepared == Ready(call.value);
        if reply.Failed? {
          thrown := Some(reply.thrown);
        }
      } else {
        assert prepared == Rejected(thrown.value);
      }
    }
  }

  /** The call `handleSend` hands to `fetch`, if it gets that far. */
  function Fetched(request: RequestMethod, parse: JsonParser): (c: Option<FetchCall>)
    ensures c.None? <==>
      Text.AllWhitespace(request.url) || (HasBody(request) && parse(request.body.value).None?)
  {
    match Prepare(request, parse)
    case Rejected(_) => None
    case Ready(call) => Some(call)
  }

  /** The value stored in `responses[index]` once a send settles. */
  function Settled(r: SendResult): (e: ResponseEntry)
    ensures e.IsSettled()
    ensures e.response.Some? <==> r.Sent?
    ensures r.Sent? ==> e.response == Some(r.data)
    ensures r.SendFailed? ==> e.error == Some(r.error)
  {
    match r
    case Sent(data) => ResponseEntry(Some(data), None)
    case SendFailed(error) => ResponseEntry(None, Some(error))
  }

  /** One comparison entry from a slot's request and what its send returned. */
  function CompareEntry(request: RequestMethod, r: SendResult): (e: ComparisonEntry)
    ensures e.request == request
    ensures e.response.None? <==> e.error.Some?
    ensures r.Sent? ==> e.response == Some(r.data)
    ensures r.SendFailed? ==> e.error == Some(r.error)
  {
    match r
    case Sent(data) => ComparisonEntry(request, Some(data), None)
    case SendFailed(error) => ComparisonEntry(request, None, Some(error))
  }

  predicate WellFormedEntry(e: ComparisonEntry)
  {
    e.response.None? <==> e.error.Some?
  }

  /** `f` applied to the pairs of two sequences of equal length, in order. */
  function Zip<A, B, C>(xs: seq<A>, ys: seq<B>, f: (A, B) -> C): (r: seq<C>)
    requires |ys| == |xs|
    ensures |r| == |xs|
    decreases |xs|
  {
    if xs == [] then []
    else
      var n := |xs| - 1;
      Zip(xs[..n], ys[..n], f) + [f(xs[n], ys[n])]
  }

  lemma {:induction false} ZipAt<A, B, C>(xs: seq<A>, ys: seq<B>, f: (A, B) -> C, k: nat)
    requires |ys| == |xs| && k < |xs|
    ensures Zip(xs, ys, f)[k] == f(xs[k], ys[k])
    decreases |xs|
  {
    var n := |xs| - 1;
    if k < n {
      ZipAt(xs[..n], ys[..n], f, k);
      assert xs[..n][k] == xs[k] && ys[..n][k] == ys[k];
    }
  }

  /** What `handleSend` returns for each slot, sent under its own index, one slot after the other. */
  function Outcomes(requests: seq<RequestMethod>, parse: JsonParser, replies: seq<Reply>): (r: seq<SendResult>)
    requires |replies| == |requests|
    ensures |r| == |requests|
  {
    Zip(requests, replies, (request, reply) => SendOutcome(request, parse, reply))
  }

  /** Slot `k` settles to `SendOutcome` of request `k` with reply `k`. */
  lemma OutcomeAt(requests: seq<RequestMethod>, parse: JsonParser, replies: seq<Reply>, k: nat)
    requires |replies| == |requests| && k < |requests|
    ensures Outcomes(requests, parse, replies)[k] == SendOutcome(requests[k], parse, replies[k])
  {
    ZipAt(requests, replies, (request, reply) => SendOutcome(request, parse, reply), k);
  }

  /** Sending one more slot adds its outcome at the end. */
  lemma OutcomesStep(requests: seq<RequestMethod>, parse: JsonParser, replies: seq<Reply>, i: nat)
    requires |replies| == |requests| && i < |requests|
    ensures Outcomes(requests[..i + 1], parse, replies[..i + 1]) ==
      Outcomes(requests[..i], parse, replies[..i]) + [SendOutcome(requests[i], parse, replies[i])]
  {
    assert requests[..i + 1][..i] == requests[..i] && replies[..i + 1][..i] == replies[..i];
  }

  /** The entries of one comparison: one per slot, in slot order, each with exactly one of response and error. */
  function EntriesOf(requests: seq<RequestMethod>, outcomes: seq<SendResult>): (r: seq<ComparisonEntry>)
    requires |outcomes| == |requests|
    ensures |r| == |requests|
    decreases |requests|
  {
    if requests == [] then []
    else
      var n := |requests| - 1;
      EntriesOf(requests[..n], outcomes[..n]) + [CompareEntry(requests[n], outcomes[n])]
  }

  /** Entry `k` of a comparison is built from slot `k`'s request and outcome alone. */
  lemma {:induction false} EntriesOfCases(requests: seq<RequestMethod>, outcomes: seq<SendResult>)
    requires |outcomes| == |requests|
    ensures var r := EntriesOf(requests, outcomes);
      && (forall k | 0 <= k < |r| :: r[k].request == requests[k] && WellFormedEntry(r[k]))
      && (forall k | 0 <= k < |r| :: r[k].response.Some? <==> outcomes[k].Sent?)
      && (forall k | 0 <= k < |r| ::
            && (outcomes[k].Sent? ==> r[k].response == Some(outcomes[k].data))
            && (outcomes[k].SendFailed? ==> r[k].error == Some(outcomes[k].error)))
    decreases |requests|
  {
    if requests != [] {
      var n := |requests| - 1;
      EntriesOfCases(requests[..n], outcomes[..n]);
      assert forall k | 0 <= k < n :: requests[..n][k] == requests[k] && outcomes[..n][k] == outcomes[k];
    }
  }

  /** What one slot's send leaves in `responses`: always a settled entry. */
  function SlotEntry(request: RequestMethod, parse: JsonParser, reply: Reply): (e: ResponseEntry)
    ensures e.IsSettled()
  {
    Settled(SendOutcome(request, parse, reply))
  }

  /**
   * The `responses` map after the sends of slots `0 .. |outcomes| - 1` have
   * settled with `outcomes`: those keys are settled, every other key is kept.
   */
  function Recorded(responses: map<int, ResponseEntry>, outcomes: seq<SendResult>): map<int, ResponseEntry>
    decreases |outcomes|
  {
    if outcomes == [] then responses
    else
      var n := |outcomes| - 1;
      Recorded(responses, outcomes[..n])[n := Settled(outcomes[n])]
  }

  /** Slots `0 .. |outcomes| - 1` hold their settled outcome; every other key keeps its entry. */
  lemma {:induction false} RecordedCases(responses: map<int, ResponseEntry>, outcomes: seq<SendResult>)
    ensures var r := Recorded(responses, outcomes);
      && (forall k :: k in r <==> k in responses || 0 <= k < |outcomes|)
      && (forall k | 0 <= k < |outcomes| :: r[k] == Settled(outcomes[k]) && r[k].IsSettled())
      && (forall k | k in responses && !(0 <= k < |outcomes|) :: r[k] == responses[k])
    decreases |outcomes|
  {
    if outcomes != [] {
      var n := |outcomes| - 1;
      RecordedCases(responses, outcomes[..n]);
      assert forall k | 0 <= k < n :: outcomes[..n][k] == outcomes[k];
    }
  }

  /** Sending one more slot appends one entry to the comparison. */
  lemma EntriesOfStep(requests: seq<RequestMethod>, outcomes: seq<SendResult>, i: nat, o: SendResult)
    requires |outcomes| == i < |requests|
    ensures EntriesOf(requests[..i + 1], outcomes + [o]) ==
      EntriesOf(requests[..i], outcomes) + [CompareEntry(requests[i], o)]
  {
    assert requests[..i + 1][..i] == requests[..i] && (outcomes + [o])[..i] == outcomes;
  }

  /** Two slots where one answers and the other is refused by the transport. */
  lemma TwoSlotScenario(a: RequestMethod, b: RequestMethod, parse: JsonParser, data: ResponseData)
    requires a.verb == GET && b.verb == GET
    requires !Text.AllWhitespace(a.url) && !Text.AllWhitespace(b.url)
    ensures var entries := EntriesOf([a, b], Outcomes([a, b], parse, [Responded(data), Failed(ErrorThrown(FailedToFetch))]));
      && |entries| == 2
      && entries[0] == ComparisonEntry(a, Some(data), None)
      && entries[1] == ComparisonEntry(b, None, Some(ErrorData(FailedToFetch, Some(NetworkDetails))))
  {
    var outcomes := Outcomes([a, b], parse, [Responded(data), Failed(ErrorThrown(FailedToFetch))]);
    OutcomeAt([a, b], parse, [Responded(data), Failed(ErrorThrown(FailedToFetch))], 0);
    OutcomeAt([a, b], parse, [Responded(data), Failed(ErrorThrown(FailedToFetch))], 1);
    assert outcomes[0] == SendOutcome(a, parse, Responded(data));
    assert outcomes[1] == SendOutcome(b, parse, Failed(ErrorThrown(FailedToFetch)));
  }
}
