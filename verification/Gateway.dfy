/** What the gateway answers when a downstream call fails. */
module Gateway {
  import opened Wrappers
  import RC = RetryClient

  /** The `status_code` attribute of a service error; a foreign exception has none. */
  function ErrorStatus(e: RC.Error): Option<int> {
    match e
    case ServiceTimeout => Some(504)
    case ServiceUnavailable => Some(502)
    case ServiceNotFound => Some(404)
    case ServiceBadRequest(status) => Some(status)
    case ServiceResponse => Some(502)
    case ServiceCall(status) => Some(status)
    case ForeignError => None
  }

  /** `map_service_error_to_status`; no handler is registered for a foreign exception. */
  function MapToStatus(e: RC.Error): Option<int> {
    match e
    case ServiceTimeout => Some(504)
    case ServiceUnavailable => Some(502)
    case ServiceNotFound => Some(404)
    case ServiceBadRequest(status) => Some(if status != 0 then status else 400)
    case ServiceResponse => Some(502)
    case ServiceCall(_) => Some(502)
    case ForeignError => None
  }

  /** What becomes of a call: its result, an error reply, or an exception nothing here handles. */
  datatype Ending = Succeeded | ErrorReply(status: int, bodyStatus: int) | Unhandled

  function Handle<V>(r: Result<RC.Value<V>, RC.Error>): Ending {
    if r.Ok? then Succeeded
    else if MapToStatus(r.error).None? || ErrorStatus(r.error).None? then Unhandled
    else ErrorReply(MapToStatus(r.error).value, ErrorStatus(r.error).value)
  }

  /** The gateway's answer to a call that runs against `script`. */
  function Answer<V>(m: RC.Method, script: nat -> RC.Attempt<V>, model: RC.Model, maxRetries: int): Ending {
    Handle(RC.Once(script(Last(m, script, model, maxRetries)), model))
  }

  function Last<V>(m: RC.Method, script: nat -> RC.Attempt<V>, model: RC.Model, maxRetries: int): nat {
    RC.Attempts(script, model, 0, RC.Budget(m, maxRetries)) - 1
  }

  predicate ClientFault<V>(a: RC.Attempt<V>) {
    a.Answered? && 400 <= a.status < 500
  }

  /** 1xx and 3xx answers: errors of the base class. */
  predicate Informational<V>(a: RC.Attempt<V>) {
    a.Answered? && (a.status < 200 || 300 <= a.status < 400)
  }

  /**
   * The reply is decided by the last attempt alone: a 4xx keeps its code, a timeout is
   * 504, every other service error 502; the body repeats the HTTP status except after
   * a 1xx or 3xx; a foreign exception is not handled; and a 504, or a 502 for an outage,
   * means that the whole budget was used up.
   */
  lemma ReplyFollowsLastAttempt<V>(m: RC.Method, script: nat -> RC.Attempt<V>, model: RC.Model, maxRetries: int)
    ensures var last := script(Last(m, script, model, maxRetries));
      match Answer(m, script, model, maxRetries)
      case Succeeded => last.Answered? && 200 <= last.status < 300
      case Unhandled => last.Foreign?
      case ErrorReply(status, bodyStatus) =>
        && !last.Foreign?
        && status == (if ClientFault(last) then last.status else if last.TimedOut? then 504 else 502)
        && bodyStatus == (if Informational(last) then last.status else status)
        && (bodyStatus == status <==> !Informational(last))
        && (RC.Retriable(last, model) ==>
              Last(m, script, model, maxRetries) + 1 == RC.Budget(m, maxRetries)
              && forall k :: 0 <= k < RC.Budget(m, maxRetries) ==> RC.Retriable(script(k), model))
  {
  }
}

/** Request ids, trace ids and identity as they cross services. */
module Identity {
  import opened Wrappers

  predicate IsTokenChar(c: char) {
    'A' <= c <= 'Z' || 'a' <= c <= 'z' || '0' <= c <= '9' || c in "!#$%&'*+.=:^_`|~-"
  }

  /** `_TOKEN_PATTERN.fullmatch` */
  predicate IsToken(s: string) {
    1 <= |s| <= 512 && forall i :: 0 <= i < |s| ==> IsTokenChar(s[i])
  }

  /** Allowed are the printable ASCII characters except space, quotation mark, brackets and six separators. */
  lemma TokenCharIff(c: char)
    ensures IsTokenChar(c) <==> 0x21 <= c as int <= 0x7E && c !in "\"()[]{}<>,/;?@\\"
  {
  }

  /** No control character, space or non-ASCII character is in a token, so none reaches a header or a log. */
  lemma TokensArePrintable(s: string)
    requires IsToken(s)
    ensures forall i :: 0 <= i < |s| ==> 0x21 <= s[i] as int <= 0x7E && s[i] != '\r' && s[i] != '\n'
  {
    forall i | 0 <= i < |s| ensures 0x21 <= s[i] as int <= 0x7E {
      TokenCharIff(s[i]);
    }
  }

  /** Ids as load balancers make them pass, and so does every id of allowed characters up to length 512. */
  lemma EdgeIdsPass(s: string, minted: Uuid)
    requires 1 <= |s| <= 512 && forall i :: 0 <= i < |s| ==> 0x21 <= s[i] as int <= 0x7E && s[i] !in "\"()[]{}<>,/;?@\\"
    ensures Sanitize(Some(s), minted) == s
    ensures Sanitize(Some("edge-1:57f6a2"), minted) == "edge-1:57f6a2"
  {
    forall i | 0 <= i < |s| ensures IsTokenChar(s[i]) {
      TokenCharIff(s[i]);
    }
  }

  predicate IsUuidChar(c: char) {
    '0' <= c <= '9' || 'a' <= c <= 'f' || c == '-'
  }

  /** The text of a UUID: 36 lower-case hexadecimal digits and hyphens. */
  type Uuid = s: string | |s| == 36 && forall i :: 0 <= i < |s| ==> IsUuidChar(s[i])
    witness seq(36, _ => '0')

  function Sanitize(raw: Option<string>, minted: Uuid): string {
    if raw.Some? && raw.value != "" && IsToken(raw.value) then raw.value else minted
  }

  datatype Header = Authorization | XRequestId | XTraceId | XUserId

  type Headers = map<Header, string>

  function Get(h: Headers, name: Header): Option<string> {
    if name in h then Some(h[name]) else None
  }

  /** `request.state` after the middleware, and the id it puts on the response. */
  datatype RequestState = RequestState(requestId: string, traceId: string)

  /** `RequestIDMiddleware.dispatch` */
  function Dispatch(inbound: Headers, trusted: bool, freshId: Uuid, freshTrace: Uuid): RequestState {
    RequestState(Sanitize(Get(inbound, XRequestId), freshId),
                 if trusted then Sanitize(Get(inbound, XTraceId), freshTrace) else freshTrace)
  }

  datatype Context = Context(auth: Option<string>, requestId: Option<string>, traceId: Option<string>, userId: Option<string>)

  /** `getattr(state, name, None) or str(uuid4())` */
  function OrFresh(value: string, minted: Uuid): string {
    if value != "" then value else minted
  }

  /** `RequestContext.from_request`: ids from the state, user from the caller, never from raw headers. */
  function FromRequest(inbound: Headers, state: RequestState, userId: Option<string>,
                       freshId: Uuid, freshTrace: Uuid): Context
  {
    Context(Get(inbound, Authorization), Some(OrFresh(state.requestId, freshId)),
            Some(OrFresh(state.traceId, freshTrace)), userId)
  }

  predicate Truthy(v: Option<string>) {
    v.Some? && v.value != ""
  }

  function HeadersOf(c: Context): Headers {
    (if Truthy(c.auth) then map[Authorization := c.auth.value] else map[])
    + (if Truthy(c.requestId) then map[XRequestId := c.requestId.value] else map[])
    + (if Truthy(c.traceId) then map[XTraceId := c.traceId.value] else map[])
    + (if Truthy(c.userId) then map[XUserId := c.userId.value] else map[])
  }

  /** The header is sent iff the field is non-empty, and with the field's value. */
  predicate Carries(h: Headers, name: Header, field: Option<string>) {
    (name in h <==> field.Some? && field.value != "") && (name in h ==> h[name] == field.value)
  }

  class RequestContext {
    var auth: Option<string>
    var requestId: Option<string>
    var traceId: Option<string>
    var userId: Option<string>

    ghost function View(): Context
      reads this
    {
      Context(auth, requestId, traceId, userId)
    }

    constructor (c: Context)
      ensures View() == c
    {
      auth, requestId, traceId, userId := c.auth, c.requestId, c.traceId, c.userId;
    }

    method ToHeaders() returns (headers: Headers)
      ensures headers == HeadersOf(View())
      ensures Carries(headers, Authorization, auth) && Carries(headers, XRequestId, requestId)
      ensures Carries(headers, XTraceId, traceId) && Carries(headers, XUserId, userId)
    {
      headers := map[];
      if Truthy(auth) {
        headers := headers[Authorization := auth.value];
      }
      if Truthy(requestId) {
        headers := headers[XRequestId := requestId.value];
      }
      if Truthy(traceId) {
        headers := headers[XTraceId := traceId.value];
      }
      if Truthy(userId) {
        headers := headers[XUserId := userId.value];
      }
    }

    method EnsureRequestId(minted: Uuid) returns (id: string)
      modifies this`requestId
      ensures requestId == Some(id)
      ensures id == (match old(requestId) case None => minted case Some(v) => v)
    {
      if requestId.None? {
        requestId := Some(minted);
      }
      id := requestId.value;
    }
  }

  /** One service on the way: its own identity for the caller, and the UUIDs it would mint. */
  datatype Hop = Hop(userId: Option<string>, freshId: Uuid, freshTrace: Uuid)

  /** The headers a service sends downstream for a request it received. */
  function Forward(inbound: Headers, hop: Hop, trusted: bool): Headers {
    HeadersOf(FromRequest(inbound, Dispatch(inbound, trusted, hop.freshId, hop.freshTrace),
                          hop.userId, hop.freshId, hop.freshTrace))
  }

  /** Through the untrusting edge, then through internal services one after the other. */
  function Chain(inbound: Headers, edge: Hop, internal: seq<Hop>): Headers
    decreases |internal|
  {
    if internal == [] then Forward(inbound, edge, false)
    else Forward(Chain(inbound, edge, internal[..|internal| - 1]), internal[|internal| - 1], true)
  }

  /** One hop: ids that are tokens pass, the credential passes, the user is the hop's own. */
  lemma OneHop(inbound: Headers, hop: Hop, trusted: bool)
    ensures var out := Forward(inbound, hop, trusted);
      && Get(out, XRequestId) == Some(Sanitize(Get(inbound, XRequestId), hop.freshId))
      && Get(out, XTraceId) == Some(if trusted then Sanitize(Get(inbound, XTraceId), hop.freshTrace) else hop.freshTrace)
      && Get(out, Authorization) == (if Truthy(Get(inbound, Authorization)) then Get(inbound, Authorization) else None)
      && Get(out, XUserId) == (if Truthy(hop.userId) then hop.userId else None)
      && IsToken(out[XRequestId]) && IsToken(out[XTraceId])
  {
    hide IsToken;
    SanitizeIsSafe(Get(inbound, XRequestId), hop.freshId);
    SanitizeIsSafe(Get(inbound, XTraceId), hop.freshTrace);
    UuidIsToken(hop.freshTrace);
    TokenIsNotEmpty(Sanitize(Get(inbound, XRequestId), hop.freshId));
    TokenIsNotEmpty(Sanitize(Get(inbound, XTraceId), hop.freshTrace));
    TokenIsNotEmpty(hop.freshTrace);
  }

  lemma TokenIsNotEmpty(s: string)
    requires IsToken(s)
    ensures s != ""
  {
  }

  lemma UuidIsToken(u: Uuid)
    ensures IsToken(u)
  {
  }

  /**
   * Along any chain of internal services behind the edge one valid request id and the
   * trace id minted at the edge are carried unchanged, the credential is relayed, and the
   * user is the one the last service derived.
   */
  lemma {:induction false} IdsAreCarried(inbound: Headers, edge: Hop, internal: seq<Hop>)
    ensures var out := Chain(inbound, edge, internal);
      var last := if internal == [] then edge else internal[|internal| - 1];
      && Get(out, XRequestId) == Some(Sanitize(Get(inbound, XRequestId), edge.freshId))
      && Get(out, XTraceId) == Some(edge.freshTrace)
      && IsToken(out[XRequestId]) && IsToken(out[XTraceId])
      && Get(out, Authorization) == (if Truthy(Get(inbound, Authorization)) then Get(inbound, Authorization) else None)
      && Get(out, XUserId) == (if Truthy(last.userId) then last.userId else None)
    decreases |internal|
  {
    hide Forward, IsToken;
    if internal == [] {
      OneHop(inbound, edge, false);
    } else {
      var n := |internal| - 1;
      IdsAreCarried(inbound, edge, internal[..n]);
      TokenIsNotEmpty(Chain(inbound, edge, internal[..n])[XRequestId]);
      TokenIsNotEmpty(Chain(inbound, edge, internal[..n])[XTraceId]);
      OneHop(Chain(inbound, edge, internal[..n]), internal[n], true);
    }
  }

  /** What the outside puts into the trace and user headers makes no difference to any service. */
  lemma {:induction false} TraceAndUserHeadersAreIgnored(a: Headers, b: Headers, edge: Hop, internal: seq<Hop>)
    requires Get(a, XRequestId) == Get(b, XRequestId) && Get(a, Authorization) == Get(b, Authorization)
    ensures Chain(a, edge, internal) == Chain(b, edge, internal)
    decreases |internal|
  {
    if internal != [] {
      TraceAndUserHeadersAreIgnored(a, b, edge, internal[..|internal| - 1]);
    }
  }

  /** A safe inbound token passes the sanitizer unchanged; anything else is replaced by a safe one. */
  lemma SanitizeIsSafe(raw: Option<string>, minted: Uuid)
    ensures IsToken(Sanitize(raw, minted))
    ensures raw.Some? && Sanitize(raw, minted) == raw.value <==> raw.Some? && (IsToken(raw.value) || raw.value == minted)
    ensures forall i :: 0 <= i < |Sanitize(raw, minted)| ==> 0x21 <= Sanitize(raw, minted)[i] as int <= 0x7E
    ensures |Sanitize(raw, minted)| <= 512
    ensures raw.None? || !IsToken(raw.value) ==> Sanitize(raw, minted) == minted
  {
    TokensArePrintable(Sanitize(raw, minted));
  }
}
