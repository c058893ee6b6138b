/**
 * The server's error types, their helper constructors and the text each
 * one displays as.
 *
 * Boxed error sources (`Box<dyn Error>`, `std::io::Error`) are carried by
 * their own display text. Sizes (`usize`) are natural numbers.
 */
module Errors {
  import opened Wrappers
  import opened Numbers

  datatype ConnectionError =
    | ReadError(source: string)
    | WriteError(source: string)
    | ConnectionClosed
    | Timeout
    | ProtocolError(message: string)

  datatype ParseError =
    | InvalidMethod(verb: string)
    | InvalidUri(uri: string)
    | InvalidVersion(version: string)
    | MalformedHeaders(reason: string)
    | BufferOverflow(attempted: nat, capacity: nat)
    | InvalidUtf8
    | ContentLengthMismatch(expected: nat, actual: nat)

  datatype HandlerError =
    | MissingUri
    | RouteNotFound(route: string)
    | MethodNotAllowed(route: string)
    | ServiceUnavailable(reason: string)
    | PayloadTooLarge(size: nat)
    | UnsupportedMediaType(contentType: string)
    | InternalError(source: string)

  datatype ServiceError =
    | CreationFailed(reason: string)
    | InitializationTimeout
    | DependencyError(service: string)

  datatype ServerError =
    | ServiceInitializationFailed(message: string)
    | ListenerBuildError(source: string)
    | IoError(source: string)
    | Connection(connection: ConnectionError)
    | Parse(parse: ParseError)
    | Handler(handler: HandlerError)
    | ServiceExecution(source: string)
    | ConfigError(message: string)
    | TimeoutError(operation: string)
    | ResourceNotFound(resource: string)

  function ShowConnection(e: ConnectionError): string {
    match e
    case ReadError(s) => "Failed to read from connection: " + s
    case WriteError(s) => "Failed to write to connection: " + s
    case ConnectionClosed => "Connection closed unexpectedly"
    case Timeout => "Connection timeout"
    case ProtocolError(m) => "Protocol error: " + m
  }

  const OverflowHead: string := "Buffer overflow: tried to read "
  const OverflowMiddle: string := " bytes into "
  const OverflowTail: string := " byte buffer"

  function ShowParse(e: ParseError): string {
    match e
    case InvalidMethod(m) => "Invalid HTTP method: " + m
    case InvalidUri(u) => "Invalid URI: " + u
    case InvalidVersion(v) => "Invalid HTTP version: " + v
    case MalformedHeaders(r) => "Malformed headers: " + r
    case BufferOverflow(a, c) => OverflowHead + NatToString(a) + OverflowMiddle + NatToString(c) + OverflowTail
    case InvalidUtf8 => "Invalid UTF-8 sequence in request"
    case ContentLengthMismatch(x, y) => "Content length mismatch: expected " + NatToString(x) + ", got " + NatToString(y)
  }

  const RouteNotFoundHead: string := "Route not found: "

  function ShowHandler(e: HandlerError): string {
    match e
    case MissingUri => "Missing URI in request"
    case RouteNotFound(r) => RouteNotFoundHead + r
    case MethodNotAllowed(r) => "Method not allowed for route: " + r
    case ServiceUnavailable(r) => "Service unavailable: " + r
    case PayloadTooLarge(n) => "Payload too large: " + NatToString(n) + " bytes"
    case UnsupportedMediaType(t) => "Unsupported media type: " + t
    case InternalError(s) => "Internal server error: " + s
  }

  function ShowService(e: ServiceError): string {
    match e
    case CreationFailed(r) => "Service creation failed: " + r
    case InitializationTimeout => "Service initialization timeout"
    case DependencyError(s) => "Service dependency error: " + s
  }

  const InitHead: string := "Service initialization failed: "
  const ConfigHead: string := "Configuration error: "
  const TimeoutHead: string := "Timeout error: "
  const TimeoutTail: string := " took too long"
  const NotFoundHead: string := "Resource not found: "

  /** The `Display` text of a server error; wrapped errors show their own text after a label. */
  function ShowServer(e: ServerError): string {
    match e
    case ServiceInitializationFailed(m) => InitHead + m
    case ListenerBuildError(s) => "Failed to build server listener: " + s
    case IoError(s) => "I/O error: " + s
    case Connection(c) => "Connection error: " + ShowConnection(c)
    case Parse(p) => "Parse error: " + ShowParse(p)
    case Handler(h) => "Handler error: " + ShowHandler(h)
    case ServiceExecution(s) => "Service execution error: " + s
    case ConfigError(m) => ConfigHead + m
    case TimeoutError(op) => TimeoutHead + op + TimeoutTail
    case ResourceNotFound(r) => NotFoundHead + r
  }

  /** The text after a known prefix, when `s` starts with it. */
  function StripPrefix(prefix: string, s: string): (r: Option<string>)
    ensures r.Some? <==> |prefix| <= |s| && s[..|prefix|] == prefix
    ensures r.Some? ==> s == prefix + r.value
  {
    if |prefix| <= |s| && s[..|prefix|] == prefix then Some(s[|prefix|..]) else None
  }

  /** `ServerError::service_init_error`. */
  function InitFailure(message: string): (e: ServerError)
    ensures e.ServiceInitializationFailed? && e.message == message
  {
    ServiceInitializationFailed(message)
  }

  /** `From<String>` and `From<&str>`: both give a configuration error carrying the message. */
  function FromMessage(message: string): (e: ServerError)
    ensures e.ConfigError? && e.message == message
  {
    ConfigError(message)
  }

  /** `From<Box<dyn Error>>`: a service execution error. */
  function FromSource(source: string): (e: ServerError)
    ensures e.ServiceExecution? && e.source == source
  {
    ServiceExecution(source)
  }

  /** `ServerError::timeout`. */
  function OperationTimeout(operation: string): (e: ServerError)
    ensures e.TimeoutError? && e.operation == operation
  {
    TimeoutError(operation)
  }

  /** `ServerError::not_found`. */
  function MissingResource(resource: string): (e: ServerError)
    ensures e.ResourceNotFound? && e.resource == resource
  {
    ResourceNotFound(resource)
  }

  /** `HandlerError::internal_error`. */
  function Internal(source: string): (e: HandlerError)
    ensures e.InternalError? && e.source == source
  {
    InternalError(source)
  }

  /** `HandlerError::route_not_found`. */
  function MissingRoute(route: string): (e: HandlerError)
    ensures e.RouteNotFound? && e.route == route
  {
    RouteNotFound(route)
  }

  /** `ParseError::buffer_overflow`. */
  function Overflow(attempted: nat, capacity: nat): (e: ParseError)
    ensures e.BufferOverflow? && e.attempted == attempted && e.capacity == capacity
  {
    BufferOverflow(attempted, capacity)
  }

  /** `ParseError::malformed_headers`. */
  function BadHeaders(reason: string): (e: ParseError)
    ensures e.MalformedHeaders? && e.reason == reason
  {
    MalformedHeaders(reason)
  }

  /** The route a route-not-found error names is read back from its text. */
  lemma RouteNotFoundReadsBack(route: string)
    ensures StripPrefix(RouteNotFoundHead, ShowHandler(MissingRoute(route))) == Some(route)
  {
    assert (RouteNotFoundHead + route)[|RouteNotFoundHead|..] == route;
  }

  /** An initialisation failure shows its message after a fixed label, and only there. */
  lemma InitFailureReadsBack(message: string)
    ensures StripPrefix(InitHead, ShowServer(InitFailure(message))) == Some(message)
  {
    assert (InitHead + message)[|InitHead|..] == message;
  }

  /** Both conversions from a message display it as a configuration error. */
  lemma FromMessageReadsBack(message: string)
    ensures StripPrefix(ConfigHead, ShowServer(FromMessage(message))) == Some(message)
  {
    assert (ConfigHead + message)[|ConfigHead|..] == message;
  }

  /** A not-found error shows the resource after its label. */
  lemma MissingResourceReadsBack(resource: string)
    ensures StripPrefix(NotFoundHead, ShowServer(MissingResource(resource))) == Some(resource)
  {
    assert (NotFoundHead + resource)[|NotFoundHead|..] == resource;
  }

  /** A timeout shows the operation between a fixed label and a fixed tail. */
  lemma OperationTimeoutReadsBack(operation: string)
    ensures var d := ShowServer(OperationTimeout(operation));
      && |d| == |TimeoutHead| + |operation| + |TimeoutTail|
      && d[..|TimeoutHead|] == TimeoutHead
      && d[|TimeoutHead|..|d| - |TimeoutTail|] == operation
      && d[|d| - |TimeoutTail|..] == TimeoutTail
  {
    var d := ShowServer(OperationTimeout(operation));
    assert d == TimeoutHead + operation + TimeoutTail;
  }

  /** A missing URI, reported by the server, reads as a handler error. */
  lemma MissingUriText()
    ensures ShowServer(Handler(MissingUri)) == "Handler error: " + "Missing URI in request"
  {
  }

  /**
   * Two digit strings that are each followed by a space-led text split the
   * same way: the digits end where the first space is.
   */
  lemma DigitsBeforeSpace(x: string, s: string, y: string, t: string)
    requires AllDigits(x) && AllDigits(y)
    requires |s| > 0 && s[0] == ' ' && |t| > 0 && t[0] == ' '
    requires x + s == y + t
    ensures x == y && s == t
  {
    assert x == (x + s)[..|x|];
    assert y == (y + t)[..|y|];
  }

  /** Distinct numbers have distinct spellings. */
  lemma SpellingInjective(a: nat, b: nat)
    requires NatToString(a) == NatToString(b)
    ensures a == b
  {
    assert DigitsValue(NatToString(a)) == a;
  }

  lemma Regroup(a: string, b: string, c: string, d: string, e: string)
    ensures a + b + c + d + e == a + (b + (c + (d + e)))
  {
  }

  lemma CancelHead(h: string, u: string, v: string)
    requires h + u == h + v
    ensures u == v
  {
    assert u == (h + u)[|h|..];
    assert v == (h + v)[|h|..];
  }

  /**
   * A text made of a head, digits, a space-led middle, digits and a
   * space-led tail determines both digit strings.
   */
  lemma TwoSpellingsSplit(head: string, middle: string, tail: string, x1: string, y1: string, x2: string, y2: string)
    requires AllDigits(x1) && AllDigits(y1) && AllDigits(x2) && AllDigits(y2)
    requires |middle| > 0 && middle[0] == ' ' && |tail| > 0 && tail[0] == ' '
    requires head + x1 + middle + y1 + tail == head + x2 + middle + y2 + tail
    ensures x1 == x2 && y1 == y2
  {
    Regroup(head, x1, middle, y1, tail);
    Regroup(head, x2, middle, y2, tail);
    CancelHead(head, x1 + (middle + (y1 + tail)), x2 + (middle + (y2 + tail)));
    DigitsBeforeSpace(x1, middle + (y1 + tail), x2, middle + (y2 + tail));
    CancelHead(middle, y1 + tail, y2 + tail);
    DigitsBeforeSpace(y1, tail, y2, tail);
  }

  /** A buffer-overflow message determines both numbers it was made from. */
  lemma OverflowTextInjective(a1: nat, c1: nat, a2: nat, c2: nat)
    requires ShowParse(Overflow(a1, c1)) == ShowParse(Overflow(a2, c2))
    ensures a1 == a2 && c1 == c2
  {
    assert OverflowMiddle[0] == ' ' && OverflowTail[0] == ' ';
    TwoSpellingsSplit(OverflowHead, OverflowMiddle, OverflowTail, NatToString(a1), NatToString(c1), NatToString(a2), NatToString(c2));
    SpellingInjective(a1, a2);
    SpellingInjective(c1, c2);
  }
}
