/**
 * HTTP status codes as the server knows them: the closed list of codes it
 * names, the partial conversion from a 16-bit number, the reason phrases,
 * the five classes of section 15 of RFC 9110, the `"<code> <phrase>"`
 * display form, and the protocol version names.
 *
 * The source declares `StatusCode` as a field-less enum whose variants
 * carry explicit discriminants and converts with `*self as u16`; the model
 * represents a status by that discriminant, restricted to the listed codes,
 * and names each variant by a constant.
 */
module Status {
  import opened Wrappers
  import opened Numbers

  /** A Rust `u16`. */
  type U16 = x: int | 0 <= x < 0x1_0000

  datatype HttpVersion = Http1_0 | Http1_1 | Http2 | Http3

  /** The `Display` text of a protocol version. */
  function VersionText(v: HttpVersion): (r: string)
    ensures |r| >= 6 && r[..5] == "HTTP/"
  {
    match v
    case Http1_0 => "HTTP/1.0"
    case Http1_1 => "HTTP/1.1"
    case Http2 => "HTTP/2"
    case Http3 => "HTTP/3"
  }

  /** Distinct versions display differently, so a status line names its version unambiguously. */
  lemma VersionTextInjective(a: HttpVersion, b: HttpVersion)
    requires VersionText(a) == VersionText(b)
    ensures a == b
  {
  }

  /** The codes that have a `StatusCode` variant. */
  predicate Listed(c: int) {
    || 100 <= c <= 103
    || 200 <= c <= 208
    || c == 226
    || 300 <= c <= 305
    || 307 <= c <= 308
    || 400 <= c <= 418
    || 421 <= c <= 426
    || 428 <= c <= 429
    || c == 431
    || c == 451
    || 500 <= c <= 508
    || 510 <= c <= 511
  }

  newtype StatusCode = c: int | Listed(c) witness 200

  // 1xx Informational
  const Continue: StatusCode := 100
  const SwitchingProtocols: StatusCode := 101
  const Processing: StatusCode := 102
  const EarlyHints: StatusCode := 103

  // 2xx Success
  const Ok: StatusCode := 200
  const Created: StatusCode := 201
  const Accepted: StatusCode := 202
  const NonAuthoritativeInformation: StatusCode := 203
  const NoContent: StatusCode := 204
  const ResetContent: StatusCode := 205
  const PartialContent: StatusCode := 206
  const MultiStatus: StatusCode := 207
  const AlreadyReported: StatusCode := 208
  const IMUsed: StatusCode := 226

  // 3xx Redirection
  const MultipleChoices: StatusCode := 300
  const MovedPermanently: StatusCode := 301
  const Found: StatusCode := 302
  const SeeOther: StatusCode := 303
  const NotModified: StatusCode := 304
  const UseProxy: StatusCode := 305
  const TemporaryRedirect: StatusCode := 307
  const PermanentRedirect: StatusCode := 308

  // 4xx Client Error
  const BadRequest: StatusCode := 400
  const Unauthorized: StatusCode := 401
  const PaymentRequired: StatusCode := 402
  const Forbidden: StatusCode := 403
  const NotFound: StatusCode := 404
  const MethodNotAllowed: StatusCode := 405
  const NotAcceptable: StatusCode := 406
  const ProxyAuthenticationRequired: StatusCode := 407
  const RequestTimeout: StatusCode := 408
  const Conflict: StatusCode := 409
  const Gone: StatusCode := 410
  const LengthRequired: StatusCode := 411
  const PreconditionFailed: StatusCode := 412
  const PayloadTooLarge: StatusCode := 413
  const URITooLong: StatusCode := 414
  const UnsupportedMediaType: StatusCode := 415
  const RangeNotSatisfiable: StatusCode := 416
  const ExpectationFailed: StatusCode := 417
  const ImATeapot: StatusCode := 418
  const MisdirectedRequest: StatusCode := 421
  const UnprocessableEntity: StatusCode := 422
  const Locked: StatusCode := 423
  const FailedDependency: StatusCode := 424
  const TooEarly: StatusCode := 425
  const UpgradeRequired: StatusCode := 426
  const PreconditionRequired: StatusCode := 428
  const TooManyRequests: StatusCode := 429
  const RequestHeaderFieldsTooLarge: StatusCode := 431
  const UnavailableForLegalReasons: StatusCode := 451

  // 5xx Server Error
  const InternalServerError: StatusCode := 500
  const NotImplemented: StatusCode := 501
  const BadGateway: StatusCode := 502
  const ServiceUnavailable: StatusCode := 503
  const GatewayTimeout: StatusCode := 504
  const HTTPVersionNotSupported: StatusCode := 505
  const VariantAlsoNegotiates: StatusCode := 506
  const InsufficientStorage: StatusCode := 507
  const LoopDetected: StatusCode := 508
  const NotExtended: StatusCode := 510
  const NetworkAuthenticationRequired: StatusCode := 511

  /** The error `from_u16` reports for a number outside the list. */
  datatype InvalidStatusCode = InvalidStatusCode(code: U16)

  /** `as_u16`: the numeric code of a status. */
  function Code(s: StatusCode): (c: U16)
    ensures Listed(c) && 100 <= c < 600
  {
    assert Listed(s as int);
    s as int
  }

  /**
   * `from_u16`: the status whose code is `code`, or `InvalidStatusCode(code)`
   * when no variant has that code.
   */
  function FromU16(code: U16): (r: Result<StatusCode, InvalidStatusCode>)
    ensures r.Success? <==> Listed(code)
    ensures r.Success? ==> Code(r.value) == code
    ensures r.Failure? ==> r.error == InvalidStatusCode(code)
  {
    if Listed(code) then Success(code as StatusCode) else Failure(InvalidStatusCode(code))
  }

  /**
   * The reason phrase of each status, as listed in section 15 of RFC 9110:
   * never empty, and capitalised. The table is kept one class at a time.
   */
  function ReasonPhrase(s: StatusCode): (r: string)
    ensures |r| > 0 && 'A' <= r[0] <= 'Z'
  {
    var c := Code(s);
    if c < 200 then InformationalPhrase(s)
    else if c < 300 then SuccessPhrase(s)
    else if c < 400 then RedirectionPhrase(s)
    else if c < 421 then ClientErrorPhrase(s)
    else if c < 500 then LateClientErrorPhrase(s)
    else ServerErrorPhrase(s)
  }

  /** The phrases of the informational statuses. */
  function InformationalPhrase(s: StatusCode): (r: string)
    requires 100 <= s as int < 200
    ensures |r| > 0 && 'A' <= r[0] <= 'Z'
  {
    assert Listed(s as int);
    match s
    case 100 => "Continue"
    case 101 => "Switching Protocols"
    case 102 => "Processing"
    case 103 => "Early Hints"
    case _ => assert false; ""
  }

  /** The phrases of the success statuses. */
  function SuccessPhrase(s: StatusCode): (r: string)
    requires 200 <= s as int < 300
    ensures |r| > 0 && 'A' <= r[0] <= 'Z'
  {
    assert Listed(s as int);
    match s
    case 200 => "OK"
    case 201 => "Created"
    case 202 => "Accepted"
    case 203 => "Non-Authoritative Information"
    case 204 => "No Content"
    case 205 => "Reset Content"
    case 206 => "Partial Content"
    case 207 => "Multi-Status"
    case 208 => "Already Reported"
    case 226 => "IM Used"
    case _ => assert false; ""
  }

  /** The phrases of the redirection statuses. */
  function RedirectionPhrase(s: StatusCode): (r: string)
    requires 300 <= s as int < 400
    ensures |r| > 0 && 'A' <= r[0] <= 'Z'
  {
    assert Listed(s as int);
    match s
    case 300 => "Multiple Choices"
    case 301 => "Moved Permanently"
    case 302 => "Found"
    case 303 => "See Other"
    case 304 => "Not Modified"
    case 305 => "Use Proxy"
    case 307 => "Temporary Redirect"
    case 308 => "Permanent Redirect"
    case _ => assert false; ""
  }

  /** The phrases of the client error, up to 418 statuses. */
  function ClientErrorPhrase(s: StatusCode): (r: string)
    requires 400 <= s as int < 421
    ensures |r| > 0 && 'A' <= r[0] <= 'Z'
  {
    assert Listed(s as int);
    match s
    case 400 => "Bad Request"
    case 401 => "Unauthorized"
    case 402 => "Payment Required"
    case 403 => "Forbidden"
    case 404 => "Not Found"
    case 405 => "Method Not Allowed"
    case 406 => "Not Acceptable"
    case 407 => "Proxy Authentication Required"
    case 408 => "Request Timeout"
    case 409 => "Conflict"
    case 410 => "Gone"
    case 411 => "Length Required"
    case 412 => "Precondition Failed"
    case 413 => "Payload Too Large"
    case 414 => "URI Too Long"
    case 415 => "Unsupported Media Type"
    case 416 => "Range Not Satisfiable"
    case 417 => "Expectation Failed"
    case 418 => "I'm a teapot"
    case _ => assert false; ""
  }

  /** The phrases of the client error, from 421 statuses. */
  function LateClientErrorPhrase(s: StatusCode): (r: string)
    requires 421 <= s as int < 500
    ensures |r| > 0 && 'A' <= r[0] <= 'Z'
  {
    assert Listed(s as int);
    match s
    case 421 => "Misdirected Request"
    case 422 => "Unprocessable Entity"
    case 423 => "Locked"
    case 424 => "Failed Dependency"
    case 425 => "Too Early"
    case 426 => "Upgrade Required"
    case 428 => "Precondition Required"
    case 429 => "Too Many Requests"
    case 431 => "Request Header Fields Too Large"
    case 451 => "Unavailable For Legal Reasons"
    case _ => assert false; ""
  }

  /** The phrases of the server error statuses. */
  function ServerErrorPhrase(s: StatusCode): (r: string)
    requires 500 <= s as int < 600
    ensures |r| > 0 && 'A' <= r[0] <= 'Z'
  {
    assert Listed(s as int);
    match s
    case 500 => "Internal Server Error"
    case 501 => "Not Implemented"
    case 502 => "Bad Gateway"
    case 503 => "Service Unavailable"
    case 504 => "Gateway Timeout"
    case 505 => "HTTP Version Not Supported"
    case 506 => "Variant Also Negotiates"
    case 507 => "Insufficient Storage"
    case 508 => "Loop Detected"
    case 510 => "Not Extended"
    case 511 => "Network Authentication Required"
    case _ => assert false; ""
  }

  /** A listed code converts back to the status it came from. */
  lemma FromU16OfCode(s: StatusCode)
    ensures FromU16(Code(s)) == Success(s)
  {
  }

  /** `u16::into_status_code`: `from_u16`, falling back to 500 for an unlisted code. */
  function IntoStatusCode(code: U16): (s: StatusCode)
    ensures Listed(code) ==> Code(s) == code
    ensures !Listed(code) ==> s == InternalServerError
  {
    match FromU16(code)
    case Success(v) => v
    case Failure(_) => InternalServerError
  }

  // Classes of section 15 of RFC 9110, decided by the code's hundreds.

  predicate IsInformational(s: StatusCode) { 100 <= Code(s) < 200 }
  predicate IsSuccess(s: StatusCode) { 200 <= Code(s) < 300 }
  predicate IsRedirection(s: StatusCode) { 300 <= Code(s) < 400 }
  predicate IsClientError(s: StatusCode) { 400 <= Code(s) < 500 }
  predicate IsServerError(s: StatusCode) { 500 <= Code(s) < 600 }

  /** `is_error`: a client or a server error. */
  predicate IsError(s: StatusCode) {
    IsClientError(s) || IsServerError(s)
  }

  function Indicator(b: bool): nat {
    if b then 1 else 0
  }

  /** Every status belongs to exactly one of the five classes. */
  lemma ExactlyOneClass(s: StatusCode)
    ensures Indicator(IsInformational(s)) + Indicator(IsSuccess(s)) + Indicator(IsRedirection(s))
          + Indicator(IsClientError(s)) + Indicator(IsServerError(s)) == 1
  {
  }

  /** The error statuses are exactly those from 400 on. */
  lemma ErrorIffAtLeast400(s: StatusCode)
    ensures IsError(s) <==> Code(s) >= 400
  {
  }

  /** The decimal spelling of a three-digit number, digit by digit. */
  lemma ThreeDigits(n: nat)
    requires 100 <= n < 1000
    ensures NatToString(n) == [DigitChar(n / 100), DigitChar(n / 10 % 10), DigitChar(n % 10)]
  {
    assert NatToString(n / 10) == [DigitChar(n / 100), DigitChar(n / 10 % 10)];
  }

  /** `Display` of a status: `"<code> <reason phrase>"`. */
  function Display(s: StatusCode): string {
    NatToString(Code(s)) + " " + ReasonPhrase(s)
  }

  /**
   * The display form is three decimal digits spelling the code, a space,
   * and the reason phrase.
   */
  lemma DisplayShape(s: StatusCode)
    ensures |Display(s)| >= 4 && Display(s)[3] == ' ' && Display(s)[4..] == ReasonPhrase(s)
    ensures AllDigits(Display(s)[..3]) && DigitsValue(Display(s)[..3]) == Code(s)
  {
    ThreeDigits(Code(s));
    var digits := NatToString(Code(s));
    assert Display(s)[..3] == digits;
  }

  /** The display form starts with the code's hundreds digit. */
  lemma DisplayLeadingDigit(s: StatusCode)
    ensures IsDigit(Display(s)[0]) && DigitValue(Display(s)[0]) == Code(s) / 100
  {
    DisplayShape(s);
    var r := Display(s);
    assert r[..3][0] == r[0];
    assert r[..3][..2][..1] == [r[0]];
    assert DigitsValue(r[..3][..2][..1]) == DigitValue(r[0]);
  }

  /** The first character of the display form names the class. */
  lemma DisplayNamesClass(s: StatusCode)
    ensures |Display(s)| > 0 && IsDigit(Display(s)[0])
    ensures IsInformational(s) <==> DigitValue(Display(s)[0]) == 1
    ensures IsSuccess(s) <==> DigitValue(Display(s)[0]) == 2
    ensures IsRedirection(s) <==> DigitValue(Display(s)[0]) == 3
    ensures IsClientError(s) <==> DigitValue(Display(s)[0]) == 4
    ensures IsServerError(s) <==> DigitValue(Display(s)[0]) == 5
  {
    DisplayLeadingDigit(s);
  }

  /** Reading the code back out of the display form with Rust's parser gives the code. */
  lemma DisplayParsesBack(s: StatusCode)
    ensures ParseI32(Display(s)[..3]) == Some(Code(s))
  {
    DisplayShape(s);
    var r := Display(s);
    assert r[..3][0] != '+' && r[..3][0] != '-' by {
      assert IsDigit(r[..3][0]);
    }
  }

  /** Different statuses display differently. */
  lemma DisplayInjective(a: StatusCode, b: StatusCode)
    requires Display(a) == Display(b)
    ensures a == b
  {
    DisplayShape(a);
    DisplayShape(b);
  }

  lemma DisplayOk()
    ensures Display(Ok) == "200 OK"
  {
    ThreeDigits(200);
  }

  lemma Digits404()
    ensures NatToString(404) == "404"
  {
    ThreeDigits(404);
  }

  lemma Phrase404()
    ensures ReasonPhrase(NotFound) == "Not Found"
  {
  }

  lemma DisplayNotFound()
    ensures Display(NotFound) == "404 Not Found"
  {
    Digits404();
    Phrase404();
  }

  lemma Digits400()
    ensures NatToString(400) == "400"
  {
    ThreeDigits(400);
  }

  lemma Phrase400()
    ensures ReasonPhrase(BadRequest) == "Bad Request"
  {
  }

  lemma DisplayBadRequest()
    ensures Display(BadRequest) == "400 Bad Request"
  {
    Digits400();
    Phrase400();
  }

  lemma Digits500()
    ensures NatToString(500) == "500"
  {
    ThreeDigits(500);
  }

  lemma Phrase500()
    ensures ReasonPhrase(InternalServerError) == "Internal Server Error"
  {
  }

  lemma DisplayInternalServerError()
    ensures Display(InternalServerError) == "500 Internal Server Error"
  {
    Digits500();
    Phrase500();
  }

  lemma DisplayNoContent()
    ensures Display(NoContent) == "204 No Content"
  {
    ThreeDigits(204);
  }

  /** `Display` of `InvalidStatusCode`. */
  function InvalidText(e: InvalidStatusCode): (r: string)
    ensures |r| > 21 && r[..21] == "Invalid status code: "
    ensures ParseI32(r[21..]) == Some(e.code)
  {
    var digits := NatToString(e.code);
    ParseI32OfIntToString(e.code);
    assert ("Invalid status code: " + digits)[21..] == digits;
    "Invalid status code: " + digits
  }
}
