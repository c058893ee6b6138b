/**
 * The closed table that turns what a handler returns into a response.
 *
 * In the source every responder ends in `build()` and hands the rendered
 * text on; the model hands on the response record that `build()` renders
 * (see `Response.Build`), so that the header iteration order stays a
 * parameter of rendering alone.
 */
module Responder {
  import opened Wrappers
  import opened Numbers
  import opened Status
  import opened Response

  const Location: string := "Location"

  /** The handler return types that have a `Responder` implementation. */
  datatype Returned =
    | Plain(text: string)                        // String and &str
    | Fallible(outcome: Result<string, string>)  // Result<String, E>, the error by its display text
    | Prebuilt(response: HttpResponse)           // HttpResponse
    | StatusWith(status: StatusCode, body: string)                          // (StatusCode, T)
    | StatusHeadersWith(status: StatusCode, extra: map<string, string>, body: string)  // (StatusCode, HashMap, T)
    | Nothing                                     // ()
    | Redirect(target: string)                    // Redirect
    | HtmlPage(content: string)                   // Html<T>
    | TextPage(content: string)                   // Text<T>

  /** `respond`, one case per implementation. */
  function Respond(v: Returned): HttpResponse {
    match v
    case Plain(s) => WithBody(New(), s)
    case Fallible(Success(s)) => WithBody(New(), s)
    case Fallible(Failure(e)) => WithStatus(WithBody(New(), e), InternalServerError)
    case Prebuilt(r) => r
    case StatusWith(st, b) => WithStatus(FromBody(b), st)
    case StatusHeadersWith(st, h, b) =>
      var r := WithStatus(FromBody(b), st);
      r.(headers := r.headers + h)
    case Nothing => New()
    case Redirect(u) =>
      WithHeader(WithStatus(New(), Found), Location, u).(body := Some("Redirecting to " + u))
    case HtmlPage(c) => WithHeader(FromBody(c), ContentType, Html)
    case TextPage(c) => WithHeader(FromBody(c), ContentType, PlainText)
  }

  /** The body text, or the empty text when there is none. */
  function BodyText(body: Option<string>): string {
    match body
    case Some(b) => b
    case None => ""
  }

  /** A `Content-Length` header, when there is one, states the body's byte length. */
  predicate LengthHonest(r: HttpResponse) {
    ContentLength in r.headers ==>
      AllDigits(r.headers[ContentLength]) && DigitsValue(r.headers[ContentLength]) == Utf8Len(BodyText(r.body))
  }

  /** A text value: 200, the text as body, and its byte length as `Content-Length`, nothing else. */
  lemma RespondPlain(s: string)
    ensures var r := Respond(Plain(s));
      && r.version == Http1_1 && r.status == Ok && r.body == Some(s)
      && r.headers.Keys == {ContentLength} && LengthHonest(r)
  {
  }

  /** `Ok(s)` answers like the text `s`; `Err(e)` answers 500 with `e`'s display text as body. */
  lemma RespondFallible(outcome: Result<string, string>)
    ensures outcome.Success? ==> Respond(Fallible(outcome)) == Respond(Plain(outcome.value))
    ensures outcome.Failure? ==>
      var r := Respond(Fallible(outcome));
      && r.status == InternalServerError && r.body == Some(outcome.error)
      && r.headers.Keys == {ContentLength} && LengthHonest(r)
  {
  }

  /** A response value is passed on as it is. */
  lemma RespondPrebuilt(r: HttpResponse)
    ensures Respond(Prebuilt(r)) == r
  {
  }

  /** `(status, body)`: the given status, the body and its length. */
  lemma RespondStatusWith(st: StatusCode, b: string)
    ensures var r := Respond(StatusWith(st, b));
      && r.status == st && r.body == Some(b)
      && r.headers.Keys == {ContentLength} && LengthHonest(r)
  {
  }

  /**
   * `(status, headers, body)`: the caller's headers are merged over the
   * computed `Content-Length`, so each of them is present with the caller's
   * value, and the computed length survives only if the caller gave none.
   */
  lemma RespondStatusHeadersWith(st: StatusCode, h: map<string, string>, b: string)
    ensures var r := Respond(StatusHeadersWith(st, h, b));
      && r.status == st && r.body == Some(b)
      && r.headers.Keys == h.Keys + {ContentLength}
      && (forall k :: k in h ==> r.headers[k] == h[k])
      && (ContentLength !in h ==> LengthHonest(r))
  {
  }

  /** A caller-supplied `Content-Length` replaces the computed one, whatever it says. */
  lemma CallerLengthWins(st: StatusCode, b: string, v: string)
    ensures Respond(StatusHeadersWith(st, map[ContentLength := v], b)).headers[ContentLength] == v
  {
  }

  /** `()` renders as a bare status line. */
  lemma RespondNothing()
    ensures Respond(Nothing) == New()
    ensures Build(Respond(Nothing), []) == "HTTP/1.1 200 OK\r\n"
  {
    BuildNew();
  }

  /** A redirect: 302 with `Location` and a readable body, and no `Content-Length`. */
  lemma RespondRedirect(u: string)
    ensures var r := Respond(Redirect(u));
      && r.status == Found && r.headers == map[Location := u]
      && r.body == Some("Redirecting to " + u)
      && ContentLength !in r.headers
  {
  }

  /** `Html` and `Text`: their content type, the length, and the body. */
  lemma RespondPages(c: string)
    ensures var r := Respond(HtmlPage(c));
      && r.status == Ok && r.body == Some(c)
      && r.headers.Keys == {ContentLength, ContentType} && r.headers[ContentType] == Html
      && LengthHonest(r)
    ensures var r := Respond(TextPage(c));
      && r.status == Ok && r.body == Some(c)
      && r.headers.Keys == {ContentLength, ContentType} && r.headers[ContentType] == PlainText
      && LengthHonest(r)
  {
  }

  /**
   * Every responder that computes its own headers states the body's true
   * byte length; only a prebuilt response and a caller-supplied
   * `Content-Length` can say otherwise.
   */
  lemma RespondLengthHonest(v: Returned)
    requires !v.Prebuilt?
    requires v.StatusHeadersWith? ==> ContentLength !in v.extra
    ensures LengthHonest(Respond(v))
  {
    match v
    case Redirect(u) =>
      assert ContentLength != Location;
    case HtmlPage(c) =>
      assert ContentLength != ContentType;
    case TextPage(c) =>
      assert ContentLength != ContentType;
    case _ =>
  }
}
