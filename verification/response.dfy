/**
 * The response record and its builders, and `build`, which renders a
 * response as an HTTP/1.1 message: a status line, the header lines, and the
 * body after a blank line when there is one.
 *
 * The headers live in a hash map, so the order of the header lines is the
 * map's iteration order, which the source does not fix. `Build` takes that
 * order as a parameter (any duplicate-free listing of the keys), and the
 * lemmas below state what holds whatever the order is.
 */
module Response {
  import opened Wrappers
  import opened Numbers
  import opened Status

  const CRLF: string := "\r\n"
  const ContentLength: string := "Content-Length"
  const ContentType: string := "Content-Type"
  const Html: string := "text/html; charset=utf-8"
  const PlainText: string := "text/plain; charset=utf-8"

  datatype HttpResponse = HttpResponse(
    version: HttpVersion,
    status: StatusCode,
    headers: map<string, string>,
    body: Option<string>)

  /** `HttpResponse::new`: HTTP/1.1, 200, no headers, no body. */
  function New(): (r: HttpResponse)
    ensures r.version == Http1_1 && r.status == Ok
    ensures |r.headers| == 0 && r.body == None
  {
    HttpResponse(Http1_1, Ok, map[], None)
  }

  /** `version`: only the version changes. */
  function WithVersion(r: HttpResponse, v: HttpVersion): (r': HttpResponse)
    ensures r'.version == v
    ensures r'.status == r.status && r'.headers == r.headers && r'.body == r.body
  {
    r.(version := v)
  }

  /** `status` and `with_status`, which do the same: only the status changes. */
  function WithStatus(r: HttpResponse, s: StatusCode): (r': HttpResponse)
    ensures r'.status == s
    ensures r'.version == r.version && r'.headers == r.headers && r'.body == r.body
  {
    r.(status := s)
  }

  /**
   * `header` and `with_header`, which do the same: `k` now maps to `v`,
   * overwriting any earlier value, and every other header is as it was.
   */
  function WithHeader(r: HttpResponse, k: string, v: string): (r': HttpResponse)
    ensures k in r'.headers && r'.headers[k] == v
    ensures forall k' :: k' != k ==> (k' in r'.headers <==> k' in r.headers)
    ensures forall k' :: k' != k && k' in r.headers ==> r'.headers[k'] == r.headers[k']
    ensures r'.version == r.version && r'.status == r.status && r'.body == r.body
  {
    r.(headers := r.headers[k := v])
  }

  /** `content_type`: sets the `Content-Type` header; everything else is as it was. */
  function WithContentType(r: HttpResponse, ct: string): (r': HttpResponse)
    ensures ContentType in r'.headers && r'.headers[ContentType] == ct
    ensures forall k :: k != ContentType ==> (k in r'.headers <==> k in r.headers)
    ensures forall k :: k != ContentType && k in r.headers ==> r'.headers[k] == r.headers[k]
    ensures r'.version == r.version && r'.body == r.body && r'.status == r.status
  {
    WithHeader(r, ContentType, ct)
  }

  /** The decimal `Content-Length` value of a body: its length in UTF-8 bytes. */
  function LengthText(b: string): (t: string)
    ensures AllDigits(t) && DigitsValue(t) == Utf8Len(b)
  {
    NatToString(Utf8Len(b))
  }

  /**
   * `body`: the body becomes `b` and `Content-Length` its byte length; every
   * other header is as it was.
   */
  function WithBody(r: HttpResponse, b: string): (r': HttpResponse)
    ensures r'.body == Some(b)
    ensures ContentLength in r'.headers
    ensures AllDigits(r'.headers[ContentLength]) && DigitsValue(r'.headers[ContentLength]) == Utf8Len(b)
    ensures forall k :: k != ContentLength ==> (k in r'.headers <==> k in r.headers)
    ensures forall k :: k != ContentLength && k in r.headers ==> r'.headers[k] == r.headers[k]
    ensures r'.version == r.version && r'.status == r.status
  {
    r.(headers := r.headers[ContentLength := LengthText(b)], body := Some(b))
  }

  /** `HttpResponse::with_body`: a fresh 200 response carrying `b`. */
  function FromBody(b: string): (r: HttpResponse)
    ensures r.version == Http1_1 && r.status == Ok && r.body == Some(b)
    ensures r.headers.Keys == {ContentLength} && ContentLength in r.headers
    ensures AllDigits(r.headers[ContentLength]) && DigitsValue(r.headers[ContentLength]) == Utf8Len(b)
  {
    HttpResponse(Http1_1, Ok, map[ContentLength := LengthText(b)], Some(b))
  }

  /** `with_body(b)` is the same response as `new().body(b)`. */
  lemma FromBodyIsNewWithBody(b: string)
    ensures FromBody(b) == WithBody(New(), b)
  {
  }

  /** `html`: `Content-Type` text/html, then the body; status, version and the other headers stay. */
  function WithHtml(r: HttpResponse, content: string): (r': HttpResponse)
    ensures r'.body == Some(content)
    ensures ContentType in r'.headers && r'.headers[ContentType] == Html
    ensures ContentLength in r'.headers && AllDigits(r'.headers[ContentLength])
    ensures DigitsValue(r'.headers[ContentLength]) == Utf8Len(content)
    ensures r'.headers.Keys == r.headers.Keys + {ContentType, ContentLength}
    ensures forall k :: k != ContentType && k != ContentLength && k in r.headers ==> r'.headers[k] == r.headers[k]
    ensures r'.version == r.version && r'.status == r.status
  {
    WithBody(WithContentType(r, Html), content)
  }

  /** `text`: `Content-Type` text/plain, then the body; status, version and the other headers stay. */
  function WithText(r: HttpResponse, content: string): (r': HttpResponse)
    ensures r'.body == Some(content)
    ensures ContentType in r'.headers && r'.headers[ContentType] == PlainText
    ensures ContentLength in r'.headers && AllDigits(r'.headers[ContentLength])
    ensures DigitsValue(r'.headers[ContentLength]) == Utf8Len(content)
    ensures r'.headers.Keys == r.headers.Keys + {ContentType, ContentLength}
    ensures forall k :: k != ContentType && k != ContentLength && k in r.headers ==> r'.headers[k] == r.headers[k]
    ensures r'.version == r.version && r'.status == r.status
  {
    WithBody(WithContentType(r, PlainText), content)
  }

  /** `HttpResponse::no_content`: 204 with `Content-Length: 0` and no body. */
  function NoContent(): (r: HttpResponse)
    ensures r.status == Status.NoContent && r.body == None
    ensures r.headers == map[ContentLength := "0"]
  {
    WithHeader(WithStatus(New(), Status.NoContent), ContentLength, "0")
  }

  /** The canned responses that only set a status. */
  function WithOnlyStatus(s: StatusCode): (r: HttpResponse)
    ensures r == WithStatus(New(), s)
  {
    HttpResponse(Http1_1, s, map[], None)
  }

  // ---------------------------------------------------------------------
  // Rendering

  /** `order` lists every header key exactly once. */
  predicate Enumerates(order: seq<string>, headers: map<string, string>) {
    && Distinct(order)
    && (forall k :: k in order ==> k in headers)
    && (forall k :: k in headers ==> k in order)
  }

  /** The status line without its line end, `"<version> <code> <reason>"`. */
  function StatusLine(r: HttpResponse): string {
    VersionText(r.version) + " " + Display(r.status)
  }

  /** The header line of key `k`, `"k: v"`. */
  function HeaderLine(headers: map<string, string>, k: string): string
    requires k in headers
  {
    k + ": " + headers[k]
  }

  /** The header lines in iteration order. */
  function HeaderLines(headers: map<string, string>, order: seq<string>): (lines: seq<string>)
    requires forall k :: k in order ==> k in headers
    ensures |lines| == |order|
    ensures forall i :: 0 <= i < |order| ==> lines[i] == HeaderLine(headers, order[i])
  {
    seq(|order|, i requires 0 <= i < |order| => HeaderLine(headers, order[i]))
  }

  /** `lines.join(sep)`. */
  function JoinWith(lines: seq<string>, sep: string): string
    decreases |lines|
  {
    if |lines| == 0 then ""
    else if |lines| == 1 then lines[0]
    else lines[0] + sep + JoinWith(lines[1..], sep)
  }

  /** The header block: the joined lines and a final line end, or nothing without headers. */
  function HeaderSection(headers: map<string, string>, order: seq<string>): string
    requires forall k :: k in order ==> k in headers
  {
    var lines := HeaderLines(headers, order);
    if |lines| == 0 then "" else JoinWith(lines, CRLF) + CRLF
  }

  /** The blank line and the body, or nothing when there is no body. */
  function BodySection(body: Option<string>): string {
    match body
    case Some(b) => CRLF + b
    case None => ""
  }

  /** `build`, with the header map's iteration order given as `order`. */
  function Build(r: HttpResponse, order: seq<string>): string
    requires Enumerates(order, r.headers)
  {
    StatusLine(r) + CRLF + HeaderSection(r.headers, order) + BodySection(r.body)
  }

  // ---------------------------------------------------------------------
  // What the rendering is, whatever the order

  /** Each header key in `order`, rendered as its own CRLF-terminated line. */
  function Terminated(headers: map<string, string>, order: seq<string>): string
    requires forall k :: k in order ==> k in headers
    decreases |order|
  {
    if |order| == 0 then ""
    else HeaderLine(headers, order[0]) + CRLF + Terminated(headers, order[1..])
  }

  /** Joining with CRLF and adding a final CRLF terminates every line. */
  lemma {:induction false} JoinTerminates(headers: map<string, string>, order: seq<string>)
    requires forall k :: k in order ==> k in headers
    requires |order| > 0
    ensures JoinWith(HeaderLines(headers, order), CRLF) + CRLF == Terminated(headers, order)
    decreases |order|
  {
    var lines := HeaderLines(headers, order);
    if |order| > 1 {
      assert lines[1..] == HeaderLines(headers, order[1..]);
      JoinTerminates(headers, order[1..]);
    } else {
      assert order[1..] == [];
    }
  }

  /** The header block is one CRLF-terminated line per header. */
  lemma HeaderSectionTerminated(headers: map<string, string>, order: seq<string>)
    requires forall k :: k in order ==> k in headers
    ensures HeaderSection(headers, order) == Terminated(headers, order)
  {
    if |order| > 0 {
      JoinTerminates(headers, order);
    }
  }

  /**
   * The rendered message is the status line, one terminated line per
   * header, and then the body after a blank line when there is a body.
   */
  lemma BuildShape(r: HttpResponse, order: seq<string>)
    requires Enumerates(order, r.headers)
    ensures Build(r, order) == StatusLine(r) + CRLF + Terminated(r.headers, order) + BodySection(r.body)
  {
    HeaderSectionTerminated(r.headers, order);
  }

  /** Splitting the key list splits the terminated lines. */
  lemma {:induction false} TerminatedAppend(headers: map<string, string>, a: seq<string>, b: seq<string>)
    requires forall k :: k in a + b ==> k in headers
    ensures Terminated(headers, a + b) == Terminated(headers, a) + Terminated(headers, b)
    decreases |a|
  {
    if |a| > 0 {
      assert (a + b)[1..] == a[1..] + b;
      TerminatedAppend(headers, a[1..], b);
    } else {
      assert a + b == b;
    }
  }

  /** The `n` characters of `s` from position `i` on. */
  function Window(s: string, i: nat, n: nat): string
    requires i + n <= |s|
  {
    s[i..i + n]
  }

  /** `needle` occurs somewhere in `s`. */
  predicate Occurs(needle: string, s: string) {
    exists i: nat :: i + |needle| <= |s| && Window(s, i, |needle|) == needle
  }

  lemma WindowOfConcat(a: string, b: string, c: string)
    ensures Occurs(b, a + b + c)
  {
    assert Window(a + b + c, |a|, |b|) == b;
  }

  /** The terminated lines split around the key at position `j`. */
  lemma TerminatedAround(headers: map<string, string>, order: seq<string>, j: nat)
    requires forall k :: k in order ==> k in headers
    requires j < |order|
    ensures Terminated(headers, order)
         == Terminated(headers, order[..j]) + (HeaderLine(headers, order[j]) + CRLF) + Terminated(headers, order[j + 1..])
  {
    var k := order[j];
    assert order == order[..j] + ([k] + order[j + 1..]);
    TerminatedAppend(headers, order[..j], [k] + order[j + 1..]);
    assert ([k] + order[j + 1..])[1..] == order[j + 1..];
  }

  lemma Regroup(a: string, b: string, c: string, d: string, e: string)
    ensures a + (b + c + d) + e == (a + b) + c + (d + e)
  {
  }

  /** Whatever precedes the headers, each header's terminated line occurs in the text. */
  lemma LineOccurs(head: string, headers: map<string, string>, order: seq<string>, tail: string, k: string)
    requires forall k :: k in order ==> k in headers
    requires k in order
    ensures k in headers && Occurs(HeaderLine(headers, k) + CRLF, head + Terminated(headers, order) + tail)
  {
    var j :| 0 <= j < |order| && order[j] == k;
    TerminatedAround(headers, order, j);
    var line := HeaderLine(headers, k) + CRLF;
    var t1 := Terminated(headers, order[..j]);
    var t2 := Terminated(headers, order[j + 1..]);
    Regroup(head, t1, line, t2, tail);
    WindowOfConcat(head + t1, line, t2 + tail);
  }

  /** Every header appears in the rendered message as a line of its own, whatever the order. */
  lemma HeaderRendered(r: HttpResponse, order: seq<string>, k: string)
    requires Enumerates(order, r.headers)
    requires k in r.headers
    ensures Occurs(HeaderLine(r.headers, k) + CRLF, Build(r, order))
  {
    BuildShape(r, order);
    LineOccurs(StatusLine(r) + CRLF, r.headers, order, BodySection(r.body), k);
  }

  /** Total length of the header lines rendered for `order`. */
  function LinesLength(headers: map<string, string>, order: seq<string>): nat
    requires forall k :: k in order ==> k in headers
    decreases |order|
  {
    if |order| == 0 then 0
    else |HeaderLine(headers, order[0])| + 2 + LinesLength(headers, order[1..])
  }

  lemma {:induction false} TerminatedLength(headers: map<string, string>, order: seq<string>)
    requires forall k :: k in order ==> k in headers
    ensures |Terminated(headers, order)| == LinesLength(headers, order)
    decreases |order|
  {
    if |order| > 0 {
      TerminatedLength(headers, order[1..]);
    }
  }

  /** No key is listed twice. */
  predicate Distinct(order: seq<string>) {
    forall i, j :: 0 <= i < j < |order| ==> order[i] != order[j]
  }

  /** The keys a listing mentions. */
  function Members(order: seq<string>): set<string> {
    set k | k in order
  }

  /** A duplicate-free listing is as long as the set of keys it lists. */
  lemma {:induction false} DistinctLength(order: seq<string>)
    requires Distinct(order)
    ensures |Members(order)| == |order|
    decreases |order|
  {
    if |order| > 0 {
      assert Members(order) == {order[0]} + Members(order[1..]);
      assert order[0] !in Members(order[1..]);
      DistinctLength(order[1..]);
    } else {
      assert Members(order) == {};
    }
  }

  /** A listing of the header keys has one entry per header. */
  lemma ListingLength(order: seq<string>, headers: map<string, string>)
    requires Enumerates(order, headers)
    ensures |order| == |headers|
  {
    assert Members(order) == headers.Keys;
    DistinctLength(order);
  }

  /** `order` without its element at position `j`. */
  function RemoveAt(order: seq<string>, j: nat): (r: seq<string>)
    requires j < |order|
    ensures |r| == |order| - 1
  {
    order[..j] + order[j + 1..]
  }

  /** Removing an element of a duplicate-free listing removes exactly that key. */
  lemma RemoveAtMembers(order: seq<string>, j: nat)
    requires j < |order| && Distinct(order)
    ensures Distinct(RemoveAt(order, j))
    ensures forall x :: x in RemoveAt(order, j) <==> x in order && x != order[j]
  {
    var r := RemoveAt(order, j);
    assert forall q :: 0 <= q < |r| ==> r[q] == order[if q < j then q else q + 1];
    forall x | x in order && x != order[j]
      ensures x in r
    {
      var p :| 0 <= p < |order| && order[p] == x;
      if p < j { assert r[p] == x; } else { assert r[p - 1] == x; }
    }
  }

  lemma {:induction false} LinesLengthAppend(headers: map<string, string>, a: seq<string>, b: seq<string>)
    requires forall k :: k in a + b ==> k in headers
    ensures LinesLength(headers, a + b) == LinesLength(headers, a) + LinesLength(headers, b)
    decreases |a|
  {
    if |a| > 0 {
      assert (a + b)[1..] == a[1..] + b;
      LinesLengthAppend(headers, a[1..], b);
    } else {
      assert a + b == b;
    }
  }

  /** The line of the key at `j` contributes to the total wherever it is listed. */
  lemma LinesLengthRemove(headers: map<string, string>, order: seq<string>, j: nat)
    requires forall k :: k in order ==> k in headers
    requires j < |order|
    ensures LinesLength(headers, order)
         == |HeaderLine(headers, order[j])| + 2 + LinesLength(headers, RemoveAt(order, j))
  {
    var k := order[j];
    assert order == order[..j] + ([k] + order[j + 1..]);
    LinesLengthAppend(headers, order[..j], [k] + order[j + 1..]);
    assert ([k] + order[j + 1..])[1..] == order[j + 1..];
    LinesLengthAppend(headers, order[..j], order[j + 1..]);
  }

  /** Two duplicate-free listings of the same keys have the same total line length. */
  lemma {:induction false} LinesLengthPermutation(headers: map<string, string>, o1: seq<string>, o2: seq<string>)
    requires forall k :: k in o1 ==> k in headers
    requires Distinct(o1) && Distinct(o2)
    requires forall k :: k in o1 <==> k in o2
    ensures LinesLength(headers, o1) == LinesLength(headers, o2)
    decreases |o1|
  {
    if |o1| == 0 {
      assert Members(o2) == Members(o1) == {};
      DistinctLength(o2);
    } else {
      var k := o1[0];
      assert k in o2;
      var j :| 0 <= j < |o2| && o2[j] == k;
      LinesLengthRemove(headers, o2, j);
      RemoveAtMembers(o2, j);
      RemoveAtMembers(o1, 0);
      assert RemoveAt(o1, 0) == o1[1..];
      LinesLengthPermutation(headers, o1[1..], RemoveAt(o2, j));
    }
  }

  /** The length of the rendered message does not depend on the iteration order. */
  lemma BuildLengthIndependentOfOrder(r: HttpResponse, o1: seq<string>, o2: seq<string>)
    requires Enumerates(o1, r.headers) && Enumerates(o2, r.headers)
    ensures |Build(r, o1)| == |Build(r, o2)|
  {
    BuildShape(r, o1);
    BuildShape(r, o2);
    TerminatedLength(r.headers, o1);
    TerminatedLength(r.headers, o2);
    LinesLengthPermutation(r.headers, o1, o2);
  }

  /** Without headers there is only one order, and without a body nothing follows the headers. */
  lemma BuildBare(r: HttpResponse, order: seq<string>)
    requires Enumerates(order, r.headers)
    requires |r.headers| == 0 && r.body == None
    ensures Build(r, order) == StatusLine(r) + CRLF
  {
    ListingLength(order, r.headers);
  }

  /** A response with a body ends with a blank line and the body. */
  lemma BuildEndsWithBody(r: HttpResponse, order: seq<string>, b: string)
    requires Enumerates(order, r.headers)
    requires r.body == Some(b)
    ensures |Build(r, order)| >= |CRLF + b|
    ensures Build(r, order)[|Build(r, order)| - |CRLF + b|..] == CRLF + b
  {
    var head := StatusLine(r) + CRLF + HeaderSection(r.headers, order);
    assert Build(r, order) == head + (CRLF + b);
  }

  /** `HttpResponse::new().build()`: the status line alone. */
  lemma BuildNew()
    ensures Build(New(), []) == "HTTP/1.1 200 OK\r\n"
  {
    DisplayOk();
    BuildBare(New(), []);
  }

  lemma BadRequestStatusLine()
    ensures StatusLine(WithOnlyStatus(BadRequest)) == "HTTP/1.1 400 Bad Request"
  {
    DisplayBadRequest();
  }

  /** `bad_request().build()`: a bare status line. */
  lemma BuildBadRequest()
    ensures Build(WithOnlyStatus(BadRequest), []) == "HTTP/1.1 400 Bad Request\r\n"
  {
    BadRequestStatusLine();
    BuildBare(WithOnlyStatus(BadRequest), []);
  }

  lemma InternalServerErrorStatusLine()
    ensures StatusLine(WithOnlyStatus(InternalServerError)) == "HTTP/1.1 500 Internal Server Error"
  {
    DisplayInternalServerError();
  }

  /** `internal_server_error().build()`: a bare status line. */
  lemma BuildInternalServerError()
    ensures Build(WithOnlyStatus(InternalServerError), []) == "HTTP/1.1 500 Internal Server Error\r\n"
  {
    InternalServerErrorStatusLine();
    BuildBare(WithOnlyStatus(InternalServerError), []);
  }

  lemma NoContentStatusLine()
    ensures StatusLine(NoContent()) == "HTTP/1.1 204 No Content"
  {
    DisplayNoContent();
  }

  lemma NoContentHeaderSection()
    ensures HeaderSection(NoContent().headers, [ContentLength]) == "Content-Length: 0\r\n"
  {
    var headers := NoContent().headers;
    var lines := HeaderLines(headers, [ContentLength]);
    assert headers[ContentLength] == "0";
    assert HeaderLine(headers, ContentLength) == "Content-Length: 0";
    assert lines == ["Content-Length: 0"];
  }

  /** `no_content().build()`: one header line and no blank line after it. */
  lemma BuildNoContent()
    ensures Build(NoContent(), [ContentLength]) == "HTTP/1.1 204 No Content\r\nContent-Length: 0\r\n"
  {
    NoContentStatusLine();
    NoContentHeaderSection();
  }
}
