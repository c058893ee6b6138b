/**
 * Extraction: reading a handler's arguments out of a request.
 *
 * Path values are read from URI segments with the textual `i32` parse;
 * request extractors combine those with state taken from the request's
 * extensions; the extract service runs an extractor and hands its tuple to
 * the inner service.
 *
 * The extensions registry is a map from a type's name to the value stored
 * for that type (one value per type, as a type map holds).
 */
module Extract {
  import opened Wrappers
  import opened Numbers
  import Paths
  import Response

  type Extensions = map<string, string>

  /** The parts of a request the dispatch core reads: only its URI. */
  datatype HttpRequest = HttpRequest(uri: Option<string>)

  /** A request as services see it: the HTTP request and the application's state. */
  datatype ServiceRequest = ServiceRequest(req: HttpRequest, extensions: Extensions)

  /** What a service produces: the response `build()` renders, or a bare error. */
  type ServiceResult = Result<Response.HttpResponse, ()>

  // ---------------------------------------------------------------------
  // FromPathSegments
  // ---------------------------------------------------------------------

  /** The tuple types with a `FromPathSegments` implementation. */
  datatype PathType = I32 | I32AndString | I32AndI32 | StringAndString | I32AndStringAndString

  datatype PathValue =
    | OneInt(n: int)
    | IntText(n: int, s: string)
    | IntInt(n: int, k: int)
    | TextText(s: string, t: string)
    | IntTextText(n: int, s: string, t: string)

  function TypeOf(v: PathValue): PathType {
    match v
    case OneInt(_) => I32
    case IntText(_, _) => I32AndString
    case IntInt(_, _) => I32AndI32
    case TextText(_, _) => StringAndString
    case IntTextText(_, _, _) => I32AndStringAndString
  }

  /** How many segments an implementation insists on; extra ones are ignored. */
  function MinSegments(ty: PathType): nat {
    if ty == I32AndStringAndString then 3 else 2
  }

  /** The positions an implementation parses as `i32`. */
  function IntPositions(ty: PathType): set<nat> {
    match ty
    case I32 => {0}
    case I32AndString => {0}
    case I32AndI32 => {0, 1}
    case StringAndString => {}
    case I32AndStringAndString => {0}
  }

  /** `from_segments` for each tuple type. */
  function FromSegments(ty: PathType, segs: seq<string>): Option<PathValue> {
    if |segs| < MinSegments(ty) then None
    else
      match ty
      case I32 =>
        (match ParseI32(segs[0])
         case Some(n) => Some(OneInt(n))
         case None => None)
      case I32AndString =>
        (match ParseI32(segs[0])
         case Some(n) => Some(IntText(n, segs[1]))
         case None => None)
      case I32AndI32 =>
        (match (ParseI32(segs[0]), ParseI32(segs[1]))
         case (Some(n), Some(k)) => Some(IntInt(n, k))
         case _ => None)
      case StringAndString => Some(TextText(segs[0], segs[1]))
      case I32AndStringAndString =>
        (match ParseI32(segs[0])
         case Some(n) => Some(IntTextText(n, segs[1], segs[2]))
         case None => None)
  }

  /** The value reads each of its components from the segment at that position. */
  predicate ReadFrom(v: PathValue, segs: seq<string>) {
    match v
    case OneInt(n) => |segs| >= 1 && ParseI32(segs[0]) == Some(n)
    case IntText(n, s) => |segs| >= 2 && ParseI32(segs[0]) == Some(n) && segs[1] == s
    case IntInt(n, k) => |segs| >= 2 && ParseI32(segs[0]) == Some(n) && ParseI32(segs[1]) == Some(k)
    case TextText(s, t) => |segs| >= 2 && segs[0] == s && segs[1] == t
    case IntTextText(n, s, t) => |segs| >= 3 && ParseI32(segs[0]) == Some(n) && segs[1] == s && segs[2] == t
  }

  /**
   * Parsing succeeds exactly when there are enough segments and every
   * `i32` position parses; the value then is of the asked type and reads
   * its components from the segments.
   */
  lemma FromSegmentsSpec(ty: PathType, segs: seq<string>)
    ensures FromSegments(ty, segs).Some? <==>
      |segs| >= MinSegments(ty) && forall i :: i in IntPositions(ty) && i < |segs| ==> ParseI32(segs[i]).Some?
    ensures FromSegments(ty, segs).Some? ==>
      TypeOf(FromSegments(ty, segs).value) == ty && ReadFrom(FromSegments(ty, segs).value, segs)
  {
    if |segs| >= MinSegments(ty) && ty == I32AndI32 {
      assert 1 in IntPositions(ty);
    }
    if |segs| >= MinSegments(ty) && ty != StringAndString {
      assert 0 in IntPositions(ty);
    }
  }

  /** The canonical segments of a value: each number printed, each text as it is. */
  function Render(v: PathValue): seq<string> {
    match v
    case OneInt(n) => [IntToString(n)]
    case IntText(n, s) => [IntToString(n), s]
    case IntInt(n, k) => [IntToString(n), IntToString(k)]
    case TextText(s, t) => [s, t]
    case IntTextText(n, s, t) => [IntToString(n), s, t]
  }

  predicate NumbersFit(v: PathValue) {
    match v
    case OneInt(n) => InI32(n)
    case IntText(n, _) => InI32(n)
    case IntInt(n, k) => InI32(n) && InI32(k)
    case TextText(_, _) => true
    case IntTextText(n, _, _) => InI32(n)
  }

  /**
   * Printing a value's components as segments and parsing them back gives
   * the value, once the segment count is met (extra segments are ignored).
   */
  lemma FromSegmentsRender(v: PathValue, extra: seq<string>)
    requires NumbersFit(v)
    requires |Render(v) + extra| >= MinSegments(TypeOf(v))
    ensures FromSegments(TypeOf(v), Render(v) + extra) == Some(v)
  {
    var segs := Render(v) + extra;
    match v
    case OneInt(n) =>
      assert segs[0] == IntToString(n);
      ParseI32OfIntToString(n);
    case IntText(n, s) =>
      assert segs[0] == IntToString(n) && segs[1] == s;
      ParseI32OfIntToString(n);
    case IntInt(n, k) =>
      assert segs[0] == IntToString(n) && segs[1] == IntToString(k);
      ParseI32OfIntToString(n);
      ParseI32OfIntToString(k);
    case TextText(s, t) =>
      assert segs[0] == s && segs[1] == t;
    case IntTextText(n, s, t) =>
      assert segs[0] == IntToString(n) && segs[1] == s && segs[2] == t;
      ParseI32OfIntToString(n);
  }

  /** A lone number is refused: `i32` asks for two segments and reads one. */
  lemma LoneNumberRefused(n: int)
    ensures FromSegments(I32, [IntToString(n)]) == None
  {
  }

  // ---------------------------------------------------------------------
  // FromRequest
  // ---------------------------------------------------------------------

  /** A value handed to a handler. */
  datatype Arg =
    | Text(text: string)         // String
    | State(value: string)       // Data<T>
    | PathArg(path: PathValue)   // Path<P>

  /** The types with a `FromRequest` implementation; `ty` names the state's type. */
  datatype Extractor =
    | Unit                                     // ()
    | BlankText                                // (String,)
    | UriText                                  // String
    | StateOf(ty: string)                      // Data<T>
    | StateTuple(ty: string)                   // (Data<T>,)
    | StateAndText(ty: string)                 // (Data<T>, String)
    | StateAndPath(ty: string, path: PathType) // (Data<T>, Path<P>)

  /** The URI's segments after the first two, which path extraction reads. */
  function PathTail(uri: string): seq<string>
    requires |Paths.Segments(uri)| >= 2
  {
    Paths.Segments(uri)[2..]
  }

  /**
   * What an extractor needs to find in the request; the source unwraps
   * each of these (and slices past the first two segments), so a request
   * without them stops the server.
   */
  predicate CanExtract(x: Extractor, r: ServiceRequest) {
    match x
    case Unit => true
    case BlankText => true
    case UriText => r.req.uri.Some?
    case StateOf(ty) => ty in r.extensions
    case StateTuple(ty) => ty in r.extensions
    case StateAndText(ty) => ty in r.extensions
    case StateAndPath(ty, _) =>
      ty in r.extensions && r.req.uri.Some? && |Paths.Segments(r.req.uri.value)| >= 2
  }

  /** `from_request`: the extracted values in positional order, or a bare error. */
  function FromRequest(x: Extractor, r: ServiceRequest): Result<seq<Arg>, ()>
    requires CanExtract(x, r)
  {
    match x
    case Unit => Success([])
    case BlankText => Success([Text("")])
    case UriText => Success([Text(r.req.uri.value)])
    case StateOf(ty) => Success([State(r.extensions[ty])])
    case StateTuple(ty) => Success([State(r.extensions[ty])])
    case StateAndText(ty) => Success([State(r.extensions[ty]), Text("")])
    case StateAndPath(ty, p) =>
      match FromSegments(p, PathTail(r.req.uri.value))
      case Some(v) => Success([State(r.extensions[ty]), PathArg(v)])
      case None => Failure(())
  }

  /**
   * Extractors that do not read the path: they never fail, and every
   * `String` they yield is empty except the URI itself.
   */
  lemma FromRequestIgnoringPath(x: Extractor, r: ServiceRequest)
    requires !x.StateAndPath? && CanExtract(x, r)
    ensures FromRequest(x, r).Success?
    ensures x != UriText ==> forall a :: a in FromRequest(x, r).value && a.Text? ==> a.text == ""
    ensures x == UriText ==> FromRequest(x, r).value == [Text(r.req.uri.value)]
    ensures x.StateOf? || x.StateTuple? || x.StateAndText? ==>
      FromRequest(x, r).value[0] == State(r.extensions[x.ty])
  {
  }

  /**
   * `(Data, Path<P>)` succeeds exactly when P can be read from the URI's
   * non-empty segments after the first two, and then carries the state and
   * that value.
   */
  lemma FromRequestPath(ty: string, p: PathType, r: ServiceRequest)
    requires CanExtract(StateAndPath(ty, p), r)
    ensures var out := FromRequest(StateAndPath(ty, p), r);
      && (out.Success? <==> FromSegments(p, PathTail(r.req.uri.value)).Some?)
      && (out.Success? ==>
            out.value == [State(r.extensions[ty]), PathArg(FromSegments(p, PathTail(r.req.uri.value)).value)])
  {
  }

  /**
   * A path-reading extractor on a URI of exactly its parameter's segments
   * after two fixed ones: the parameter is read back.
   */
  lemma FromRequestPathRender(ty: string, first: string, second: string, v: PathValue, r: ServiceRequest)
    requires NumbersFit(v) && |Render(v)| >= MinSegments(TypeOf(v))
    requires Paths.ProperSegments([first, second] + Render(v))
    requires ty in r.extensions && r.req.uri == Some(Paths.PathOf([first, second] + Render(v)))
    ensures CanExtract(StateAndPath(ty, TypeOf(v)), r)
    ensures FromRequest(StateAndPath(ty, TypeOf(v)), r) == Success([State(r.extensions[ty]), PathArg(v)])
  {
    var segs := [first, second] + Render(v);
    Paths.SegmentsOfPathOf(segs);
    assert PathTail(r.req.uri.value) == Render(v) + [];
    FromSegmentsRender(v, []);
  }

  /** The segments of `/user/get/42`. */
  const UserGet42: seq<string> := ["user", "get", "42"]

  lemma UserGet42Spelling()
    ensures Paths.PathOf(UserGet42) == "/user/get/42"
  {
    assert Paths.Join(UserGet42[2..]) == "42";
    assert Paths.Join(UserGet42[1..]) == "get/42";
  }

  /** The path form of the refusal below, on the segment list. */
  lemma UserGet42PathRefusesI32(ty: string, r: ServiceRequest)
    requires ty in r.extensions && r.req.uri == Some(Paths.PathOf(UserGet42))
    ensures CanExtract(StateAndPath(ty, I32), r)
    ensures FromRequest(StateAndPath(ty, I32), r) == Failure(())
  {
    assert Paths.ProperSegments(UserGet42);
    Paths.SegmentsOfPathOf(UserGet42);
    assert PathTail(r.req.uri.value) == ["42"];
  }

  /**
   * `Path<i32>` can never be read from `/user/get/42`: after the first two
   * segments only one remains, and `i32` asks for two.
   */
  lemma UserGet42RefusesI32(ty: string, r: ServiceRequest)
    requires ty in r.extensions && r.req.uri == Some("/user/get/42")
    ensures CanExtract(StateAndPath(ty, I32), r)
    ensures FromRequest(StateAndPath(ty, I32), r) == Failure(())
  {
    UserGet42Spelling();
    UserGet42PathRefusesI32(ty, r);
  }

  // ---------------------------------------------------------------------
  // Extract, ExtractService, ExtractResponse
  // ---------------------------------------------------------------------

  /** The service an extractor feeds: it receives the extracted tuple and the request. */
  type Inner = (seq<Arg>, ServiceRequest) -> ServiceResult

  /** `Extract::new` / `ExtractService`: an extractor in front of an inner service. */
  datatype ExtractService = ExtractService(extractor: Extractor, inner: Inner)

  /** `Extract::new_service`: building the service always succeeds and keeps the inner service. */
  function NewService(x: Extractor, inner: Inner): (r: Result<ExtractService, ()>)
    ensures r.Success? && r.value.extractor == x && r.value.inner == inner
  {
    Success(ExtractService(x, inner))
  }

  /**
   * `ExtractService::call` resolved through `ExtractResponse::poll`: a
   * failed extraction answers `Err(())`; otherwise the inner service gets
   * the tuple and the same request, and its answer is passed on.
   */
  function Call(s: ExtractService, r: ServiceRequest): ServiceResult
    requires CanExtract(s.extractor, r)
  {
    match FromRequest(s.extractor, r)
    case Failure(_) => Failure(())
    case Success(args) => s.inner(args, r)
  }

  /**
   * The two outcomes of the pipeline: with a failed extraction the inner
   * service is not consulted (any other inner service answers the same),
   * and otherwise its answer to the extracted tuple is the answer.
   */
  lemma CallSpec(s: ExtractService, other: Inner, r: ServiceRequest)
    requires CanExtract(s.extractor, r)
    ensures FromRequest(s.extractor, r).Failure? ==>
      Call(s, r) == Failure(()) && Call(s.(inner := other), r) == Call(s, r)
    ensures FromRequest(s.extractor, r).Success? ==>
      Call(s, r) == s.inner(FromRequest(s.extractor, r).value, r)
  {
  }
}
