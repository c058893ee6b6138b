/**
 * Handlers: a user function behind the `Factory` arity adapters, run as
 * the service an extractor feeds.
 *
 * The user function is the application's own code, so it is a parameter:
 * a function value of one of the three arities the adapters accept.
 */
module Handler {
  import opened Wrappers
  import opened Extract
  import Responder

  /** A user function taking no, one or two arguments. */
  datatype UserFn =
    | Nullary(f0: () -> Responder.Returned)
    | Unary(f1: Arg -> Responder.Returned)
    | Binary(f2: (Arg, Arg) -> Responder.Returned)

  function Arity(f: UserFn): nat {
    match f
    case Nullary(_) => 0
    case Unary(_) => 1
    case Binary(_) => 2
  }

  /** `Factory::call`: the tuple's components, in order, as the function's arguments. */
  function Apply(f: UserFn, param: seq<Arg>): Responder.Returned
    requires |param| == Arity(f)
  {
    match f
    case Nullary(g) => g()
    case Unary(g) => g(param[0])
    case Binary(g) => g(param[0], param[1])
  }

  /** Each adapter passes the components positionally: the first to the first parameter, and so on. */
  lemma ApplyPositional(f: UserFn, a: Arg, b: Arg)
    ensures f.Nullary? ==> Apply(f, []) == f.f0()
    ensures f.Unary? ==> Apply(f, [a]) == f.f1(a)
    ensures f.Binary? ==> Apply(f, [a, b]) == f.f2(a, b) && Apply(f, [b, a]) == f.f2(b, a)
  {
  }

  /**
   * The size of the tuple an extractor produces, when it produces a tuple
   * at all: a bare `String` or `Data<T>` is not a tuple, so no adapter
   * accepts it.
   */
  function TupleWidth(x: Extractor): Option<nat> {
    match x
    case Unit => Some(0)
    case BlankText => Some(1)
    case UriText => None
    case StateOf(_) => None
    case StateTuple(_) => Some(1)
    case StateAndText(_) => Some(2)
    case StateAndPath(_, _) => Some(2)
  }

  /** An extractor can feed a function exactly when its tuple has the function's arity (a type check in the source). */
  predicate Fits(x: Extractor, f: UserFn) {
    TupleWidth(x) == Some(Arity(f))
  }

  /** Extraction yields a tuple of the extractor's width. */
  lemma FromRequestWidth(x: Extractor, r: ServiceRequest)
    requires CanExtract(x, r) && TupleWidth(x).Some?
    ensures FromRequest(x, r).Success? ==> |FromRequest(x, r).value| == TupleWidth(x).value
  {
  }

  /** `Handler`: the user function it wraps. */
  datatype HandlerService = HandlerService(factory: UserFn)

  /** `Handler::new`. */
  function New(f: UserFn): (h: HandlerService)
    ensures h.factory == f
  {
    HandlerService(f)
  }

  /** `Clone for Handler`: the same function. */
  function Clone(h: HandlerService): (c: HandlerService)
    ensures c.factory == h.factory
  {
    HandlerService(h.factory)
  }

  /**
   * `Handler::call` resolved through `HandlerServiceResponse::poll`: the
   * request is dropped, the function runs on the tuple, and its value is
   * turned into a response by its responder.
   */
  function Call(h: HandlerService, param: seq<Arg>, r: ServiceRequest): ServiceResult
    requires |param| == Arity(h.factory)
  {
    Success(Responder.Respond(Apply(h.factory, param)))
  }

  /** The handler stage never fails, and the request has no say in its answer. */
  lemma CallSpec(h: HandlerService, param: seq<Arg>, r1: ServiceRequest, r2: ServiceRequest)
    requires |param| == Arity(h.factory)
    ensures Call(h, param, r1).Success?
    ensures Call(h, param, r1).value == Responder.Respond(Apply(h.factory, param))
    ensures Call(h, param, r1) == Call(h, param, r2)
  {
  }

  /**
   * The handler as an extractor's inner service. A tuple of the wrong size
   * cannot reach it in the source (the types forbid it); the model answers
   * it with the bare error, and `ServeFitting` shows that branch unused.
   */
  function Serve(h: HandlerService): Inner {
    (param: seq<Arg>, r: ServiceRequest) =>
      if |param| == Arity(h.factory) then Call(h, param, r) else Failure(())
  }

  /**
   * The extract-then-handle pipeline when the extractor fits the function:
   * a failed extraction is the only failure, and otherwise the answer is
   * the function's value on the extracted tuple, through its responder.
   */
  lemma ServeFitting(x: Extractor, h: HandlerService, r: ServiceRequest)
    requires Fits(x, h.factory) && CanExtract(x, r)
    ensures var out := Extract.Call(ExtractService(x, Serve(h)), r);
      && (out.Failure? <==> FromRequest(x, r).Failure?)
      && (FromRequest(x, r).Success? ==>
            |FromRequest(x, r).value| == Arity(h.factory)
            && out == Success(Responder.Respond(Apply(h.factory, FromRequest(x, r).value))))
  {
    FromRequestWidth(x, r);
  }
}
