/**
 * Routes: a path, a method and the boxed service (an extractor in front of
 * a handler), the builders that make them, the layers that build and
 * forward to the service, and registration into the list of named
 * services.
 *
 * `FinalRouteService`, the named service registration produces, is
 * declared here next to the list that collects it.
 */
module Route {
  import opened Wrappers
  import Extract
  import Handler
  import Responder
  import Response

  datatype Method = GET | POST

  /** `RouteServiceWrapper(Extract(Handler(f)))`: what a route will build. */
  datatype Target = Target(extractor: Extract.Extractor, handler: Handler.HandlerService)

  /** The source's types let only an extractor that fits the handler's arity into a target. */
  predicate Valid(t: Target) {
    Handler.Fits(t.extractor, t.handler.factory)
  }

  datatype Route = Route(path: string, service: Target, verb: Method)

  /** `default`, the handler of a fresh route: it answers the empty text. */
  const DefaultFn: Handler.UserFn := Handler.Nullary(() => Responder.Plain(""))

  const DefaultTarget: Target := Target(Extract.Unit, Handler.New(DefaultFn))

  /** `Route::new`: the given path, GET, and the default handler. */
  function New(path: string): (r: Route)
    ensures r.path == path && r.verb == GET && r.service == DefaultTarget
    ensures Valid(r.service)
  {
    Route(path, DefaultTarget, GET)
  }

  /** `Route::to`: a new service around `f`; path and method stay. */
  function To(r: Route, x: Extract.Extractor, f: Handler.UserFn): (s: Route)
    requires Handler.Fits(x, f)
    ensures s.path == r.path && s.verb == r.verb
    ensures s.service.extractor == x && s.service.handler.factory == f && Valid(s.service)
  {
    r.(service := Target(x, Handler.New(f)))
  }

  /** `Route::method`: only the method changes. */
  function WithMethod(r: Route, m: Method): (s: Route)
    ensures s.verb == m && s.path == r.path && s.service == r.service
  {
    r.(verb := m)
  }

  /** `get` and `post`: a fresh route on the path with that method. */
  function Get(path: string): (r: Route)
    ensures r.path == path && r.verb == GET && r.service == DefaultTarget
  {
    WithMethod(New(path), GET)
  }

  function Post(path: string): (r: Route)
    ensures r.path == path && r.verb == POST && r.service == DefaultTarget
  {
    WithMethod(New(path), POST)
  }

  // ---------------------------------------------------------------------
  // Building and forwarding
  // ---------------------------------------------------------------------

  /** `RouteHandlerService`: the built extract service, boxed. */
  datatype RouteHandlerService = RouteHandlerService(factory: Extract.ExtractService)

  /** `RouteService`: a boxed route service. */
  datatype RouteService = RouteService(service: RouteHandlerService)

  /** `MakeFut::poll`: a build error stays a bare error; a built service is boxed unchanged. */
  function MakeFut(built: Result<Extract.ExtractService, ()>): (r: Result<RouteHandlerService, ()>)
    ensures r.Success? <==> built.Success?
    ensures r.Success? ==> r.value.factory == built.value
  {
    match built
    case Success(svc) => Success(RouteHandlerService(svc))
    case Failure(_) => Failure(())
  }

  /** `RouteFutureService::poll`: the same for the outer layer. */
  function RouteFuture(built: Result<RouteHandlerService, ()>): (r: Result<RouteService, ()>)
    ensures r.Success? <==> built.Success?
    ensures r.Success? ==> r.value.service == built.value
  {
    match built
    case Success(svc) => Success(RouteService(svc))
    case Failure(_) => Failure(())
  }

  /** `RouteServiceWrapper::new_service`: build the extract service and box it. */
  function WrapperNewService(t: Target): (r: Result<RouteHandlerService, ()>)
    ensures r.Success? && r.value.factory == Extract.ExtractService(t.extractor, Handler.Serve(t.handler))
  {
    MakeFut(Extract.NewService(t.extractor, Handler.Serve(t.handler)))
  }

  /** `Route::new_service`: building a route never fails. */
  function NewService(r: Route): (s: Result<RouteService, ()>)
    ensures s.Success? && s.value.service == WrapperNewService(r.service).value
  {
    RouteFuture(WrapperNewService(r.service))
  }

  predicate Ready(s: RouteHandlerService, req: Extract.ServiceRequest) {
    Extract.CanExtract(s.factory.extractor, req)
  }

  /** `RouteHandlerService::call` with `CallFut::poll`: the request goes in and the answer comes out unchanged. */
  function HandlerServiceCall(s: RouteHandlerService, req: Extract.ServiceRequest): Extract.ServiceResult
    requires Ready(s, req)
  {
    Extract.Call(s.factory, req)
  }

  /** `RouteService::call`: forwards to the boxed service. */
  function Call(s: RouteService, req: Extract.ServiceRequest): Extract.ServiceResult
    requires Ready(s.service, req)
  {
    HandlerServiceCall(s.service, req)
  }

  /**
   * A built route answers every request as its extractor and handler do:
   * the forwarding layers add and drop nothing.
   */
  lemma CallForwards(r: Route, req: Extract.ServiceRequest)
    requires Extract.CanExtract(r.service.extractor, req)
    ensures Ready(NewService(r).value.service, req)
    ensures Call(NewService(r).value, req)
         == Extract.Call(Extract.ExtractService(r.service.extractor, Handler.Serve(r.service.handler)), req)
  {
  }

  /**
   * What a route answers: the bare error exactly when extraction fails,
   * and otherwise its function's value through the responder.
   */
  lemma CallAnswers(r: Route, req: Extract.ServiceRequest)
    requires Valid(r.service) && Extract.CanExtract(r.service.extractor, req)
    ensures Ready(NewService(r).value.service, req)
    ensures var out := Call(NewService(r).value, req);
      var args := Extract.FromRequest(r.service.extractor, req);
      && (out.Failure? <==> args.Failure?)
      && (args.Success? ==>
            |args.value| == Handler.Arity(r.service.handler.factory)
            && out.value == Responder.Respond(Handler.Apply(r.service.handler.factory, args.value)))
  {
    Handler.ServeFitting(r.service.extractor, r.service.handler, req);
  }

  /** A fresh route answers every request with the empty text's response. */
  lemma DefaultAnswersEmpty(path: string, req: Extract.ServiceRequest)
    ensures Ready(NewService(New(path)).value.service, req)
    ensures Call(NewService(New(path)).value, req) == Success(Responder.Respond(Responder.Plain("")))
  {
    CallAnswers(New(path), req);
  }

  // ---------------------------------------------------------------------
  // Registration
  // ---------------------------------------------------------------------

  /** `FinalRouteService`: a built service and the name the route table will know it by. */
  datatype FinalRouteService = FinalRouteService(service: RouteHandlerService, routeName: string)

  /** `FinalRouteService::call`: forwards to the wrapped service. */
  function FinalCall(f: FinalRouteService, req: Extract.ServiceRequest): Extract.ServiceResult
    requires Ready(f.service, req)
  {
    HandlerServiceCall(f.service, req)
  }

  /** `RouteServices::service`: the registrations so far, in order. */
  function AddService(services: seq<FinalRouteService>, f: FinalRouteService): (r: seq<FinalRouteService>)
    ensures |r| == |services| + 1 && r[..|services|] == services && r[|services|] == f
  {
    services + [f]
  }

  /**
   * `Route::register`: exactly one more service, built from the route's
   * target and named by the route's own path, with no prefix.
   */
  function Register(r: Route, services: seq<FinalRouteService>): (s: seq<FinalRouteService>)
    ensures |s| == |services| + 1 && s[..|services|] == services
    ensures s[|services|].routeName == r.path
    ensures s[|services|].service == WrapperNewService(r.service).value
  {
    AddService(services, FinalRouteService(WrapperNewService(r.service).value, r.path))
  }
}
