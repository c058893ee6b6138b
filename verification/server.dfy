/**
 * The HTTP server's dispatch: building the application's route table at
 * start-up, and answering a parsed request by exact lookup of its URI.
 *
 * The application closure is a parameter of the server (a function
 * value); sockets, request parsing and the accept loop are not modelled,
 * so a request arrives here already parsed. Answers are the response
 * records that `Response.Build` renders.
 */
module Server {
  import opened Wrappers
  import opened Status
  import Response
  import Extract
  import Handler
  import Responder
  import Route
  import App
  import AppService
  import Errors

  /** `ServerConfig`; the timeouts are whole seconds. */
  datatype ServerConfig = ServerConfig(port: U16, maxConnections: nat, readTimeout: nat, writeTimeout: nat)

  /** `Default for ServerConfig`. */
  function DefaultConfig(): (c: ServerConfig)
    ensures c.port == 3005 && c.maxConnections == 1000
    ensures c.readTimeout == 30 && c.writeTimeout == 30
  {
    ServerConfig(3005, 1000, 30, 30)
  }

  /** `HttpServer`: the application closure, the route table, the shared state and the settings. */
  datatype Server = Server(
    app: () -> App.App,
    routes: map<string, Route.FinalRouteService>,
    extensions: Extract.Extensions,
    config: ServerConfig)

  /** `HttpServer::new`: no routes and no state until the services are initialised. */
  function New(app: () -> App.App): (s: Server)
    ensures s.app == app && s.routes == map[] && s.extensions == map[]
    ensures s.config == DefaultConfig()
  {
    Server(app, map[], map[], DefaultConfig())
  }

  /** `HttpServer::with_config`: only the settings change. */
  function WithConfig(s: Server, config: ServerConfig): (t: Server)
    ensures t.config == config
    ensures t.app == s.app && t.routes == s.routes && t.extensions == s.extensions
  {
    s.(config := config)
  }

  const InitFailureMessage: string := "Failed to initialize app services."

  /**
   * The match at the end of `initialize_services`: a built service hands
   * over its table and state; a failed build leaves the server as it was
   * and reports an initialisation failure.
   */
  function Adopt(s: Server, built: Result<AppService.AppHttpService, ()>): (r: (Server, Result<(), Errors.ServerError>))
    ensures r.1.Success? <==> built.Success?
    ensures r.0.app == s.app && r.0.config == s.config
    ensures built.Success? ==> r.0.routes == built.value.routes && r.0.extensions == built.value.extensions
    ensures built.Failure? ==> r.0 == s && r.1.error == Errors.InitFailure(InitFailureMessage)
  {
    match built
    case Success(service) => (s.(routes := service.routes, extensions := service.extensions), Success(()))
    case Failure(_) => (s, Failure(Errors.InitFailure(InitFailureMessage)))
  }

  /** A failed build is reported with a fixed message after the initialisation label. */
  lemma AdoptFailureText(s: Server)
    ensures var e := Adopt(s, Failure(())).1;
      e.Failure? && Errors.StripPrefix(Errors.InitHead, Errors.ShowServer(e.error)) == Some(InitFailureMessage)
  {
    Errors.InitFailureReadsBack(InitFailureMessage);
  }

  /**
   * `initialize_services`: make the application, turn it into a factory,
   * build the service and adopt it. Building never fails, so neither does
   * this; the table holds the application's registrations by name and the
   * state is the application's.
   */
  function InitializeServices(s: Server): (r: (Server, Result<(), Errors.ServerError>))
    ensures r.1.Success?
    ensures r.0.app == s.app && r.0.config == s.config
    ensures r.0.routes == AppService.Table(AppService.RegisterAll(s.app().services, []))
    ensures r.0.extensions == s.app().extensions
  {
    Adopt(s, AppService.NewService(App.IntoFactory(s.app())).1)
  }

  /** An application made of routes alone gives a table whose keys are exactly the routes' paths. */
  lemma InitializedRoutes(s: Server)
    requires forall i :: 0 <= i < |s.app().services| ==> s.app().services[i].RouteEntry?
    ensures forall k :: k in InitializeServices(s).0.routes <==>
      exists i :: 0 <= i < |s.app().services| && s.app().services[i].route.path == k
  {
    AppService.NewServiceRoutes(s.app());
  }

  /** The request as the services see it: the parsed request and the server's state. */
  function ServiceRequestOf(s: Server, req: Extract.HttpRequest): (sr: Extract.ServiceRequest)
    ensures sr.req == req && sr.extensions == s.extensions
  {
    Extract.ServiceRequest(req, s.extensions)
  }

  /**
   * The service a request's URI selects, if any, finds what its extractor
   * unwraps (otherwise the source stops the server).
   */
  predicate Servable(s: Server, req: Extract.HttpRequest) {
    req.uri.Some? && req.uri.value in s.routes ==>
      Route.Ready(s.routes[req.uri.value].service, ServiceRequestOf(s, req))
  }

  /**
   * `execute_service`: call the selected service with the request and the
   * state; its response is the answer, and an error from it becomes a bare
   * 500. It never fails.
   */
  function ExecuteService(s: Server, f: Route.FinalRouteService, req: Extract.HttpRequest): (r: Result<Response.HttpResponse, Errors.ServerError>)
    requires Route.Ready(f.service, ServiceRequestOf(s, req))
    ensures r.Success?
    ensures Route.FinalCall(f, ServiceRequestOf(s, req)).Success? ==>
      r.value == Route.FinalCall(f, ServiceRequestOf(s, req)).value
    ensures Route.FinalCall(f, ServiceRequestOf(s, req)).Failure? ==>
      r.value == Response.WithOnlyStatus(InternalServerError)
  {
    match Route.FinalCall(f, ServiceRequestOf(s, req))
    case Success(resp) => Success(resp)
    case Failure(_) => Success(Response.WithOnlyStatus(InternalServerError))
  }

  /**
   * `handle_request`: a request without a URI is a handler error; a URI
   * that is a key of the table, exactly, goes to that service; any other
   * URI is answered with a bare 400.
   */
  function HandleRequest(s: Server, req: Extract.HttpRequest): Result<Response.HttpResponse, Errors.ServerError>
    requires Servable(s, req)
  {
    match req.uri
    case None => Failure(Errors.Handler(Errors.MissingUri))
    case Some(path) =>
      if path in s.routes then ExecuteService(s, s.routes[path], req)
      else Success(Response.WithOnlyStatus(BadRequest))
  }

  /** The only error a request can meet is a missing URI, and it reads as such. */
  lemma HandleRequestFails(s: Server, req: Extract.HttpRequest)
    requires Servable(s, req)
    ensures HandleRequest(s, req).Failure? <==> req.uri.None?
    ensures HandleRequest(s, req).Failure? ==>
      Errors.ShowServer(HandleRequest(s, req).error) == "Handler error: " + "Missing URI in request"
  {
  }

  /** A URI that is not a key of the table renders as a bare 400 status line. */
  lemma UnroutedAnswers400(s: Server, req: Extract.HttpRequest)
    requires req.uri.Some? && req.uri.value !in s.routes
    ensures HandleRequest(s, req).Success?
    ensures HandleRequest(s, req).value.status == BadRequest
    ensures Response.Build(HandleRequest(s, req).value, []) == "HTTP/1.1 400 Bad Request\r\n"
  {
    Response.BuildBadRequest();
  }

  /**
   * A URI that is a key goes to its service: the service's response is the
   * answer, and its error renders as a bare 500 status line.
   */
  lemma RoutedAnswers(s: Server, req: Extract.HttpRequest)
    requires req.uri.Some? && req.uri.value in s.routes && Servable(s, req)
    ensures var out := Route.FinalCall(s.routes[req.uri.value], ServiceRequestOf(s, req));
      && HandleRequest(s, req).Success?
      && (out.Success? ==> HandleRequest(s, req).value == out.value)
      && (out.Failure? ==> Response.Build(HandleRequest(s, req).value, []) == "HTTP/1.1 500 Internal Server Error\r\n")
  {
    Response.BuildInternalServerError();
  }

  /** The application with one route: GET on `p`, extracting nothing, answered by `g`. */
  function OneRouteApp(p: string, g: () -> Responder.Returned): (a: App.App)
    ensures |a.services| == 1 && a.services[0].RouteEntry? && a.services[0].route.path == p
  {
    App.WithRoute(App.New(), Route.To(Route.Get(p), Extract.Unit, Handler.Nullary(g)))
  }

  /** Initialising a server for the one-route application gives a table with that path alone. */
  lemma OneRouteTable(s: Server, p: string, g: () -> Responder.Returned)
    requires s.app() == OneRouteApp(p, g)
    ensures InitializeServices(s).0.routes.Keys == {p}
    ensures InitializeServices(s).0.routes[p].service.factory.extractor == Extract.Unit
    ensures InitializeServices(s).0.routes[p].service.factory.inner == Handler.Serve(Handler.New(Handler.Nullary(g)))
  {
    var entries := s.app().services;
    var registered := AppService.RegisterAll(entries, []);
    AppService.RegisterRoutes(entries, []);
    AppService.TableKeys(registered);
    assert registered[0].routeName == p;
    assert AppService.LastNamed(registered, 0);
    AppService.TableLast(registered, 0);
  }

  /** End to end: the one-route application answers its path with `g`'s value through its responder. */
  lemma OneRouteServes(s: Server, p: string, g: () -> Responder.Returned)
    requires s.app() == OneRouteApp(p, g)
    ensures var t := InitializeServices(s).0;
      Servable(t, Extract.HttpRequest(Some(p)))
      && HandleRequest(t, Extract.HttpRequest(Some(p))) == Success(Responder.Respond(g()))
  {
    OneRouteTable(s, p, g);
  }

  /** Lookup is by the exact text: every other URI gets the bare 400, however alike. */
  lemma OneRouteOtherPath(s: Server, p: string, g: () -> Responder.Returned, q: string)
    requires s.app() == OneRouteApp(p, g) && q != p
    ensures var t := InitializeServices(s).0;
      Servable(t, Extract.HttpRequest(Some(q)))
      && HandleRequest(t, Extract.HttpRequest(Some(q))) == Success(Response.WithOnlyStatus(BadRequest))
  {
    OneRouteTable(s, p, g);
  }

  /** A template-looking path is a plain key: `/user/get/42` does not reach `/user/get/:user_id`. */
  lemma TemplateIsNotMatched(s: Server, g: () -> Responder.Returned)
    requires s.app() == OneRouteApp("/user/get/:user_id", g)
    ensures var t := InitializeServices(s).0;
      Servable(t, Extract.HttpRequest(Some("/user/get/42")))
      && HandleRequest(t, Extract.HttpRequest(Some("/user/get/42"))) == Success(Response.WithOnlyStatus(BadRequest))
  {
    assert "/user/get/42"[10] != "/user/get/:user_id"[10];
    OneRouteOtherPath(s, "/user/get/:user_id", g, "/user/get/42");
  }
}
