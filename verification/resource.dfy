/**
 * Resources: a route under a scope prefix. Building one names the service
 * by the prefix followed by the route's path.
 */
module Resource {
  import Route

  datatype Resource = Resource(scope: string, route: Route.Route)

  /** `Resource::new`: the prefix, and a fresh route on the empty path. */
  function New(scope: string): (r: Resource)
    ensures r.scope == scope && r.route == Route.New("")
  {
    Resource(scope, Route.New(""))
  }

  /** `Resource::route`: the route is replaced, the prefix kept. */
  function WithRoute(res: Resource, route: Route.Route): (r: Resource)
    ensures r.scope == res.scope && r.route == route
  {
    res.(route := route)
  }

  /**
   * `Resource::new_service` resolved through `FinalFutureRouteService::poll`:
   * the route's built service, named by the prefix and the route's path
   * joined with nothing between them. The route's build cannot fail, so
   * the `unwrap` there never stops the server.
   */
  function NewService(res: Resource): (f: Route.FinalRouteService)
    ensures f.routeName == res.scope + res.route.path
    ensures f.service == Route.WrapperNewService(res.route.service).value
  {
    Route.FinalRouteService(Route.WrapperNewService(res.route.service).value, res.scope + res.route.path)
  }

  /** `Resource::register`: exactly one more service, the one `NewService` builds. */
  function Register(res: Resource, services: seq<Route.FinalRouteService>): (s: seq<Route.FinalRouteService>)
    ensures |s| == |services| + 1 && s[..|services|] == services
    ensures s[|services|] == NewService(res)
  {
    Route.AddService(services, NewService(res))
  }

  /**
   * A resource registers what its route registers on its own, except that
   * the name carries the prefix in front.
   */
  lemma RegisterLikeRoute(res: Resource, services: seq<Route.FinalRouteService>)
    ensures var viaResource := Register(res, services);
      var viaRoute := Route.Register(res.route, services);
      && |viaResource| == |viaRoute|
      && viaResource[..|services|] == viaRoute[..|services|]
      && viaResource[|services|].service == viaRoute[|services|].service
      && viaResource[|services|].routeName == res.scope + viaRoute[|services|].routeName
  {
  }

  /** With the empty prefix a resource registers exactly what its route does. */
  lemma EmptyScopeIsRoute(route: Route.Route, services: seq<Route.FinalRouteService>)
    ensures Register(WithRoute(New(""), route), services) == Route.Register(route, services)
  {
    var viaResource := Register(WithRoute(New(""), route), services);
    var viaRoute := Route.Register(route, services);
    assert "" + route.path == route.path;
    assert viaResource[|services|] == viaRoute[|services|];
    assert viaResource == viaResource[..|services|] + [viaResource[|services|]];
    assert viaRoute == viaRoute[..|services|] + [viaRoute[|services|]];
  }
}
