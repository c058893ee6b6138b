/**
 * The server's `Router`: a list of entries collected by `route` and
 * `service`, handed to an application whole.
 */
module Router {
  import Route
  import Scope
  import Service

  datatype Router = Router(services: seq<Service.Entry>)

  /** `Router::new`: no entries. */
  function New(): (r: Router)
    ensures r.services == []
  {
    Router([])
  }

  /** `Router::route`: the route as one more entry at the end; earlier entries stay in place. */
  function WithRoute(r: Router, route: Route.Route): (t: Router)
    ensures |t.services| == |r.services| + 1
    ensures t.services[..|r.services|] == r.services
    ensures t.services[|r.services|] == Service.RouteEntry(route)
  {
    Router(r.services + [Service.RouteEntry(route)])
  }

  /** `Router::service`: the scope, in a fresh one-shot wrapper, as one more entry at the end. */
  function WithService(r: Router, s: Scope.Scope): (t: Router)
    ensures |t.services| == |r.services| + 1
    ensures t.services[..|r.services|] == r.services
    ensures t.services[|r.services|] == Service.WrappedEntry(Service.NewWrapper(s))
  {
    Router(r.services + [Service.WrappedEntry(Service.NewWrapper(s))])
  }
}
