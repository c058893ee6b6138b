/**
 * The registrable entries an application or router holds, and the one-shot
 * wrapper around a scope.
 */
module Service {
  import opened Wrappers
  import Route
  import Resource
  import Scope

  /** `ServiceFactoryWrapper<Scope>`: the scope until it has been registered. */
  datatype Wrapper = Wrapper(factory: Option<Scope.Scope>)

  /** `ServiceFactoryWrapper::new`. */
  function NewWrapper(s: Scope.Scope): (w: Wrapper)
    ensures w.factory == Some(s)
  {
    Wrapper(Some(s))
  }

  /**
   * `ServiceFactoryWrapper::register`: the first call takes the scope out
   * and registers it; from then on the wrapper is empty and registers
   * nothing.
   */
  function WrapperRegister(w: Wrapper, services: seq<Route.FinalRouteService>): (r: (Wrapper, seq<Route.FinalRouteService>))
    ensures r.0.factory == None
    ensures w.factory.None? ==> r.1 == services
    ensures w.factory.Some? ==> r.1 == Scope.Register(w.factory.value, services)
  {
    match w.factory
    case Some(s) => (Wrapper(None), Scope.Register(s, services))
    case None => (w, services)
  }

  /** Registering a wrapper a second time adds nothing: registration is idempotent. */
  lemma WrapperRegisterOnce(w: Wrapper, services: seq<Route.FinalRouteService>)
    ensures var (w1, s1) := WrapperRegister(w, services);
      WrapperRegister(w1, s1) == (w1, s1)
  {
  }

  /** A boxed `AppServiceFactory`: a route, a resource, or a wrapped scope. */
  datatype Entry =
    | RouteEntry(route: Route.Route)
    | ResourceEntry(resource: Resource.Resource)
    | WrappedEntry(wrapper: Wrapper)

  /** `AppServiceFactory::register` on an entry, returning the entry as the call leaves it. */
  function RegisterEntry(e: Entry, services: seq<Route.FinalRouteService>): (Entry, seq<Route.FinalRouteService>) {
    match e
    case RouteEntry(r) => (e, Route.Register(r, services))
    case ResourceEntry(res) => (e, Resource.Register(res, services))
    case WrappedEntry(w) =>
      var (w1, s1) := WrapperRegister(w, services);
      (WrappedEntry(w1), s1)
  }

  /**
   * Registering an entry keeps the services already there and appends
   * its own: one for a route or a resource, one per resource of a wrapped
   * scope the first time, none after that.
   */
  lemma RegisterEntryAppends(e: Entry, services: seq<Route.FinalRouteService>)
    ensures var s := RegisterEntry(e, services).1;
      && |s| >= |services| && s[..|services|] == services
      && (e.RouteEntry? || e.ResourceEntry? ==> |s| == |services| + 1)
      && (e.WrappedEntry? && e.wrapper.factory.Some? ==> |s| == |services| + |e.wrapper.factory.value.services|)
      && (e.WrappedEntry? && e.wrapper.factory.None? ==> s == services)
  {
    if e.WrappedEntry? && e.wrapper.factory.Some? {
      Scope.RegisterAllSpec(e.wrapper.factory.value.services, services);
    }
  }
}
