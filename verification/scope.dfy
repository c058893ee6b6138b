/**
 * Scopes: a path prefix and the resources registered under it, in the
 * order they were added.
 */
module Scope {
  import Route
  import Resource

  datatype Scope = Scope(prefix: string, services: seq<Resource.Resource>)

  /** Every resource of the scope carries the scope's prefix. */
  predicate UnderPrefix(s: Scope) {
    forall i :: 0 <= i < |s.services| ==> s.services[i].scope == s.prefix
  }

  /** `Scope::new`: the prefix and no services. */
  function New(prefix: string): (s: Scope)
    ensures s.prefix == prefix && s.services == [] && UnderPrefix(s)
  {
    Scope(prefix, [])
  }

  /** `Scope::route`: one more resource at the end, carrying the scope's prefix and the route. */
  function WithRoute(s: Scope, route: Route.Route): (t: Scope)
    ensures t.prefix == s.prefix
    ensures |t.services| == |s.services| + 1 && t.services[..|s.services|] == s.services
    ensures t.services[|s.services|] == Resource.Resource(s.prefix, route)
    ensures UnderPrefix(s) ==> UnderPrefix(t)
  {
    Scope(s.prefix, s.services + [Resource.WithRoute(Resource.New(s.prefix), route)])
  }

  /** The resources registered one after another, in order. */
  function RegisterAll(resources: seq<Resource.Resource>, services: seq<Route.FinalRouteService>): seq<Route.FinalRouteService>
    decreases |resources|
  {
    if |resources| == 0 then services
    else RegisterAll(resources[1..], Resource.Register(resources[0], services))
  }

  /**
   * Registering a list of resources keeps what was there and adds, in
   * order, the service each resource builds.
   */
  lemma {:induction false} RegisterAllSpec(resources: seq<Resource.Resource>, services: seq<Route.FinalRouteService>)
    ensures var s := RegisterAll(resources, services);
      && |s| == |services| + |resources|
      && s[..|services|] == services
      && forall i :: 0 <= i < |resources| ==> s[|services| + i] == Resource.NewService(resources[i])
    decreases |resources|
  {
    if |resources| > 0 {
      var next := Resource.Register(resources[0], services);
      RegisterAllSpec(resources[1..], next);
      var s := RegisterAll(resources, services);
      assert s == RegisterAll(resources[1..], next);
      assert s[..|services|] == s[..|next|][..|services|];
      forall i | 0 <= i < |resources|
        ensures s[|services| + i] == Resource.NewService(resources[i])
      {
        if i > 0 {
          assert resources[i] == resources[1..][i - 1];
          assert s[|services| + i] == s[|next| + (i - 1)];
        } else {
          assert s[|services|] == s[..|next|][|services|];
        }
      }
    }
  }

  /** `Scope::register` (consuming the scope): each resource, in insertion order. */
  function Register(s: Scope, services: seq<Route.FinalRouteService>): seq<Route.FinalRouteService> {
    RegisterAll(s.services, services)
  }

  /**
   * Registering a scope built by `new` and `route` adds one service per
   * route, in order, each named by the prefix followed by the route's path.
   */
  lemma RegisterNames(s: Scope, services: seq<Route.FinalRouteService>)
    requires UnderPrefix(s)
    ensures var r := Register(s, services);
      && |r| == |services| + |s.services|
      && r[..|services|] == services
      && forall i :: 0 <= i < |s.services| ==>
           r[|services| + i].routeName == s.prefix + s.services[i].route.path
  {
    RegisterAllSpec(s.services, services);
  }
}
