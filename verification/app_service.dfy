/**
 * Building the application's service: every entry registered in order,
 * and the route table keyed by the names the registrations carry.
 */
module AppService {
  import opened Wrappers
  import Extract
  import Route
  import Service
  import App

  /** The entries registered one after another, in order. */
  function RegisterAll(entries: seq<Service.Entry>, services: seq<Route.FinalRouteService>): seq<Route.FinalRouteService>
    decreases |entries|
  {
    if |entries| == 0 then services
    else RegisterAll(entries[1..], Service.RegisterEntry(entries[0], services).1)
  }

  /** Registering the entries keeps what was there and only appends. */
  lemma {:induction false} RegisterAllAppends(entries: seq<Service.Entry>, services: seq<Route.FinalRouteService>)
    ensures |RegisterAll(entries, services)| >= |services|
    ensures RegisterAll(entries, services)[..|services|] == services
    decreases |entries|
  {
    if |entries| > 0 {
      var next := Service.RegisterEntry(entries[0], services).1;
      Service.RegisterEntryAppends(entries[0], services);
      RegisterAllAppends(entries[1..], next);
      assert RegisterAll(entries, services)[..|services|] == RegisterAll(entries, services)[..|next|][..|services|];
    }
  }

  /** Routes alone register one service each, in order, named by their own paths. */
  lemma {:induction false} RegisterRoutes(entries: seq<Service.Entry>, services: seq<Route.FinalRouteService>)
    requires forall i :: 0 <= i < |entries| ==> entries[i].RouteEntry?
    ensures var s := RegisterAll(entries, services);
      && |s| == |services| + |entries|
      && s[..|services|] == services
      && forall i :: 0 <= i < |entries| ==> s[|services| + i].routeName == entries[i].route.path
    decreases |entries|
  {
    if |entries| > 0 {
      var next := Service.RegisterEntry(entries[0], services).1;
      RegisterRoutes(entries[1..], next);
      var s := RegisterAll(entries, services);
      assert s[..|services|] == s[..|next|][..|services|];
      forall i | 0 <= i < |entries|
        ensures s[|services| + i].routeName == entries[i].route.path
      {
        if i > 0 {
          assert entries[i] == entries[1..][i - 1];
          assert s[|services| + i] == s[|next| + (i - 1)];
        } else {
          assert s[|services|] == s[..|next|][|services|];
        }
      }
    }
  }

  /** The route table: each registration inserted by its name, so a later one replaces an earlier one. */
  function Table(services: seq<Route.FinalRouteService>): map<string, Route.FinalRouteService>
    decreases |services|
  {
    if |services| == 0 then map[]
    else
      var last := services[|services| - 1];
      Table(services[..|services| - 1])[last.routeName := last]
  }

  /** Some registration carries the name `k`. */
  predicate Named(services: seq<Route.FinalRouteService>, k: string) {
    exists i :: 0 <= i < |services| && services[i].routeName == k
  }

  /** Position `i` is the last registration carrying its name. */
  predicate LastNamed(services: seq<Route.FinalRouteService>, i: int) {
    0 <= i < |services| && forall j :: i < j < |services| ==> services[j].routeName != services[i].routeName
  }

  /** The table knows exactly the registered names. */
  lemma {:induction false} TableKeys(services: seq<Route.FinalRouteService>)
    ensures forall k :: k in Table(services) <==> Named(services, k)
    decreases |services|
  {
    if |services| > 0 {
      var init := services[..|services| - 1];
      var last := services[|services| - 1];
      assert Table(services) == Table(init)[last.routeName := last];
      TableKeys(init);
      forall k
        ensures k in Table(services) <==> Named(services, k)
      {
        if k == last.routeName {
          assert services[|services| - 1].routeName == k;
        } else {
          if Named(services, k) {
            var i :| 0 <= i < |services| && services[i].routeName == k;
            assert init[i] == services[i];
          }
          if Named(init, k) {
            var i :| 0 <= i < |init| && init[i].routeName == k;
            assert services[i] == init[i];
          }
        }
      }
    }
  }

  /** Each name leads to the last registration that carried it. */
  lemma {:induction false} TableLast(services: seq<Route.FinalRouteService>, i: int)
    requires LastNamed(services, i)
    ensures services[i].routeName in Table(services) && Table(services)[services[i].routeName] == services[i]
    decreases |services|
  {
    var init := services[..|services| - 1];
    var last := services[|services| - 1];
    assert Table(services) == Table(init)[last.routeName := last];
    if i < |init| {
      assert services[i].routeName != last.routeName;
      assert init[i] == services[i];
      assert LastNamed(init, i) by {
        forall j | i < j < |init|
          ensures init[j].routeName != init[i].routeName
        {
          assert init[j] == services[j];
        }
      }
      TableLast(init, i);
    }
  }

  /** A later registration under a name replaces the table's entry for it, and nothing else changes. */
  lemma LastWriterWins(services: seq<Route.FinalRouteService>, f: Route.FinalRouteService)
    ensures Table(services + [f])[f.routeName] == f
    ensures forall k :: k in Table(services) && k != f.routeName ==> k in Table(services + [f]) && Table(services + [f])[k] == Table(services)[k]
    ensures Table(services + [f]).Keys == Table(services).Keys + {f.routeName}
  {
    assert (services + [f])[..|services|] == services;
  }

  /** `AppHttpService`: the route table and the application's state. */
  datatype AppHttpService = AppHttpService(routes: map<string, Route.FinalRouteService>, extensions: Extract.Extensions)

  /**
   * `AppFactory::new_service`: take the entries (leaving none) and register
   * each in order, build the table, and take the state (an empty registry
   * when it was taken before). The factory is returned as the call leaves
   * it; the build always succeeds.
   */
  function NewService(f: App.AppFactory): (r: (App.AppFactory, Result<AppHttpService, ()>))
    ensures r.0.services == [] && r.0.extensions == None
    ensures r.1.Success?
    ensures r.1.value.routes == Table(RegisterAll(f.services, []))
    ensures r.1.value.extensions == f.extensions.GetOr(map[])
  {
    var registered := RegisterAll(f.services, []);
    (App.AppFactory([], None), Success(AppHttpService(Table(registered), f.extensions.GetOr(map[]))))
  }

  /** Building twice: the second build finds no entries and no state, so it has an empty table and registry. */
  lemma NewServiceTwice(f: App.AppFactory)
    ensures var second := NewService(NewService(f).0).1;
      second == Success(AppHttpService(map[], map[]))
  {
  }

  /** Routes alone: registration `i` is named by route `i`'s path. */
  lemma RouteNameAt(entries: seq<Service.Entry>, i: int)
    requires forall i :: 0 <= i < |entries| ==> entries[i].RouteEntry?
    requires 0 <= i < |entries|
    ensures |RegisterAll(entries, [])| == |entries|
    ensures RegisterAll(entries, [])[i].routeName == entries[i].route.path
  {
    RegisterRoutes(entries, []);
    assert RegisterAll(entries, [])[0 + i] == RegisterAll(entries, [])[i];
  }

  /** Routes alone: a name is registered exactly when some route has it as its path. */
  lemma RoutesNamed(entries: seq<Service.Entry>)
    requires forall i :: 0 <= i < |entries| ==> entries[i].RouteEntry?
    ensures forall k :: Named(RegisterAll(entries, []), k) <==> exists i :: 0 <= i < |entries| && entries[i].route.path == k
  {
    forall k
      ensures Named(RegisterAll(entries, []), k) <==> exists i :: 0 <= i < |entries| && entries[i].route.path == k
    {
      var registered := RegisterAll(entries, []);
      RegisterRoutes(entries, []);
      if Named(registered, k) {
        var i :| 0 <= i < |registered| && registered[i].routeName == k;
        RouteNameAt(entries, i);
      }
      if exists i :: 0 <= i < |entries| && entries[i].route.path == k {
        var i :| 0 <= i < |entries| && entries[i].route.path == k;
        RouteNameAt(entries, i);
      }
    }
  }

  /** The table built from an application's routes knows exactly the routes' paths. */
  lemma NewServiceRoutes(a: App.App)
    requires forall i :: 0 <= i < |a.services| ==> a.services[i].RouteEntry?
    ensures var table := NewService(App.IntoFactory(a)).1.value.routes;
      forall k :: k in table <==> exists i :: 0 <= i < |a.services| && a.services[i].route.path == k
  {
    TableKeys(RegisterAll(a.services, []));
    RoutesNamed(a.services);
  }

  /** `AppHttpService::call`: always `Ok(())`. */
  function Call(s: AppHttpService): (r: Result<(), ()>)
    ensures r.Success?
  {
    Success(())
  }
}
