/**
 * The application builder: state registered by type, and the entries to
 * register when the application's service is built.
 */
module App {
  import opened Wrappers
  import Extract
  import Route
  import Router
  import Service

  datatype App = App(extensions: Extract.Extensions, services: seq<Service.Entry>)

  /** `App::new`: no state and no entries. */
  function New(): (a: App)
    ensures a.extensions == map[] && a.services == []
  {
    App(map[], [])
  }

  /**
   * `App::data`: the value becomes the state stored for its type (a later
   * value of the same type replaces it); entries are untouched.
   */
  function Data(a: App, ty: string, value: string): (b: App)
    ensures b.services == a.services
    ensures b.extensions.Keys == a.extensions.Keys + {ty} && b.extensions[ty] == value
    ensures forall t :: t in a.extensions && t != ty ==> b.extensions[t] == a.extensions[t]
  {
    a.(extensions := a.extensions[ty := value])
  }

  /** `App::app_data`: the same insertion under another name. */
  function AppData(a: App, ty: string, value: string): (b: App)
    ensures b == Data(a, ty, value)
  {
    a.(extensions := a.extensions[ty := value])
  }

  /** `App::route`: the route as one more entry at the end. */
  function WithRoute(a: App, route: Route.Route): (b: App)
    ensures b.extensions == a.extensions
    ensures b.services == a.services + [Service.RouteEntry(route)]
  {
    a.(services := a.services + [Service.RouteEntry(route)])
  }

  /**
   * `App::configure`: the entries the configuration closure collects, after
   * the existing ones and in their order. The closure is the application's
   * code, so what it collects is a parameter.
   */
  function Configure(a: App, collected: seq<Service.Entry>): (b: App)
    ensures b.extensions == a.extensions
    ensures |b.services| == |a.services| + |collected|
    ensures b.services[..|a.services|] == a.services && b.services[|a.services|..] == collected
  {
    a.(services := a.services + collected)
  }

  /** `App::routes`: the router's entries, after the existing ones and in their order. */
  function Routes(a: App, router: Router.Router): (b: App)
    ensures b.extensions == a.extensions
    ensures |b.services| == |a.services| + |router.services|
    ensures b.services[..|a.services|] == a.services && b.services[|a.services|..] == router.services
  {
    a.(services := a.services + router.services)
  }

  /** `AppFactory`: the entries still to register and the state not yet taken. */
  datatype AppFactory = AppFactory(services: seq<Service.Entry>, extensions: Option<Extract.Extensions>)

  /** `App::into_factory`: the entries in the same order, and the state made available once. */
  function IntoFactory(a: App): (f: AppFactory)
    ensures f.services == a.services && f.extensions == Some(a.extensions)
  {
    AppFactory(a.services, Some(a.extensions))
  }
}
