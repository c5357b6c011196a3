/** The rewrite that puts the default-deny guard in front of every route of a router tree. */
module DefaultDeny {
  import opened Wrappers

  datatype Function = DefaultDenyGuard | Other(id: nat)

  /** A layer of a route's stack; one without a method runs for every method. */
  datatype Handler = Handler(on: Option<string>, run: Function)

  const GUARD: Handler := Handler(None, DefaultDenyGuard)
  const ALL: string := "_all"

  /** What a route holds: its stack and the keys of its methods object. */
  datatype Content = Content(handlers: seq<Handler>, methods: set<string>)

  predicate HasNoGuard(c: Content) {
    forall i :: 0 <= i < |c.handlers| ==> c.handlers[i].run != DefaultDenyGuard
  }

  /** The guard stands first, for every method, and nowhere else. */
  predicate GuardedOnce(c: Content) {
    c.handlers != [] && c.handlers[0] == GUARD && HasNoGuard(c.(handlers := c.handlers[1..]))
  }

  /** The guard in front; nothing else. */
  function WithGuard(c: Content): Content {
    c.(handlers := [GUARD] + c.handlers)
  }

  class Route {
    var handlers: seq<Handler>
    var methods: set<string>
    var guarded: bool

    constructor (content: Content)
      ensures Value() == content && !guarded
    {
      handlers, methods, guarded := content.handlers, content.methods, false;
    }

    ghost function Value(): Content
      reads this
    {
      Content(handlers, methods)
    }

    /** What the mark stands for. */
    ghost predicate WellMarked()
      reads this
    {
      if guarded then GuardedOnce(Value()) else HasNoGuard(Value())
    }

    // route.all(handler)
    method All(run: Function)
      modifies this`handlers, this`methods
      ensures handlers == old(handlers) + [Handler(None, run)] && methods == old(methods) + {ALL}
      ensures old(WellMarked()) && run != DefaultDenyGuard ==> WellMarked()
    {
      methods := methods + {ALL};
      handlers := handlers + [Handler(None, run)];
    }
  }

  /** A layer of a router: a route, a mounted router, or a plain middleware. */
  datatype Layer = RouteLayer(route: Route) | Mount(router: Router) | Middleware(run: Function)

  /** The same route or router may stand behind several layers. */
  datatype Router = Router(layers: seq<Layer>)

  /** The routes reachable through a list of layers. */
  ghost function Routes(layers: seq<Layer>): set<Route> {
    if layers == [] then {} else RoutesOfOne(layers[0]) + Routes(layers[1..])
  }

  ghost function RoutesOfOne(layer: Layer): set<Route> {
    match layer
    case RouteLayer(route) => {route}
    case Mount(router) => Routes(router.layers)
    case Middleware(_) => {}
  }

  lemma {:induction false} RoutesAppend(a: seq<Layer>, b: seq<Layer>)
    ensures Routes(a + b) == Routes(a) + Routes(b)
  {
    if a == [] {
      assert a + b == b;
    } else {
      RoutesAppend(a[1..], b);
      assert (a + b)[0] == a[0] && (a + b)[1..] == a[1..] + b;
    }
  }

  lemma {:induction false} RoutesStep(layers: seq<Layer>, i: nat)
    requires i < |layers|
    ensures Routes(layers[..i + 1]) == Routes(layers[..i]) + RoutesOfOne(layers[i])
    ensures RoutesOfOne(layers[i]) <= Routes(layers)
  {
    RoutesAppend(layers[..i], [layers[i]]);
    RoutesAppend(layers[..i + 1], layers[i + 1..]);
    assert layers[..i + 1] == layers[..i] + [layers[i]];
    assert layers == layers[..i + 1] + layers[i + 1..];
  }

  // ---------------------------------------------------------------- what a request meets

  /** The route takes a request of this method, HEAD falling back to GET. */
  predicate Handles(c: Content, on: string) {
    ALL in c.methods || (if on == "head" && "head" !in c.methods then "get" else on) in c.methods
  }

  /** The functions that run, one after the other as long as each calls next(). */
  function Chain(handlers: seq<Handler>, on: string): seq<Function> {
    if handlers == [] then []
    else
      (if handlers[0].on == None || handlers[0].on == Some(on) then [handlers[0].run] else [])
      + Chain(handlers[1..], on)
  }

  /** Exactly the handlers of every method and of this one run, in the order of the stack. */
  lemma {:induction false} ChainIsInOrder(a: seq<Handler>, h: Handler, b: seq<Handler>, on: string)
    ensures Chain(a + [h] + b, on)
            == Chain(a, on) + (if h.on.None? || h.on.value == on then [h.run] else []) + Chain(b, on)
  {
    if a == [] {
      assert (a + [h] + b)[1..] == b && (a + [h] + b)[0] == h;
    } else {
      ChainIsInOrder(a[1..], h, b, on);
      assert (a + [h] + b)[0] == a[0] && (a + [h] + b)[1..] == a[1..] + [h] + b;
    }
  }

  /** A request of this method meets the guard first, and only once. */
  predicate MeetsGuardFirst(c: Content, on: string) {
    var chain := Chain(c.handlers, on);
    chain != [] && chain[0] == DefaultDenyGuard && DefaultDenyGuard !in chain[1..]
  }

  lemma {:induction false} ChainHasNoGuard(handlers: seq<Handler>, on: string)
    requires forall i :: 0 <= i < |handlers| ==> handlers[i].run != DefaultDenyGuard
    ensures DefaultDenyGuard !in Chain(handlers, on)
  {
    if handlers != [] {
      ChainHasNoGuard(handlers[1..], on);
    }
  }

  lemma {:induction false} GuardedOnceMeets(c: Content, on: string)
    requires GuardedOnce(c)
    ensures MeetsGuardFirst(c, on) && Chain(c.handlers, on)[1..] == Chain(c.handlers[1..], on)
  {
    ChainHasNoGuard(c.handlers[1..], on);
    assert ([DefaultDenyGuard] + Chain(c.handlers[1..], on))[1..] == Chain(c.handlers[1..], on);
  }

  /** A guarded route takes the same requests; each meets the guard first, once, and then what it met before. */
  lemma {:induction false} GuardComesFirst(c: Content, on: string)
    requires HasNoGuard(c)
    ensures Handles(WithGuard(c), on) == Handles(c, on)
    ensures GuardedOnce(WithGuard(c)) && MeetsGuardFirst(WithGuard(c), on)
    ensures Chain(WithGuard(c).handlers, on) == [DefaultDenyGuard] + Chain(c.handlers, on)
  {
    assert WithGuard(c).handlers[1..] == c.handlers;
    GuardedOnceMeets(WithGuard(c), on);
  }

  // ---------------------------------------------------------------- the rewrite

  method GuardRoute(route: Route)
    modifies route
    ensures route.guarded && route.Value() == WithGuard(old(route.Value()))
  {
    var handlesAll := ALL in route.methods;
    route.All(DefaultDenyGuard);
    if !handlesAll { route.methods := route.methods - {ALL}; }
    var last := route.handlers[|route.handlers| - 1];
    route.handlers := [last] + route.handlers[..|route.handlers| - 1];
    route.guarded := true;
  }

  // `routes` is any set that holds the routes of the tree; the others in it keep what they hold.
  method ApplyDefaultDeny(router: Router, ghost routes: set<Route>)
    requires Routes(router.layers) <= routes
    modifies routes
    ensures forall r :: r in routes ==>
              if r in Routes(router.layers) && !old(r.guarded) then r.guarded && r.Value() == WithGuard(old(r.Value()))
              else r.guarded == old(r.guarded) && r.Value() == old(r.Value())
    ensures forall r :: r in Routes(router.layers) && old(r.WellMarked()) ==> r.guarded && GuardedOnce(r.Value())
    ensures forall r, on :: r in Routes(router.layers) && old(r.WellMarked()) ==> MeetsGuardFirst(r.Value(), on)
    decreases router
  {
    var layers := router.layers;
    for i := 0 to |layers|
      invariant forall r :: r in routes ==>
                  if r in Routes(layers[..i]) && !old(r.guarded)
                  then r.guarded && r.Value() == WithGuard(old(r.Value()))
                  else r.guarded == old(r.guarded) && r.Value() == old(r.Value())
    {
      RoutesStep(layers, i);
      match layers[i]
      case RouteLayer(route) => if !route.guarded { GuardRoute(route); }
      case Mount(sub) => ApplyDefaultDeny(sub, routes);
      case Middleware(_) =>
    }
    assert layers[..|layers|] == layers;
    forall r, on | r in Routes(layers) && old(r.WellMarked())
      ensures r.guarded && GuardedOnce(r.Value()) && MeetsGuardFirst(r.Value(), on)
    {
      if !old(r.guarded) { GuardComesFirst(old(r.Value()), on); }
      GuardedOnceMeets(r.Value(), on);
    }
  }

  // Applying the rewrite again changes nothing.
  method ApplyTwice(router: Router, ghost routes: set<Route>)
    requires Routes(router.layers) <= routes
    modifies routes
    ensures forall r :: r in routes ==>
              if r in Routes(router.layers) && !old(r.guarded) then r.guarded && r.Value() == WithGuard(old(r.Value()))
              else r.guarded == old(r.guarded) && r.Value() == old(r.Value())
  {
    ApplyDefaultDeny(router, routes);
    label Once:
    ApplyDefaultDeny(router, routes);
    assert forall r :: r in routes ==> r.guarded == old@Once(r.guarded) && r.Value() == old@Once(r.Value());
  }
}
