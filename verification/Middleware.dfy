/**
 * Middleware as the servers compose it: a handler transforms the shared world and either
 * returns or panics, a middleware wraps a handler, and a chain is a right fold with the
 * outermost middleware first.
 */
module Middleware {
  import opened Wrappers
  import TB = TokenBucket

  /** What errors.As finds when there is a kratos error in the error's chain. */
  datatype Kratos = Kratos(code: int, reason: string)

  datatype Error = Error(kratos: Option<Kratos>, msg: string)

  datatype Transport = Transport(kind: string, op: string, header: map<string, string>)

  datatype Claims = Claims(subject: string)

  /** One request: its transport, if any, what the chain has put in the context, and the clock. */
  datatype Ctx = Ctx(
    transport: Option<Transport>,
    traceId: string,
    claims: Option<Claims>,
    peer: string,
    now: int,
    newId: string)

  function Kind(c: Ctx): string { if c.transport.Some? then c.transport.value.kind else "" }

  function Op(c: Ctx): string { if c.transport.Some? then c.transport.value.op else "" }

  function Header(c: Ctx, name: string): string {
    if c.transport.Some? && name in c.transport.value.header then c.transport.value.header[name] else ""
  }

  type Label = (string, string, string)

  datatype AccessLine = AccessLine(kind: string, op: string, code: string)

  /** The counters, and the access log. */
  datatype Metrics = Metrics(
    requests: map<Label, nat>,
    latency: map<(string, string), nat>,
    panics: map<string, nat>,
    access: seq<AccessLine>)

  /** Whatever else handlers work on. */
  type App(!new)

  /** How often the route's handler was entered, ran to its end, and the error encoder ran. */
  datatype Served = Served(started: nat, completed: nat, encoded: nat)

  datatype World = World(metrics: Metrics, buckets: map<string, TB.Limiter>, app: App, served: Served)

  type Result = Outcome<string, Error>

  type Handler = (World, Ctx) -> (World, Result)

  type Middleware = Handler -> Handler

  function Fail(e: Error): Result { Return(None, Some(e)) }

  function Chain(mws: seq<Middleware>, h: Handler): Handler {
    if mws == [] then h else mws[0](Chain(mws[1..], h))
  }

  lemma {:induction false} ChainConcat(a: seq<Middleware>, b: seq<Middleware>, h: Handler)
    ensures Chain(a + b, h) == Chain(a, Chain(b, h))
  {
    if a == [] {
      assert a + b == b;
    } else {
      ChainConcat(a[1..], b, h);
      assert (a + b)[1..] == a[1..] + b;
    }
  }

  // ----- middlewares that pass or reject

  /** What a pass-or-reject middleware does before the next handler. */
  datatype Pre = Go(world: World, ctx: Ctx) | Reject(world: World, error: Error) | Blow(world: World)

  datatype Gate = Gate(pre: (World, Ctx) -> Pre, post: (World, Ctx, Result) -> World)

  /** Either an error without calling next, or one call of next and its very result; a panic skips the rest. */
  function RunGate(g: Gate, next: Handler, w: World, c: Ctx): (World, Result) {
    match g.pre(w, c)
    case Reject(w', e) => (w', Fail(e))
    case Blow(w') => (w', Panic)
    case Go(w', c') =>
      var (w'', out) := next(w', c');
      (if out.Return? then g.post(w'', c, out) else w'', out)
  }

  ghost predicate IsGate(mw: Middleware, g: Gate) {
    forall next: Handler, w, c :: mw(next)(w, c) == RunGate(g, next, w, c)
  }

  /** The gate itself neither serves the route nor encodes errors. */
  ghost predicate LeavesServed(g: Gate) {
    && (forall w, c :: g.pre(w, c).world.served == w.served)
    && (forall w, c, out :: g.post(w, c, out).served == w.served)
  }

  ghost predicate NeverBlows(g: Gate) { forall w, c :: !g.pre(w, c).Blow? }

  ghost predicate AreGates(mws: seq<Middleware>, gs: seq<Gate>) {
    && |mws| == |gs|
    && forall i | 0 <= i < |mws| :: IsGate(mws[i], gs[i]) && LeavesServed(gs[i])
  }

  /** What a chain of gates hands to the handler behind it, if it lets the request through. */
  function Through(gs: seq<Gate>, w: World, c: Ctx): Option<(World, Ctx)> {
    if gs == [] then Some((w, c))
    else
      match gs[0].pre(w, c)
      case Go(w', c') => Through(gs[1..], w', c')
      case _ => None
  }

  /**
   * A chain of gates comes out exactly as the handler behind it does, if it lets the request
   * through, and never as a crash if it does not.
   */
  lemma {:induction false} GatesPassOutcome(mws: seq<Middleware>, gs: seq<Gate>, next: Handler, w: World, c: Ctx)
    requires AreGates(mws, gs)
    ensures match Through(gs, w, c)
            case None => !Chain(mws, next)(w, c).1.Crash?
            case Some(got) => Chain(mws, next)(w, c).1 == next(got.0, got.1).1
    decreases |mws|
  {
    if mws != [] {
      assert IsGate(mws[0], gs[0]);
      var rest := Chain(mws[1..], next);
      assert Chain(mws, next)(w, c) == RunGate(gs[0], rest, w, c);
      var p := gs[0].pre(w, c);
      if p.Go? {
        GatesPassOutcome(mws[1..], gs[1..], next, p.world, p.ctx);
      }
    }
  }

  // ----- serving an HTTP route

  /** A raw http.HandlerFunc: it changes the world and may panic. It does not touch the tallies. */
  type Route = (World, Ctx) -> (World, bool)

  ghost predicate LeavesServedRoute(h: Route) { forall w, c :: h(w, c).0.served == w.served }

  /** The innermost handler: run the route, return no reply and no error. */
  function RouteHandler(h: Route): Handler {
    (w: World, c: Ctx) =>
      var (w', panicked) := h(w.(served := w.served.(started := w.served.started + 1)), c);
      if panicked then (w', Panic)
      else (w'.(served := w'.served.(completed := w'.served.completed + 1)), Return(None, None))
  }

  function Encode(w: World): World { w.(served := w.served.(encoded := w.served.encoded + 1)) }

  /** wrapHandler, and whether a panic got past it. */
  function WrapHandler(mws: seq<Middleware>, h: Route, w: World, c: Ctx): (World, bool) {
    var (w', out) := Chain(mws, RouteHandler(h))(w, c);
    if !out.Return? then (w', true)
    else if mws == [] then (w', false)
    else (if out.err.Some? then Encode(w') else w', false)
  }

  /** What a chain of gates may have done to the tallies, given how it came out. */
  ghost predicate Tallied(before: Served, after: Served, out: Result) {
    && after.encoded == before.encoded
    && match out
       case Crash => false
       case Panic =>
         after.completed == before.completed && before.started <= after.started <= before.started + 1
       case Return(_, None) =>
         after.completed == before.completed + 1 && after.started == before.started + 1
       case Return(_, Some(_)) =>
         after.completed == before.completed && after.started == before.started
  }

  /** A handler of which this holds keeps the tallies whatever the request. */
  ghost predicate Tallies(h: Handler) {
    forall w: World, c: Ctx :: Tallied(w.served, h(w, c).0.served, h(w, c).1)
  }

  ghost predicate Calm(h: Handler) { forall w, c :: h(w, c).1.Return? }

  lemma GateTallies(mw: Middleware, g: Gate, next: Handler)
    requires IsGate(mw, g) && LeavesServed(g) && Tallies(next)
    ensures Tallies(mw(next))
  {
    forall w: World, c: Ctx ensures Tallied(w.served, mw(next)(w, c).0.served, mw(next)(w, c).1) {
      assert mw(next)(w, c) == RunGate(g, next, w, c);
      var p := g.pre(w, c);
      if p.Go? {
        assert Tallied(p.world.served, next(p.world, p.ctx).0.served, next(p.world, p.ctx).1);
      }
    }
  }

  lemma GateCalm(mw: Middleware, g: Gate, next: Handler)
    requires IsGate(mw, g) && NeverBlows(g) && Calm(next)
    ensures Calm(mw(next))
  {
    forall w, c ensures mw(next)(w, c).1.Return? {
      assert mw(next)(w, c) == RunGate(g, next, w, c);
    }
  }

  lemma {:induction false} GatesTally(mws: seq<Middleware>, gs: seq<Gate>, h: Handler)
    requires AreGates(mws, gs) && Tallies(h)
    ensures Tallies(Chain(mws, h))
    decreases |mws|
  {
    if mws != [] {
      GatesTally(mws[1..], gs[1..], h);
      GateTallies(mws[0], gs[0], Chain(mws[1..], h));
    }
  }

  lemma {:induction false} GatesCalm(mws: seq<Middleware>, gs: seq<Gate>, h: Handler)
    requires AreGates(mws, gs) && Calm(h)
    requires forall i | 0 <= i < |gs| :: NeverBlows(gs[i])
    ensures Calm(Chain(mws, h))
    decreases |mws|
  {
    if mws != [] {
      GatesCalm(mws[1..], gs[1..], h);
      assert NeverBlows(gs[0]);
      GateCalm(mws[0], gs[0], Chain(mws[1..], h));
    }
  }

  lemma RouteTallies(h: Route)
    requires LeavesServedRoute(h)
    ensures Tallies(RouteHandler(h))
  {}

  /**
   * For a chain of any length made of pass-or-reject middlewares, and a route that does not
   * panic, each request either runs the route once, to its end, or runs the error encoder once;
   * never both and never neither.
   */
  lemma ServedExactlyOnce(mws: seq<Middleware>, gs: seq<Gate>, h: Route, w: World, c: Ctx)
    requires AreGates(mws, gs) && (forall i | 0 <= i < |gs| :: NeverBlows(gs[i]))
    requires LeavesServedRoute(h) && Calm(RouteHandler(h))
    ensures var (w', panicked) := WrapHandler(mws, h, w, c);
            && !panicked
            && w'.served.started - w.served.started == w'.served.completed - w.served.completed
            && w'.served.completed + w'.served.encoded == w.served.completed + w.served.encoded + 1
            && w.served.completed <= w'.served.completed
            && w.served.encoded <= w'.served.encoded
  {
    RouteTallies(h);
    GatesTally(mws, gs, RouteHandler(h));
    GatesCalm(mws, gs, RouteHandler(h));
    var (w', out) := Chain(mws, RouteHandler(h))(w, c);
    assert Tallied(w.served, w'.served, out) && out.Return?;
  }
}
