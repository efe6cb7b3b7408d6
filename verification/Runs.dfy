/** Whole runs of requests through the servers' chains. */
module Runs {
  import opened Wrappers
  import opened Middleware
  import opened Counters
  import opened Servers
  import TB = TokenBucket

  /** The world after these requests, one after the other. */
  function After(h: Handler, w: World, reqs: seq<Ctx>): World
    decreases |reqs|
  {
    if reqs == [] then w else h(After(h, w, reqs[..|reqs| - 1]), reqs[|reqs| - 1]).0
  }

  /** What each of these requests got. */
  function Outcomes(h: Handler, w: World, reqs: seq<Ctx>): (r: seq<Result>)
    ensures |r| == |reqs|
    decreases |reqs|
  {
    if reqs == [] then []
    else
      var before := reqs[..|reqs| - 1];
      Outcomes(h, w, before) + [h(After(h, w, before), reqs[|reqs| - 1]).1]
  }

  // ----- recovery

  /**
   * With recovery outermost, pass-or-reject middlewares behind it, and a route that may panic,
   * no panic leaves the server, and each request either ran the route to its end or had one
   * error encoded.
   */
  lemma RecoveryServesOnce(mws: seq<Middleware>, gs: seq<Gate>, h: Route, w: World, c: Ctx)
    requires AreGates(mws, gs) && LeavesServedRoute(h)
    ensures ServedOnce(w, WrapHandler([Recovery] + mws, h, w, c))
    ensures WrapHandler([Recovery] + mws, h, w, c).0.served.started <= w.served.started + 1
  {
    RouteTallies(h);
    GatesTally(mws, gs, RouteHandler(h));
    var inner := Chain(mws, RouteHandler(h));
    assert ([Recovery] + mws)[1..] == mws;
    assert Tallied(w.served, inner(w, c).0.served, inner(w, c).1);
  }

  /** Served to the end once, or one error encoded, and no panic out. */
  ghost predicate ServedOnce(before: World, after: (World, bool)) {
    && !after.1
    && after.0.served.completed + after.0.served.encoded == before.served.completed + before.served.encoded + 1
    && before.served.completed <= after.0.served.completed
    && before.served.encoded <= after.0.served.encoded
  }

  lemma GatesGrow(mws: seq<Middleware>, gs: seq<Gate>, mw: Middleware, g: Gate)
    requires AreGates(mws, gs) && GoodGate(mw, g)
    ensures AreGates(mws + [mw], gs + [g])
  {}

  lemma InstalledChainIsGates(auth: AuthOptions, limit: LimitOptions) returns (gs: seq<Gate>)
    ensures AreGates([Tracing, LogId, Access, Metric, Auth(auth), RateLimit(limit)], gs)
  {
    InstalledMiddlewaresAreGates(auth, limit);
    GatesGrow([], [], Tracing, TracingGate());
    gs := [] + [TracingGate()];
    GatesGrow([] + [Tracing], gs, LogId, LogIdGate());
    gs := gs + [LogIdGate()];
    GatesGrow([] + [Tracing] + [LogId], gs, Access, AccessGate());
    gs := gs + [AccessGate()];
    GatesGrow([] + [Tracing] + [LogId] + [Access], gs, Metric, MetricGate());
    gs := gs + [MetricGate()];
    GatesGrow([] + [Tracing] + [LogId] + [Access] + [Metric], gs, Auth(auth), AuthGate(auth));
    gs := gs + [AuthGate(auth)];
    GatesGrow([] + [Tracing] + [LogId] + [Access] + [Metric] + [Auth(auth)], gs, RateLimit(limit), RateLimitGate(limit));
    gs := gs + [RateLimitGate(limit)];
    assert [] + [Tracing] + [LogId] + [Access] + [Metric] + [Auth(auth)] + [RateLimit(limit)]
        == [Tracing, LogId, Access, Metric, Auth(auth), RateLimit(limit)];
  }

  /** The routes of a service with the default chain, auth and ratelimit are served this way. */
  lemma BizRoutesServedOnce(auth: AuthOptions, limit: LimitOptions, h: Route, w: World, c: Ctx)
    requires LeavesServedRoute(h)
    ensures ServedOnce(w, WrapHandler(DefaultChain() + [Auth(auth), RateLimit(limit)], h, w, c))
  {
    var gs := InstalledChainIsGates(auth, limit);
    var mws := [Tracing, LogId, Access, Metric, Auth(auth), RateLimit(limit)];
    assert DefaultChain() + [Auth(auth), RateLimit(limit)] == [Recovery] + mws;
    RecoveryServesOnce(mws, gs, h, w, c);
  }

  // ----- metrics and access log

  ghost predicate KeepsMetrics(h: Handler) { forall w, c :: h(w, c).0.metrics == w.metrics }

  /** One request as the observers see it: its kind, its op, and how the rest of the chain came out. */
  datatype Seen = Seen(kind: string, op: string, out: Result)

  /** What one request adds to the metrics and the log. */
  function Observe(m: Metrics, s: Seen): Metrics {
    match s.out
    case Crash => m
    case Panic => m.(panics := Inc(m.panics, s.op))
    case Return(_, err) =>
      Metrics(Inc(m.requests, (s.kind, s.op, MetricCode(err))),
              Inc(m.latency, (s.kind, s.op)),
              m.panics,
              m.access + [AccessLine(s.kind, s.op, AccessCode(err))])
  }

  function SeenBy(inner: Handler, w: World, c: Ctx): Seen { Seen(Kind(c), Op(c), inner(w, Traced(c)).1) }

  /** One request through the default chain: one observation, and a panic becomes the PANIC error. */
  function Observed(inner: Handler, w: World, c: Ctx): (World, Result) {
    var (v, got) := inner(w, Traced(c));
    (v.(metrics := Observe(v.metrics, Seen(Kind(c), Op(c), got))), if got.Panic? then Fail(ERR_PANIC) else got)
  }

  ghost predicate Observes(serve: Handler, inner: Handler) {
    forall w: World, c: Ctx :: serve(w, c) == Observed(inner, w, c)
  }

  lemma DefaultChainIs(inner: Handler)
    ensures Chain(DefaultChain(), inner) == Recovery(Tracing(LogId(Access(Metric(inner)))))
  {
    var d := DefaultChain();
    assert d[1..] == [Tracing, LogId, Access, Metric];
    assert d[1..][1..] == [LogId, Access, Metric];
    assert d[1..][1..][1..] == [Access, Metric];
    assert d[1..][1..][1..][1..] == [Metric];
    assert d[1..][1..][1..][1..][1..] == [];
  }

  /** The access line and the counters together are the observation of a request that returned. */
  lemma LogAndCount(v: World, c: Ctx, out: Result)
    requires out.Return?
    ensures Log(Count(v, c, out), c, out) == v.(metrics := Observe(v.metrics, Seen(Kind(c), Op(c), out)))
  {}

  lemma MetricAt(next: Handler, w: World, c: Ctx)
    ensures Metric(next)(w, c) == (Count(next(w, c).0, c, next(w, c).1), next(w, c).1)
  {}

  lemma AccessAt(next: Handler, w: World, c: Ctx)
    ensures Access(next)(w, c) == (Log(next(w, c).0, c, next(w, c).1), next(w, c).1)
  {}

  lemma LogIdAt(next: Handler, w: World, c: Ctx)
    ensures Tracing(LogId(next))(w, c) == next(w, Traced(c))
  {}

  lemma InnerFour(inner: Handler, w: World, c: Ctx)
    ensures Tracing(LogId(Access(Metric(inner))))(w, c) ==
            (Log(Count(inner(w, Traced(c)).0, Traced(c), inner(w, Traced(c)).1), Traced(c), inner(w, Traced(c)).1),
             inner(w, Traced(c)).1)
  {
    LogIdAt(Access(Metric(inner)), w, c);
    AccessAt(Metric(inner), w, Traced(c));
    MetricAt(inner, w, Traced(c));
  }

  lemma RecoveryAt(next: Handler, w: World, c: Ctx)
    ensures Recovery(next)(w, c) ==
            var (v, out) := next(w, c);
            if out.Panic? then (v.(metrics := v.metrics.(panics := Inc(v.metrics.panics, Op(c)))), Fail(ERR_PANIC))
            else (v, out)
  {}

  lemma RecoveredObserved(next: Handler, inner: Handler, w: World, c: Ctx)
    requires var (v, got) := inner(w, Traced(c));
             next(w, c) == (Log(Count(v, Traced(c), got), Traced(c), got), got)
    ensures Recovery(next)(w, c) == Observed(inner, w, c)
  {
    RecoveryAt(next, w, c);
    var (v, got) := inner(w, Traced(c));
    if got.Return? { LogAndCount(v, Traced(c), got); }
  }

  lemma FiveObserve(inner: Handler)
    ensures Observes(Recovery(Tracing(LogId(Access(Metric(inner))))), inner)
  {
    forall w: World, c: Ctx
      ensures Recovery(Tracing(LogId(Access(Metric(inner)))))(w, c) == Observed(inner, w, c)
    {
      InnerFour(inner, w, c);
      RecoveredObserved(Tracing(LogId(Access(Metric(inner)))), inner, w, c);
    }
  }

  /** The default chain observes every request once, whatever is behind it on the same goroutine. */
  lemma DefaultChainObserves(inner: Handler)
    ensures Observes(Chain(DefaultChain(), inner), inner)
  {
    DefaultChainIs(inner);
    FiveObserve(inner);
  }

  /** One more request counted and timed under these labels, and one more access line. */
  ghost predicate OneMore(m: Metrics, m': Metrics, kind: string, op: string, counted: string, logged: string) {
    && m'.panics == m.panics
    && m'.access == m.access + [AccessLine(kind, op, logged)]
    && (forall l :: Get(m'.requests, l) == Get(m.requests, l) + if l == (kind, op, counted) then 1 else 0)
    && (forall k :: Get(m'.latency, k) == Get(m.latency, k) + if k == (kind, op) then 1 else 0)
  }

  ghost predicate OnePanic(m: Metrics, m': Metrics, op: string) {
    && m' == m.(panics := m'.panics)
    && (forall k :: Get(m'.panics, k) == Get(m.panics, k) + if k == op then 1 else 0)
  }

  /** What the counters and the log keep of one outcome, in the terms of its error. */
  ghost predicate Recorded(m: Metrics, m': Metrics, kind: string, op: string, out: Result) {
    match out
    case Crash => m' == m
    case Panic => OnePanic(m, m', op)
    case Return(_, None) => OneMore(m, m', kind, op, "ok", "ok")
    case Return(_, Some(Error(None, _))) => OneMore(m, m', kind, op, "error", "error")
    case Return(_, Some(Error(Some(Kratos(_, reason)), _))) =>
      OneMore(m, m', kind, op, if reason == "" then "error" else reason, reason)
  }

  lemma ObserveRecords(m: Metrics, s: Seen)
    ensures Recorded(m, Observe(m, s), s.kind, s.op, s.out)
  {}

  /**
   * What the default chain makes of one request, in the terms of what its transport carries. The
   * handler sees the trace id of the x-trace-id header, or a new one, and the rest of the context
   * as it came. A reply is counted and logged as "ok", an error under its kratos reason or as
   * "error"; only the log keeps an empty reason. A panic is counted for the operation and becomes
   * the 500. Nothing else in the world is touched, and a crash is nobody's to touch.
   */
  lemma DefaultChainMeaning(inner: Handler, w: World, c: Ctx, kind: string, op: string, given: string)
    requires Carries(c, "x-trace-id", kind, op, given)
    ensures var (v, out) := inner(w, c.(traceId := if given != "" then given else c.newId));
            var (u, got) := Chain(DefaultChain(), inner)(w, c);
            && u == v.(metrics := u.metrics)
            && Recorded(v.metrics, u.metrics, kind, op, out)
            && got == (if out.Panic? then Return(None, Some(Error(Some(Kratos(500, "PANIC")), "handler panicked"))) else out)
  {
    DefaultChainObserves(inner);
    assert Chain(DefaultChain(), inner)(w, c) == Observed(inner, w, c);
    assert Traced(c) == c.(traceId := if given != "" then given else c.newId);
    var (v, out) := inner(w, Traced(c));
    ObserveRecords(v.metrics, Seen(kind, op, out));
  }

  function ObserveAll(m: Metrics, seen: seq<Seen>): Metrics
    decreases |seen|
  {
    if seen == [] then m else Observe(ObserveAll(m, seen[..|seen| - 1]), seen[|seen| - 1])
  }

  /** The part of the request counter that belongs to one kind and op. */
  function ForOp(m: map<Label, nat>, kind: string, op: string): map<Label, nat> {
    map l | l in m && l.0 == kind && l.1 == op :: m[l]
  }

  /** How many of these requests ended the process. */
  function Crashes(seen: seq<Seen>): nat
    decreases |seen|
  {
    if seen == [] then 0
    else Crashes(seen[..|seen| - 1]) + (if seen[|seen| - 1].out.Crash? then 1 else 0)
  }

  lemma {:induction false} OneCountEach(m: Metrics, seen: seq<Seen>)
    ensures var m' := ObserveAll(m, seen);
            Total(m'.requests) + Total(m'.panics) + Crashes(seen) == Total(m.requests) + Total(m.panics) + |seen|
    decreases |seen|
  {
    if seen != [] {
      var before, s := seen[..|seen| - 1], seen[|seen| - 1];
      OneCountEach(m, before);
      var m' := ObserveAll(m, before);
      match s.out
      case Crash =>
      case Panic => TotalInc(m'.panics, s.op);
      case Return(_, err) => TotalInc(m'.requests, (s.kind, s.op, MetricCode(err)));
    }
  }

  lemma {:induction false} LatencyPerOp(m: Metrics, seen: seq<Seen>, kind: string, op: string)
    ensures var m' := ObserveAll(m, seen);
            Get(m'.latency, (kind, op)) - Get(m.latency, (kind, op)) ==
            Total(ForOp(m'.requests, kind, op)) - Total(ForOp(m.requests, kind, op))
    decreases |seen|
  {
    if seen != [] {
      var before, s := seen[..|seen| - 1], seen[|seen| - 1];
      LatencyPerOp(m, before, kind, op);
      if s.out.Return? {
        ForOpInc(ObserveAll(m, before).requests, (s.kind, s.op, MetricCode(s.out.err)), kind, op);
      }
    }
  }

  lemma ForOpInc(m: map<Label, nat>, l: Label, kind: string, op: string)
    ensures Total(ForOp(Inc(m, l), kind, op)) ==
            Total(ForOp(m, kind, op)) + (if l.0 == kind && l.1 == op then 1 else 0)
  {
    if l.0 == kind && l.1 == op {
      assert ForOp(Inc(m, l), kind, op) == Inc(ForOp(m, kind, op), l);
      TotalInc(ForOp(m, kind, op), l);
    } else {
      assert ForOp(Inc(m, l), kind, op) == ForOp(m, kind, op);
    }
  }

  /** The access lines a counter label stands for: the log keeps an empty reason, the metric does not. */
  function Lines(access: seq<AccessLine>, l: Label): nat
    decreases |access|
  {
    if access == [] then 0
    else
      var a := access[|access| - 1];
      Lines(access[..|access| - 1], l)
      + (if l == (a.kind, a.op, if a.code == "" then "error" else a.code) then 1 else 0)
  }

  lemma LinesSnoc(access: seq<AccessLine>, a: AccessLine, l: Label)
    ensures Lines(access + [a], l) ==
            Lines(access, l) + (if l == (a.kind, a.op, if a.code == "" then "error" else a.code) then 1 else 0)
  {
    assert (access + [a])[..|access|] == access;
  }

  lemma {:induction false} CountersMatchLog(m: Metrics, seen: seq<Seen>, l: Label)
    ensures var m' := ObserveAll(m, seen);
            Get(m'.requests, l) - Get(m.requests, l) == Lines(m'.access, l) - Lines(m.access, l)
    decreases |seen|
  {
    if seen != [] {
      var before, s := seen[..|seen| - 1], seen[|seen| - 1];
      CountersMatchLog(m, before, l);
      if s.out.Return? {
        LinesSnoc(ObserveAll(m, before).access, AccessLine(s.kind, s.op, AccessCode(s.out.err)), l);
        SameLabel(s.out.err);
      }
    }
  }

  lemma SameLabel(err: Option<Error>)
    ensures MetricCode(err) == if AccessCode(err) == "" then "error" else AccessCode(err)
  {}

  /** What the observers saw of each request of a run. */
  ghost function SeenInRun(serve: Handler, inner: Handler, w: World, reqs: seq<Ctx>): (r: seq<Seen>)
    ensures |r| == |reqs|
    decreases |reqs|
  {
    if reqs == [] then []
    else
      var before := reqs[..|reqs| - 1];
      SeenInRun(serve, inner, w, before) + [SeenBy(inner, After(serve, w, before), reqs[|reqs| - 1])]
  }

  lemma {:induction false} RunObserves(serve: Handler, inner: Handler, w: World, reqs: seq<Ctx>)
    requires Observes(serve, inner) && KeepsMetrics(inner)
    ensures After(serve, w, reqs).metrics == ObserveAll(w.metrics, SeenInRun(serve, inner, w, reqs))
    decreases |reqs|
  {
    if reqs != [] {
      var before, c := reqs[..|reqs| - 1], reqs[|reqs| - 1];
      RunObserves(serve, inner, w, before);
      var seen := SeenInRun(serve, inner, w, reqs);
      assert seen[..|seen| - 1] == SeenInRun(serve, inner, w, before);
      var v := After(serve, w, before);
      assert serve(v, c) == Observed(inner, v, c);
    }
  }

  /**
   * Over any run through the default chain and any extras that leave the metrics alone, and
   * whatever the counters started from: every request that did not end the process is counted
   * once, as a request or as a panic; for each kind and op as many latencies were observed as
   * requests counted over all codes; and each request counter grew by the number of access lines
   * of its kind, op and code, lines with an empty reason counting as "error".
   */
  lemma MetricsAccountForRuns(extras: seq<Middleware>, h: Handler, w: World, reqs: seq<Ctx>,
                              kind: string, op: string, code: string)
    requires KeepsMetrics(Chain(extras, h))
    ensures var serve, inner := Chain(DefaultChain() + extras, h), Chain(extras, h);
            var m, m' := w.metrics, After(serve, w, reqs).metrics;
            && Total(m'.requests) + Total(m'.panics) + Crashes(SeenInRun(serve, inner, w, reqs)) ==
               Total(m.requests) + Total(m.panics) + |reqs|
            && Get(m'.latency, (kind, op)) - Get(m.latency, (kind, op)) ==
               Total(ForOp(m'.requests, kind, op)) - Total(ForOp(m.requests, kind, op))
            && Get(m'.requests, (kind, op, code)) - Get(m.requests, (kind, op, code)) ==
               Lines(m'.access, (kind, op, code)) - Lines(m.access, (kind, op, code))
  {
    ChainConcat(DefaultChain(), extras, h);
    var serve, inner := Chain(DefaultChain() + extras, h), Chain(extras, h);
    DefaultChainObserves(inner);
    var seen := SeenInRun(serve, inner, w, reqs);
    RunObserves(serve, inner, w, reqs);
    OneCountEach(w.metrics, seen);
    LatencyPerOp(w.metrics, seen, kind, op);
    CountersMatchLog(w.metrics, seen, (kind, op, code));
  }

  /** The two codes of a request differ exactly for kratos errors whose reason is empty. */
  lemma CodesAgreeIff(err: Option<Error>)
    ensures AccessCode(err) == MetricCode(err) <==>
            !(err.Some? && err.value.kratos.Some? && err.value.kratos.value.reason == "")
  {}

  // ----- which panics are contained

  /** Every outcome is a return, or the crash of what is behind the default chain. */
  lemma {:induction false} ObservedNeverPanics(serve: Handler, inner: Handler, w: World, reqs: seq<Ctx>)
    requires Observes(serve, inner)
    ensures forall i | 0 <= i < |reqs| :: !Outcomes(serve, w, reqs)[i].Panic?
    ensures NeverCrashes(inner) ==> forall i | 0 <= i < |reqs| :: Outcomes(serve, w, reqs)[i].Return?
    decreases |reqs|
  {
    if reqs != [] {
      var before := reqs[..|reqs| - 1];
      ObservedNeverPanics(serve, inner, w, before);
      var v, c := After(serve, w, before), reqs[|reqs| - 1];
      assert serve(v, c) == Observed(inner, v, c);
    }
  }

  ghost predicate NeverCrashes(h: Handler) { forall w: World, c: Ctx :: !h(w, c).1.Crash? }

  /** Over any run, extras and a handler that start no goroutine of their own leave no panic uncontained. */
  lemma NoPanicLeavesRun(extras: seq<Middleware>, h: Handler, w: World, reqs: seq<Ctx>)
    requires NeverCrashes(Chain(extras, h))
    ensures forall i | 0 <= i < |reqs| :: Outcomes(Chain(DefaultChain() + extras, h), w, reqs)[i].Return?
  {
    ChainConcat(DefaultChain(), extras, h);
    DefaultChainObserves(Chain(extras, h));
    ObservedNeverPanics(Chain(DefaultChain() + extras, h), Chain(extras, h), w, reqs);
  }

  lemma GatesNeverCrash(mws: seq<Middleware>, gs: seq<Gate>, h: Handler, w: World, c: Ctx)
    requires AreGates(mws, gs) && NeverCrashes(h)
    ensures !Chain(mws, h)(w, c).1.Crash?
  {
    GatesPassOutcome(mws, gs, h, w, c);
  }

  /** Where an active timeout puts the handler out of reach, for this request. */
  ghost predicate PanicsUnderTimeout(ga: seq<Gate>, o: TimeoutOptions, inner: Handler, w: World, c: Ctx) {
    match Through(ga, w, c)
    case None => false
    case Some(got) => TimeoutActive(o, got.1) && inner(got.0, got.1).1.Panic?
  }

  lemma TimeoutCrashIff(o: TimeoutOptions, late: Ctx -> bool, inner: Handler, w: World, c: Ctx)
    requires !inner(w, c).1.Crash?
    ensures Timeout(o, late)(inner)(w, c).1.Crash? <==> TimeoutActive(o, c) && inner(w, c).1.Panic?
  {}

  lemma BehindGatesCrashIff(a: seq<Middleware>, ga: seq<Gate>, o: TimeoutOptions, late: Ctx -> bool,
                            inner: Handler, w: World, c: Ctx)
    requires AreGates(a, ga) && NeverCrashes(inner)
    ensures Chain(a, Timeout(o, late)(inner))(w, c).1.Crash? <==> PanicsUnderTimeout(ga, o, inner, w, c)
  {
    GatesPassOutcome(a, ga, Timeout(o, late)(inner), w, c);
    match Through(ga, w, c)
    case None =>
    case Some(got) => TimeoutCrashIff(o, late, inner, got.0, got.1);
  }

  lemma ChainAround(a: seq<Middleware>, mw: Middleware, b: seq<Middleware>, h: Handler)
    ensures Chain(DefaultChain() + a + [mw] + b, h) == Chain(DefaultChain(), Chain(a, mw(Chain(b, h))))
  {
    ChainConcat(DefaultChain() + a + [mw], b, h);
    ChainConcat(DefaultChain() + a, [mw], Chain(b, h));
    OneMiddleware(mw, Chain(b, h));
    ChainConcat(DefaultChain(), a, mw(Chain(b, h)));
  }

  lemma OneMiddleware(mw: Middleware, h: Handler)
    ensures Chain([mw], h) == mw(h)
  {
    assert [mw][1..] == [];
  }

  /**
   * Exactly when a panic escapes the default chain. For a timeout anywhere among pass-or-reject
   * middlewares, a request ends the process if and only if the middlewares in front let it
   * through, the timeout is active for the operation it then has, and what is behind the timeout
   * panics on it. In every other case a reply or an error comes back.
   */
  lemma PanicEscapesIff(a: seq<Middleware>, ga: seq<Gate>, o: TimeoutOptions, late: Ctx -> bool,
                        b: seq<Middleware>, gb: seq<Gate>, h: Handler, w: World, c: Ctx)
    requires AreGates(a, ga) && AreGates(b, gb) && NeverCrashes(h)
    ensures var out := Chain(DefaultChain() + a + [Timeout(o, late)] + b, h)(w, c).1;
            && (out.Crash? <==> PanicsUnderTimeout(ga, o, Chain(b, h), w, Traced(c)))
            && (out.Return? <==> !PanicsUnderTimeout(ga, o, Chain(b, h), w, Traced(c)))
  {
    var behind := Chain(b, h);
    forall w', c' ensures !behind(w', c').1.Crash? { GatesNeverCrash(b, gb, h, w', c'); }
    ChainAround(a, Timeout(o, late), b, h);
    BehindGatesCrashIff(a, ga, o, late, behind, w, Traced(c));
    EscapeOfObserved(Chain(a, Timeout(o, late)(behind)), w, c);
  }

  lemma EscapeOfObserved(inner: Handler, w: World, c: Ctx)
    ensures var out := Chain(DefaultChain(), inner)(w, c).1;
            !out.Panic? && (out.Crash? <==> inner(w, Traced(c)).1.Crash?)
  {
    DefaultChainObserves(inner);
    assert Chain(DefaultChain(), inner)(w, c) == Observed(inner, w, c);
  }

  /** How a request ends, behind a timeout of this length, that its handler ends so. */
  function BehindTimeout(out: Result, timeout: int, skipped: bool, late: bool): Result {
    match out
    case Crash => Crash
    case Panic =>
      if timeout > 0 && !skipped then Crash
      else Return(None, Some(Error(Some(Kratos(500, "PANIC")), "handler panicked")))
    case Return(_, _) =>
      if timeout > 0 && !skipped && late then
        Return(None, Some(Error(Some(Kratos(504, "DEADLINE_EXCEEDED")), "handler exceeded configured timeout")))
      else out
  }

  /**
   * How every request ends, with a timeout anywhere among pass-or-reject middlewares. If those in
   * front let it through and the timeout is positive and does not skip its operation, then a
   * handler that wins the race gives its own reply and error, one that loses gives the 504, and
   * one that panics ends the process. Otherwise the timeout makes no difference at all.
   */
  lemma TimeoutInChain(a: seq<Middleware>, ga: seq<Gate>, o: TimeoutOptions, late: Ctx -> bool,
                       b: seq<Middleware>, h: Handler, w: World, c: Ctx, got: (World, Ctx),
                       kind: string, op: string, header: string)
    requires AreGates(a, ga) && Through(ga, w, Traced(c)) == Some(got) && Carries(got.1, "", kind, op, header)
    ensures Chain(DefaultChain() + a + [Timeout(o, late)] + b, h)(w, c).1 ==
            BehindTimeout(Chain(b, h)(got.0, got.1).1, o.timeout, o.skip(op), late(got.1))
  {
    var behind := Chain(b, h);
    ChainAround(a, Timeout(o, late), b, h);
    var inner := Chain(a, Timeout(o, late)(behind));
    GatesPassOutcome(a, ga, Timeout(o, late)(behind), w, Traced(c));
    DefaultChainObserves(inner);
    assert Chain(DefaultChain(), inner)(w, c) == Observed(inner, w, c);
    TimeoutAt(o, late, behind, got.0, got.1);
  }

  lemma TimeoutAt(o: TimeoutOptions, late: Ctx -> bool, next: Handler, w: World, c: Ctx)
    ensures Timeout(o, late)(next)(w, c) ==
            (next(w, c).0, if TimeoutActive(o, c) then Supervised(next(w, c).1, late(c)) else next(w, c).1)
  {}

  /** A handler that panics, behind nothing but an active timeout: recovery, outermost, does not see it. */
  lemma RecoveryMissesTimeout(w: World)
    ensures var panics: Handler := (w: World, c: Ctx) => (w, Panic);
            var timeout := Timeout(TimeoutOptions(1, (op: string) => false), (c: Ctx) => false);
            && Chain(DefaultChain() + [] + [timeout] + [], panics)(w, STRANGER).1.Crash?
            && Chain(DefaultChain(), panics)(w, STRANGER).1.Return?
  {
    var panics: Handler := (w: World, c: Ctx) => (w, Panic);
    var o, late := TimeoutOptions(1, (op: string) => false), (c: Ctx) => false;
    assert Chain([], panics) == panics;
    PanicEscapesIff([], [], o, late, [], [], panics, w, STRANGER);
    EscapeOfObserved(panics, w, STRANGER);
  }

  // ----- auth before ratelimit

  /** The requests auth lets through. */
  function Kept(o: AuthOptions, reqs: seq<Ctx>): seq<Ctx>
    decreases |reqs|
  {
    if reqs == [] then []
    else
      var c := reqs[|reqs| - 1];
      Kept(o, reqs[..|reqs| - 1]) + (if Authenticate(o, Traced(c)).Admit? then [c] else [])
  }

  /** Of a run's outcomes, those of the requests auth lets through. */
  function KeptOutcomes(o: AuthOptions, reqs: seq<Ctx>, outs: seq<Result>): seq<Result>
    requires |reqs| == |outs|
    decreases |reqs|
  {
    if reqs == [] then []
    else
      var n := |reqs| - 1;
      KeptOutcomes(o, reqs[..n], outs[..n]) + (if Authenticate(o, Traced(reqs[n])).Admit? then [outs[n]] else [])
  }

  /** The handler neither reads nor writes the metrics. */
  ghost predicate IgnoresMetrics(h: Handler) {
    forall w: World, c: Ctx, m: Metrics ::
      h(w.(metrics := m), c) == (h(w, c).0.(metrics := m), h(w, c).1)
  }

  /** The same world, as seen by handlers that ignore the metrics. */
  ghost predicate SameButMetrics(v: World, w: World) { v == w.(metrics := v.metrics) }

  lemma AuthIgnoresMetrics(o: AuthOptions, next: Handler)
    requires IgnoresMetrics(next)
    ensures IgnoresMetrics(Auth(o)(next))
  {
    forall w: World, c: Ctx, m: Metrics
      ensures Auth(o)(next)(w.(metrics := m), c) == (Auth(o)(next)(w, c).0.(metrics := m), Auth(o)(next)(w, c).1)
    {
      if Authenticate(o, c).Admit? {
        var c' := Authenticate(o, c).ctx;
        assert next(w.(metrics := m), c') == (next(w, c').0.(metrics := m), next(w, c').1);
      }
    }
  }

  lemma RateLimitIgnoresMetrics(o: LimitOptions, next: Handler)
    requires IgnoresMetrics(next)
    ensures IgnoresMetrics(RateLimit(o)(next))
  {
    forall w: World, c: Ctx, m: Metrics
      ensures RateLimit(o)(next)(w.(metrics := m), c)
              == (RateLimit(o)(next)(w, c).0.(metrics := m), RateLimit(o)(next)(w, c).1)
    {
      var spent := w.(buckets := TB.AllowKey(o.rate, w.buckets, o.key(c, Op(c)), c.now).1);
      assert w.(metrics := m).(buckets := spent.buckets) == spent.(metrics := m);
      assert next(spent.(metrics := m), c) == (next(spent, c).0.(metrics := m), next(spent, c).1);
      assert next(w.(metrics := m), c) == (next(w, c).0.(metrics := m), next(w, c).1);
    }
  }

  /** A service's auth and ratelimit leave the metrics alone, if what is behind them ignores them. */
  lemma ExtrasKeepMetrics(auth: AuthOptions, limit: LimitOptions, rest: Handler)
    requires IgnoresMetrics(rest)
    ensures KeepsMetrics(Auth(auth)(RateLimit(limit)(rest)))
  {
    RateLimitIgnoresMetrics(limit, rest);
    AuthIgnoresMetrics(auth, RateLimit(limit)(rest));
    IgnoringKeeps(Auth(auth)(RateLimit(limit)(rest)));
  }

  lemma IgnoringKeeps(h: Handler)
    requires IgnoresMetrics(h)
    ensures KeepsMetrics(h)
  {
    forall w: World, c: Ctx ensures h(w, c).0.metrics == w.metrics {
      assert w.(metrics := w.metrics) == w;
      assert h(w.(metrics := w.metrics), c) == (h(w, c).0.(metrics := w.metrics), h(w, c).1);
    }
  }

  lemma StepIgnoresMetrics(inner: Handler, v: World, w: World, c: Ctx)
    requires IgnoresMetrics(inner) && SameButMetrics(v, w)
    ensures SameButMetrics(Observed(inner, v, c).0, Observed(inner, w, c).0)
    ensures Observed(inner, v, c).1 == Observed(inner, w, c).1
  {
    assert inner(w.(metrics := v.metrics), Traced(c)) ==
           (inner(w, Traced(c)).0.(metrics := v.metrics), inner(w, Traced(c)).1);
  }

  /**
   * With auth in front of ratelimit, deleting from any run the requests auth refuses changes
   * neither the buckets nor anything else but the metrics, nor what any other request gets:
   * refused requests spend no tokens.
   */
  lemma RefusedRequestsSpendNothing(auth: AuthOptions, limit: LimitOptions, rest: Handler, w: World, reqs: seq<Ctx>)
    requires IgnoresMetrics(rest)
    ensures var serve := Chain(DefaultChain() + [Auth(auth), RateLimit(limit)], rest);
            && SameButMetrics(After(serve, w, reqs), After(serve, w, Kept(auth, reqs)))
            && After(serve, w, reqs).buckets == After(serve, w, Kept(auth, reqs)).buckets
            && KeptOutcomes(auth, reqs, Outcomes(serve, w, reqs)) == Outcomes(serve, w, Kept(auth, reqs))
  {
    var limited := RateLimit(limit)(rest);
    TwoExtras(Auth(auth), RateLimit(limit), rest);
    RateLimitIgnoresMetrics(limit, rest);
    AuthIgnoresMetrics(auth, limited);
    DefaultChainObserves(Auth(auth)(limited));
    AuthRefuses(auth, limited);
    DeletingRefused(auth, Chain(DefaultChain(), Auth(auth)(limited)), Auth(auth)(limited), w, reqs);
  }

  lemma TwoExtras(a: Middleware, b: Middleware, h: Handler)
    ensures Chain(DefaultChain() + [a, b], h) == Chain(DefaultChain(), a(b(h)))
  {
    ChainConcat(DefaultChain(), [a, b], h);
    assert [a, b][1..] == [b];
    assert [b][1..] == [];
    assert Chain([b], h) == b(Chain([], h));
    assert Chain([a, b], h) == a(Chain([b], h));
  }

  /** A handler that leaves the world alone for every request auth refuses. */
  ghost predicate Refuses(auth: AuthOptions, inner: Handler) {
    forall w: World, c: Ctx | Authenticate(auth, c).Refuse? :: inner(w, c) == (w, Fail(Authenticate(auth, c).error))
  }

  lemma AuthRefuses(auth: AuthOptions, next: Handler)
    ensures Refuses(auth, Auth(auth)(next))
  {}

  lemma {:induction false} DeletingRefused(auth: AuthOptions, serve: Handler, inner: Handler, w: World, reqs: seq<Ctx>)
    requires Observes(serve, inner) && IgnoresMetrics(inner) && Refuses(auth, inner)
    ensures SameButMetrics(After(serve, w, reqs), After(serve, w, Kept(auth, reqs)))
    ensures KeptOutcomes(auth, reqs, Outcomes(serve, w, reqs)) == Outcomes(serve, w, Kept(auth, reqs))
    decreases |reqs|
  {
    if reqs != [] {
      var before, c := reqs[..|reqs| - 1], reqs[|reqs| - 1];
      DeletingRefused(auth, serve, inner, w, before);
      var v, u := After(serve, w, before), After(serve, w, Kept(auth, before));
      assert serve(v, c) == Observed(inner, v, c) && serve(u, c) == Observed(inner, u, c);
      assert Outcomes(serve, w, reqs)[..|reqs| - 1] == Outcomes(serve, w, before);
      if Authenticate(auth, Traced(c)).Admit? {
        StepIgnoresMetrics(inner, v, u, c);
        RunSnoc(serve, w, Kept(auth, before), c);
      } else {
        RefusedIsUnobserved(auth, inner, v, c);
        assert Kept(auth, reqs) == Kept(auth, before);
      }
    }
  }

  lemma RunSnoc(h: Handler, w: World, reqs: seq<Ctx>, c: Ctx)
    ensures After(h, w, reqs + [c]) == h(After(h, w, reqs), c).0
    ensures Outcomes(h, w, reqs + [c]) == Outcomes(h, w, reqs) + [h(After(h, w, reqs), c).1]
  {
    assert (reqs + [c])[..|reqs|] == reqs;
  }

  lemma RefusedIsUnobserved(auth: AuthOptions, inner: Handler, v: World, c: Ctx)
    requires Refuses(auth, inner) && Authenticate(auth, Traced(c)).Refuse?
    ensures SameButMetrics(Observed(inner, v, c).0, v)
  {
    assert inner(v, Traced(c)) == (v, Fail(Authenticate(auth, Traced(c)).error));
  }

  // ----- the other order

  /** Lets only the operation "open" through. */
  const OPEN_ONLY := AuthOptions((c: Ctx, token: string) => NoClaims, (op: string) => op == "open", "authorization", "")

  /** One request, ever, for everybody together. */
  const ONE_SHOT := LimitOptions(TB.Config(0, 1), (c: Ctx, op: string) => "global", (op: string) => false)

  const STRANGER := Ctx(None, "", None, "", 0, "")

  const OPEN := STRANGER.(transport := Some(Transport("http", "open", map[])))

  lemma RateLimitAt(o: LimitOptions, next: Handler, w: World, c: Ctx)
    requires !o.skip(Op(c))
    ensures var (ok, buckets) := TB.AllowKey(o.rate, w.buckets, o.key(c, Op(c)), c.now);
            var w' := w.(buckets := buckets);
            RateLimit(o)(next)(w, c) == if ok then next(w', c) else (w', Fail(ERR_TOO_MANY_REQUESTS))
  {}

  /** With ratelimit in front of auth, a refused request does take the token of the next one. */
  lemma OtherOrderSpends(rest: Handler, w: World)
    requires w.buckets == map[]
    ensures var serve := RateLimit(ONE_SHOT)(Auth(OPEN_ONLY)(rest));
            && Authenticate(OPEN_ONLY, STRANGER).Refuse? && Authenticate(OPEN_ONLY, OPEN).Admit?
            && serve(serve(w, STRANGER).0, OPEN).1 == Fail(ERR_TOO_MANY_REQUESTS)
            && serve(w, OPEN).1 == rest(w.(buckets := map["global" := TB.Limiter(0, 0)]), OPEN).1
  {
    var serve := RateLimit(ONE_SHOT)(Auth(OPEN_ONLY)(rest));
    var spent := w.(buckets := map["global" := TB.Limiter(0, 0)]);
    assert ONE_SHOT.key(STRANGER, Op(STRANGER)) == "global";
    assert TB.AllowKey(ONE_SHOT.rate, w.buckets, "global", 0) == (true, spent.buckets);
    var empty := TB.Limiter(0, 0);
    assert TB.Allow(ONE_SHOT.rate, empty, 0) == (false, empty);
    assert spent.buckets["global" := empty] == spent.buckets;
    RateLimitAt(ONE_SHOT, Auth(OPEN_ONLY)(rest), w, STRANGER);
    RateLimitAt(ONE_SHOT, Auth(OPEN_ONLY)(rest), w, OPEN);
    RateLimitAt(ONE_SHOT, Auth(OPEN_ONLY)(rest), spent, OPEN);
    AuthRefuses(OPEN_ONLY, rest);
    assert Auth(OPEN_ONLY)(rest)(spent, STRANGER).0 == spent;
  }
}
