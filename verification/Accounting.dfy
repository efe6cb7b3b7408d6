/**
 * The counters and the access log while many requests run at once. What the default chain does
 * to them after the handler comes back is several atomic steps, which interleave freely.
 */
module Accounting {
  import opened Wrappers
  import opened Middleware
  import opened Counters
  import opened Servers
  import opened Runs

  /** In the order of a request's steps: counted, then latency observed; the access line ends it. */
  datatype Stage = Running | Returned | Counted | Timed | Panicked

  datatype Request = Request(stage: Stage, kind: string, op: string, err: Option<Error>)
  {
    function Label(): Label { (kind, op, MetricCode(err)) }
  }

  datatype Event =
    | Begin(id: nat, kind: string, op: string)
    | HandlerReturns(id: nat, err: Option<Error>)
    | HandlerPanics(id: nat)
    | CountRequest(id: nat)
    | ObserveLatency(id: nat)
    | LogAccess(id: nat)
    | CountPanic(id: nat)

  datatype State = State(metrics: Metrics, flight: map<nat, Request>)

  predicate At(s: State, id: nat, stage: Stage) { id in s.flight && s.flight[id].stage == stage }

  predicate Enabled(s: State, e: Event) {
    match e
    case Begin(id, _, _) => id !in s.flight
    case HandlerReturns(id, _) => At(s, id, Running)
    case HandlerPanics(id) => At(s, id, Running)
    case CountRequest(id) => At(s, id, Returned)
    case ObserveLatency(id) => At(s, id, Counted)
    case LogAccess(id) => At(s, id, Timed)
    case CountPanic(id) => At(s, id, Panicked)
  }

  function Move(s: State, id: nat, stage: Stage): State
    requires id in s.flight
  {
    s.(flight := s.flight[id := s.flight[id].(stage := stage)])
  }

  function Step(s: State, e: Event): State
    requires Enabled(s, e)
  {
    var m := s.metrics;
    match e
    case Begin(id, kind, op) => s.(flight := s.flight[id := Request(Running, kind, op, None)])
    case HandlerReturns(id, err) => s.(flight := s.flight[id := s.flight[id].(stage := Returned, err := err)])
    case HandlerPanics(id) => Move(s, id, Panicked)
    case CountRequest(id) =>
      Move(s.(metrics := m.(requests := Inc(m.requests, s.flight[id].Label()))), id, Counted)
    case ObserveLatency(id) =>
      Move(s.(metrics := m.(latency := Inc(m.latency, (s.flight[id].kind, s.flight[id].op)))), id, Timed)
    case LogAccess(id) =>
      var r := s.flight[id];
      State(m.(access := m.access + [AccessLine(r.kind, r.op, AccessCode(r.err))]), s.flight - {id})
    case CountPanic(id) => State(m.(panics := Inc(m.panics, s.flight[id].op)), s.flight - {id})
  }

  /** The state this schedule reaches from these metrics and no request. */
  function Run(start: Metrics, trace: seq<Event>): Option<State>
    decreases |trace|
  {
    if trace == [] then Some(State(start, map[]))
    else
      match Run(start, trace[..|trace| - 1])
      case None => None
      case Some(p) => if Enabled(p, trace[|trace| - 1]) then Some(Step(p, trace[|trace| - 1])) else None
  }

  /** How many requests the schedule begins. */
  function Begun(trace: seq<Event>): nat
    decreases |trace|
  {
    if trace == [] then 0 else Begun(trace[..|trace| - 1]) + (if trace[|trace| - 1].Begin? then 1 else 0)
  }

  /** What a step makes the observers see, if it is a request's last one. */
  function Last(s: State, e: Event): Option<Seen>
    requires Enabled(s, e)
  {
    match e
    case LogAccess(id) => Some(Seen(s.flight[id].kind, s.flight[id].op, Return(None, s.flight[id].err)))
    case CountPanic(id) => Some(Seen(s.flight[id].kind, s.flight[id].op, Panic))
    case _ => None
  }

  /** The requests that have ended, in the order of their last steps. */
  function Ended(start: Metrics, trace: seq<Event>): seq<Seen>
    requires Run(start, trace).Some?
    decreases |trace|
  {
    if trace == [] then []
    else
      var before := trace[..|trace| - 1];
      match Last(Run(start, before).value, trace[|trace| - 1])
      case None => Ended(start, before)
      case Some(seen) => Ended(start, before) + [seen]
  }

  // ----- how many requests in flight are at some point

  ghost function Those(flight: map<nat, Request>, at: Request -> bool): set<nat> {
    set id | id in flight && at(flight[id])
  }

  ghost function Pending(flight: map<nat, Request>, at: Request -> bool): nat { |Those(flight, at)| }

  lemma PendingDrop(flight: map<nat, Request>, at: Request -> bool, id: nat)
    requires id in flight
    ensures Pending(flight - {id}, at) == Pending(flight, at) - (if at(flight[id]) then 1 else 0)
  {
    assert Those(flight - {id}, at) == Those(flight, at) - {id};
  }

  lemma PendingSet(flight: map<nat, Request>, at: Request -> bool, id: nat, r: Request)
    ensures Pending(flight[id := r], at) ==
            Pending(flight, at) - (if id in flight && at(flight[id]) then 1 else 0) + (if at(r) then 1 else 0)
  {
    var rest := flight - {id};
    assert Those(flight[id := r], at) == if at(r) then Those(rest, at) + {id} else Those(rest, at);
    if id in flight {
      PendingDrop(flight, at, id);
    } else {
      assert rest == flight;
    }
  }

  lemma PendingAtMost(flight: map<nat, Request>, at: Request -> bool)
    ensures Pending(flight, at) <= |flight|
  {
    assert Those(flight, at) <= flight.Keys;
    Subset(Those(flight, at), flight.Keys);
    assert |flight| == |flight.Keys|;
  }

  lemma {:induction false} Subset(a: set<nat>, b: set<nat>)
    requires a <= b
    ensures |a| <= |b|
  {
    if a != {} {
      var x :| x in a;
      Subset(a - {x}, b - {x});
    }
  }

  lemma Nobody(at: Request -> bool)
    ensures Pending(map[], at) == 0
  {
    PendingAtMost(map[], at);
  }

  /** A step puts one request at a new point, or takes it out. */
  lemma PendingStep(s: State, e: Event, at: Request -> bool)
    requires Enabled(s, e)
    ensures var s' := Step(s, e);
            Pending(s'.flight, at) ==
            Pending(s.flight, at) - (if e.id in s.flight && at(s.flight[e.id]) then 1 else 0)
            + (if e.id in s'.flight && at(s'.flight[e.id]) then 1 else 0)
  {
    var s' := Step(s, e);
    if e.id in s'.flight {
      assert s'.flight == s.flight[e.id := s'.flight[e.id]];
      PendingSet(s.flight, at, e.id, s'.flight[e.id]);
    } else {
      assert s'.flight == s.flight - {e.id};
      PendingDrop(s.flight, at, e.id);
    }
  }

  function Uncounted(): Request -> bool { (r: Request) => r.stage in {Running, Returned, Panicked} }

  function Untimed(kind: string, op: string): Request -> bool {
    (r: Request) => r.stage == Counted && r.kind == kind && r.op == op
  }

  function Unlogged(l: Label): Request -> bool { (r: Request) => r.stage in {Counted, Timed} && r.Label() == l }

  // ----- what every schedule keeps

  lemma CountStep(s: State, e: Event)
    requires Enabled(s, e)
    ensures var s' := Step(s, e);
            Total(s'.metrics.requests) + Total(s'.metrics.panics) + Pending(s'.flight, Uncounted()) ==
            Total(s.metrics.requests) + Total(s.metrics.panics) + Pending(s.flight, Uncounted())
            + (if e.Begin? then 1 else 0)
  {
    PendingStep(s, e, Uncounted());
    match e
    case CountRequest(id) => TotalInc(s.metrics.requests, s.flight[id].Label());
    case CountPanic(id) => TotalInc(s.metrics.panics, s.flight[id].op);
    case _ =>
  }

  /** Under every interleaving, a request begun is counted once or still on its way to its count. */
  lemma {:induction false} BegunAreCounted(start: Metrics, trace: seq<Event>)
    requires Run(start, trace).Some?
    ensures var s := Run(start, trace).value;
            Total(s.metrics.requests) + Total(s.metrics.panics) + Pending(s.flight, Uncounted()) ==
            Total(start.requests) + Total(start.panics) + Begun(trace)
    decreases |trace|
  {
    if trace == [] {
      Nobody(Uncounted());
    } else {
      var before := trace[..|trace| - 1];
      BegunAreCounted(start, before);
      CountStep(Run(start, before).value, trace[|trace| - 1]);
    }
  }

  lemma TimeStep(s: State, e: Event, kind: string, op: string)
    requires Enabled(s, e)
    ensures var s' := Step(s, e);
            Total(ForOp(s'.metrics.requests, kind, op)) - Get(s'.metrics.latency, (kind, op))
            - Pending(s'.flight, Untimed(kind, op)) ==
            Total(ForOp(s.metrics.requests, kind, op)) - Get(s.metrics.latency, (kind, op))
            - Pending(s.flight, Untimed(kind, op))
  {
    PendingStep(s, e, Untimed(kind, op));
    if e.CountRequest? {
      ForOpInc(s.metrics.requests, s.flight[e.id].Label(), kind, op);
    }
  }

  /** For each kind and op, the counts run ahead of the latencies by the requests between the two steps. */
  lemma {:induction false} LatencyGap(start: Metrics, trace: seq<Event>, kind: string, op: string)
    requires Run(start, trace).Some?
    ensures var s := Run(start, trace).value;
            Total(ForOp(s.metrics.requests, kind, op)) - Total(ForOp(start.requests, kind, op)) ==
            Get(s.metrics.latency, (kind, op)) - Get(start.latency, (kind, op))
            + Pending(s.flight, Untimed(kind, op))
    decreases |trace|
  {
    if trace == [] {
      Nobody(Untimed(kind, op));
    } else {
      var before := trace[..|trace| - 1];
      LatencyGap(start, before, kind, op);
      TimeStep(Run(start, before).value, trace[|trace| - 1], kind, op);
    }
  }

  lemma LogStep(s: State, e: Event, l: Label)
    requires Enabled(s, e)
    ensures var s' := Step(s, e);
            Get(s'.metrics.requests, l) - Lines(s'.metrics.access, l) - Pending(s'.flight, Unlogged(l)) ==
            Get(s.metrics.requests, l) - Lines(s.metrics.access, l) - Pending(s.flight, Unlogged(l))
  {
    PendingStep(s, e, Unlogged(l));
    if e.LogAccess? {
      var r := s.flight[e.id];
      LinesSnoc(s.metrics.access, AccessLine(r.kind, r.op, AccessCode(r.err)), l);
      SameLabel(r.err);
    }
  }

  /** Each request counter runs ahead of its access lines by the requests counted and not yet logged. */
  lemma {:induction false} LogGap(start: Metrics, trace: seq<Event>, l: Label)
    requires Run(start, trace).Some?
    ensures var s := Run(start, trace).value;
            Get(s.metrics.requests, l) - Get(start.requests, l) ==
            Lines(s.metrics.access, l) - Lines(start.access, l) + Pending(s.flight, Unlogged(l))
    decreases |trace|
  {
    if trace == [] {
      Nobody(Unlogged(l));
    } else {
      var before := trace[..|trace| - 1];
      LogGap(start, before, l);
      LogStep(Run(start, before).value, trace[|trace| - 1], l);
    }
  }

  /**
   * From any starting metrics and under any interleaving: what has begun exceeds what is counted,
   * what is counted under a kind and op exceeds the latencies, and what is counted under a label
   * exceeds its access lines, each by no more than the requests in flight. At rest all are equal.
   */
  lemma AccountingAtAnyMoment(start: Metrics, trace: seq<Event>, l: Label)
    requires Run(start, trace).Some?
    ensures var s := Run(start, trace).value;
            var begun := Total(start.requests) + Total(start.panics) + Begun(trace);
            var latencies := Total(ForOp(start.requests, l.0, l.1))
                             + Get(s.metrics.latency, (l.0, l.1)) - Get(start.latency, (l.0, l.1));
            var lines := Get(start.requests, l) + Lines(s.metrics.access, l) - Lines(start.access, l);
            && 0 <= begun - Total(s.metrics.requests) - Total(s.metrics.panics) <= |s.flight|
            && 0 <= Total(ForOp(s.metrics.requests, l.0, l.1)) - latencies <= |s.flight|
            && 0 <= Get(s.metrics.requests, l) - lines <= |s.flight|
  {
    var flight := Run(start, trace).value.flight;
    BegunAreCounted(start, trace);
    PendingAtMost(flight, Uncounted());
    LatencyGap(start, trace, l.0, l.1);
    PendingAtMost(flight, Untimed(l.0, l.1));
    LogGap(start, trace, l);
    PendingAtMost(flight, Unlogged(l));
  }

  // ----- concurrent requests count as if they had come one after the other

  function TimedFor(k: (string, string)): Request -> bool { (r: Request) => r.stage == Timed && (r.kind, r.op) == k }

  /** These metrics, ahead of those by the requests that are counted, and timed, but not logged. */
  ghost predicate Ahead(s: State, m: Metrics, l: Label) {
    && s.metrics.access == m.access
    && s.metrics.panics == m.panics
    && Get(s.metrics.requests, l) == Get(m.requests, l) + Pending(s.flight, Unlogged(l))
    && Get(s.metrics.latency, (l.0, l.1)) == Get(m.latency, (l.0, l.1)) + Pending(s.flight, TimedFor((l.0, l.1)))
  }

  function ObserveLast(m: Metrics, s: State, e: Event): Metrics
    requires Enabled(s, e)
  {
    match Last(s, e) case None => m case Some(seen) => Observe(m, seen)
  }

  lemma RequestsAheadStep(s: State, e: Event, m: Metrics, l: Label)
    requires Enabled(s, e) && Get(s.metrics.requests, l) == Get(m.requests, l) + Pending(s.flight, Unlogged(l))
    ensures var s' := Step(s, e);
            Get(s'.metrics.requests, l) == Get(ObserveLast(m, s, e).requests, l) + Pending(s'.flight, Unlogged(l))
  {
    PendingStep(s, e, Unlogged(l));
  }

  lemma LatencyAheadStep(s: State, e: Event, m: Metrics, k: (string, string))
    requires Enabled(s, e) && Get(s.metrics.latency, k) == Get(m.latency, k) + Pending(s.flight, TimedFor(k))
    ensures var s' := Step(s, e);
            Get(s'.metrics.latency, k) == Get(ObserveLast(m, s, e).latency, k) + Pending(s'.flight, TimedFor(k))
  {
    PendingStep(s, e, TimedFor(k));
  }

  lemma AheadStep(s: State, e: Event, m: Metrics, l: Label)
    requires Enabled(s, e) && Ahead(s, m, l)
    ensures Ahead(Step(s, e), ObserveLast(m, s, e), l)
  {
    RequestsAheadStep(s, e, m, l);
    LatencyAheadStep(s, e, m, (l.0, l.1));
  }

  lemma {:induction false} AheadOfEnded(start: Metrics, trace: seq<Event>, l: Label)
    requires Run(start, trace).Some?
    ensures Ahead(Run(start, trace).value, ObserveAll(start, Ended(start, trace)), l)
    decreases |trace|
  {
    if trace == [] {
      Nobody(Unlogged(l));
      Nobody(TimedFor((l.0, l.1)));
    } else {
      var before, e := trace[..|trace| - 1], trace[|trace| - 1];
      AheadOfEnded(start, before, l);
      var p, seen := Run(start, before).value, Ended(start, before);
      AheadStep(p, e, ObserveAll(start, seen), l);
      match Last(p, e)
      case None =>
      case Some(last) => assert (seen + [last])[..|seen|] == seen;
    }
  }

  /**
   * At rest, whatever the interleaving was, the log and every counter read as if the same
   * requests had been observed one after the other, in the order in which they ended.
   */
  lemma AtRestAsOneByOne(start: Metrics, trace: seq<Event>, l: Label)
    requires Run(start, trace).Some? && Run(start, trace).value.flight == map[]
    ensures var m, m' := ObserveAll(start, Ended(start, trace)), Run(start, trace).value.metrics;
            && m'.access == m.access
            && m'.panics == m.panics
            && Get(m'.requests, l) == Get(m.requests, l)
            && Get(m'.latency, (l.0, l.1)) == Get(m.latency, (l.0, l.1))
    ensures |Ended(start, trace)| == Begun(trace)
  {
    AheadOfEnded(start, trace, l);
    Nobody(Unlogged(l));
    Nobody(TimedFor((l.0, l.1)));
    BegunEnd(start, trace);
  }

  lemma FlightStep(s: State, e: Event)
    requires Enabled(s, e)
    ensures |Step(s, e).flight| == |s.flight| + (if e.Begin? then 1 else 0) - (if Last(s, e).Some? then 1 else 0)
  {
    var s' := Step(s, e);
    if e.Begin? {
      assert s'.flight.Keys == s.flight.Keys + {e.id};
    } else if Last(s, e).Some? {
      assert s'.flight.Keys == s.flight.Keys - {e.id};
    } else {
      assert s'.flight.Keys == s.flight.Keys;
    }
    assert |s'.flight| == |s'.flight.Keys| && |s.flight| == |s.flight.Keys|;
  }

  /** Every request begun has ended or is in flight. */
  lemma {:induction false} BegunEnd(start: Metrics, trace: seq<Event>)
    requires Run(start, trace).Some?
    ensures Begun(trace) == |Ended(start, trace)| + |Run(start, trace).value.flight|
    decreases |trace|
  {
    if trace != [] {
      var before := trace[..|trace| - 1];
      BegunEnd(start, before);
      FlightStep(Run(start, before).value, trace[|trace| - 1]);
    }
  }

  // ----- requests in flight are never stuck

  /** The step a request takes next, if its handler is to return without an error. */
  function Next(id: nat, stage: Stage): Event {
    match stage
    case Running => HandlerReturns(id, None)
    case Returned => CountRequest(id)
    case Counted => ObserveLatency(id)
    case Timed => LogAccess(id)
    case Panicked => CountPanic(id)
  }

  function Left(stage: Stage): nat {
    match stage
    case Running => 4
    case Returned => 3
    case Counted => 2
    case Timed => 1
    case Panicked => 1
  }

  lemma OneStep(start: Metrics, trace: seq<Event>, e: Event)
    requires Run(start, trace).Some? && Enabled(Run(start, trace).value, e)
    ensures Run(start, trace + [e]) == Some(Step(Run(start, trace).value, e))
    ensures Begun(trace + [e]) == Begun(trace) + (if e.Begin? then 1 else 0)
  {
    assert (trace + [e])[..|trace|] == trace;
  }

  lemma {:induction false} Finish(start: Metrics, trace: seq<Event>, id: nat) returns (more: seq<Event>)
    requires Run(start, trace).Some? && id in Run(start, trace).value.flight
    ensures Run(start, trace + more).Some? && Begun(trace + more) == Begun(trace)
    ensures Run(start, trace + more).value.flight == Run(start, trace).value.flight - {id}
    decreases Left(Run(start, trace).value.flight[id].stage)
  {
    var s := Run(start, trace).value;
    var e := Next(id, s.flight[id].stage);
    OneStep(start, trace, e);
    var s' := Step(s, e);
    if id in s'.flight {
      more := Finish(start, trace + [e], id);
      assert trace + ([e] + more) == trace + [e] + more;
      more := [e] + more;
      assert s'.flight - {id} == s.flight - {id};
    } else {
      more := [e];
    }
  }

  lemma FewerLeft(flight: map<nat, Request>, id: nat)
    requires id in flight
    ensures |flight - {id}| < |flight|
  {
    assert (flight - {id}).Keys == flight.Keys - {id};
    assert |flight - {id}| == |(flight - {id}).Keys| && |flight| == |flight.Keys|;
  }

  /** From every moment of every schedule, the requests begun so far can all be brought to their ends. */
  lemma {:induction false} CanComeToRest(start: Metrics, trace: seq<Event>) returns (more: seq<Event>)
    requires Run(start, trace).Some?
    ensures Run(start, trace + more).Some? && Run(start, trace + more).value.flight == map[]
    ensures Begun(trace + more) == Begun(trace)
    decreases |Run(start, trace).value.flight|
  {
    var flight := Run(start, trace).value.flight;
    if flight == map[] {
      more := [];
      assert trace + more == trace;
    } else {
      var id :| id in flight;
      more := Finish(start, trace, id);
      FewerLeft(flight, id);
      var rest := CanComeToRest(start, trace + more);
      assert trace + (more + rest) == trace + more + rest;
      more := more + rest;
    }
  }

  /** And a new request can begin at any moment, and its handler return or panic. */
  lemma RequestsBegin(start: Metrics, trace: seq<Event>, id: nat, kind: string, op: string, err: Option<Error>)
    requires Run(start, trace).Some? && id !in Run(start, trace).value.flight
    ensures var begun := trace + [Begin(id, kind, op)];
            && Run(start, begun).Some?
            && Run(start, begun + [HandlerReturns(id, err)]).Some?
            && Run(start, begun + [HandlerPanics(id)]).Some?
  {
    OneStep(start, trace, Begin(id, kind, op));
    OneStep(start, trace + [Begin(id, kind, op)], HandlerReturns(id, err));
    OneStep(start, trace + [Begin(id, kind, op)], HandlerPanics(id));
  }
}
