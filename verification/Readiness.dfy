/** /readyz: one evaluation pings every probe in order and reports on all of them. */
module Readiness {
  import opened Wrappers

  /** A probe is the drain flag's or some dependency's; names need not be distinct. */
  datatype Probe = Probe(name: string, isDrain: bool)

  datatype Response = Response(status: int, ready: bool, checks: map<string, string>)

  const OK := 200
  const UNAVAILABLE := 503

  function Text(ping: Option<string>): string {
    match ping
    case None => "ok"
    case Some(msg) => "fail: " + msg
  }

  /** The checks map after these pings: a later probe overwrites an earlier one of its name. */
  function Report(probes: seq<Probe>, pings: seq<Option<string>>): map<string, string>
    requires |pings| <= |probes|
    decreases |pings|
  {
    if pings == [] then map[]
    else
      var n := |pings| - 1;
      Report(probes, pings[..n])[probes[n].name := Text(pings[n])]
  }

  predicate AllOK(pings: seq<Option<string>>) { forall i | 0 <= i < |pings| :: pings[i].None? }

  function Respond(probes: seq<Probe>, pings: seq<Option<string>>): Response
    requires |pings| == |probes|
  {
    Response(if AllOK(pings) then OK else UNAVAILABLE, AllOK(pings), Report(probes, pings))
  }

  /** The handler's loop. `ping(i)` is what the i-th probe returns; no probes at all means ready. */
  method ReadyHandler(probes: Option<seq<Probe>>, ping: nat -> Option<string>)
    returns (r: Response, pings: seq<Option<string>>)
    ensures var all := if probes.None? then [] else probes.value;
            && pings == seq(|all|, i requires 0 <= i => ping(i))
            && r == Respond(all, pings)
            && Reports(all, pings, r)
  {
    var result: map<string, string> := map[];
    var allOK := true;
    pings := [];
    if probes.Some? {
      var all := probes.value;
      for i := 0 to |all|
        invariant pings == seq(i, j requires 0 <= j => ping(j))
        invariant result == Report(all, pings)
        invariant allOK == AllOK(pings)
      {
        var err := ping(i);
        Snoc(all, pings, err);
        pings := pings + [err];
        if err.Some? {
          result := result[all[i].name := "fail: " + err.value];
          allOK := false;
        } else {
          result := result[all[i].name := "ok"];
        }
      }
    }
    r := Response(if !allOK then UNAVAILABLE else OK, allOK, result);
    RespondMeaning(if probes.None? then [] else probes.value, pings);
  }

  lemma Snoc(probes: seq<Probe>, pings: seq<Option<string>>, err: Option<string>)
    requires |pings| < |probes|
    ensures Report(probes, pings + [err]) == Report(probes, pings)[probes[|pings|].name := Text(err)]
    ensures AllOK(pings + [err]) <==> AllOK(pings) && err.None?
  {
    var all := pings + [err];
    assert all[..|pings|] == pings;
    if AllOK(all) {
      assert all[|pings|] == err;
      assert forall i | 0 <= i < |pings| :: all[i] == pings[i];
    }
  }

  /** No later ping is for a probe of this probe's name. */
  ghost predicate LastOfName(probes: seq<Probe>, i: nat, n: nat)
    requires i < n <= |probes|
  {
    forall j | i < j < n :: probes[j].name != probes[i].name
  }

  /** The body holds, under each name, the result of the last probe of that name. */
  lemma {:induction false} ReportIsLastPing(probes: seq<Probe>, pings: seq<Option<string>>, i: nat)
    requires i < |pings| <= |probes| && LastOfName(probes, i, |pings|)
    ensures probes[i].name in Report(probes, pings)
    ensures Report(probes, pings)[probes[i].name] == if pings[i].None? then "ok" else "fail: " + pings[i].value
    decreases |pings|
  {
    var n := |pings| - 1;
    if i < n {
      assert probes[n].name != probes[i].name;
      ReportIsLastPing(probes, pings[..n], i);
    }
  }

  /** The body lists the names of the probes and no others. */
  lemma {:induction false} ReportNames(probes: seq<Probe>, pings: seq<Option<string>>, name: string)
    requires |pings| <= |probes|
    ensures name in Report(probes, pings) <==> exists i :: 0 <= i < |pings| && probes[i].name == name
    decreases |pings|
  {
    if pings != [] {
      ReportNames(probes, pings[..|pings| - 1], name);
    }
  }

  /**
   * The response that these pings deserve: 200 and ready if all succeeded, 503 and not ready if
   * not, and under each probe's name, and no other, what the last probe of that name said.
   */
  ghost predicate Reports(probes: seq<Probe>, pings: seq<Option<string>>, r: Response)
    requires |pings| == |probes|
  {
    && (if forall p | p in pings :: p.None? then r.status == 200 && r.ready else r.status == 503 && !r.ready)
    && (forall name :: name in r.checks <==> exists i :: 0 <= i < |probes| && probes[i].name == name)
    && (forall i | 0 <= i < |probes| && LastOfName(probes, i, |probes|) ::
          r.checks[probes[i].name] == if pings[i].None? then "ok" else "fail: " + pings[i].value)
  }

  lemma RespondMeaning(probes: seq<Probe>, pings: seq<Option<string>>)
    requires |pings| == |probes|
    ensures Reports(probes, pings, Respond(probes, pings))
  {
    forall name ensures name in Report(probes, pings) <==> exists i :: 0 <= i < |probes| && probes[i].name == name {
      ReportNames(probes, pings, name);
    }
    forall i | 0 <= i < |probes| && LastOfName(probes, i, |probes|)
      ensures Report(probes, pings)[probes[i].name] == if pings[i].None? then "ok" else "fail: " + pings[i].value
    {
      ReportIsLastPing(probes, pings, i);
    }
  }
}

/**
 * Shutdown: any number of readiness evaluations, one ping at a time, interleaved with the steps
 * of BeforeStop, the clock, and cancellation.
 */
module Drain {
  import opened Wrappers
  import opened Readiness

  datatype Config = Config(probes: seq<Probe>, delay: int)

  /** An evaluation under way: its pings so far, the map and the flag its loop has built. */
  datatype Eval = Eval(
    pings: seq<Option<string>>,
    result: map<string, string>,
    allOK: bool,
    sawFlag: seq<bool>,
    beganDraining: bool)

  /** BeforeStop stores the flag, starts its timer, and returns. */
  datatype Stop = Idle | Stored(at: int) | Timing(at: int, since: int) | Finished(at: int)

  datatype State = State(
    draining: bool,
    stop: Stop,
    now: int,
    ctxDone: bool,
    evals: map<nat, Eval>,
    last: Option<(Eval, Response)>)

  datatype Event =
    | Begin(id: nat)
    | Ping(id: nat, outcome: Option<string>)
    | Answer(id: nat)
    | Store
    | StartTimer
    | StopReturns
    | Tick(elapsed: nat)
    | CancelStop

  const ERR_DRAINING := "draining"

  const INIT := State(false, Idle, 0, false, map[], None)

  predicate Enabled(cfg: Config, s: State, e: Event) {
    match e
    case Begin(id) => id !in s.evals
    case Ping(id, _) => id in s.evals && |s.evals[id].pings| < |cfg.probes|
    case Answer(id) => id in s.evals && |s.evals[id].pings| == |cfg.probes|
    case Store => s.stop.Idle?
    case StartTimer => s.stop.Stored? && cfg.delay > 0
    case StopReturns =>
      || (s.stop.Stored? && cfg.delay <= 0)
      || (s.stop.Timing? && (s.now >= s.stop.since + cfg.delay || s.ctxDone))
    case Tick(_) => true
    case CancelStop => true
  }

  /** The drain probe answers with the flag; any other probe with whatever its dependency says. */
  function PingResult(cfg: Config, s: State, i: nat, outcome: Option<string>): Option<string>
    requires i < |cfg.probes|
  {
    if cfg.probes[i].isDrain then (if s.draining then Some(ERR_DRAINING) else None) else outcome
  }

  function PingStep(cfg: Config, s: State, ev: Eval, outcome: Option<string>): Eval
    requires |ev.pings| < |cfg.probes|
  {
    var i := |ev.pings|;
    var err := PingResult(cfg, s, i, outcome);
    Eval(ev.pings + [err], ev.result[cfg.probes[i].name := Text(err)], ev.allOK && err.None?,
         ev.sawFlag + [s.draining], ev.beganDraining)
  }

  function Step(cfg: Config, s: State, e: Event): State
    requires Enabled(cfg, s, e)
  {
    match e
    case Begin(id) => s.(evals := s.evals[id := Eval([], map[], true, [], s.draining)])
    case Ping(id, outcome) => s.(evals := s.evals[id := PingStep(cfg, s, s.evals[id], outcome)])
    case Answer(id) =>
      var ev := s.evals[id];
      var r := Response(if ev.allOK then OK else UNAVAILABLE, ev.allOK, ev.result);
      s.(evals := s.evals - {id}, last := Some((ev, r)))
    case Store => s.(draining := true, stop := Stored(s.now))
    case StartTimer => s.(stop := Timing(s.stop.at, s.now))
    case StopReturns => s.(stop := Finished(s.stop.at))
    case Tick(elapsed) => s.(now := s.now + elapsed)
    case CancelStop => s.(ctxDone := true)
  }

  function Run(cfg: Config, trace: seq<Event>): Option<State>
    decreases |trace|
  {
    if trace == [] then Some(INIT)
    else
      match Run(cfg, trace[..|trace| - 1])
      case None => None
      case Some(p) =>
        if Enabled(cfg, p, trace[|trace| - 1]) then Some(Step(cfg, p, trace[|trace| - 1])) else None
  }

  /** What an evaluation under way has built is the report on its pings; flags seen never go back. */
  ghost predicate EvalInv(cfg: Config, draining: bool, ev: Eval) {
    && FlagsInv(cfg, draining, ev)
    && ev.result == Report(cfg.probes, ev.pings)
    && ev.allOK == AllOK(ev.pings)
  }

  ghost predicate StopInv(cfg: Config, s: State) {
    && (s.draining <==> !s.stop.Idle?)
    && (!s.stop.Idle? ==> s.stop.at <= s.now)
    && (s.stop.Timing? ==> s.stop.at <= s.stop.since <= s.now && cfg.delay > 0)
    && (s.stop.Finished? ==> cfg.delay <= 0 || s.now - s.stop.at >= cfg.delay || s.ctxDone)
  }

  ghost predicate Inv(cfg: Config, s: State) {
    && StopInv(cfg, s)
    && (forall id | id in s.evals :: EvalInv(cfg, s.draining, s.evals[id]))
  }

  ghost predicate FlagsInv(cfg: Config, draining: bool, ev: Eval) {
    && |ev.pings| == |ev.sawFlag| <= |cfg.probes|
    && (forall i | 0 <= i < |ev.pings| && cfg.probes[i].isDrain :: ev.pings[i].Some? <==> ev.sawFlag[i])
    && (ev.beganDraining ==> draining && forall i | 0 <= i < |ev.sawFlag| :: ev.sawFlag[i])
  }

  lemma PingKeepsFlags(cfg: Config, s: State, ev: Eval, outcome: Option<string>)
    requires FlagsInv(cfg, s.draining, ev) && |ev.pings| < |cfg.probes|
    ensures FlagsInv(cfg, s.draining, PingStep(cfg, s, ev, outcome))
  {}

  lemma PingKeepsInv(cfg: Config, s: State, ev: Eval, outcome: Option<string>)
    requires EvalInv(cfg, s.draining, ev) && |ev.pings| < |cfg.probes|
    ensures EvalInv(cfg, s.draining, PingStep(cfg, s, ev, outcome))
  {
    PingKeepsFlags(cfg, s, ev, outcome);
    Snoc(cfg.probes, ev.pings, PingResult(cfg, s, |ev.pings|, outcome));
  }

  lemma StepKeepsInv(cfg: Config, s: State, e: Event)
    requires Inv(cfg, s) && Enabled(cfg, s, e)
    ensures Inv(cfg, Step(cfg, s, e))
  {
    if e.Ping? {
      PingKeepsInv(cfg, s, s.evals[e.id], e.outcome);
    }
  }

  lemma {:induction false} ReachableInv(cfg: Config, trace: seq<Event>)
    requires Run(cfg, trace).Some?
    ensures Inv(cfg, Run(cfg, trace).value)
    ensures Run(cfg, trace).value.draining <==> Store in trace
    decreases |trace|
  {
    if trace != [] {
      var before, e := trace[..|trace| - 1], trace[|trace| - 1];
      ReachableInv(cfg, before);
      StepKeepsInv(cfg, Run(cfg, before).value, e);
      assert trace == before + [e];
    }
  }

  /** The schedule ends by answering an evaluation, and this is that evaluation and its answer. */
  ghost predicate JustAnswered(cfg: Config, trace: seq<Event>, ev: Eval, r: Response) {
    && trace != []
    && trace[|trace| - 1].Answer?
    && Run(cfg, trace).Some?
    && Run(cfg, trace).value.last == Some((ev, r))
  }

  /**
   * Whatever it was interleaved with, an evaluation answers as a single uninterrupted pass over
   * its pings would, and its drain pings fail exactly where they found the flag set.
   */
  lemma AnswerMatchesPings(cfg: Config, trace: seq<Event>, ev: Eval, r: Response)
    requires JustAnswered(cfg, trace, ev, r)
    ensures |ev.pings| == |ev.sawFlag| == |cfg.probes|
    ensures r == Respond(cfg.probes, ev.pings)
    ensures forall i | 0 <= i < |cfg.probes| && cfg.probes[i].isDrain :: ev.pings[i].Some? <==> ev.sawFlag[i]
  {
    ReachableInv(cfg, trace[..|trace| - 1]);
  }

  /**
   * An evaluation one of whose drain pings came after the flag was stored answers 503 with
   * ready=false, wherever that probe sits and whatever the other probes, even of the same name, say.
   */
  lemma DrainPingFailsEvaluation(cfg: Config, trace: seq<Event>, ev: Eval, r: Response, i: nat)
    requires JustAnswered(cfg, trace, ev, r)
    requires i < |cfg.probes| == |ev.sawFlag| && cfg.probes[i].isDrain && ev.sawFlag[i]
    ensures r.status == 503 && !r.ready
  {
    AnswerMatchesPings(cfg, trace, ev, r);
    assert ev.pings[i].Some?;
  }

  /** What a ping met: the outcome its event carries, and whether the flag had been stored by then. */
  datatype Met = Met(outcome: Option<string>, draining: bool)

  /** The pings of an evaluation since it last began, read off the schedule alone. */
  function PingsOf(trace: seq<Event>, id: nat): seq<Met>
    decreases |trace|
  {
    if trace == [] then []
    else
      var before, e := trace[..|trace| - 1], trace[|trace| - 1];
      if e == Begin(id) then []
      else if e.Ping? && e.id == id then PingsOf(before, id) + [Met(e.outcome, Store in before)]
      else PingsOf(before, id)
  }

  /** What each ping of the schedule says of its probe: the drain probe the flag, any other its own outcome. */
  ghost predicate Says(probes: seq<Probe>, met: seq<Met>, pings: seq<Option<string>>) {
    && |pings| == |met| <= |probes|
    && forall i | 0 <= i < |met| ::
         pings[i] == if !probes[i].isDrain then met[i].outcome else if met[i].draining then Some("draining") else None
  }

  lemma SaysStep(cfg: Config, s: State, e: Event, id: nat, met: seq<Met>)
    requires Enabled(cfg, s, e) && id in Step(cfg, s, e).evals
    requires id in s.evals ==> Says(cfg.probes, met, s.evals[id].pings)
    ensures var met' := if e == Begin(id) then []
                        else if e.Ping? && e.id == id then met + [Met(e.outcome, s.draining)]
                        else met;
            Says(cfg.probes, met', Step(cfg, s, e).evals[id].pings)
  {}

  lemma {:induction false} PingsAreRecorded(cfg: Config, trace: seq<Event>, id: nat)
    requires Run(cfg, trace).Some? && id in Run(cfg, trace).value.evals
    ensures Says(cfg.probes, PingsOf(trace, id), Run(cfg, trace).value.evals[id].pings)
    decreases |trace|
  {
    var before, e := trace[..|trace| - 1], trace[|trace| - 1];
    var s := Run(cfg, before).value;
    ReachableInv(cfg, before);
    if id in s.evals { PingsAreRecorded(cfg, before, id); }
    SaysStep(cfg, s, e, id, PingsOf(before, id));
  }

  /** The evaluation is under way, and its i-th ping, of a drain probe, has found the flag set. */
  ghost predicate SawFlag(cfg: Config, s: State, id: nat, i: nat) {
    && id in s.evals
    && i < |s.evals[id].sawFlag| <= |cfg.probes|
    && s.evals[id].sawFlag[i]
  }

  /** What a ping has seen stays on record until the evaluation is answered. */
  lemma {:induction false} SawFlagStays(cfg: Config, a: seq<Event>, b: seq<Event>, id: nat, i: nat)
    requires Run(cfg, a + b).Some? && Run(cfg, a).Some? && SawFlag(cfg, Run(cfg, a).value, id, i)
    requires Answer(id) !in b
    ensures SawFlag(cfg, Run(cfg, a + b).value, id, i)
    decreases |b|
  {
    if b == [] {
      assert a + b == a;
    } else {
      var b', e := b[..|b| - 1], b[|b| - 1];
      assert (a + b)[..|a + b| - 1] == a + b';
      SawFlagStays(cfg, a, b', id, i);
      ReachableInv(cfg, a + b);
      assert e in b;
      StepKeepsSawFlag(cfg, Run(cfg, a + b').value, e, id, i);
    }
  }

  lemma StepKeepsSawFlag(cfg: Config, s: State, e: Event, id: nat, i: nat)
    requires SawFlag(cfg, s, id, i) && Enabled(cfg, s, e) && e != Answer(id)
    requires |s.evals[id].sawFlag| == |s.evals[id].pings|
    ensures SawFlag(cfg, Step(cfg, s, e), id, i)
  {}

  /**
   * On the schedule alone: an evaluation that pings a drain probe at any moment after the flag
   * was stored, even one begun before that, answers 503 with ready=false, whatever happens
   * between the ping and the answer and whatever any other probe says.
   */
  lemma PingAfterStoreFails(cfg: Config, a: seq<Event>, o: Option<string>, b: seq<Event>, id: nat)
    requires Run(cfg, a + [Ping(id, o)] + b + [Answer(id)]).Some?
    requires Store in a && Answer(id) !in b
    requires |PingsOf(a, id)| < |cfg.probes| && cfg.probes[|PingsOf(a, id)|].isDrain
    ensures var done := Run(cfg, a + [Ping(id, o)] + b + [Answer(id)]).value.last;
            done.Some? && done.value.1.status == 503 && !done.value.1.ready
  {
    var pinged := a + [Ping(id, o)];
    PrefixRuns(cfg, pinged + b, [Answer(id)]);
    PrefixRuns(cfg, pinged, b);
    PingSeesFlag(cfg, a, o, id);
    SawFlagStays(cfg, pinged, b, id, |PingsOf(a, id)|);
    AnswerAfterFlag(cfg, pinged + b, id, |PingsOf(a, id)|);
  }

  lemma PingSeesFlag(cfg: Config, a: seq<Event>, o: Option<string>, id: nat)
    requires Run(cfg, a + [Ping(id, o)]).Some? && Store in a
    ensures SawFlag(cfg, Run(cfg, a + [Ping(id, o)]).value, id, |PingsOf(a, id)|)
  {
    assert (a + [Ping(id, o)])[..|a|] == a;
    ReachableInv(cfg, a);
    PingsAreRecorded(cfg, a, id);
  }

  lemma AnswerAfterFlag(cfg: Config, trace: seq<Event>, id: nat, i: nat)
    requires Run(cfg, trace).Some? && Run(cfg, trace + [Answer(id)]).Some?
    requires SawFlag(cfg, Run(cfg, trace).value, id, i) && cfg.probes[i].isDrain
    ensures var done := Run(cfg, trace + [Answer(id)]).value.last;
            done.Some? && done.value.1.status == 503 && !done.value.1.ready
  {
    var full := trace + [Answer(id)];
    assert full[..|full| - 1] == trace;
    var done := Run(cfg, full).value.last;
    AnswerMatchesPings(cfg, full, done.value.0, done.value.1);
    DrainPingFailsEvaluation(cfg, full, done.value.0, done.value.1, i);
  }

  lemma {:induction false} PrefixRuns(cfg: Config, a: seq<Event>, b: seq<Event>)
    requires Run(cfg, a + b).Some?
    ensures Run(cfg, a).Some?
    decreases |b|
  {
    if b == [] {
      assert a + b == a;
    } else {
      assert (a + b)[..|a + b| - 1] == a + b[..|b| - 1];
      PrefixRuns(cfg, a, b[..|b| - 1]);
    }
  }

  // ----- the whole answer, read off the schedule

  /** This response follows from these pings of the schedule. */
  ghost predicate Follows(probes: seq<Probe>, met: seq<Met>, r: Response) {
    exists pings: seq<Option<string>> :: |pings| == |probes| && Says(probes, met, pings) && Reports(probes, pings, r)
  }

  /**
   * On the schedule alone: an answered evaluation has pinged every probe since it began. Its
   * answer is 200 and ready if every dependency's ping succeeded and every drain ping came before
   * the flag was stored, and 503 and not ready otherwise; its body has for each name what the
   * last probe of that name said.
   */
  lemma AnswerFollowsSchedule(cfg: Config, trace: seq<Event>, id: nat)
    requires Run(cfg, trace + [Answer(id)]).Some?
    ensures var done := Run(cfg, trace + [Answer(id)]).value.last;
            && |PingsOf(trace, id)| == |cfg.probes|
            && done.Some? && Follows(cfg.probes, PingsOf(trace, id), done.value.1)
  {
    var full := trace + [Answer(id)];
    assert full[..|full| - 1] == trace;
    PingsAreRecorded(cfg, trace, id);
    var pings, done := Run(cfg, trace).value.evals[id].pings, Run(cfg, full).value.last;
    AnswerMatchesPings(cfg, full, done.value.0, done.value.1);
    FollowsRespond(cfg.probes, PingsOf(trace, id), pings);
  }

  lemma FollowsRespond(probes: seq<Probe>, met: seq<Met>, pings: seq<Option<string>>)
    requires Says(probes, met, pings) && |pings| == |probes|
    ensures Follows(probes, met, Respond(probes, pings))
  {
    RespondMeaning(probes, pings);
  }

  /** So a single dependency that fails, at any ping of the evaluation, makes the answer 503 and not ready. */
  lemma FailedPingFails(cfg: Config, trace: seq<Event>, id: nat, i: nat)
    requires Run(cfg, trace + [Answer(id)]).Some?
    requires i < |cfg.probes| && !cfg.probes[i].isDrain && i < |PingsOf(trace, id)| && PingsOf(trace, id)[i].outcome.Some?
    ensures var done := Run(cfg, trace + [Answer(id)]).value.last;
            done.Some? && done.value.1.status == 503 && !done.value.1.ready
  {
    AnswerFollowsSchedule(cfg, trace, id);
    var r := Run(cfg, trace + [Answer(id)]).value.last.value.1;
    SomePingFailed(cfg.probes, PingsOf(trace, id), r, i);
  }

  lemma SomePingFailed(probes: seq<Probe>, met: seq<Met>, r: Response, i: nat)
    requires Follows(probes, met, r) && i < |probes| == |met| && !probes[i].isDrain && met[i].outcome.Some?
    ensures r.status == 503 && !r.ready
  {
    var pings: seq<Option<string>> :| |pings| == |probes| && Says(probes, met, pings) && Reports(probes, pings, r);
    assert pings[i] in pings;
  }

  /** The evaluations under way that began once the flag was stored, read off the schedule alone. */
  function BegunAfterStore(trace: seq<Event>): set<nat>
    decreases |trace|
  {
    if trace == [] then {}
    else
      var before := trace[..|trace| - 1];
      match trace[|trace| - 1]
      case Begin(id) => if Store in before then BegunAfterStore(before) + {id} else BegunAfterStore(before) - {id}
      case Answer(id) => BegunAfterStore(before) - {id}
      case _ => BegunAfterStore(before)
  }

  lemma {:induction false} BegunIsRecorded(cfg: Config, trace: seq<Event>, id: nat)
    requires Run(cfg, trace).Some?
    ensures id in BegunAfterStore(trace) <==>
            id in Run(cfg, trace).value.evals && Run(cfg, trace).value.evals[id].beganDraining
    decreases |trace|
  {
    if trace != [] {
      var before, e := trace[..|trace| - 1], trace[|trace| - 1];
      BegunIsRecorded(cfg, before, id);
      if e.Begin? { ReachableInv(cfg, before); }
    }
  }

  /** Every evaluation that begins after the flag is stored answers 503, if the drain probe is among its probes. */
  lemma BegunAfterStoreFails(cfg: Config, trace: seq<Event>, id: nat, i: nat)
    requires Run(cfg, trace + [Answer(id)]).Some? && id in BegunAfterStore(trace)
    requires i < |cfg.probes| && cfg.probes[i].isDrain
    ensures var done := Run(cfg, trace + [Answer(id)]).value.last;
            done.Some? && done.value.1.status == 503 && !done.value.1.ready
  {
    var full := trace + [Answer(id)];
    assert full[..|full| - 1] == trace;
    ReachableInv(cfg, trace);
    BegunIsRecorded(cfg, trace, id);
    var done := Run(cfg, full).value.last;
    DrainPingFailsEvaluation(cfg, full, done.value.0, done.value.1, i);
  }

  /** BeforeStop returns only with the flag up, and after the delay has passed or its context is done. */
  lemma StopWaits(cfg: Config, trace: seq<Event>)
    requires Run(cfg, trace).Some? && Run(cfg, trace).value.stop.Finished?
    ensures var s := Run(cfg, trace).value;
            && Store in trace
            && s.draining
            && (cfg.delay <= 0 || s.now - s.stop.at >= cfg.delay || CancelStop in trace)
  {
    ReachableInv(cfg, trace);
    DoneIsCancelled(cfg, trace);
  }

  lemma {:induction false} DoneIsCancelled(cfg: Config, trace: seq<Event>)
    requires Run(cfg, trace).Some?
    ensures Run(cfg, trace).value.ctxDone <==> CancelStop in trace
    decreases |trace|
  {
    if trace != [] {
      var before, e := trace[..|trace| - 1], trace[|trace| - 1];
      DoneIsCancelled(cfg, before);
      assert trace == before + [e];
    }
  }

  /** The flag is never lowered again. */
  lemma {:induction false} DrainingIsForever(cfg: Config, trace: seq<Event>, n: nat)
    requires n <= |trace| && Run(cfg, trace).Some?
    ensures Run(cfg, trace[..n]).Some?
    ensures Run(cfg, trace[..n]).value.draining ==> Run(cfg, trace).value.draining
    decreases |trace|
  {
    if n == |trace| {
      assert trace[..n] == trace;
    } else {
      assert trace[..|trace| - 1][..n] == trace[..n];
      DrainingIsForever(cfg, trace[..|trace| - 1], n);
    }
  }

  // ----- what can happen next, read off the schedule

  /** The time that has passed since the timer was last started. */
  function SinceTimer(trace: seq<Event>): nat
    decreases |trace|
  {
    if trace == [] then 0
    else
      match trace[|trace| - 1]
      case StartTimer => 0
      case Tick(elapsed) => SinceTimer(trace[..|trace| - 1]) + elapsed
      case _ => SinceTimer(trace[..|trace| - 1])
  }

  /** Where BeforeStop is, in the terms of the schedule. */
  ghost predicate StopIs(s: State, trace: seq<Event>) {
    match s.stop
    case Idle => Store !in trace && StartTimer !in trace && StopReturns !in trace
    case Stored(_) => Store in trace && StartTimer !in trace && StopReturns !in trace
    case Timing(_, since) =>
      Store in trace && StartTimer in trace && StopReturns !in trace && s.now - since == SinceTimer(trace)
    case Finished(_) => Store in trace && StopReturns in trace
  }

  lemma {:induction false} StopIsRecorded(cfg: Config, trace: seq<Event>)
    requires Run(cfg, trace).Some?
    ensures StopIs(Run(cfg, trace).value, trace)
    decreases |trace|
  {
    if trace != [] {
      var before, e := trace[..|trace| - 1], trace[|trace| - 1];
      StopIsRecorded(cfg, before);
      assert trace == before + [e];
    }
  }

  /**
   * Exactly when BeforeStop can return: the flag is stored and it has not returned; and there is
   * no delay, or its timer was started and the delay has passed since or its context is done.
   */
  lemma StopReturnsIff(cfg: Config, trace: seq<Event>)
    requires Run(cfg, trace).Some?
    ensures Run(cfg, trace + [StopReturns]).Some? <==>
            && Store in trace && StopReturns !in trace
            && if StartTimer in trace then SinceTimer(trace) >= cfg.delay || CancelStop in trace else cfg.delay <= 0
  {
    assert (trace + [StopReturns])[..|trace|] == trace;
    StopIsRecorded(cfg, trace);
    ReachableInv(cfg, trace);
    DoneIsCancelled(cfg, trace);
  }

  /** The flag can be stored once, at any time; with a delay, the timer starts once after that. */
  lemma StoreAndTimerIff(cfg: Config, trace: seq<Event>)
    requires Run(cfg, trace).Some?
    ensures Run(cfg, trace + [Store]).Some? <==> Store !in trace
    ensures Run(cfg, trace + [StartTimer]).Some? <==>
            Store in trace && StartTimer !in trace && StopReturns !in trace && cfg.delay > 0
  {
    assert (trace + [Store])[..|trace|] == trace;
    assert (trace + [StartTimer])[..|trace|] == trace;
    StopIsRecorded(cfg, trace);
  }

  /** The evaluations that have begun and are not answered. */
  function UnderWay(trace: seq<Event>): set<nat>
    decreases |trace|
  {
    if trace == [] then {}
    else
      match trace[|trace| - 1]
      case Begin(id) => UnderWay(trace[..|trace| - 1]) + {id}
      case Answer(id) => UnderWay(trace[..|trace| - 1]) - {id}
      case _ => UnderWay(trace[..|trace| - 1])
  }

  lemma {:induction false} UnderWayIsRecorded(cfg: Config, trace: seq<Event>)
    requires Run(cfg, trace).Some?
    ensures Run(cfg, trace).value.evals.Keys == UnderWay(trace)
    decreases |trace|
  {
    if trace != [] { UnderWayIsRecorded(cfg, trace[..|trace| - 1]); }
  }

  /**
   * An evaluation under way is never stuck and never skips a probe: it can ping, with any
   * outcome, exactly while probes are left, and answer exactly when none is.
   */
  lemma EvaluationGoesOn(cfg: Config, trace: seq<Event>, id: nat, o: Option<string>)
    requires Run(cfg, trace).Some?
    ensures Run(cfg, trace + [Begin(id)]).Some? <==> id !in UnderWay(trace)
    ensures Run(cfg, trace + [Ping(id, o)]).Some? <==> id in UnderWay(trace) && |PingsOf(trace, id)| < |cfg.probes|
    ensures Run(cfg, trace + [Answer(id)]).Some? <==> id in UnderWay(trace) && |PingsOf(trace, id)| == |cfg.probes|
  {
    forall e ensures (trace + [e])[..|trace|] == trace {}
    UnderWayIsRecorded(cfg, trace);
    if id in UnderWay(trace) { PingsAreRecorded(cfg, trace, id); }
  }
}
