/** The timeout middleware of the chains is what its protocol of goroutines, channel and select allows. */
module Supervision {
  import opened Wrappers
  import opened Middleware
  import opened Servers
  import Protocol = Timeout

  /** What the handler returns, and the worker sends. */
  type Reply = (Option<string>, Option<Error>)

  function Returned(r: Reply): Result { Return(r.0, r.1) }

  /** How the handler came back in this schedule, if it has. */
  function HandlerOutcome(trace: seq<Protocol.Event<Reply>>): Option<Result>
    decreases |trace|
  {
    if trace == [] then None
    else
      match trace[|trace| - 1]
      case HandlerReturns(r) => Some(Returned(r))
      case HandlerPanics => Some(Panic)
      case _ => HandlerOutcome(trace[..|trace| - 1])
  }

  /** How the request has ended for the server so far: a crash takes everything with it. */
  function Ended(s: Protocol.State<Reply>): Option<Result> {
    if s.crashed then Some(Crash)
    else
      match s.answer
      case None => None
      case Some(FromHandler(r)) => Some(Returned(r))
      case Some(DeadlineExceeded) => Some(Fail(ERR_DEADLINE))
  }

  lemma {:induction false} OutcomeInv(trace: seq<Protocol.Event<Reply>>)
    requires Protocol.Run(trace).Some?
    ensures var s := Protocol.Run(trace).value;
            && (s.crashed <==> HandlerOutcome(trace) == Some(Panic))
            && (!s.crashed ==>
                  HandlerOutcome(trace) ==
                  match Protocol.HandlerResult(trace) case None => None case Some(r) => Some(Returned(r)))
    decreases |trace|
  {
    if trace != [] {
      OutcomeInv(trace[..|trace| - 1]);
      Protocol.ReachableInv(trace[..|trace| - 1]);
    }
  }

  /** Whenever the handler has come back and the request has ended, it ended as `Supervised` says. */
  lemma EndsSupervised(trace: seq<Protocol.Event<Reply>>)
    requires Protocol.Run(trace).Some? && HandlerOutcome(trace).Some? && Ended(Protocol.Run(trace).value).Some?
    ensures var s := Protocol.Run(trace).value;
            Ended(s) == Some(Supervised(HandlerOutcome(trace).value, s.answer == Some(Protocol.DeadlineExceeded)))
  {
    OutcomeInv(trace);
    Protocol.ReachableInv(trace);
  }

  /** A schedule in which the handler comes back so, and the race goes this way. */
  function Schedule(out: Result, late: bool): seq<Protocol.Event<Reply>>
    requires !out.Crash?
  {
    (if late then [Protocol.Fire, Protocol.GiveUp] else [])
    + (match out
       case Panic => [Protocol.HandlerPanics]
       case Return(reply, err) =>
         [Protocol.HandlerReturns((reply, err)), Protocol.Send] + (if late then [] else [Protocol.Receive]))
  }

  lemma RunSnoc(trace: seq<Protocol.Event<Reply>>, e: Protocol.Event<Reply>)
    requires Protocol.Run(trace).Some? && Protocol.Enabled(Protocol.Run(trace).value, e)
    ensures Protocol.Run(trace + [e]) == Some(Protocol.Step(Protocol.Run(trace).value, e))
    ensures HandlerOutcome(trace + [e]) ==
            match e
            case HandlerReturns(r) => Some(Returned(r))
            case HandlerPanics => Some(Panic)
            case _ => HandlerOutcome(trace)
  {
    assert (trace + [e])[..|trace|] == trace;
  }

  lemma ScheduleEnds(out: Result, late: bool)
    requires !out.Crash?
    ensures var trace := Schedule(out, late);
            && Protocol.Run(trace).Some?
            && HandlerOutcome(trace) == Some(out)
            && Ended(Protocol.Run(trace).value) == Some(Supervised(out, late))
  {
    var trace: seq<Protocol.Event<Reply>> := [];
    if late {
      RunSnoc([], Protocol.Fire);
      RunSnoc([] + [Protocol.Fire], Protocol.GiveUp);
      trace := [] + [Protocol.Fire] + [Protocol.GiveUp];
    }
    match out {
      case Panic =>
        RunSnoc(trace, Protocol.HandlerPanics);
        assert Schedule(out, late) == trace + [Protocol.HandlerPanics];
      case Return(reply, err) =>
        var back := Protocol.HandlerReturns((reply, err));
        RunSnoc(trace, back);
        RunSnoc(trace + [back], Protocol.Send);
        if late {
          assert Schedule(out, late) == trace + [back] + [Protocol.Send];
        } else {
          RunSnoc(trace + [back] + [Protocol.Send], Protocol.Receive);
          assert Schedule(out, late) == trace + [back] + [Protocol.Send] + [Protocol.Receive];
        }
    }
  }

  /**
   * For a handler that comes back as `out`, the ends the protocol can reach under any
   * interleaving are exactly the ones the middleware gives under either outcome of the race: the
   * handler's own result or the deadline error if it returns, and nothing but a crash if it panics.
   */
  lemma ProtocolGivesSupervised(out: Result, end: Result)
    requires !out.Crash?
    ensures (exists trace ::
               && Protocol.Run(trace).Some?
               && HandlerOutcome(trace) == Some(out)
               && Ended(Protocol.Run(trace).value) == Some(end))
            <==> end in {Supervised(out, false), Supervised(out, true)}
  {
    if trace :| Protocol.Run(trace).Some? && HandlerOutcome(trace) == Some(out)
                && Ended(Protocol.Run(trace).value) == Some(end) {
      EndsSupervised(trace);
    }
    ScheduleEnds(out, false);
    ScheduleEnds(out, true);
  }

  /** The caller's answer is the deadline error if and only if the schedule has it give up. */
  lemma {:induction false} GaveUpIff(trace: seq<Protocol.Event<Reply>>)
    requires Protocol.Run(trace).Some?
    ensures Protocol.Run(trace).value.answer == Some(Protocol.DeadlineExceeded) <==> Protocol.GiveUp in trace
    decreases |trace|
  {
    if trace != [] {
      var before, e := trace[..|trace| - 1], trace[|trace| - 1];
      GaveUpIff(before);
      assert trace == before + [e];
    }
  }

  /** A timeout that covers this request, in the terms of its length and of what the transport carries. */
  ghost predicate Covers(o: TimeoutOptions, c: Ctx) {
    exists kind, op, header :: Carries(c, "", kind, op, header) && o.timeout > 0 && !o.skip(op)
  }

  /** The schedule is one of this request: its handler came back as the model's does, and the request ended. */
  ghost predicate IsScheduleOf(trace: seq<Protocol.Event<Reply>>, out: Result, late: bool) {
    && Protocol.Run(trace).Some?
    && HandlerOutcome(trace) == Some(out)
    && Ended(Protocol.Run(trace).value).Some?
    && (late <==> Protocol.GiveUp in trace)
  }

  /**
   * The middleware of the chains follows the protocol: on every schedule of a request that the
   * timeout covers, in which the caller gives up exactly if `late` says so, the request ends as
   * the middleware says, and such a schedule exists.
   */
  lemma TimeoutFollowsProtocol(o: TimeoutOptions, late: Ctx -> bool, next: Handler, w: World, c: Ctx)
    requires Covers(o, c) && !next(w, c).1.Crash?
    ensures Timeout(o, late)(next)(w, c).0 == next(w, c).0
    ensures forall trace | IsScheduleOf(trace, next(w, c).1, late(c)) ::
              Ended(Protocol.Run(trace).value) == Some(Timeout(o, late)(next)(w, c).1)
    ensures exists trace :: IsScheduleOf(trace, next(w, c).1, late(c))
  {
    var out := next(w, c).1;
    forall trace | IsScheduleOf(trace, out, late(c))
      ensures Ended(Protocol.Run(trace).value) == Some(Timeout(o, late)(next)(w, c).1)
    {
      EndsSupervised(trace);
      GaveUpIff(trace);
    }
    ScheduleEnds(out, late(c));
    assert IsScheduleOf(Schedule(out, late(c)), out, late(c));
  }

  /** Where the timeout does not cover the request, the handler's outcome and effects pass unchanged. */
  lemma UncoveredPasses(o: TimeoutOptions, late: Ctx -> bool, next: Handler, w: World, c: Ctx)
    requires !Covers(o, c)
    ensures Timeout(o, late)(next)(w, c) == next(w, c)
  {
    assert Carries(c, "", Kind(c), Op(c), Header(c, ""));
  }
}
