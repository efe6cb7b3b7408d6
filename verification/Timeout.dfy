/**
 * The timeout middleware once it is active: a caller waiting in a select, a worker goroutine
 * running the handler, and a channel with one slot, under every interleaving of their steps.
 */
module Timeout {
  import opened Wrappers

  /** The worker runs the handler, holds its result, and sends it once. */
  datatype Worker<R> = Running | Holding(result: R) | Sent

  datatype Answer<R> = FromHandler(result: R) | DeadlineExceeded

  /**
   * `fired`: the deadline passed or the parent was cancelled. `cancelled`: the caller's deferred
   * cancel ran. Either makes the context done. `crashed`: the handler panicked on the worker
   * goroutine, which no recover can see, so the process is gone.
   */
  datatype State<R> = State(
    fired: bool,
    cancelled: bool,
    worker: Worker<R>,
    slot: Option<R>,
    answer: Option<Answer<R>>,
    crashed: bool)
  {
    predicate Done() { fired || cancelled }
  }

  datatype Event<R> =
    | Fire
    | HandlerReturns(result: R)
    | HandlerPanics
    | Send
    | Receive
    | GiveUp
    | Cancel

  function Init<R>(): State<R> { State(false, false, Running, None, None, false) }

  predicate Enabled<R>(s: State<R>, e: Event<R>) {
    && !s.crashed
    && match e
       case Fire => !s.fired
       case HandlerReturns(_) => s.worker.Running?
       case HandlerPanics => s.worker.Running?
       case Send => s.worker.Holding? && s.slot.None?
       case Receive => s.answer.None? && s.slot.Some?
       case GiveUp => s.answer.None? && s.Done()
       case Cancel => s.answer.Some? && !s.cancelled
  }

  function Step<R>(s: State<R>, e: Event<R>): State<R>
    requires Enabled(s, e)
  {
    match e
    case Fire => s.(fired := true)
    case HandlerReturns(r) => s.(worker := Holding(r))
    case HandlerPanics => s.(crashed := true)
    case Send => s.(worker := Sent, slot := Some(s.worker.result))
    case Receive => s.(slot := None, answer := Some(FromHandler(s.slot.value)))
    case GiveUp => s.(answer := Some(DeadlineExceeded))
    case Cancel => s.(cancelled := true)
  }

  function Run<R>(trace: seq<Event<R>>): Option<State<R>>
    decreases |trace|
  {
    if trace == [] then Some(Init())
    else
      match Run(trace[..|trace| - 1])
      case None => None
      case Some(p) => if Enabled(p, trace[|trace| - 1]) then Some(Step(p, trace[|trace| - 1])) else None
  }

  /** What the handler returned in this schedule, if it has. */
  function HandlerResult<R>(trace: seq<Event<R>>): Option<R>
    decreases |trace|
  {
    if trace == [] then None
    else
      match trace[|trace| - 1]
      case HandlerReturns(r) => Some(r)
      case _ => HandlerResult(trace[..|trace| - 1])
  }

  /** How often the caller was answered. */
  function Answers<R>(trace: seq<Event<R>>): nat
    decreases |trace|
  {
    if trace == [] then 0
    else
      var e := trace[|trace| - 1];
      Answers(trace[..|trace| - 1]) + (if e.Receive? || e.GiveUp? then 1 else 0)
  }

  /** What every step keeps: where the handler's single result is, and why the caller was answered. */
  ghost predicate Inv<R>(s: State<R>, result: Option<R>) {
    && (s.worker.Running? ==> s.slot.None? && result.None?)
    && (s.worker.Holding? ==> s.slot.None? && result == Some(s.worker.result))
    && (s.worker.Sent? ==> result.Some?)
    && (s.worker.Sent? ==> s.slot == result || (s.slot.None? && s.answer == Some(FromHandler(result.value))))
    && (s.answer.Some? && s.answer.value.FromHandler? ==>
          s.worker.Sent? && s.slot.None? && result == Some(s.answer.value.result))
    && (s.answer.Some? && s.answer.value.DeadlineExceeded? ==> s.fired)
    && (s.cancelled ==> s.answer.Some?)
  }

  lemma {:induction false} ReachableInv<R>(trace: seq<Event<R>>)
    requires Run(trace).Some?
    ensures Inv(Run(trace).value, HandlerResult(trace))
    ensures Answers(trace) == if Run(trace).value.answer.Some? then 1 else 0
    decreases |trace|
  {
    if trace != [] {
      ReachableInv(trace[..|trace| - 1]);
    }
  }

  /**
   * The caller is answered at most once. An answer other than the deadline error is exactly
   * what the handler returned; the deadline error means the deadline or the parent really had
   * fired, not merely that the caller's own deferred cancel ran.
   */
  lemma AnswerIsSound<R>(trace: seq<Event<R>>)
    requires Run(trace).Some?
    ensures var s := Run(trace).value;
            && Answers(trace) <= 1
            && (Answers(trace) == 1 <==> s.answer.Some?)
            && (s.answer.Some? ==>
                  match s.answer.value
                  case FromHandler(r) => HandlerResult(trace) == Some(r)
                  case DeadlineExceeded => s.fired)
  {
    ReachableInv(trace);
  }

  /** Once given, the answer never changes. */
  lemma {:induction false} AnswerIsFinal<R>(trace: seq<Event<R>>, n: nat)
    requires n <= |trace| && Run(trace).Some?
    ensures Run(trace[..n]).Some?
    ensures Run(trace[..n]).value.answer.Some? ==> Run(trace).value.answer == Run(trace[..n]).value.answer
    decreases |trace|
  {
    if n == |trace| {
      assert trace[..n] == trace;
    } else {
      var before := trace[..|trace| - 1];
      assert before[..n] == trace[..n];
      AnswerIsFinal(before, n);
    }
  }

  /** The deadline error comes after the context was done: the firing precedes the giving up. */
  lemma {:induction false} DeadlineFiredFirst<R>(trace: seq<Event<R>>)
    requires Run(trace).Some? && Run(trace).value.answer == Some(DeadlineExceeded)
    ensures exists i, j :: 0 <= i < j < |trace| && trace[i] == Fire && trace[j] == GiveUp
    decreases |trace|
  {
    var before := trace[..|trace| - 1];
    var p := Run(before).value;
    ReachableInv(before);
    if p.answer.Some? {
      DeadlineFiredFirst(before);
      var i, j :| 0 <= i < j < |before| && before[i] == Fire && before[j] == GiveUp;
      assert trace[i] == Fire && trace[j] == GiveUp;
    } else {
      FiredByFire(before);
      var i :| 0 <= i < |before| && before[i] == Fire;
      assert trace[i] == Fire && trace[|trace| - 1] == GiveUp;
    }
  }

  lemma {:induction false} FiredByFire<R>(trace: seq<Event<R>>)
    requires Run(trace).Some? && Run(trace).value.fired
    ensures exists i :: 0 <= i < |trace| && trace[i] == Fire
    decreases |trace|
  {
    var before := trace[..|trace| - 1];
    if Run(before).value.fired {
      FiredByFire(before);
      var i :| 0 <= i < |before| && before[i] == Fire;
      assert trace[i] == Fire;
    } else {
      assert trace[|trace| - 1] == Fire;
    }
  }

  /** The worker never blocks: whenever it has a result it can send it, even if the caller has left. */
  lemma SendNeverBlocks<R>(trace: seq<Event<R>>)
    requires Run(trace).Some? && !Run(trace).value.crashed && Run(trace).value.worker.Holding?
    ensures Run(trace + [Send]).Some?
  {
    ReachableInv(trace);
    assert (trace + [Send])[..|trace|] == trace;
  }

  /** The caller can always move once a result is in the slot or the context is done. */
  lemma CallerNeverStuck<R>(trace: seq<Event<R>>)
    requires Run(trace).Some? && !Run(trace).value.crashed && Run(trace).value.answer.None?
    requires Run(trace).value.slot.Some? || Run(trace).value.Done()
    ensures Run(trace + [Receive]).Some? || Run(trace + [GiveUp]).Some?
  {
    assert (trace + [Receive])[..|trace|] == trace;
    assert (trace + [GiveUp])[..|trace|] == trace;
  }

  /** How many of the one-time steps have been taken. */
  function Progress<R>(s: State<R>): nat {
    (if s.fired then 1 else 0) + (if s.cancelled then 1 else 0) + (if s.crashed then 1 else 0)
    + (if s.answer.Some? then 1 else 0)
    + (match s.worker case Running => 0 case Holding(_) => 1 case Sent => 2)
  }

  /** Every schedule is short: each step happens at most once. */
  lemma {:induction false} SchedulesAreFinite<R>(trace: seq<Event<R>>)
    requires Run(trace).Some?
    ensures |trace| == Progress(Run(trace).value) <= 5
    decreases |trace|
  {
    if trace != [] {
      SchedulesAreFinite(trace[..|trace| - 1]);
      ReachableInv(trace);
    }
  }

  /**
   * So once the handler has returned, a schedule that can go no further has answered the caller,
   * released the context and let the worker finish: no goroutine is left behind.
   */
  lemma NothingLeftBehind<R>(trace: seq<Event<R>>)
    requires Run(trace).Some? && HandlerResult(trace).Some?
    requires forall e | e in {Send, Receive, GiveUp, Cancel} :: Run(trace + [e]).None?
    ensures var s := Run(trace).value;
            !s.crashed && s.worker.Sent? && s.answer.Some? && s.cancelled
  {
    ReachableInv(trace);
    CrashedBeforeReturning(trace);
    forall e | e in {Send, Receive, GiveUp, Cancel} ensures !Enabled(Run(trace).value, e) {
      assert Run(trace + [e]).None?;
      assert (trace + [e])[..|trace|] == trace;
    }
    assert !Enabled(Run(trace).value, Send) && !Enabled(Run(trace).value, Receive);
    assert !Enabled(Run(trace).value, Cancel);
  }

  lemma {:induction false} CrashedBeforeReturning<R>(trace: seq<Event<R>>)
    requires Run(trace).Some?
    ensures Run(trace).value.crashed ==> HandlerResult(trace).None?
    decreases |trace|
  {
    if trace != [] {
      CrashedBeforeReturning(trace[..|trace| - 1]);
      ReachableInv(trace[..|trace| - 1]);
    }
  }

  /**
   * A panic of the handler is not contained: it can happen at any moment the handler runs, with
   * the caller waiting or already answered, and nothing at all happens after it.
   */
  lemma PanicEscapes<R>(trace: seq<Event<R>>, e: Event<R>)
    requires Run(trace).Some? && !Run(trace).value.crashed && Run(trace).value.worker.Running?
    ensures Run(trace + [HandlerPanics]).Some? && Run(trace + [HandlerPanics]).value.crashed
    ensures Run(trace + [HandlerPanics] + [e]).None?
  {
    assert (trace + [HandlerPanics])[..|trace|] == trace;
    assert (trace + [HandlerPanics] + [e])[..|trace| + 1] == trace + [HandlerPanics];
  }
}
