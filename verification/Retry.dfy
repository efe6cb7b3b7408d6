/**
 * The retry loop: attempts, context checks and cancellable sleeps, for every script of handler
 * outcomes, every predicate and every cancellation schedule.
 */
module Retry {
  import opened Wrappers
  import opened Int64
  import B = Backoff

  datatype Options = Options(maxAttempts: int, initial: int, maxBackoff: int)

  /**
   * Everything outside the loop. `handler(i)` is how the i-th call comes back. `ctxErr(2 * i)` is
   * ctx.Err() when attempt i begins and `ctxErr(2 * i + 1)` while it sleeps afterwards;
   * `timerFirst(i)` is the choice that sleep's select makes when both of its cases are ready.
   */
  datatype Env<!R, !E> = Env(
    handler: nat -> Outcome<R, E>,
    retryOn: E -> bool,
    ctxErr: nat -> Option<E>,
    timerFirst: nat -> bool,
    draw: nat -> nat)

  /** One run as the loop sees it: its environment, and what backoffFor yields after each attempt. */
  datatype Script<!R, !E> = Script(maxAttempts: int, env: Env<R, E>, backoff: nat -> Option<int>)

  function ScriptOf<R, E>(o: Options, env: Env<R, E>): Script<R, E> {
    Script(o.maxAttempts, env, (k: nat) => if k == 0 then None else B.Backoff(k, o.initial, o.maxBackoff, env.draw(k)))
  }

  datatype Action = Invoke(attempt: nat) | Sleep(attempt: nat, duration: int)

  ghost predicate ValidOptions(o: Options) { IsInt64(o.initial) && IsInt64(o.maxBackoff) }

  /** A context stays done, with the same error, once it is done. */
  ghost predicate CancelMonotone<R, E>(env: Env<R, E>) {
    forall p: nat, q: nat | p <= q && env.ctxErr(p).Some? :: env.ctxErr(q) == env.ctxErr(p)
  }

  /** sleepWithCtx: nil unless the context is done and the select takes that case. */
  function SleepErr<R, E>(env: Env<R, E>, attempt: nat, d: int): Option<E> {
    if d <= 0 || env.timerFirst(attempt) then None else env.ctxErr(2 * attempt + 1)
  }

  // ----- the specification

  /** Attempt k was allowed to run, failed with an error worth retrying, and its sleep ended cleanly. */
  predicate Continues<R, E>(s: Script<R, E>, k: nat)
    requires k >= 1
  {
    && k < s.maxAttempts
    && s.env.ctxErr(2 * k).None?
    && s.env.handler(k).Return?
    && s.env.handler(k).err.Some?
    && s.env.retryOn(s.env.handler(k).err.value)
    && s.backoff(k).Some?
    && SleepErr(s.env, k, s.backoff(k).value).None?
  }

  /** Attempt k is the one that ends the run. */
  ghost predicate EndsAt<R, E>(s: Script<R, E>, k: nat) {
    && 1 <= k <= s.maxAttempts
    && !Continues(s, k)
    && forall j | 1 <= j < k :: Continues(s, j)
  }

  /** The attempt that ends the run, searching from one before which all go round again. */
  function End<R, E>(s: Script<R, E>, from: nat): (k: nat)
    requires 1 <= from <= s.maxAttempts && forall j | 1 <= j < from :: Continues(s, j)
    ensures EndsAt(s, k)
    decreases s.maxAttempts - from
  {
    if Continues(s, from) then End(s, from + 1) else from
  }

  /** How the run comes back if attempt k ends it. */
  function Verdict<R, E>(s: Script<R, E>, k: nat): Outcome<R, E>
    requires k >= 1
  {
    var ret := s.env.handler(k);
    if s.env.ctxErr(2 * k).Some? then Return(None, s.env.ctxErr(2 * k))
    else if !ret.Return? || ret.err.None? then ret
    else if !s.env.retryOn(ret.err.value) || k >= s.maxAttempts then Return(None, ret.err)
    else if s.backoff(k).None? then Panic
    else Return(None, SleepErr(s.env, k, s.backoff(k).value))
  }

  /** The calls and sleeps of the attempts before k, all of which went round again. */
  function Rounds<R, E>(s: Script<R, E>, k: nat): seq<Action>
    requires k >= 1 && forall j | 1 <= j < k :: Continues(s, j)
  {
    if k == 1 then []
    else
      assert Continues(s, k - 1);
      Rounds(s, k - 1) + [Invoke(k - 1), Sleep(k - 1, s.backoff(k - 1).value)]
  }

  /** What attempt k itself does when it ends the run. */
  function LastRound<R, E>(s: Script<R, E>, k: nat): seq<Action>
    requires k >= 1
  {
    var ret := s.env.handler(k);
    if s.env.ctxErr(2 * k).Some? then []
    else if || !ret.Return? || ret.err.None? || !s.env.retryOn(ret.err.value)
            || k >= s.maxAttempts || s.backoff(k).None? then
      [Invoke(k)]
    else [Invoke(k), Sleep(k, s.backoff(k).value)]
  }

  // ----- the loop

  /** The delays of `s` are those backoffFor computes. */
  ghost predicate DelaysOf<R, E>(o: Options, env: Env<R, E>, s: Script<R, E>) {
    && s.maxAttempts == o.maxAttempts
    && s.env == env
    && forall k: nat {:trigger B.Backoff(k, o.initial, o.maxBackoff, env.draw(k))} | k >= 1 ::
         s.backoff(k) == B.Backoff(k, o.initial, o.maxBackoff, env.draw(k))
  }

  method NextDelay<R, E>(o: Options, env: Env<R, E>, attempt: nat, ghost s: Script<R, E>) returns (d: Option<int>)
    requires ValidOptions(o) && DelaysOf(o, env, s) && attempt >= 1
    ensures d == s.backoff(attempt)
  {
    d := B.BackoffFor(attempt, o.initial, o.maxBackoff, env.draw(attempt));
  }

  method Attempts<R, E>(o: Options, env: Env<R, E>, ghost s: Script<R, E>)
    returns (out: Outcome<R, E>, actions: seq<Action>)
    requires ValidOptions(o) && DelaysOf(o, env, s) && o.maxAttempts >= 1
    ensures var k := End(s, 1); out == Verdict(s, k) && actions == Rounds(s, k) + LastRound(s, k)
  {
    ghost var k := End(s, 1);
    actions := [];
    var lastErr: Option<E> := None;
    var attempt := 1;
    while attempt <= o.maxAttempts
      invariant 1 <= attempt <= o.maxAttempts
      invariant forall j | 1 <= j < attempt :: Continues(s, j)
      invariant actions == Rounds(s, attempt)
    {
      if !Continues(s, attempt) { EndIsUnique(s, attempt, k); }
      if env.ctxErr(2 * attempt).Some? {
        return Return(None, env.ctxErr(2 * attempt)), actions;
      }
      actions := actions + [Invoke(attempt)];
      var ret := env.handler(attempt);
      if !ret.Return? || ret.err.None? {
        return ret, actions;
      }
      lastErr := ret.err;
      if !env.retryOn(ret.err.value) {
        return Return(None, ret.err), actions;
      }
      if attempt == o.maxAttempts {
        break;
      }
      var d := NextDelay(o, env, attempt, s);
      if d.None? {
        return Panic, actions;
      }
      actions := actions + [Sleep(attempt, d.value)];
      var err := SleepErr(env, attempt, d.value);
      if err.Some? {
        return Return(None, err), actions;
      }
      attempt := attempt + 1;
    }
    return Return(None, lastErr), actions;
  }

  method Client<R, E>(o: Options, env: Env<R, E>) returns (out: Outcome<R, E>, actions: seq<Action>)
    requires ValidOptions(o)
    ensures o.maxAttempts <= 1 ==> out == env.handler(1) && actions == [Invoke(1)]
    ensures o.maxAttempts > 1 ==>
              var s := ScriptOf(o, env);
              var k := End(s, 1);
              out == Verdict(s, k) && actions == Rounds(s, k) + LastRound(s, k)
  {
    if o.maxAttempts <= 1 {
      return env.handler(1), [Invoke(1)];
    }
    out, actions := Attempts(o, env, ScriptOf(o, env));
  }

  // ----- what follows for every run

  /** A run ends at one attempt only, so the specification fixes its outcome. */
  lemma EndIsUnique<R, E>(s: Script<R, E>, k: nat, k': nat)
    requires EndsAt(s, k) && EndsAt(s, k')
    ensures k == k'
  {
  }

  /** The attempts at which the handler was called. */
  function Invocations(actions: seq<Action>): seq<nat>
    decreases |actions|
  {
    if actions == [] then []
    else
      var a := actions[|actions| - 1];
      Invocations(actions[..|actions| - 1]) + (if a.Invoke? then [a.attempt] else [])
  }

  lemma InvocationsSnoc(actions: seq<Action>, a: Action)
    ensures Invocations(actions + [a]) == Invocations(actions) + (if a.Invoke? then [a.attempt] else [])
  {
    assert (actions + [a])[..|actions|] == actions;
  }

  lemma InvocationsRound(actions: seq<Action>, k: nat, d: int)
    ensures Invocations(actions + [Invoke(k), Sleep(k, d)]) == Invocations(actions) + [k]
  {
    InvocationsSnoc(actions, Invoke(k));
    InvocationsSnoc(actions + [Invoke(k)], Sleep(k, d));
    assert actions + [Invoke(k)] + [Sleep(k, d)] == actions + [Invoke(k), Sleep(k, d)];
  }

  lemma {:induction false} InvocationsOfRounds<R, E>(s: Script<R, E>, k: nat)
    requires k >= 1 && forall j | 1 <= j < k :: Continues(s, j)
    ensures Invocations(Rounds(s, k)) == seq(k - 1, i requires 0 <= i => i + 1)
  {
    if k > 1 {
      assert Continues(s, k - 1);
      InvocationsOfRounds(s, k - 1);
      InvocationsRound(Rounds(s, k - 1), k - 1, s.backoff(k - 1).value);
    }
  }

  lemma InvocationsOfLast<R, E>(s: Script<R, E>, k: nat, before: seq<Action>)
    requires k >= 1
    ensures Invocations(before + LastRound(s, k)) ==
            Invocations(before) + (if s.env.ctxErr(2 * k).Some? then [] else [k])
  {
    var last := LastRound(s, k);
    if last == [] {
      assert before + last == before;
    } else if |last| == 1 {
      InvocationsSnoc(before, Invoke(k));
    } else {
      InvocationsRound(before, k, s.backoff(k).value);
    }
  }

  /**
   * The handler is called for attempts 1, 2, 3, ... without gaps, at most maxAttempts times, and
   * never once the context has been seen done: not even after a sleep whose select took the
   * timer while the context was done as well.
   */
  lemma CallsAreBoundedAndUncancelled<R, E>(s: Script<R, E>, k: nat)
    requires CancelMonotone(s.env) && EndsAt(s, k)
    ensures var calls := Invocations(Rounds(s, k) + LastRound(s, k));
            && |calls| == (if s.env.ctxErr(2 * k).Some? then k - 1 else k)
            && |calls| <= s.maxAttempts
            && (forall i | 0 <= i < |calls| :: calls[i] == i + 1)
            && (forall i, p: nat | 0 <= i < |calls| && p <= 2 * calls[i] :: s.env.ctxErr(p).None?)
  {
    InvocationsOfRounds(s, k);
    InvocationsOfLast(s, k, Rounds(s, k));
    var calls := Invocations(Rounds(s, k) + LastRound(s, k));
    forall i, p: nat | 0 <= i < |calls| && p <= 2 * calls[i] ensures s.env.ctxErr(p).None? {
      assert i < k - 1 ==> Continues(s, i + 1);
      assert s.env.ctxErr(2 * calls[i]).None?;
    }
  }

  /** An attempt whose outcome settles the run: anything but an error worth retrying. */
  predicate Settles<R, E>(env: Env<R, E>, k: nat) {
    var ret := env.handler(k);
    !ret.Return? || ret.err.None? || !env.retryOn(ret.err.value)
  }

  /** The first attempt that settles the run, or the last one if none does. */
  function Decisive<R, E>(env: Env<R, E>, maxAttempts: int, from: nat): (f: nat)
    requires 1 <= from <= maxAttempts && forall j | 1 <= j < from :: !Settles(env, j)
    ensures from <= f <= maxAttempts && (Settles(env, f) || f == maxAttempts)
    ensures forall j | 1 <= j < f :: !Settles(env, j)
    decreases maxAttempts - from
  {
    if Settles(env, from) || from == maxAttempts then from else Decisive(env, maxAttempts, from + 1)
  }

  /** What a settled, or last, attempt makes of its own outcome: an error comes without a reply. */
  function Settled<R, E>(ret: Outcome<R, E>): Outcome<R, E> {
    if ret.Return? && ret.err.Some? then Return(None, ret.err) else ret
  }

  /**
   * A context that is done by the time attempt m would begin ends the run before that attempt,
   * with the context's error, unless an earlier attempt settles the run. It does not matter
   * whether a sleep notices the cancellation or the timer wins and the next check does.
   */
  lemma CancellationEndsRun<R, E>(s: Script<R, E>, k: nat, m: nat)
    requires CancelMonotone(s.env) && EndsAt(s, k)
    requires 1 <= m <= s.maxAttempts && s.env.ctxErr(2 * m).Some?
    requires forall j | 1 <= j < m :: !Settles(s.env, j) && s.backoff(j).Some?
    ensures k <= m
    ensures Verdict(s, k) == Return(None, s.env.ctxErr(2 * m))
  {
    assert !Continues(s, m);
    if k < m {
      assert !Settles(s.env, k) && s.backoff(k).Some?;
    }
  }

  /**
   * A cancellation during a sleep ends the run in that sleep, without waiting for the timer, if
   * the select takes it; and if the timer wins, the run goes on to the next attempt's own check.
   */
  lemma CancelledSleep<R, E>(s: Script<R, E>, k: nat, m: nat)
    requires EndsAt(s, k) && 1 <= m < s.maxAttempts && (forall j | 1 <= j < m :: Continues(s, j))
    requires s.env.ctxErr(2 * m).None? && !Settles(s.env, m) && s.backoff(m).Some? && s.backoff(m).value > 0
    requires s.env.ctxErr(2 * m + 1).Some?
    ensures if s.env.timerFirst(m) then k > m
            else k == m && Verdict(s, k) == Return(None, s.env.ctxErr(2 * m + 1))
  {
    if !s.env.timerFirst(m) {
      assert !Continues(s, m);
      EndIsUnique(s, k, m);
    } else {
      assert Continues(s, m);
    }
  }

  /** A context that is live when the decisive attempt begins lets the run get there. */
  lemma LiveUntilDecisive<R, E>(s: Script<R, E>, k: nat, f: nat)
    requires CancelMonotone(s.env) && EndsAt(s, k)
    requires 1 <= f <= s.maxAttempts && (Settles(s.env, f) || f == s.maxAttempts)
    requires s.env.ctxErr(2 * f).None?
    requires forall j | 1 <= j < f :: !Settles(s.env, j) && s.backoff(j).Some?
    ensures k == f && Verdict(s, k) == Settled(s.env.handler(f))
  {
    forall j | 1 <= j < f ensures Continues(s, j) {
      assert !Settles(s.env, j) && s.backoff(j).Some?;
      assert s.env.ctxErr(2 * j).None? && s.env.ctxErr(2 * j + 1).None?;
    }
    assert !Continues(s, f);
    EndIsUnique(s, k, f);
  }

  /**
   * Every run, whatever its options and whenever it is cancelled. Let f be the first attempt
   * whose outcome settles it, or the last. If the context is done by the time f would begin,
   * the run returns the context's error; otherwise f's own outcome. The one exception: options
   * whose jitter panics do so after the first attempt, if that ran and settled nothing.
   */
  lemma OutcomeOfEveryRun<R, E>(o: Options, env: Env<R, E>)
    requires ValidOptions(o) && o.maxAttempts >= 2 && CancelMonotone(env)
    ensures var s := ScriptOf(o, env);
            var f := Decisive(env, o.maxAttempts, 1);
            Verdict(s, End(s, 1)) ==
            if env.ctxErr(2).None? && f > 1 && (o.maxBackoff <= 1 || o.initial == 1) then Panic
            else if env.ctxErr(2 * f).Some? then Return(None, env.ctxErr(2 * f))
            else Settled(env.handler(f))
  {
    var s := ScriptOf(o, env);
    var f, k := Decisive(env, o.maxAttempts, 1), End(s, 1);
    if f > 1 && (o.maxBackoff <= 1 || o.initial == 1) {
      Delay(o, env, 1);
      FirstSleepPanics(s, k, f);
    } else {
      forall j | 1 <= j < f ensures s.backoff(j).Some? { Delay(o, env, j); }
      if env.ctxErr(2 * f).Some? {
        CancellationEndsRun(s, k, f);
      } else {
        LiveUntilDecisive(s, k, f);
      }
    }
  }

  /** A run whose first sleep panics ends at the first attempt. */
  lemma FirstSleepPanics<R, E>(s: Script<R, E>, k: nat, f: nat)
    requires CancelMonotone(s.env) && EndsAt(s, k)
    requires 1 < f <= s.maxAttempts && !Settles(s.env, 1) && s.backoff(1).None?
    ensures Verdict(s, k) == if s.env.ctxErr(2).None? then Panic else Return(None, s.env.ctxErr(2 * f))
  {
    assert !Continues(s, 1);
    EndIsUnique(s, k, 1);
  }

  lemma Delay<R, E>(o: Options, env: Env<R, E>, k: nat)
    requires k >= 1 && ValidOptions(o)
    ensures ScriptOf(o, env).backoff(k).None? <==> o.maxBackoff <= 1 || (k == 1 && o.initial == 1)
  {
    B.BackoffPanicsExactly(k, o.initial, o.maxBackoff, env.draw(k));
  }

  // ----- the sleeps of a failing run

  function Sum(ds: seq<int>): int
    decreases |ds|
  {
    if ds == [] then 0 else Sum(ds[..|ds| - 1]) + ds[|ds| - 1]
  }

  /** The durations the run asked to sleep before attempt k. */
  function Sleeps<R, E>(s: Script<R, E>, k: nat): (r: seq<int>)
    requires k >= 1 && forall j | 1 <= j < k :: Continues(s, j)
    ensures |r| == k - 1
  {
    if k == 1 then [] else assert Continues(s, k - 1); Sleeps(s, k - 1) + [s.backoff(k - 1).value]
  }

  function SleepsIn(actions: seq<Action>): seq<int>
    decreases |actions|
  {
    if actions == [] then []
    else
      var a := actions[|actions| - 1];
      SleepsIn(actions[..|actions| - 1]) + (if a.Sleep? then [a.duration] else [])
  }

  lemma {:induction false} SleepsOfRounds<R, E>(s: Script<R, E>, k: nat)
    requires k >= 1 && forall j | 1 <= j < k :: Continues(s, j)
    ensures SleepsIn(Rounds(s, k)) == Sleeps(s, k)
  {
    if k > 1 {
      SleepsOfRounds(s, k - 1);
      var rs := Rounds(s, k);
      assert rs[..|rs| - 1][..|rs| - 2] == Rounds(s, k - 1);
    }
  }

  /** The promised sleeps after attempts 1 .. n. */
  function Schedule(o: Options, n: nat): (r: seq<int>)
    ensures |r| == n
    ensures forall i | 0 <= i < n :: r[i] == B.Ideal(i + 1, o.initial, o.maxBackoff)
  {
    seq(n, i requires 0 <= i => B.Ideal(i + 1, o.initial, o.maxBackoff))
  }

  ghost predicate BoundedProduct(o: Options) {
    o.initial >= 2 && o.maxBackoff >= 2 && o.initial * o.maxBackoff < HALF
  }

  /**
   * A run that fails on its n-th and last attempt has slept exactly n - 1 times, in total
   * between 3/4 and 5/4 of the promised schedule and never more than (n - 1) * maxBackoff.
   */
  lemma FailingRunSleeps<R, E>(o: Options, env: Env<R, E>)
    requires BoundedProduct(o) && o.maxAttempts >= 2
    requires EndsAt(ScriptOf(o, env), o.maxAttempts)
    ensures var s := ScriptOf(o, env);
            var slept := SleepsIn(Rounds(s, o.maxAttempts) + LastRound(s, o.maxAttempts));
            && |slept| == o.maxAttempts - 1
            && 3 * Sum(Schedule(o, |slept|)) <= 4 * Sum(slept) <= 5 * Sum(Schedule(o, |slept|))
            && Sum(slept) <= |slept| * o.maxBackoff
  {
    var ideal := Schedule(o, o.maxAttempts - 1);
    forall i | 0 <= i < |ideal| ensures Near(ScriptOf(o, env).backoff(i + 1), ideal[i], o.maxBackoff) {
      DelayNearSchedule(o, env, i + 1);
    }
    TotalsNear(ScriptOf(o, env), ideal, o.maxBackoff);
  }

  /** A delay within a quarter of b, and within the cap. */
  ghost predicate Near(delay: Option<int>, b: int, cap: int) {
    delay.Some? && 3 * b <= 4 * delay.value <= 5 * b && delay.value <= cap
  }

  lemma TotalsNear<R, E>(s: Script<R, E>, ideal: seq<int>, cap: int)
    requires s.maxAttempts >= 1 && EndsAt(s, s.maxAttempts) && |ideal| == s.maxAttempts - 1
    requires forall i | 0 <= i < |ideal| :: Near(s.backoff(i + 1), ideal[i], cap)
    ensures var slept := SleepsIn(Rounds(s, s.maxAttempts) + LastRound(s, s.maxAttempts));
            && |slept| == |ideal|
            && 3 * Sum(ideal) <= 4 * Sum(slept) <= 5 * Sum(ideal)
            && Sum(slept) <= |slept| * cap
  {
    SleepsFollowBackoff(s, s.maxAttempts);
    var slept := SleepsIn(Rounds(s, s.maxAttempts) + LastRound(s, s.maxAttempts));
    forall i | 0 <= i < |slept| ensures Near(Some(slept[i]), ideal[i], cap) {
      assert s.backoff(i + 1) == Some(slept[i]);
    }
    SumsBetween(slept, ideal, cap);
  }

  /** Attempt k ran, settled nothing and was not the last: it went to sleep. */
  ghost predicate WentToSleep<R, E>(s: Script<R, E>, k: nat) {
    s.env.ctxErr(2 * k).None? && !Settles(s.env, k) && k < s.maxAttempts && s.backoff(k).Some?
  }

  lemma SleepsOfRun<R, E>(s: Script<R, E>, k: nat)
    requires EndsAt(s, k)
    ensures SleepsIn(Rounds(s, k) + LastRound(s, k)) ==
            Sleeps(s, k) + (if WentToSleep(s, k) then [s.backoff(k).value] else [])
  {
    var rounds, last := Rounds(s, k), LastRound(s, k);
    SleepsOfRounds(s, k);
    if last == [] {
      assert rounds + last == rounds;
    } else {
      assert (rounds + [Invoke(k)])[..|rounds|] == rounds;
      if WentToSleep(s, k) {
        assert rounds + last == rounds + [Invoke(k)] + last[1..];
        assert (rounds + last)[..|rounds| + 1] == rounds + [Invoke(k)];
      } else {
        assert last == [Invoke(k)];
      }
    }
  }

  /**
   * The sleeps of every run: one after each attempt that ran, settled nothing and was not the
   * last, in order, each as long as the backoff for that attempt.
   */
  lemma SleepsFollowBackoff<R, E>(s: Script<R, E>, k: nat)
    requires EndsAt(s, k)
    ensures var slept := SleepsIn(Rounds(s, k) + LastRound(s, k));
            && |slept| == (if WentToSleep(s, k) then k else k - 1)
            && forall i | 0 <= i < |slept| :: s.backoff(i + 1) == Some(slept[i])
  {
    SleepsOfRun(s, k);
    SleepsAre(s, k);
  }

  lemma {:induction false} SleepsAre<R, E>(s: Script<R, E>, k: nat)
    requires k >= 1 && forall j | 1 <= j < k :: Continues(s, j)
    ensures forall i | 0 <= i < k - 1 :: s.backoff(i + 1) == Some(Sleeps(s, k)[i])
  {
    if k > 1 {
      assert Continues(s, k - 1);
      SleepsAre(s, k - 1);
    }
  }

  lemma {:induction false} SumsBetween(ds: seq<int>, bs: seq<int>, cap: int)
    requires |ds| == |bs|
    requires forall i | 0 <= i < |ds| :: Near(Some(ds[i]), bs[i], cap)
    ensures 3 * Sum(bs) <= 4 * Sum(ds) <= 5 * Sum(bs)
    ensures Sum(ds) <= |ds| * cap
    decreases |ds|
  {
    if ds != [] {
      var n := |ds| - 1;
      SumsBetween(ds[..n], bs[..n], cap);
      assert Near(Some(ds[n]), bs[n], cap);
      Times(n, cap);
    }
  }

  lemma Times(n: nat, cap: int)
    ensures (n + 1) * cap == n * cap + cap
  {}

  lemma DelayNearSchedule<R, E>(o: Options, env: Env<R, E>, k: nat)
    requires BoundedProduct(o) && k >= 1
    ensures Near(ScriptOf(o, env).backoff(k), B.Ideal(k, o.initial, o.maxBackoff), o.maxBackoff)
  {
    B.SleepNearSchedule(k, o.initial, o.maxBackoff, env.draw(k));
  }

  /** While the cap is not reached the schedule is geometric, so its sum is initial * (2^n - 1). */
  lemma {:induction false} UnclampedSum(o: Options, n: nat)
    requires o.initial >= 0 && (n > 0 ==> o.initial * Pow2(n - 1) <= o.maxBackoff)
    ensures Sum(Schedule(o, n)) == o.initial * (Pow2(n) - 1)
  {
    if n > 0 {
      Unclamped(o, n);
      UnclampedSum(o, n - 1);
      assert Schedule(o, n)[..n - 1] == Schedule(o, n - 1);
      GeometricStep(o.initial, Pow2(n - 1));
    }
  }

  lemma Unclamped(o: Options, n: nat)
    requires o.initial >= 0 && n > 0 && o.initial * Pow2(n - 1) <= o.maxBackoff
    ensures B.Ideal(n, o.initial, o.maxBackoff) == o.initial * Pow2(n - 1)
    ensures n > 1 ==> o.initial * Pow2(n - 2) <= o.maxBackoff
  {
    if n > 1 { DoublingGrows(o.initial, Pow2(n - 2)); }
  }

  lemma DoublingGrows(a: int, p: int)
    requires a >= 0 && p >= 0
    ensures a * p <= a * (2 * p)
  {}

  lemma GeometricStep(a: int, p: int)
    ensures a * (p - 1) + a * p == a * (2 * p - 1)
  {}
}
