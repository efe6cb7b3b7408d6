/**
 * Runs of requests through the rate limiter: what each request gets is decided by its key's own
 * bucket, and answers and buckets are those of the interleaved table, on the schedule that runs
 * each request's two steps back to back.
 */
module LimitedRuns {
  import opened Wrappers
  import opened Middleware
  import opened Servers
  import opened Runs
  import Table = RateLimiter
  import TB = TokenBucket

  predicate Limited(o: LimitOptions, c: Ctx) { !o.skip(Op(c)) }

  function KeyOf(o: LimitOptions, c: Ctx): string { o.key(c, Op(c)) }

  /** The times of the calls of Allow these requests make for a key. */
  function KeyTimes(o: LimitOptions, cs: seq<Ctx>, key: string): seq<int>
    decreases |cs|
  {
    if cs == [] then []
    else
      var c := cs[|cs| - 1];
      var before := KeyTimes(o, cs[..|cs| - 1], key);
      if Limited(o, c) && KeyOf(o, c) == key then before + [c.now] else before
  }

  /** The requests that reach the limiter, as auth hands them on. */
  function Admitted(auth: AuthOptions, reqs: seq<Ctx>): seq<Ctx>
    decreases |reqs|
  {
    if reqs == [] then []
    else
      var verdict := Authenticate(auth, Traced(reqs[|reqs| - 1]));
      var before := Admitted(auth, reqs[..|reqs| - 1]);
      if verdict.Admit? then before + [verdict.ctx] else before
  }

  ghost predicate KeepsBuckets(h: Handler) { forall w: World, c: Ctx :: h(w, c).0.buckets == w.buckets }

  function BucketsAfter(o: LimitOptions, buckets: map<string, TB.Limiter>, c: Ctx): map<string, TB.Limiter> {
    if Limited(o, c) then TB.AllowKey(o.rate, buckets, KeyOf(o, c), c.now).1 else buckets
  }

  lemma LimitedBuckets(o: LimitOptions, rest: Handler, w: World, c: Ctx)
    requires KeepsBuckets(rest)
    ensures RateLimit(o)(rest)(w, c).0.buckets == BucketsAfter(o, w.buckets, c)
  {
    if Limited(o, c) { RateLimitAt(o, rest, w, c); }
  }

  /** The buckets are those that eager ones, fed with these requests, would be. */
  ghost predicate BucketsMatch(o: LimitOptions, buckets: map<string, TB.Limiter>, cs: seq<Ctx>, key: string) {
    && (key in buckets <==> KeyTimes(o, cs, key) != [])
    && (key in buckets ==> buckets[key] == TB.After(o.rate, KeyTimes(o, cs, key)))
  }

  lemma MatchSnoc(o: LimitOptions, buckets: map<string, TB.Limiter>, cs: seq<Ctx>, c: Ctx, key: string)
    requires BucketsMatch(o, buckets, cs, key)
    ensures BucketsMatch(o, BucketsAfter(o, buckets, c), cs + [c], key)
  {
    assert (cs + [c])[..|cs|] == cs;
    if Limited(o, c) && KeyOf(o, c) == key {
      var times := KeyTimes(o, cs, key);
      assert (times + [c.now])[..|times|] == times;
    }
  }

  lemma ServedBuckets(auth: AuthOptions, o: LimitOptions, rest: Handler, serve: Handler, w: World, c: Ctx)
    requires KeepsBuckets(rest) && Observes(serve, Auth(auth)(RateLimit(o)(rest)))
    ensures var verdict := Authenticate(auth, Traced(c));
            serve(w, c).0.buckets == if verdict.Admit? then BucketsAfter(o, w.buckets, verdict.ctx) else w.buckets
  {
    var inner := Auth(auth)(RateLimit(o)(rest));
    assert serve(w, c) == Observed(inner, w, c);
    match Authenticate(auth, Traced(c))
    case Refuse(_) =>
    case Admit(c') => LimitedBuckets(o, rest, w, c');
  }

  lemma {:induction false} RunMatches(auth: AuthOptions, o: LimitOptions, rest: Handler, serve: Handler, w: World,
                                      reqs: seq<Ctx>, key: string)
    requires KeepsBuckets(rest) && Observes(serve, Auth(auth)(RateLimit(o)(rest))) && w.buckets == map[]
    ensures BucketsMatch(o, After(serve, w, reqs).buckets, Admitted(auth, reqs), key)
    decreases |reqs|
  {
    if reqs != [] {
      var before, c := reqs[..|reqs| - 1], reqs[|reqs| - 1];
      RunMatches(auth, o, rest, serve, w, before, key);
      var v := After(serve, w, before);
      ServedBuckets(auth, o, rest, serve, v, c);
      var verdict := Authenticate(auth, Traced(c));
      if verdict.Admit? {
        MatchSnoc(o, v.buckets, Admitted(auth, before), verdict.ctx, key);
      }
    }
  }

  /**
   * Over any run from no buckets, through the default chain, auth and ratelimit: a key has a
   * bucket if and only if a request reached the limiter under it, and that bucket is one that was
   * full from the start and got the calls of the key's own admitted requests.
   */
  lemma RunLeavesEagerBuckets(auth: AuthOptions, o: LimitOptions, rest: Handler, w: World, reqs: seq<Ctx>, key: string)
    requires KeepsBuckets(rest) && w.buckets == map[]
    ensures BucketsMatch(o, After(Chain(DefaultChain() + [Auth(auth), RateLimit(o)], rest), w, reqs).buckets,
                         Admitted(auth, reqs), key)
  {
    InstalledObserves(auth, o, rest);
    RunMatches(auth, o, rest, Chain(DefaultChain() + [Auth(auth), RateLimit(o)], rest), w, reqs, key);
  }

  // ----- what each request of a run gets

  /** The request comes back as this handler does, a panic as the 500 that recovery makes of it. */
  ghost predicate ServedBy(before: World, next: Handler, u: World, c: Ctx, after: (World, Result)) {
    && u == before.(buckets := u.buckets)
    && after.0.app == next(u, c).0.app
    && after.1 == match next(u, c).1
                  case Panic => Return(None, Some(Error(Some(Kratos(500, "PANIC")), "handler panicked")))
                  case out => out
  }

  /** The request comes back as the 429, and only buckets and metrics may have changed. */
  ghost predicate TurnedAway(before: World, after: (World, Result)) {
    && after.1 == Return(None, Some(Error(Some(Kratos(429, "RATE_LIMITED")), "too many requests")))
    && after.0 == before.(metrics := after.0.metrics, buckets := after.0.buckets)
  }

  lemma LimitedAnswer(o: LimitOptions, rest: Handler, w: World, cs: seq<Ctx>, c: Ctx)
    requires !o.skip(Op(c)) && BucketsMatch(o, w.buckets, cs, o.key(c, Op(c)))
    ensures var times := KeyTimes(o, cs, o.key(c, Op(c)));
            var w' := w.(buckets := w.buckets[o.key(c, Op(c)) := TB.After(o.rate, times + [c.now])]);
            RateLimit(o)(rest)(w, c) ==
            if TB.Decisions(o.rate, times + [c.now])[|times|] then rest(w', c) else (w', Fail(ERR_TOO_MANY_REQUESTS))
  {
    var key := o.key(c, Op(c));
    TB.AllowKeyDecides(o.rate, w.buckets, key, KeyTimes(o, cs, key), c.now);
    RateLimitAt(o, rest, w, c);
  }

  lemma ServedRequest(auth: AuthOptions, o: LimitOptions, rest: Handler, serve: Handler, v: World, before: seq<Ctx>,
                      c: Ctx, c': Ctx)
    requires Observes(serve, Auth(auth)(RateLimit(o)(rest))) && Authenticate(auth, Traced(c)) == Admit(c')
    requires BucketsMatch(o, v.buckets, Admitted(auth, before), o.key(c', Op(c')))
    ensures var times := KeyTimes(o, Admitted(auth, before), o.key(c', Op(c')));
            if !o.skip(Op(c')) && !TB.Decisions(o.rate, times + [c'.now])[|times|] then TurnedAway(v, serve(v, c))
            else exists u :: ServedBy(v, rest, u, c', serve(v, c))
  {
    assert serve(v, c) == Observed(Auth(auth)(RateLimit(o)(rest)), v, c);
    assert Auth(auth)(RateLimit(o)(rest))(v, Traced(c)) == RateLimit(o)(rest)(v, c');
    var key := o.key(c', Op(c'));
    var times := KeyTimes(o, Admitted(auth, before), key);
    if o.skip(Op(c')) {
      assert ServedBy(v, rest, v, c', serve(v, c));
    } else {
      LimitedAnswer(o, rest, v, Admitted(auth, before), c');
      var u := v.(buckets := v.buckets[key := TB.After(o.rate, times + [c'.now])]);
      if TB.Decisions(o.rate, times + [c'.now])[|times|] {
        assert ServedBy(v, rest, u, c', serve(v, c));
      }
    }
  }

  /** The last of the decisions of a key's bucket, called by these requests. */
  ghost predicate LastAllowed(o: LimitOptions, cs: seq<Ctx>, key: string) {
    var ds := TB.Decisions(o.rate, KeyTimes(o, cs, key));
    ds != [] && ds[|ds| - 1]
  }

  /** What happens to a request, let in with this context, when the world is v and these were let in so far. */
  ghost predicate Answered(o: LimitOptions, rest: Handler, cs: seq<Ctx>, c: Ctx, v: World, after: (World, Result)) {
    if !o.skip(Op(c)) && !LastAllowed(o, cs, o.key(c, Op(c))) then TurnedAway(v, after)
    else exists u :: ServedBy(v, rest, u, c, after)
  }

  lemma RequestAnswered(auth: AuthOptions, o: LimitOptions, rest: Handler, serve: Handler, w: World,
                        before: seq<Ctx>, c: Ctx, c': Ctx)
    requires KeepsBuckets(rest) && w.buckets == map[] && Observes(serve, Auth(auth)(RateLimit(o)(rest)))
    requires Authenticate(auth, Traced(c)) == Admit(c')
    ensures var v := After(serve, w, before);
            Answered(o, rest, Admitted(auth, before + [c]), c', v, serve(v, c))
  {
    var key := o.key(c', Op(c'));
    RunMatches(auth, o, rest, serve, w, before, key);
    ServedRequest(auth, o, rest, serve, After(serve, w, before), before, c, c');
    assert (before + [c])[..|before|] == before;
    if !o.skip(Op(c')) { LastAllowedSnoc(o, Admitted(auth, before), c'); }
  }

  lemma LastAllowedSnoc(o: LimitOptions, cs: seq<Ctx>, c: Ctx)
    requires !o.skip(Op(c))
    ensures var key := o.key(c, Op(c));
            var times := KeyTimes(o, cs, key);
            LastAllowed(o, cs + [c], key) <==> TB.Decisions(o.rate, times + [c.now])[|times|]
  {
    KeyTimesSnoc(o, cs, c, o.key(c, Op(c)));
  }

  lemma RunAnswered(auth: AuthOptions, o: LimitOptions, rest: Handler, serve: Handler, w: World, reqs: seq<Ctx>,
                    i: nat, c': Ctx)
    requires KeepsBuckets(rest) && w.buckets == map[] && Observes(serve, Auth(auth)(RateLimit(o)(rest)))
    requires i < |reqs| && Authenticate(auth, Traced(reqs[i])) == Admit(c')
    ensures var v := After(serve, w, reqs[..i]);
            && Outcomes(serve, w, reqs)[i] == serve(v, reqs[i]).1
            && Answered(o, rest, Admitted(auth, reqs[..i + 1]), c', v, serve(v, reqs[i]))
  {
    OutcomeAt(serve, w, reqs, i);
    assert reqs[..i + 1] == reqs[..i] + [reqs[i]];
    RequestAnswered(auth, o, rest, serve, w, reqs[..i], reqs[i], c');
  }

  lemma InstalledObserves(auth: AuthOptions, o: LimitOptions, rest: Handler)
    ensures Observes(Chain(DefaultChain() + [Auth(auth), RateLimit(o)], rest), Auth(auth)(RateLimit(o)(rest)))
  {
    TwoExtras(Auth(auth), RateLimit(o), rest);
    DefaultChainObserves(Auth(auth)(RateLimit(o)(rest)));
  }

  /**
   * Every request of a run from no buckets, through the default chain, auth and ratelimit, that
   * auth lets in: it gets the 429, without what is behind being called, if and only if its
   * operation is limited and the last decision of a bucket full from the start, called by this
   * request and the earlier ones let in under its key, is a denial. Otherwise it gets what is
   * behind returns.
   */
  lemma {:induction false} RunAnswers(auth: AuthOptions, o: LimitOptions, rest: Handler, w: World, reqs: seq<Ctx>, i: nat, c': Ctx)
    requires KeepsBuckets(rest) && w.buckets == map[] && i < |reqs|
    requires Authenticate(auth, Traced(reqs[i])) == Admit(c')
    ensures var serve := Chain(DefaultChain() + [Auth(auth), RateLimit(o)], rest);
            var v := After(serve, w, reqs[..i]);
            && Outcomes(serve, w, reqs)[i] == serve(v, reqs[i]).1
            && Answered(o, rest, Admitted(auth, reqs[..i + 1]), c', v, serve(v, reqs[i]))
  {
    InstalledObserves(auth, o, rest);
    RunAnswered(auth, o, rest, Chain(DefaultChain() + [Auth(auth), RateLimit(o)], rest), w, reqs, i, c');
  }

  lemma KeyTimesSnoc(o: LimitOptions, cs: seq<Ctx>, c: Ctx, key: string)
    ensures KeyTimes(o, cs + [c], key) ==
            if Limited(o, c) && KeyOf(o, c) == key then KeyTimes(o, cs, key) + [c.now] else KeyTimes(o, cs, key)
  {
    assert (cs + [c])[..|cs|] == cs;
  }

  lemma {:induction false} OutcomeAt(h: Handler, w: World, reqs: seq<Ctx>, i: nat)
    requires i < |reqs|
    ensures Outcomes(h, w, reqs)[i] == h(After(h, w, reqs[..i]), reqs[i]).1
    decreases |reqs|
  {
    var n := |reqs| - 1;
    if i < n {
      OutcomeAt(h, w, reqs[..n], i);
      assert reqs[..n][..i] == reqs[..i];
    }
  }

  // ----- the same run as a schedule of the table

  /** Each limited request looks its key up and calls Allow at once. */
  function BackToBack(o: LimitOptions, cs: seq<Ctx>): seq<Table.Event>
    decreases |cs|
  {
    if cs == [] then []
    else
      var n := |cs| - 1;
      var c := cs[n];
      var before := BackToBack(o, cs[..n]);
      if Limited(o, c) then before + [Table.Lookup(n, KeyOf(o, c)), Table.Call(n, c.now)] else before
  }

  lemma {:induction false} BackToBackRuns(o: LimitOptions, cs: seq<Ctx>, key: string)
    ensures var trace := BackToBack(o, cs);
            && Table.Run(o.rate, trace).Some?
            && Table.Waiting(trace) == map[]
            && Table.CallTimes(trace, key) == KeyTimes(o, cs, key)
            && (key in Table.Run(o.rate, trace).value.limiters <==> KeyTimes(o, cs, key) != [])
    decreases |cs|
  {
    if cs != [] {
      var n := |cs| - 1;
      BackToBackRuns(o, cs[..n], key);
      if Limited(o, cs[n]) {
        TwoSteps(o.rate, BackToBack(o, cs[..n]), n, KeyOf(o, cs[n]), cs[n].now, key);
      }
    }
  }

  lemma TwoSteps(cfg: TB.Config, trace: seq<Table.Event>, req: nat, k: string, now: int, key: string)
    requires Table.Run(cfg, trace).Some? && Table.Waiting(trace) == map[]
    ensures var trace' := trace + [Table.Lookup(req, k), Table.Call(req, now)];
            && Table.Run(cfg, trace').Some?
            && Table.Waiting(trace') == map[]
            && Table.CallTimes(trace', key) == Table.CallTimes(trace, key) + (if k == key then [now] else [])
            && (key in Table.Run(cfg, trace').value.limiters <==> key in Table.Run(cfg, trace).value.limiters || k == key)
  {
    var looked := trace + [Table.Lookup(req, k)];
    assert looked[..|trace|] == trace;
    Table.ReachableInv(cfg, trace, key);
    assert Table.Waiting(looked) == map[req := k];
    Table.CallAlwaysEnabled(cfg, looked, req, now);
    var trace' := trace + [Table.Lookup(req, k), Table.Call(req, now)];
    assert trace' == looked + [Table.Call(req, now)] && trace'[..|looked|] == looked;
  }

  /** Bucket by bucket, the chain's table and the interleaved one hold the same. */
  lemma RunMatchesTable(auth: AuthOptions, o: LimitOptions, rest: Handler, w: World, reqs: seq<Ctx>, key: string)
    requires KeepsBuckets(rest) && w.buckets == map[]
    ensures var buckets := After(Chain(DefaultChain() + [Auth(auth), RateLimit(o)], rest), w, reqs).buckets;
            var run := Table.Run(o.rate, BackToBack(o, Admitted(auth, reqs)));
            && run.Some?
            && (key in buckets <==> key in run.value.limiters)
            && (key in buckets ==>
                  && run.value.limiters[key] < |run.value.heap|
                  && run.value.heap[run.value.limiters[key]] == buckets[key])
  {
    RunLeavesEagerBuckets(auth, o, rest, w, reqs, key);
    var cs := Admitted(auth, reqs);
    BackToBackRuns(o, cs, key);
    Table.ReachableInv(o.rate, BackToBack(o, cs), key);
  }

  /** And what decides over a request is the answer the table gives to its key last. */
  lemma RunAnswersMatchTable(auth: AuthOptions, o: LimitOptions, reqs: seq<Ctx>, key: string)
    ensures var cs := Admitted(auth, reqs);
            var run := Table.Run(o.rate, BackToBack(o, cs));
            && run.Some?
            && Table.AnswersFor(run.value.answers, key) == TB.Decisions(o.rate, KeyTimes(o, cs, key))
            && (LastAllowed(o, cs, key) <==>
                  var answers := Table.AnswersFor(run.value.answers, key);
                  answers != [] && answers[|answers| - 1])
  {
    var cs := Admitted(auth, reqs);
    BackToBackRuns(o, cs, key);
    Table.RefinesEagerBuckets(o.rate, BackToBack(o, cs), key);
  }
}
