/** The middlewares the servers install, written as the program writes them. */
module Servers {
  import opened Wrappers
  import opened Middleware
  import opened Counters
  import opened Text
  import TB = TokenBucket

  // ----- recovery, tracing, logid, access, metric

  const ERR_PANIC := Error(Some(Kratos(500, "PANIC")), "handler panicked")

  /** A panic of the next handler, on this goroutine, becomes an error; a crash elsewhere does not. */
  function Recovery(next: Handler): Handler {
    (w: World, c: Ctx) =>
      var (w', out) := next(w, c);
      if out.Panic? then
        (w'.(metrics := w'.metrics.(panics := Inc(w'.metrics.panics, Op(c)))), Fail(ERR_PANIC))
      else (w', out)
  }

  function Tracing(next: Handler): Handler { next }

  function LogId(next: Handler): Handler {
    (w: World, c: Ctx) => next(w, Traced(c))
  }

  /** The request's trace id, or a new one if it brings none. */
  function Traced(c: Ctx): Ctx {
    var given := Header(c, "x-trace-id");
    c.(traceId := if given == "" then c.newId else given)
  }

  /** access.codeOf: a kratos error's reason as it is, even when empty. */
  function AccessCode(err: Option<Error>): string {
    if err.None? then "ok" else if err.value.kratos.Some? then err.value.kratos.value.reason else "error"
  }

  function Log(w: World, c: Ctx, out: Result): World {
    if !out.Return? then w
    else
      var line := AccessLine(Kind(c), Op(c), AccessCode(out.err));
      w.(metrics := w.metrics.(access := w.metrics.access + [line]))
  }

  function Access(next: Handler): Handler {
    (w: World, c: Ctx) =>
      var (w', out) := next(w, c);
      (Log(w', c, out), out)
  }

  /** The code the RED metrics carry: an empty reason falls back to "error". */
  function MetricCode(err: Option<Error>): string {
    if err.None? then "ok"
    else if err.value.kratos.Some? && err.value.kratos.value.reason != "" then err.value.kratos.value.reason
    else "error"
  }

  function Count(w: World, c: Ctx, out: Result): World {
    if !out.Return? then w
    else
      var m := w.metrics;
      w.(metrics := m.(requests := Inc(m.requests, (Kind(c), Op(c), MetricCode(out.err))),
                       latency := Inc(m.latency, (Kind(c), Op(c)))))
  }

  function Metric(next: Handler): Handler {
    (w: World, c: Ctx) =>
      var (w', out) := next(w, c);
      (Count(w', c, out), out)
  }

  function DefaultChain(): seq<Middleware> { [Recovery, Tracing, LogId, Access, Metric] }

  // ----- timeout

  /** A nil skip function is one that skips nothing. */
  datatype TimeoutOptions = TimeoutOptions(timeout: int, skip: string -> bool)

  const ERR_DEADLINE := Error(Some(Kratos(504, "DEADLINE_EXCEEDED")), "handler exceeded configured timeout")

  predicate TimeoutActive(o: TimeoutOptions, c: Ctx) { o.timeout > 0 && !o.skip(Op(c)) }

  /** What the caller gets when the handler, on its own goroutine, comes back like this. */
  function Supervised(out: Result, late: bool): Result {
    if !out.Return? then Crash else if late then Fail(ERR_DEADLINE) else out
  }

  /** timeout.Server; `late` is how the race between the handler and the deadline goes. */
  function Timeout(o: TimeoutOptions, late: Ctx -> bool): Middleware {
    (next: Handler) => (w: World, c: Ctx) =>
      if !TimeoutActive(o, c) then next(w, c)
      else
        var (w', out) := next(w, c);
        (w', Supervised(out, late(c)))
  }

  // ----- auth and ratelimit

  datatype Validated = Accepted(claims: Claims) | NoClaims | Invalid(error: Error)

  datatype AuthOptions = AuthOptions(
    validator: (Ctx, string) -> Validated,
    skip: string -> bool,
    header: string,
    scheme: string)

  const ERR_UNAUTHORIZED := Error(Some(Kratos(401, "UNAUTHORIZED")), "missing or invalid credentials")

  /** The scheme is measured in bytes; a cut through a character matches nothing. */
  function ExtractToken(header: string, scheme: string): string {
    if header == "" then ""
    else if scheme == "" then TrimSpace(header)
    else if ByteLen(header) <= ByteLen(scheme) then ""
    else
      match CharsIn(header, ByteLen(scheme))
      case None => ""
      case Some(n) =>
        CharsInIsExact(header, ByteLen(scheme));
        if EqualFold(header[..n], scheme) then TrimSpace(header[n..]) else ""
  }

  /**
   * A non-empty token comes back from its header, whatever the spaces around it, if and only if
   * the scheme as the client spelled it, equal up to case, also has the scheme's length in bytes.
   */
  lemma TokenRoundTripIff(scheme: string, spelled: string, left: string, token: string, right: string)
    requires scheme != "" && EqualFold(spelled, scheme) && token != ""
    requires All(IsSpace, left) && All(IsSpace, right) && Trimmed(IsSpace, token)
    ensures ExtractToken(spelled + left + token + right, scheme) == token <==> ByteLen(spelled) == ByteLen(scheme)
  {
    var rest := left + token + right;
    var header := spelled + rest;
    assert spelled + left + token + right == header;
    if ByteLen(spelled) == ByteLen(scheme) {
      CharsInPrefix(spelled, rest);
      AsciiBytes(rest);
      assert header[..|spelled|] == spelled && header[|spelled|..] == rest;
      TrimPadded(IsSpace, left, token, right);
    } else {
      CharsInIsExact(header, ByteLen(scheme));
      assert header[..|spelled|] == spelled;
    }
  }

  /** So with an ASCII scheme, as Bearer, Basic or Token, exactly the ASCII spellings are understood. */
  lemma AsciiSchemeIff(scheme: string, spelled: string, left: string, token: string, right: string)
    requires scheme != "" && IsAscii(scheme) && EqualFold(spelled, scheme) && token != ""
    requires All(IsSpace, left) && All(IsSpace, right) && Trimmed(IsSpace, token)
    ensures ExtractToken(spelled + left + token + right, scheme) == token <==> IsAscii(spelled)
  {
    TokenRoundTripIff(scheme, spelled, left, token, right);
    AsciiBytes(scheme);
    AsciiBytes(spelled);
  }

  /** A scheme spelled with a Kelvin sign equals its ASCII form up to case, and is not understood. */
  lemma KelvinToken()
    ensures EqualFold("To\U{212A}en ", "Token ") && ExtractToken("To\U{212A}en abc", "Token ") != "abc"
  {
    var spelled := "To\U{212A}en ";
    assert !IsAscii(spelled) by { assert spelled[2] == '\U{212A}'; }
    assert spelled + "" + "abc" + "" == "To\U{212A}en abc";
    AsciiSchemeIff("Token ", spelled, "", "abc", "");
  }

  /** mapErr: kratos errors pass unchanged, anything else becomes a 401. */
  function MapErr(e: Error): Error {
    if e.kratos.Some? then e else Error(Some(Kratos(401, "UNAUTHORIZED")), e.msg)
  }

  /** What auth makes of a request: the context to go on with, or the error to return. */
  datatype Verdict = Admit(ctx: Ctx) | Refuse(error: Error)

  function Authenticate(o: AuthOptions, c: Ctx): Verdict {
    if o.skip(Op(c)) then Admit(c)
    else
      var token := ExtractToken(Header(c, o.header), o.scheme);
      if token == "" then Refuse(ERR_UNAUTHORIZED)
      else
        match o.validator(c, token)
        case Invalid(e) => Refuse(MapErr(e))
        case NoClaims => Refuse(ERR_UNAUTHORIZED)
        case Accepted(claims) => Admit(c.(claims := Some(claims)))
  }

  /** A refusal is always a kratos error: the validator's own, or a 401 UNAUTHORIZED. */
  lemma RefusalsAreKratos(o: AuthOptions, c: Ctx)
    requires Authenticate(o, c).Refuse?
    ensures var e := Authenticate(o, c).error;
            && e.kratos.Some?
            && (e.kratos == Some(Kratos(401, "UNAUTHORIZED")) ||
                o.validator(c, ExtractToken(Header(c, o.header), o.scheme)) == Invalid(e))
  {}

  function Auth(o: AuthOptions): Middleware {
    (next: Handler) => (w: World, c: Ctx) =>
      match Authenticate(o, c)
      case Refuse(e) => (w, Fail(e))
      case Admit(c') => next(w, c')
  }

  // ----- who is let in

  /** What the request's transport carries: its kind, its operation and this header, all empty without one. */
  ghost predicate Carries(c: Ctx, name: string, kind: string, op: string, header: string) {
    match c.transport
    case None => kind == "" && op == "" && header == ""
    case Some(t) =>
      kind == t.kind && op == t.op && header == if name in t.header then t.header[name] else ""
  }

  /** Auth goes on with this context, whatever comes next. */
  ghost predicate GoesOn(o: AuthOptions, w: World, c: Ctx, c': Ctx) {
    forall next: Handler :: Auth(o)(next)(w, c) == next(w, c')
  }

  /** Auth comes back with this error and the world as it was, whatever comes next. */
  ghost predicate TurnsAway(o: AuthOptions, w: World, c: Ctx, e: Error) {
    forall next: Handler :: Auth(o)(next)(w, c) == (w, Return(None, Some(e)))
  }

  /** An operation that is skipped is let in as it is. */
  lemma SkippedGoesOn(o: AuthOptions, w: World, c: Ctx, kind: string, op: string, header: string)
    requires Carries(c, o.header, kind, op, header) && o.skip(op)
    ensures GoesOn(o, w, c, c)
  {
    forall next: Handler ensures Auth(o)(next)(w, c) == next(w, c) { AuthAt(o, next, w, c); }
  }

  lemma AuthAt(o: AuthOptions, next: Handler, w: World, c: Ctx)
    ensures Auth(o)(next)(w, c) ==
            match Authenticate(o, c)
            case Refuse(e) => (w, Fail(e))
            case Admit(c') => next(w, c')
  {}

  /** Auth looks at the header's token, and either goes on with the validator's claims or turns away. */
  lemma CheckedRequest(o: AuthOptions, w: World, c: Ctx, kind: string, op: string, header: string)
    requires Carries(c, o.header, kind, op, header) && !o.skip(op)
    ensures var token := ExtractToken(header, o.scheme);
            if token == "" then TurnsAway(o, w, c, Error(Some(Kratos(401, "UNAUTHORIZED")), "missing or invalid credentials"))
            else
              match o.validator(c, token)
              case Accepted(claims) => GoesOn(o, w, c, c.(claims := Some(claims)))
              case NoClaims => TurnsAway(o, w, c, Error(Some(Kratos(401, "UNAUTHORIZED")), "missing or invalid credentials"))
              case Invalid(e) =>
                TurnsAway(o, w, c, if e.kratos.Some? then e else Error(Some(Kratos(401, "UNAUTHORIZED")), e.msg))
  {
    match Authenticate(o, c)
    case Refuse(e) =>
      forall next: Handler ensures Auth(o)(next)(w, c) == (w, Return(None, Some(e))) { AuthAt(o, next, w, c); }
    case Admit(c') =>
      forall next: Handler ensures Auth(o)(next)(w, c) == next(w, c') { AuthAt(o, next, w, c); }
  }

  lemma NotBoth(o: AuthOptions, w: World, c: Ctx, c': Ctx, e: Error)
    requires GoesOn(o, w, c, c')
    ensures !TurnsAway(o, w, c, e)
  {
    var panics: Handler := (w: World, c: Ctx) => (w, Panic);
    assert Auth(o)(panics)(w, c) == panics(w, c');
    assert Auth(o)(panics)(w, c).1 == Panic;
  }

  /**
   * Who is let in, whatever is behind: what comes next runs if and only if the operation is
   * skipped, or the header holds a token under the scheme and the validator accepts it; then it
   * sees the request as it was, or with exactly these claims.
   */
  lemma LetInIff(o: AuthOptions, w: World, c: Ctx, kind: string, op: string, header: string)
    requires Carries(c, o.header, kind, op, header)
    ensures var token := ExtractToken(header, o.scheme);
            (exists c' :: GoesOn(o, w, c, c')) <==>
            o.skip(op) || (token != "" && o.validator(c, token).Accepted?)
    ensures !(exists c' :: GoesOn(o, w, c, c')) <==> exists e :: TurnsAway(o, w, c, e)
  {
    if o.skip(op) {
      SkippedGoesOn(o, w, c, kind, op, header);
    } else {
      CheckedRequest(o, w, c, kind, op, header);
    }
    forall c', e | GoesOn(o, w, c, c') ensures !TurnsAway(o, w, c, e) { NotBoth(o, w, c, c', e); }
  }

  /**
   * Exactly which headers hold a token under a scheme: those that begin with a spelling of it,
   * equal up to case and as long in bytes, before a rest that is not all spaces.
   */
  lemma TokenIff(header: string, scheme: string, token: string)
    requires token != ""
    ensures ExtractToken(header, scheme) == token <==>
            exists n :: 0 <= n <= |header| && Spelled(header[..n], scheme) && TrimSpace(header[n..]) == token
  {
    AsciiBytes(header);
    if scheme == "" {
      assert header[0..] == header;
      assert ExtractToken(header, scheme) == token ==> Spelled(header[..0], scheme) && TrimSpace(header[0..]) == token;
    } else {
      CharsInIsExact(header, ByteLen(scheme));
      forall n | 0 <= n <= |header| && Spelled(header[..n], scheme) && TrimSpace(header[n..]) == token
        ensures ExtractToken(header, scheme) == token
      {
        assert header == header[..n] + header[n..];
        CharsInPrefix(header[..n], header[n..]);
        AsciiBytes(header[n..]);
        assert header[n..] != "" by { assert TrimSpace("") == ""; }
      }
    }
  }

  /** Equal to the scheme up to case, and as long in bytes. */
  ghost predicate Spelled(s: string, scheme: string) { EqualFold(s, scheme) && ByteLen(s) == ByteLen(scheme) }

  datatype LimitOptions = LimitOptions(rate: TB.Config, key: (Ctx, string) -> string, skip: string -> bool)

  const ERR_TOO_MANY_REQUESTS := Error(Some(Kratos(429, "RATE_LIMITED")), "too many requests")

  function RateLimit(o: LimitOptions): Middleware {
    (next: Handler) => (w: World, c: Ctx) =>
      if o.skip(Op(c)) then next(w, c)
      else
        var (ok, buckets) := TB.AllowKey(o.rate, w.buckets, o.key(c, Op(c)), c.now);
        var w' := w.(buckets := buckets);
        if ok then next(w', c) else (w', Fail(ERR_TOO_MANY_REQUESTS))
  }

  // ----- they pass or reject

  function PassOn(w: World, c: Ctx): Pre { Go(w, c) }

  function Unchanged(w: World, c: Ctx, out: Result): World { w }

  function TracingGate(): Gate { Gate(PassOn, Unchanged) }

  function LogIdGate(): Gate { Gate((w: World, c: Ctx) => Go(w, Traced(c)), Unchanged) }

  function AccessGate(): Gate { Gate(PassOn, Log) }

  function MetricGate(): Gate { Gate(PassOn, Count) }

  function AuthGate(o: AuthOptions): Gate {
    Gate((w: World, c: Ctx) => match Authenticate(o, c) case Refuse(e) => Reject(w, e) case Admit(c') => Go(w, c'),
         Unchanged)
  }

  function RateLimitGate(o: LimitOptions): Gate {
    Gate((w: World, c: Ctx) =>
           if o.skip(Op(c)) then Go(w, c)
           else
             var (ok, buckets) := TB.AllowKey(o.rate, w.buckets, o.key(c, Op(c)), c.now);
             var w' := w.(buckets := buckets);
             if ok then Go(w', c) else Reject(w', ERR_TOO_MANY_REQUESTS),
         Unchanged)
  }

  ghost predicate GoodGate(mw: Middleware, g: Gate) { IsGate(mw, g) && LeavesServed(g) && NeverBlows(g) }

  lemma LogIdIsGate()
    ensures GoodGate(Tracing, TracingGate())
    ensures GoodGate(LogId, LogIdGate())
  {}

  lemma AccessIsGate()
    ensures GoodGate(Access, AccessGate())
  {}

  lemma MetricIsGate()
    ensures GoodGate(Metric, MetricGate())
  {}

  lemma AuthIsGate(o: AuthOptions)
    ensures GoodGate(Auth(o), AuthGate(o))
  {}

  lemma RateLimitIsGate(o: LimitOptions)
    ensures GoodGate(RateLimit(o), RateLimitGate(o))
  {}

  /** Every middleware a service installs behind recovery either rejects or passes the result on. */
  lemma InstalledMiddlewaresAreGates(auth: AuthOptions, limit: LimitOptions)
    ensures GoodGate(Tracing, TracingGate())
    ensures GoodGate(LogId, LogIdGate())
    ensures GoodGate(Access, AccessGate())
    ensures GoodGate(Metric, MetricGate())
    ensures GoodGate(Auth(auth), AuthGate(auth))
    ensures GoodGate(RateLimit(limit), RateLimitGate(limit))
  {
    LogIdIsGate();
    AccessIsGate();
    MetricIsGate();
    AuthIsGate(auth);
    RateLimitIsGate(limit);
  }
}
