# Verified model of the service scaffolding

This project models the parts of the Go service scaffolding that carry state, arithmetic or
interleaving, and proves what they promise for every input, every schedule and every run:

- the per-key rate limiter, as requests that interleave a lookup step and an `Allow` step;
- retry with exponential backoff, from int64 wrap-around up to whole runs of attempts;
- the timeout middleware's worker, one-slot channel and racing `select`, and what a panic under it
  does to a chain;
- draining and `/readyz`, as pings of many evaluations interleaved with shutdown;
- the middleware chains of the HTTP and gRPC servers, over whole runs of requests, and their
  metrics and access log under any interleaving;
- pagination, the `.env` parser and loader, header redaction, and the slog bridge.

`dafny verify dfyconfig.toml` checks all of it. The files are one module (or two) each:

| file | contents |
|---|---|
| `Arith.dfy`, `Wrappers.dfy` | minimum, maximum; options, and the ways a call can come back |
| `TokenBucket.dfy`, `RateLimiter.dfy` | one bucket; the table of buckets under interleaving, and as objects |
| `Int64.dfy`, `Backoff.dfy`, `Retry.dfy` | wrapping arithmetic; one sleep; the attempt loop |
| `Timeout.dfy` | the timeout protocol |
| `Readiness.dfy` | `/readyz`, and shutdown |
| `Middleware.dfy`, `Counters.dfy`, `Servers.dfy`, `Runs.dfy` | chains; counters; the installed middlewares; runs |
| `Supervision.dfy`, `LimitedRuns.dfy`, `Accounting.dfy` | the chains' timeout against its protocol; their buckets against the table; their metrics under interleaving |
| `Page.dfy` | pagination |
| `Text.dfy`, `DotEnv.dfy`, `Loader.dfy` | trimming and folding; the `.env` format; layering |
| `Redact.dfy` | header redaction |
| `Slog.dfy` | the slog bridge |

## Assumptions

- `golang.org/x/time/rate` is modelled as an exact token bucket: one token is 10^9 units, a rate
  of `rps` adds `rps` units per nanosecond (nothing for a rate of zero or less), the bucket starts
  full, is capped at `burst`, and a denial leaves it unchanged. The library computes the same in
  floating point. The bounds on admissions hold for any clock, also when calls read it in one order
  and reach the bucket in another. `TokenBucket.AnyClockLaw` is exact for any
  clock. Only `TokenBucket.SlidingWindowLaw` and `RateLimiter.RunWindowBound`, which speak
  of plain durations, take times that do not decrease from one `Allow` of the key to its next.
- `tracing.Server` passes requests through. A kratos middleware chain is a right fold, and its
  recovery middleware turns a panic of the next handler, on its own goroutine, into the configured
  error. A panic that unwinds a goroutine without a recovery ends the process.
- Handlers, validators, predicates, key functions, random draws, clocks, cancellation and file
  contents are parameters, over which every statement is quantified.

## Where code and documentation differ

- The loader documents service `.env` over `.env.global` over `.env.example`. The load order
  together with "an existing variable wins" gives `.env.global` over `.env.example` over `.env`.
  The model follows the code; `Loader.DocumentedOrderIff` says exactly when both agree.
- The retry package promises `min(initial * 2^(N-1), MaxBackoff)`. The shift can wrap to a small
  positive number; `Backoff.ClampMeetsScheduleIff` is the exact condition, and
  `Backoff.ClampMeetsSchedule` a bound a caller can check once for all attempts. A cap of at most
  1ns, or an initial backoff of 1ns, makes the jitter panic (`Backoff.BackoffFor`);
  `Retry.OutcomeOfEveryRun` says what that does to a run.
- `grpc.go` says that with recovery outermost panics never escape. Under an active timeout the
  handler runs on another goroutine, and its panic ends the process. `Runs.PanicEscapesIff` says
  exactly when that happens, wherever the timeout is installed; `Runs.RecoveryMissesTimeout` is one
  such request, and `Runs.NoPanicLeavesRun` the promise as far as it holds.
- `Offset` is documented as safe on any parameters; it wraps for page numbers far out of range
  (`Page.OffsetExactIff`).
- Header names are said to be compared without regard to case; `RedactHeaders` does so for
  names that are tokens and compares others letter for letter (`Redact.HeadersMaskIff`), while
  `RedactValue` folds all of them.

## Model

| member | source | states |
|---|---|---|
| `RateLimiter.RefinesEagerBuckets` | pkg/middleware/ratelimit/ratelimit.go:114-134 | under every interleaving, a key's answers are those of one full, eagerly created bucket fed that key's `Allow` calls in order, the calls being read off the schedule alone |
| `RateLimiter.OneLimiterPerKey` | pkg/middleware/ratelimit/ratelimit.go:125-134 | in every reachable state no two keys share a limiter, no limiter was created and lost, and every request between its steps holds the limiter the table has for its key |
| `RateLimiter.EntriesNeverReplaced` | pkg/middleware/ratelimit/ratelimit.go:126-132 | between any two moments of a run, table entries stay and keep their limiter |
| `RateLimiter.KeysAreIndependent` | pkg/middleware/ratelimit/ratelimit.go:125-134 | two runs that call `Allow` for a key at the same times answer it alike, whatever the other keys do |
| `RateLimiter.CallAlwaysEnabled` | pkg/middleware/ratelimit/ratelimit.go:132-133 | after its lookup a request can always take its `Allow` step |
| `RateLimiter.RunAdmissionBound` | pkg/middleware/ratelimit/ratelimit.go:121-134 | in any run and whatever clock the calls read, any stretch of a key's calls admits at most burst + rps * (how far those reads went forwards) |
| `RateLimiter.RunWindowBound` | pkg/middleware/ratelimit/ratelimit.go:121-134 | if the key's own reads do not decrease, that is burst + rps * length |
| `RateLimiter.RunNoRefillBound` | pkg/middleware/ratelimit/ratelimit.go:48-51 | with no refill at most `burst` requests are ever admitted for a key, whatever the clock |
| `TokenBucket.SlidingWindowLaw` | pkg/middleware/ratelimit/ratelimit.go:3-4 | the bucket is a sliding-window limiter: a call is admitted if and only if every window ending with it stays within burst + rps * length |
| `TokenBucket.AnyClockLaw` | pkg/middleware/ratelimit/ratelimit.go:3-4 | the same without any assumption on the clock: a call is admitted if and only if, for every number of the latest admitted calls, they and it stay within burst + rps * (how far the clock went forwards over them) |
| `TokenBucket.AdmissionBound` | pkg/middleware/ratelimit/ratelimit.go:48-51 | no stretch of calls admits more than burst + rps * (how far the clock went forwards over it), for any times and with negative settings counting as zero |
| `TokenBucket.AllowKeyDecides` | pkg/middleware/ratelimit/ratelimit.go:125-134 | a table answers a call for a key with the last decision of one full bucket called at all of that key's times, and changes no other bucket |
| `LimiterTable.Bucket.constructor` | pkg/middleware/ratelimit/ratelimit.go:121-123 | a new table holds no bucket |
| `LimiterTable.Bucket.Lookup` | pkg/middleware/ratelimit/ratelimit.go:126-132 | returns the key's limiter, a fresh full one if there was none, and leaves all other entries as they were |
| `LimiterTable.Bucket.Allow` | pkg/middleware/ratelimit/ratelimit.go:125-134 | answers and changes the table, only at the key, by the same step that the chain's rate limiter takes (`TokenBucket.AllowKeyDecides` says which answer that is) |
| `LimitedRuns.RunLeavesEagerBuckets` | pkg/middleware/ratelimit/ratelimit.go:73-88 | over any run through the default chain, auth and ratelimit, a key has a bucket if and only if an admitted request used it, and it holds what a bucket full from the start would after that key's calls alone |
| `LimitedRuns.RunAnswers` | pkg/middleware/ratelimit/ratelimit.go:73-88 | in any run through the default chain, auth and ratelimit, a request that auth lets in gets the 429, with nothing behind being called, if and only if its operation is limited and the last decision of its key's own bucket, full from the start and called by the requests let in so far, is a denial; otherwise it gets what the handler behind returns |
| `LimitedRuns.RunMatchesTable` | pkg/middleware/ratelimit/ratelimit.go:125-134 | those buckets are, key by key, the ones of the interleaved table after the schedule that runs each request's lookup and `Allow` back to back |
| `LimitedRuns.RunAnswersMatchTable` | pkg/middleware/ratelimit/ratelimit.go:125-134 | these decisions are the answers the interleaved table gives for the key on that schedule |
| `Backoff.ClampMeetsSchedule` | pkg/middleware/retry/retry.go:140-144 | if initial * maxBackoff fits in int64, the wrapping shift and clamp equal min(initial * 2^(attempt-1), maxBackoff) for every attempt |
| `Backoff.ClampMeetsScheduleIff` | pkg/middleware/retry/retry.go:140-144 | the exact condition, per call, on the bits of `initial` that survive the shift |
| `Backoff.ClampedExactly` | pkg/middleware/retry/retry.go:140-144 | the clamped backoff for all int64 settings and attempts, overflow included, in unbounded integers |
| `Backoff.ScheduleFailsWithoutBound` | pkg/middleware/retry/retry.go:14-18 | an initial backoff and cap for which the third sleep is 4ns instead of the cap |
| `Backoff.BackoffFor` | pkg/middleware/retry/retry.go:140-152 | the code's own steps compute `Backoff.Backoff`, never exceed the cap, and panic exactly when maxBackoff <= 1, or initial is 1 on the first attempt |
| `Backoff.PanicsExactly` | pkg/middleware/retry/retry.go:146 | `Int63n` gets a non-positive argument exactly in those cases, for all int64 settings and attempts |
| `Backoff.JitterRange` | pkg/middleware/retry/retry.go:145-151 | every draw stays within a quarter of the clamped backoff and under the cap if and only if the largest sum fits in int64 |
| `Backoff.JitterExactly` | pkg/middleware/retry/retry.go:145-151 | the sleep for every draw, also when the sum overflows |
| `Backoff.SleepNearSchedule` | pkg/middleware/retry/retry.go:140-152 | under the product bound no draw panics or overflows, and the sleep is within a quarter of the schedule and under the cap |
| `Backoff.SleepExactly` | pkg/middleware/retry/retry.go:140-152 | under the product bound the sleep is exactly three quarters of the schedule plus the draw, at most the cap |
| `Retry.Client` | pkg/middleware/retry/retry.go:98-136 | the middleware returns, and calls and sleeps, what the declarative specification says; with at most one attempt it is a single plain call |
| `Retry.Attempts` | pkg/middleware/retry/retry.go:113-133 | the loop ends at the first attempt that does not go round again, with that attempt's verdict: context error, success, non-retryable error, last error, or a panic of the jitter or the handler |
| `Retry.CallsAreBoundedAndUncancelled` | pkg/middleware/retry/retry.go:114-118 | the handler is called for attempts 1, 2, ... without gaps, at most maxAttempts times, and never after the context was done, even if a sleep's select took the timer then |
| `Retry.OutcomeOfEveryRun` | pkg/middleware/retry/retry.go:114-132 | for every run of at least two attempts and any moment of cancellation: with f the first settling attempt or the last, the context error if the context is done before f, else f's own outcome, except that options whose jitter panics do so after a first attempt that ran and settled nothing |
| `Retry.LiveUntilDecisive` | pkg/middleware/retry/retry.go:114-133 | a context live when the decisive attempt begins lets the run get there, even if it is cancelled later |
| `Retry.CancellationEndsRun` | pkg/middleware/retry/retry.go:115-131 | a context done before attempt m ends the run before that attempt with the context's error, unless an earlier attempt settled it, whichever of sleep and check notices |
| `Retry.CancelledSleep` | pkg/middleware/retry/retry.go:129-131 | a cancellation during a sleep ends the run in that sleep if the select takes it, and at the next check if the timer wins |
| `Retry.FailingRunSleeps` | pkg/middleware/retry/retry.go:114-132 | a run that fails on its last of n attempts slept n-1 times, in total within a quarter of the promised sum and at most (n-1) * maxBackoff |
| `Retry.SleepsFollowBackoff` | pkg/middleware/retry/retry.go:114-132 | every run sleeps once after each attempt that ran, settled nothing and was not the last, for exactly the backoff of that attempt |
| `Retry.UnclampedSum` | pkg/middleware/retry/retry.go:14-17 | while nothing is clamped the promised sum is initial * (2^n - 1) |
| `Timeout.AnswerIsSound` | pkg/middleware/timeout/timeout.go:65-83 | in every reachable state the caller was answered at most once; a reply is exactly what the handler returned, and the deadline error means the deadline or the parent had fired |
| `Timeout.AnswerIsFinal` | pkg/middleware/timeout/timeout.go:78-83 | once given, the answer never changes |
| `Timeout.DeadlineFiredFirst` | pkg/middleware/timeout/timeout.go:81-82 | the firing precedes the giving up in the schedule |
| `Timeout.SendNeverBlocks` | pkg/middleware/timeout/timeout.go:72-76 | whenever the worker has a result it can send it, even after the caller left |
| `Timeout.SchedulesAreFinite` | pkg/middleware/timeout/timeout.go:65-83 | every schedule has at most five steps, each taken once |
| `Timeout.NothingLeftBehind` | pkg/middleware/timeout/timeout.go:65-83 | once the handler has returned, a schedule that can go no further has answered the caller, released the context and ended the worker |
| `Supervision.ProtocolGivesSupervised` | pkg/middleware/timeout/timeout.go:65-83 | for a handler that comes back in a given way, the ends some schedule reaches are exactly those of the chain's timeout: its own result or the deadline error if it returns, nothing but the crash of the process if it panics |
| `Supervision.TimeoutFollowsProtocol` | pkg/middleware/timeout/timeout.go:65-83 | for a request that a positive timeout covers, every schedule in which the caller gives up exactly if the race says so ends the request as the middleware does, and there is one |
| `Supervision.UncoveredPasses` | pkg/middleware/timeout/timeout.go:52-63 | with no timeout, or for a skipped operation, the handler's outcome and effects pass unchanged |
| `Runs.PanicEscapesIff` | pkg/runtime/server/grpc.go:61-76 | with a timeout anywhere among pass-or-reject middlewares behind the default chain, a request ends the process if and only if those in front let it through, the timeout is active for its operation and what is behind panics; in every other case it returns |
| `Runs.TimeoutInChain` | pkg/middleware/timeout/timeout.go:50-84 | through the whole chain: a handler that wins the race gives its own reply and error, one that loses gives the 504 DEADLINE_EXCEEDED, one that panics ends the process; without a timeout, or skipped, its outcome comes out as if there were none |
| `Runs.RecoveryMissesTimeout` | pkg/middleware/timeout/timeout.go:52-76 | a handler whose panic recovery contains, and does not contain once a timeout is installed |
| `Readiness.ReadyHandler` | pkg/runtime/server/probe.go:35-65 | the loop answers 200 and ready exactly if every ping succeeded, 503 and not ready otherwise, and reports under each probe's name what the last probe of that name said |
| `Readiness.ReportIsLastPing` | pkg/runtime/server/probe.go:45-49 | under each name the body holds "ok" or "fail: " and the error of the last probe of that name |
| `Readiness.ReportNames` | pkg/runtime/server/probe.go:45-49 | the body lists the probes' names and no others |
| `Drain.AnswerMatchesPings` | pkg/runtime/server/probe.go:35-65 | interleaved with anything, an evaluation answers as one uninterrupted pass over its pings would, and its drain pings fail exactly where they found the flag |
| `Drain.AnswerFollowsSchedule` | pkg/runtime/server/probe.go:35-65 | read off the schedule alone: status, flag and body of an answered evaluation follow from the outcomes of its ping events since it began, a drain ping failing exactly after the store |
| `Drain.FailedPingFails` | pkg/runtime/server/probe.go:45-57 | any dependency's ping event with an error makes the answer 503 and not ready |
| `Drain.EvaluationGoesOn` | pkg/runtime/server/probe.go:41-51 | an evaluation can ping exactly while probes are left and answer exactly when none is |
| `Drain.DrainPingFailsEvaluation` | pkg/runtime/server/drain.go:74-86 | an evaluation in which some drain ping found the flag answers 503 and not ready, wherever the probe sits and whatever the others, even of its name, say |
| `Drain.PingAfterStoreFails` | pkg/runtime/server/drain.go:60-86 | read off the schedule: whenever a drain probe is pinged after the store, even by an evaluation begun before it, that evaluation answers 503 and not ready, whatever comes between |
| `Drain.BegunAfterStoreFails` | pkg/runtime/server/drain.go:60-61 | so does every evaluation begun after the flag was stored |
| `Drain.StopWaits` | pkg/runtime/server/drain.go:60-72 | `BeforeStop` returns only with the flag up, and after the delay or once its context is done |
| `Drain.StopReturnsIff` | pkg/runtime/server/drain.go:60-72 | exactly when `BeforeStop` can return: flag stored, and no delay, or the delay passed since the timer started, or the context done |
| `Drain.DrainingIsForever` | pkg/runtime/server/drain.go:44-61 | the flag is never lowered |
| `Middleware.ServedExactlyOnce` | pkg/runtime/server/http.go:104-118 | for a chain of any length of pass-or-reject middlewares and a route that does not panic, either the route ran once to its end or the error encoder ran once |
| `Middleware.GatesPassOutcome` | pkg/runtime/server/http.go:104-118 | a chain of any length of such middlewares comes out exactly as the handler behind it on what it was handed, or rejects |
| `Runs.RecoveryServesOnce` | pkg/runtime/server/http.go:104-118 | with recovery outermost, and panics allowed everywhere behind it, no panic comes out and the same alternative holds |
| `Servers.InstalledMiddlewaresAreGates` | pkg/runtime/server/grpc.go:68-76 | tracing, logid, access, metric, auth and ratelimit each return an error without calling next, or call it once and return its result |
| `Runs.BizRoutesServedOnce` | pkg/runtime/server/http.go:42-55 | the routes of a server with the default chain, auth and ratelimit are served so |
| `Runs.DefaultChainObserves` | pkg/runtime/server/grpc.go:68-76 | each request through the default chain adds one observation, and a panic, but not a crash, becomes the PANIC error |
| `Runs.DefaultChainMeaning` | pkg/runtime/server/grpc.go:68-76 | in terms of what the transport carries: the handler sees the given or a new trace id, a reply is counted and logged as "ok", an error under its reason or as "error", a panic is counted for its operation and becomes the 500 |
| `Runs.MetricsAccountForRuns` | pkg/middleware/metric/metric.go:20-39 | over any run from any metrics, requests, panics and crashes together grow by the number of requests; per kind and op, latencies grow with the requests counted over all codes; each request counter grows with the access lines of its labels |
| `Accounting.AccountingAtAnyMoment` | pkg/middleware/metric/metric.go:21-39 | for concurrent requests and every interleaving of their count, latency, log and panic steps, each of these three balances is off, to one side only, by at most the requests in flight, so exact at rest |
| `Accounting.LatencyGap` | pkg/middleware/metric/metric.go:37-38 | the exact gap between counts and latencies: the requests between these two steps |
| `Accounting.LogGap` | pkg/middleware/access/access.go:26-52 | the exact gap between a counter and its access lines: the requests counted and not yet logged |
| `Accounting.AtRestAsOneByOne` | pkg/middleware/metric/metric.go:21-39 | at rest the log and all counters read as if the same requests had run one after the other, in the order in which they ended |
| `Accounting.CanComeToRest` | pkg/middleware/metric/metric.go:21-39 | from any moment of any schedule the requests begun can be brought to their ends |
| `Runs.CountersMatchLog` | pkg/middleware/access/access.go:26-52 | the metric of a label counts the access lines with it, lines with an empty reason counting as "error" |
| `Runs.NoPanicLeavesRun` | pkg/middleware/recovery/recovery.go:26-34 | if nothing behind the default chain ends the process, every request of a run returns |
| `Servers.TokenRoundTripIff` | pkg/middleware/auth/auth.go:116-127 | a token comes back from its header, whatever the spaces around it, if and only if the scheme as spelled, equal up to case, has the scheme's length in bytes |
| `Servers.AsciiSchemeIff` | pkg/middleware/auth/auth.go:116-127 | for an ASCII scheme: if and only if it is spelled in ASCII |
| `Servers.KelvinToken` | pkg/middleware/auth/auth.go:120-126 | a spelling equal up to case that is refused |
| `Servers.TokenIff` | pkg/middleware/auth/auth.go:116-127 | exactly which headers hold which token: those that begin with a spelling of the scheme, equal up to case and as long in bytes, before the token and spaces |
| `Servers.LetInIff` | pkg/middleware/auth/auth.go:89-113 | what comes next runs if and only if the operation is skipped, or the header holds a token and the validator accepts it |
| `Servers.CheckedRequest` | pkg/middleware/auth/auth.go:99-111 | an operation that is not skipped goes on with exactly the validator's claims, or is turned away with the world unchanged and a 401 UNAUTHORIZED, or the validator's own error when that is a kratos one |
| `Runs.ExtrasKeepMetrics` | pkg/middleware/ratelimit/ratelimit.go:74-87 | auth and ratelimit leave the metrics alone, so the accounting above covers a service that installs them |
| `Runs.RefusedRequestsSpendNothing` | pkg/middleware/auth/auth.go:89-112 | with auth before ratelimit, deleting the refused requests from any run changes neither the buckets, nor anything else but the metrics, nor any other request's outcome |
| `Runs.OtherOrderSpends` | kris-beta/cmd/beta/main.go:87 | in the other order a refused request takes the next one's token |
| `Page.NewMeaning` | pkg/page/page.go:71-83 | the rows and the total are kept; the page count is the total over the size, at least 1, rounded up, with the exact value for negative totals |
| `Page.PagesPartitionList` | pkg/page/page.go:36-59 | for any list and requested size, pages 1..Pages are non-empty and together are the list |
| `Page.PagesRoundsUp` | pkg/page/page.go:71-83 | Pages is the total over the normalized size, rounded up |
| `Page.OffsetInRange` | pkg/page/page.go:51-54 | the offsets of pages 1..Pages lie inside the list and do not wrap |
| `Page.OffsetExactIff` | pkg/page/page.go:49-54 | an offset is the one the page number means exactly when it fits in int64 |
| `Page.OffsetWraps` | pkg/page/page.go:49-54 | a page number whose offset comes out as the least int64 |
| `Page.LaterPagesAreEmpty` | pkg/page/page.go:51-54 | pages beyond the last are empty as long as their offset has not wrapped |
| `Page.Normalize` | pkg/page/page.go:36-47 | a page number of at least 1 and a size in [1, 1000], what is in range kept, a missing size 20 and a larger one 1000 |
| `Page.Map` | pkg/page/page.go:97-103 | applies the function to every element in order and keeps the totals |
| `Page.MapKeepsPages` | pkg/page/page.go:92-103 | mapping page by page and mapping the whole list give the same pages, and results with the same rows and totals |
| `DotEnv.RoundTrip` | pkg/config/loader.go:116-133 | entries rendered bare or quoted, with any spacing, blank lines and comments, parse back to the same pairs in order |
| `DotEnv.BareValueIff` | pkg/config/loader.go:122-129 | a bare value comes back unchanged if and only if it has no spaces and no quotes at its edges |
| `DotEnv.LineDefinesIff` | pkg/config/loader.go:116-133 | exactly which lines define which pair: those whose first "=" has before it a key, spaces aside, that is not empty and no comment; the value is the rest without outer spaces, then quotes |
| `DotEnv.ParsedPairsAreClean` | pkg/config/loader.go:116-133 | whatever the file, every pair that reaches `Setenv` has a non-empty, trimmed key without '=' and newline, and a value without edge quotes |
| `Loader.Environment.LoadDotEnv` | pkg/config/loader.go:110-137 | sets, line by line, what the file defines and the environment lacks; an unreadable file changes nothing |
| `Loader.Environment.Load` | pkg/config/loader.go:48-71 | loads the first global, example and service file found, in that order, and stops at an unreadable one |
| `Loader.FindFile` | pkg/config/loader.go:74-82 | finds the directory that has the file and has no earlier one that does, or no directory has it |
| `Loader.FoundIff` | pkg/config/loader.go:74-82 | the file found is the one in the first directory that has one |
| `Loader.LoadMeaning` | pkg/config/loader.go:48-71 | the final environment is the original, empty values included, extended with each key's first value in global, then example, then service pairs |
| `Loader.LoadFilesMeaning` | pkg/config/loader.go:48-71 | the same from the files themselves, unreadable ones included: Load succeeds if and only if it can read all it finds, and what it read before a failure stays set |
| `Loader.SettableInFile` | pkg/config/loader.go:131-133 | every pair of a file can be set unless it holds a NUL |
| `Loader.ApplyLooksUp` | pkg/config/loader.go:131-133 | applying a file's pairs keeps what was set and gives every other key its first value |
| `Loader.FirstIff` | pkg/config/loader.go:131-133 | the first value of a key is that of the first pair that can be set and has it |
| `Loader.SecondLoadChangesNothing` | pkg/config/loader.go:48-71 | a second load changes nothing and ends the same way, even if a file is unreadable |
| `Loader.DocumentedOrderIff` | pkg/config/loader.go:46-47 | the documented priority holds if and only if no initially unset key of the service file has another first value in the global file or the example |
| `Loader.GlobalBeatsService` | pkg/config/loader_test.go:54-77 | two files for which the documented priority fails |
| `Redact.RedactHeaders` | pkg/log/redact.go:36-65 | the loops compute the redacted map, for every iteration order |
| `Redact.RedactValue` | pkg/log/redact.go:74-81 | gives "***" exactly for names equal, case ignored, to one of the seven default ones, and the value otherwise |
| `Redact.RedactionMeaning` | pkg/log/redact.go:48-64 | the output's keys are the canonical input keys, each with the masked or copied values of some input key of that form |
| `Redact.HeaderMeaning` | pkg/log/redact.go:36-65 | what becomes of one header, from its name alone: every value "***", or all as they were, under its canonical form |
| `Redact.SensitiveValuesAreMasked` | pkg/log/redact.go:51-57 | no value under a sensitive key survives |
| `Redact.RedactionIsIdempotent` | pkg/log/redact.go:36-65 | redacting again, in any order, changes nothing |
| `Redact.OrderIrrelevant` | pkg/log/redact.go:49-64 | the order matters only if two keys share a canonical form |
| `Redact.CanonIsCaseInsensitive` | pkg/log/redact.go:35-43 | for tokens, equal canonical forms and equality without case coincide |
| `Redact.CanonShape` | pkg/log/redact.go:50 | the canonical form of a token is the token up to case, capital where a word begins and small elsewhere; other names stay |
| `Redact.HeadersMaskIff` | pkg/log/redact.go:35-53 | for any extra names, a token is masked if and only if it equals, case ignored, a default name or an extra that is a token; any other name only if given as an extra letter for letter |
| `Redact.HeadersAndValueAgree` | pkg/log/redact.go:36-81 | with no extra names, `RedactHeaders` masks a name if and only if it is a token and `RedactValue` masks it |
| `Redact.KelvinCookie` | pkg/log/redact.go:74-81 | a name outside tokens on which the two differ |
| `SlogSpec.EmitMeaning` | pkg/log/slog.go:36-46 | a handler emits the message, the attributes bound on its path, each under the groups open where it was bound, then the record's under all groups; keys and values alternate |
| `SlogSpec.PrefixIsDotted` | pkg/log/slog.go:69-74 | a prefixed key is the open groups and the key, dotted |
| `SlogSpec.FlatAt` | pkg/log/slog.go:52-54 | attributes come out in order, each as its dotted key and then its own value |
| `Slog.Handler.Handle` | pkg/log/slog.go:36-46 | emits what the handler holds, with its slices |
| `Slog.Handler.WithAttrs` | pkg/log/slog.go:49-56 | returns a new handler with the attributes bound, and writes to nothing that existed |
| `Slog.Handler.WithGroup` | pkg/log/slog.go:60-67 | returns a new handler with the group open, or the same one for the empty name, and writes to nothing that existed |
| `Slog.DeriveTree` | pkg/log/slog.go:48-67 | after deriving any tree of handlers that share backing arrays, each still holds what it was derived with |
| `Slog.TreeViewsFollowPaths` | pkg/log/slog.go:48-67 | what a handler of a tree holds depends only on its own path from the root |

## Left out

- Floating point and the internal mutex of `golang.org/x/time/rate`.
- `defaultKey`, `indexComma` and `trim` of the rate limiter: the key is a parameter.
- `DefaultRetryOn`: the retry predicate is a parameter.
- Repeated calls of `BeforeStop` on one `Drainer`, and the two-second context each probe gets.
- `BeforeStop` and the timeout middleware are state machines over values, one event for each atomic step, instead of methods that block: what a method's frame would say about them is not captured.
- Middlewares are functions from worlds to worlds, so shared state is updated by value, and the requests of a run through the chains come one after the other. Interleaving is modelled in the rate limiter, in the metrics and in the timeout; `LimitedRuns` and `Accounting` tie the two views.
- Runs.After: goes on after a request that ended the process, where the program would be gone.
- Servers.Timeout: what a handler does after its caller was given the deadline error is part of that request's step.
- The trace id that logid mirrors into the reply header, latency values and log text.
- CORS, version, JSON logging, secrets, level mapping of the slog bridge, typed environment getters, project-root search.
- Clients, circuit breaker, TLS, tracing setup, data stores and their collectors, example services and charts.
- Middleware.Header: looks a request header up under the very name, where the transports ignore case.
- Text.EqualFold: folds ASCII letters and the two other characters that fold to one, so it is exact only when one side is ASCII, as header names and the usual schemes are.
- Servers.ExtractToken: a header cut inside a character matches nothing; a scheme holding the replacement character, which Go could then match, is not modelled.
- Strings are sequences of characters; malformed UTF-8 is not modelled.
