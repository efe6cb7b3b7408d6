/**
 * The per-key limiter table as an interleaved system.
 *
 * A request runs two atomic steps: under the table's mutex it looks its key up, creating the
 * key's limiter if there is none, and keeps a pointer to the limiter; later, with the mutex
 * released, it calls Allow through that pointer. Any number of requests interleave these steps.
 * Limiters live in a heap indexed by allocation order, so that pointer identity, lost updates
 * and a replaced table entry are all expressible.
 */
module RateLimiter {
  import opened Arith
  import opened TokenBucket
  import opened Wrappers

  datatype Event =
    | Lookup(req: nat, key: string)
    | Call(req: nat, now: int)

  /** The pointer a request holds between its two steps. */
  datatype Held = Held(key: string, id: nat)

  datatype Answer = Answer(key: string, now: int, ok: bool)

  datatype State = State(
    limiters: map<string, nat>,
    heap: seq<Limiter>,
    held: map<nat, Held>,
    answers: seq<Answer>)

  const INIT := State(map[], [], map[], [])

  /** The lookup-or-create step: no other step of the table runs inside it. */
  function LookupStep(cfg: Config, s: State, req: nat, key: string): State {
    if key in s.limiters then
      s.(held := s.held[req := Held(key, s.limiters[key])])
    else
      var id := |s.heap|;
      s.(limiters := s.limiters[key := id], heap := s.heap + [Full(cfg)], held := s.held[req := Held(key, id)])
  }

  /** The Allow step, through the pointer the request holds. */
  function CallStep(cfg: Config, s: State, req: nat, now: int): State
    requires req in s.held && s.held[req].id < |s.heap|
  {
    var h := s.held[req];
    var (ok, l) := Allow(cfg, s.heap[h.id], now);
    s.(heap := s.heap[h.id := l], held := s.held - {req}, answers := s.answers + [Answer(h.key, now, ok)])
  }

  predicate Enabled(s: State, e: Event) {
    match e
    case Lookup(req, _) => req !in s.held
    case Call(req, _) => req in s.held && s.held[req].id < |s.heap|
  }

  function Step(cfg: Config, s: State, e: Event): State
    requires Enabled(s, e)
  {
    match e
    case Lookup(req, key) => LookupStep(cfg, s, req, key)
    case Call(req, now) => CallStep(cfg, s, req, now)
  }

  /** The state this schedule reaches from the empty table; None if some event was not enabled. */
  function Run(cfg: Config, trace: seq<Event>): Option<State>
    decreases |trace|
  {
    if trace == [] then Some(INIT)
    else
      match Run(cfg, trace[..|trace| - 1])
      case None => None
      case Some(p) => if Enabled(p, trace[|trace| - 1]) then Some(Step(cfg, p, trace[|trace| - 1])) else None
  }

  // ----- the specification: one bucket for each key, and no table at all

  /** The key each request is between its two steps for, read off the schedule alone. */
  function Waiting(trace: seq<Event>): map<nat, string>
    decreases |trace|
  {
    if trace == [] then map[]
    else
      var w := Waiting(trace[..|trace| - 1]);
      match trace[|trace| - 1]
      case Lookup(req, key) => w[req := key]
      case Call(req, _) => w - {req}
  }

  /** The times at which the schedule calls Allow for this key, in order. */
  function CallTimes(trace: seq<Event>, key: string): seq<int>
    decreases |trace|
  {
    if trace == [] then []
    else
      var before := trace[..|trace| - 1];
      var w := Waiting(before);
      match trace[|trace| - 1]
      case Lookup(_, _) => CallTimes(before, key)
      case Call(req, now) =>
        CallTimes(before, key) + (if req in w && w[req] == key then [now] else [])
  }

  function AnswersFor(answers: seq<Answer>, key: string): seq<bool>
    decreases |answers|
  {
    if answers == [] then []
    else
      var last := answers[|answers| - 1];
      AnswersFor(answers[..|answers| - 1], key) + (if last.key == key then [last.ok] else [])
  }

  /** The table alone: one limiter for each key, and held pointers agree with it. */
  ghost predicate TableInv(s: State) {
    && (forall k | k in s.limiters :: s.limiters[k] < |s.heap|)
    && (forall k, l | k in s.limiters && l in s.limiters && s.limiters[k] == s.limiters[l] :: k == l)
    && |s.limiters| == |s.heap|
    && (forall r | r in s.held :: s.held[r].key in s.limiters && s.held[r].id == s.limiters[s.held[r].key])
  }

  /** The requests between their steps are the ones the schedule says. */
  ghost predicate HeldInv(s: State, waiting: map<nat, string>) {
    && s.held.Keys == waiting.Keys
    && (forall r | r in s.held :: s.held[r].key == waiting[r])
  }

  /** A key's limiter, its calls and its answers are those of its own bucket. */
  ghost predicate KeyInv(cfg: Config, s: State, key: string, times: seq<int>) {
    && (key in s.limiters ==> s.limiters[key] < |s.heap| && s.heap[s.limiters[key]] == After(cfg, times))
    && (key !in s.limiters ==> times == [])
    && AnswersFor(s.answers, key) == Decisions(cfg, times)
  }

  lemma InsertGrows(m: map<string, nat>, key: string, id: nat)
    requires key !in m
    ensures |m[key := id]| == |m| + 1
  {
    assert m[key := id].Keys == m.Keys + {key};
    assert |m[key := id]| == |m[key := id].Keys| && |m| == |m.Keys|;
  }

  lemma TableLookup(cfg: Config, p: State, req: nat, key: string)
    requires TableInv(p)
    ensures TableInv(LookupStep(cfg, p, req, key))
  {
    if key !in p.limiters {
      InsertGrows(p.limiters, key, |p.heap|);
    }
  }

  lemma TableStep(cfg: Config, p: State, e: Event)
    requires TableInv(p) && Enabled(p, e)
    ensures TableInv(Step(cfg, p, e))
  {
    match e
    case Lookup(req, key) => TableLookup(cfg, p, req, key);
    case Call(req, now) =>
  }

  lemma HeldStep(cfg: Config, p: State, e: Event, waiting: map<nat, string>)
    requires HeldInv(p, waiting) && Enabled(p, e)
    ensures HeldInv(Step(cfg, p, e), if e.Lookup? then waiting[e.req := e.key] else waiting - {e.req})
  {}

  lemma KeyStep(cfg: Config, p: State, e: Event, waiting: map<nat, string>, key: string, times: seq<int>)
    requires TableInv(p) && HeldInv(p, waiting) && Enabled(p, e) && KeyInv(cfg, p, key, times)
    ensures KeyInv(cfg, Step(cfg, p, e), key,
                   if e.Call? && e.req in waiting && waiting[e.req] == key then times + [e.now] else times)
  {
    if e.Call? {
      var s := Step(cfg, p, e);
      assert s.answers[..|s.answers| - 1] == p.answers;
      assert (times + [e.now])[..|times|] == times;
      assert AnswersFor(s.answers, key) ==
             AnswersFor(p.answers, key) + (if p.held[e.req].key == key then [s.answers[|p.answers|].ok] else []);
    } else if e.key !in p.limiters && e.key == key {
      assert After(cfg, []) == Full(cfg);
    }
  }

  /** What every schedule keeps, from the empty table on. */
  lemma {:induction false} ReachableInv(cfg: Config, trace: seq<Event>, key: string)
    requires Run(cfg, trace).Some?
    ensures TableInv(Run(cfg, trace).value)
    ensures HeldInv(Run(cfg, trace).value, Waiting(trace))
    ensures KeyInv(cfg, Run(cfg, trace).value, key, CallTimes(trace, key))
    decreases |trace|
  {
    if trace != [] {
      var before, e := trace[..|trace| - 1], trace[|trace| - 1];
      ReachableInv(cfg, before, key);
      var p := Run(cfg, before).value;
      TableStep(cfg, p, e);
      HeldStep(cfg, p, e, Waiting(before));
      KeyStep(cfg, p, e, Waiting(before), key, CallTimes(before, key));
      assert CallTimes(trace, key) ==
             if e.Call? && e.req in Waiting(before) && Waiting(before)[e.req] == key then CallTimes(before, key) + [e.now]
             else CallTimes(before, key);
    }
  }

  /**
   * Every key has at most one limiter, no two keys share one, no limiter is unaccounted for,
   * and a request between its steps holds the limiter the table has for its key.
   */
  lemma OneLimiterPerKey(cfg: Config, trace: seq<Event>)
    requires Run(cfg, trace).Some?
    ensures var s := Run(cfg, trace).value;
            && |s.heap| == |s.limiters|
            && (forall k, l | k in s.limiters && l in s.limiters && s.limiters[k] == s.limiters[l] :: k == l)
            && (forall r | r in s.held ::
                  && s.held[r].key in s.limiters
                  && s.held[r].id == s.limiters[s.held[r].key]
                  && s.held[r].id < |s.heap|)
  {
    ReachableInv(cfg, trace, "");
  }

  /** Table entries are never replaced or dropped, whatever happens between two moments of a run. */
  lemma {:induction false} EntriesNeverReplaced(cfg: Config, trace: seq<Event>, n: nat)
    requires n <= |trace| && Run(cfg, trace).Some?
    ensures Run(cfg, trace[..n]).Some?
    ensures var p, s := Run(cfg, trace[..n]).value, Run(cfg, trace).value;
            forall k | k in p.limiters :: k in s.limiters && s.limiters[k] == p.limiters[k]
    decreases |trace|
  {
    if n == |trace| {
      assert trace[..n] == trace;
    } else {
      var before := trace[..|trace| - 1];
      assert before[..n] == trace[..n];
      EntriesNeverReplaced(cfg, before, n);
    }
  }

  /** Once a request has looked its key up, its Allow step can always be taken. */
  lemma CallAlwaysEnabled(cfg: Config, trace: seq<Event>, req: nat, now: int)
    requires Run(cfg, trace).Some? && req in Waiting(trace)
    ensures Run(cfg, trace + [Call(req, now)]).Some?
  {
    ReachableInv(cfg, trace, "");
    assert (trace + [Call(req, now)])[..|trace|] == trace;
  }

  /**
   * The table refines one full, eagerly created bucket for each key: under every interleaving,
   * the answers given for a key are the decisions of a bucket fed that key's Allow calls alone.
   */
  lemma RefinesEagerBuckets(cfg: Config, trace: seq<Event>, key: string)
    requires Run(cfg, trace).Some?
    ensures AnswersFor(Run(cfg, trace).value.answers, key) == Decisions(cfg, CallTimes(trace, key))
  {
    ReachableInv(cfg, trace, key);
  }

  /** So other keys, and when their requests run, make no difference to a key's answers. */
  lemma KeysAreIndependent(cfg: Config, trace: seq<Event>, trace': seq<Event>, key: string)
    requires Run(cfg, trace).Some? && Run(cfg, trace').Some?
    requires CallTimes(trace, key) == CallTimes(trace', key)
    ensures AnswersFor(Run(cfg, trace).value.answers, key) == AnswersFor(Run(cfg, trace').value.answers, key)
  {
    RefinesEagerBuckets(cfg, trace, key);
    RefinesEagerBuckets(cfg, trace', key);
  }

  // ----- how much a run admits

  /**
   * Over any run and any stretch of a key's calls, at most burst + rps * length of them are
   * admitted, however the requests interleave. The length is how far the clock those calls read
   * went forwards: reads taken in one order and used in another are allowed for.
   */
  lemma RunAdmissionBound(cfg: Config, trace: seq<Event>, key: string, i: nat, j: nat)
    requires Run(cfg, trace).Some? && i < j <= |CallTimes(trace, key)|
    ensures |AnswersFor(Run(cfg, trace).value.answers, key)| == |CallTimes(trace, key)|
    ensures NANO * Admitted(AnswersFor(Run(cfg, trace).value.answers, key)[i..j])
            <= Allowance(cfg, Ascent(CallTimes(trace, key)[i..j]))
  {
    RefinesEagerBuckets(cfg, trace, key);
    BoundOfDecisions(cfg, CallTimes(trace, key), AnswersFor(Run(cfg, trace).value.answers, key), i, j);
  }

  lemma BoundOfDecisions(cfg: Config, times: seq<int>, ds: seq<bool>, i: nat, j: nat)
    requires i < j <= |times| && ds == Decisions(cfg, times)
    ensures |ds| == |times| && NANO * Admitted(ds[i..j]) <= Allowance(cfg, Ascent(times[i..j]))
  {
    AdmissionBound(cfg, times, i, j);
  }

  /** If the key's own calls read times that do not decrease, the length is the plain duration. */
  lemma RunWindowBound(cfg: Config, trace: seq<Event>, key: string, i: nat, j: nat)
    requires Run(cfg, trace).Some? && i < j <= |CallTimes(trace, key)| && Monotone(CallTimes(trace, key))
    ensures |AnswersFor(Run(cfg, trace).value.answers, key)| == |CallTimes(trace, key)|
    ensures NANO * Admitted(AnswersFor(Run(cfg, trace).value.answers, key)[i..j])
            <= Allowance(cfg, CallTimes(trace, key)[j - 1] - CallTimes(trace, key)[i])
  {
    RunAdmissionBound(cfg, trace, key, i, j);
    MonotoneAscent(CallTimes(trace, key), i, j);
  }

  /** With no refill, a key is admitted at most `burst` times in any run. */
  lemma RunNoRefillBound(cfg: Config, trace: seq<Event>, key: string)
    requires Run(cfg, trace).Some? && cfg.rps <= 0
    ensures Admitted(AnswersFor(Run(cfg, trace).value.answers, key)) <= Max(cfg.burst, 0)
  {
    NoRefillBound(cfg, CallTimes(trace, key));
    RefinesEagerBuckets(cfg, trace, key);
  }
}

/**
 * The table in the form the program keeps it: limiter objects that Allow mutates, and a map
 * of references that `Lookup` extends. Run without interruption, its two steps are `Bucket.Allow`.
 */
module LimiterTable {
  import opened TokenBucket

  class LimiterRef {
    var state: Limiter

    constructor (cfg: Config)
      ensures state == Full(cfg)
    {
      state := Full(cfg);
    }

    method Allow(cfg: Config, now: int) returns (ok: bool)
      modifies this
      ensures (ok, state) == TokenBucket.Allow(cfg, old(state), now)
    {
      var (admitted, next) := TokenBucket.Allow(cfg, state, now);
      ok, state := admitted, next;
    }
  }

  class Bucket {
    const cfg: Config
    var limiters: map<string, LimiterRef>

    /** No two keys share a limiter object. */
    ghost predicate Valid()
      reads this
    {
      forall k, l | k in limiters && l in limiters && limiters[k] == limiters[l] :: k == l
    }

    /** The table as a value: what each key's bucket holds. */
    ghost function Buckets(): map<string, Limiter>
      reads this, limiters.Values
    {
      map k | k in limiters :: limiters[k].state
    }

    constructor (cfg: Config)
      ensures Valid() && Buckets() == map[] && this.cfg == cfg
    {
      this.cfg := cfg;
      limiters := map[];
    }

    method Lookup(key: string) returns (l: LimiterRef)
      requires Valid()
      modifies this
      ensures Valid()
      ensures key in limiters && limiters[key] == l
      ensures key in old(limiters) ==> limiters == old(limiters)
      ensures key !in old(limiters) ==> fresh(l) && l.state == Full(cfg) && limiters == old(limiters)[key := l]
      ensures forall k | k in old(limiters) :: k in limiters && limiters[k] == old(limiters[k])
    {
      if key in limiters {
        l := limiters[key];
      } else {
        l := new LimiterRef(cfg);
        limiters := limiters[key := l];
      }
    }

    /** Only the key's own bucket changes, and it changes as a bucket that was always there would. */
    method Allow(key: string, now: int) returns (ok: bool)
      requires Valid()
      modifies this, limiters.Values
      ensures Valid()
      ensures (ok, Buckets()) == AllowKey(cfg, old(Buckets()), key, now)
    {
      var l := Lookup(key);
      ghost var before := if key in old(Buckets()) then old(Buckets())[key] else Full(cfg);
      assert l.state == before;
      ok := l.Allow(cfg, now);
      assert Buckets() == old(Buckets())[key := TokenBucket.Allow(cfg, before, now).1];
    }
  }
}
