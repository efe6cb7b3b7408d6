/**
 * One token bucket, in exact integer arithmetic.
 *
 * A token is NANO units; the bucket gains max(rps, 0) units per nanosecond, holds at most
 * burst tokens and starts full. The rate is an integer number of requests per second, so no
 * rounding is involved. The main result of this module replaces the mutable token counter by a
 * statement about time windows: a request is admitted exactly when every window that ends
 * with it still fits in burst + rps * length.
 */
module TokenBucket {
  import opened Arith

  const NANO := 1_000_000_000

  datatype Config = Config(rps: int, burst: int)

  datatype Limiter = Limiter(tokens: int, last: int)

  /** Units gained per nanosecond; a rate of zero or less never refills. */
  function Gain(cfg: Config): nat { Max(cfg.rps, 0) }

  function Capacity(cfg: Config): int { cfg.burst * NANO }

  /** rate.NewLimiter: a full bucket whose clock has not been read yet. */
  function Full(cfg: Config): Limiter { Limiter(Capacity(cfg), 0) }

  /** The units the bucket holds at time `now`; a clock that went backwards adds nothing. */
  function Available(cfg: Config, l: Limiter, now: int): int {
    Min(l.tokens + Gain(cfg) * Max(now - l.last, 0), Capacity(cfg))
  }

  /** Limiter.Allow: spend one token if there is one; a denial leaves the limiter as it was. */
  function Allow(cfg: Config, l: Limiter, now: int): (bool, Limiter) {
    var units := Available(cfg, l, now);
    if units >= NANO then (true, Limiter(units - NANO, now)) else (false, l)
  }

  /** The table's allow, in one go: the key's bucket, full if there was none, answers and is stored. */
  function AllowKey(cfg: Config, buckets: map<string, Limiter>, key: string, now: int): (bool, map<string, Limiter>) {
    var (ok, l) := Allow(cfg, if key in buckets then buckets[key] else Full(cfg), now);
    (ok, buckets[key := l])
  }

  /** The bucket after Allow was called at each of these times. */
  function After(cfg: Config, times: seq<int>): Limiter
    decreases |times|
  {
    if times == [] then Full(cfg)
    else Allow(cfg, After(cfg, times[..|times| - 1]), times[|times| - 1]).1
  }

  /** What a full bucket answers to Allow at each of these times. */
  function Decisions(cfg: Config, times: seq<int>): (r: seq<bool>)
    ensures |r| == |times|
    decreases |times|
  {
    if times == [] then []
    else
      var before := times[..|times| - 1];
      Decisions(cfg, before) + [Allow(cfg, After(cfg, before), times[|times| - 1]).0]
  }

  function Admitted(ds: seq<bool>): nat
    decreases |ds|
  {
    if ds == [] then 0 else Admitted(ds[..|ds| - 1]) + (if ds[|ds| - 1] then 1 else 0)
  }

  ghost predicate Monotone(times: seq<int>) {
    && (forall i | 0 <= i < |times| :: 0 <= times[i])
    && (forall i, j | 0 <= i <= j < |times| :: times[i] <= times[j])
  }

  /** What is left at call j of the allowance of the window that opens at call i. */
  ghost function Slack(cfg: Config, times: seq<int>, i: nat, j: nat): int
    requires i <= j < |times|
  {
    Capacity(cfg) + Gain(cfg) * (times[j] - times[i]) - NANO * Admitted(Decisions(cfg, times)[i..j])
  }

  /** The units in the bucket at call j, just before it is answered. */
  ghost function Level(cfg: Config, times: seq<int>, j: nat): int
    requires j < |times|
  {
    Available(cfg, After(cfg, times[..j]), times[j])
  }

  lemma {:induction false} DecisionsPrefix(cfg: Config, times: seq<int>, n: nat)
    requires n <= |times|
    ensures Decisions(cfg, times[..n]) == Decisions(cfg, times)[..n]
    decreases |times|
  {
    if n < |times| {
      var before := times[..|times| - 1];
      DecisionsPrefix(cfg, before, n);
      assert before[..n] == times[..n];
    } else {
      assert times[..n] == times;
    }
  }

  lemma DecisionAt(cfg: Config, times: seq<int>, j: nat)
    requires j < |times|
    ensures Decisions(cfg, times)[j] <==> Level(cfg, times, j) >= NANO
  {
    var upTo := times[..j + 1];
    assert upTo[..j] == times[..j];
    DecisionsPrefix(cfg, times, j + 1);
    assert Decisions(cfg, upTo)[j] == Decisions(cfg, times)[j];
  }

  /** Asking at t and then at u finds what is left after t, grown until u and capped. */
  lemma AvailableStep(cfg: Config, l: Limiter, t: int, u: int)
    requires l.last <= t <= u
    ensures Available(cfg, Allow(cfg, l, t).1, u) ==
            Min(Available(cfg, l, t) - (if Allow(cfg, l, t).0 then NANO else 0) + Gain(cfg) * (u - t), Capacity(cfg))
  {
    MulSplit(Gain(cfg), t - l.last, u - t);
  }

  lemma MulSplit(g: nat, a: int, b: int)
    ensures g * (a + b) == g * a + g * b
    ensures b >= 0 ==> g * b >= 0
  {}

  /** Between two calls the level grows with the clock, less the token just spent, up to the cap. */
  lemma LevelStep(cfg: Config, times: seq<int>, j: nat)
    requires Monotone(times) && j + 1 < |times|
    ensures Level(cfg, times, j + 1) ==
            Min(Level(cfg, times, j) - (if Decisions(cfg, times)[j] then NANO else 0)
                + Gain(cfg) * (times[j + 1] - times[j]), Capacity(cfg))
  {
    DecisionAt(cfg, times, j);
    assert times[..j + 1][..j] == times[..j];
    LastNotLater(cfg, times, j);
    AvailableStep(cfg, After(cfg, times[..j]), times[j], times[j + 1]);
  }

  lemma {:induction false} LastNotLater(cfg: Config, times: seq<int>, j: nat)
    requires Monotone(times) && j < |times|
    ensures After(cfg, times[..j]).last <= times[j]
  {
    if j > 0 {
      LastNotLater(cfg, times, j - 1);
      assert times[..j][..j - 1] == times[..j - 1];
      assert times[..j][j - 1] == times[j - 1];
    }
  }

  lemma AdmittedSnoc(ds: seq<bool>, i: nat, j: nat)
    requires i <= j < |ds|
    ensures Admitted(ds[i..j + 1]) == Admitted(ds[i..j]) + (if ds[j] then 1 else 0)
  {
    assert ds[i..j + 1][..j - i] == ds[i..j];
    assert ds[i..j + 1][j - i] == ds[j];
  }

  lemma SlackStep(cfg: Config, times: seq<int>, i: nat, j: nat)
    requires i <= j && j + 1 < |times|
    ensures Slack(cfg, times, i, j + 1) ==
            Slack(cfg, times, i, j) - (if Decisions(cfg, times)[j] then NANO else 0)
            + Gain(cfg) * (times[j + 1] - times[j])
  {
    AdmittedSnoc(Decisions(cfg, times), i, j);
    MulSplit(Gain(cfg), times[j] - times[i], times[j + 1] - times[j]);
  }

  lemma SlackSelf(cfg: Config, times: seq<int>, j: nat)
    requires j < |times|
    ensures Slack(cfg, times, j, j) == Capacity(cfg)
  {
    assert Decisions(cfg, times)[j..j] == [];
    assert Gain(cfg) * (times[j] - times[j]) == 0;
  }

  /** The level never exceeds the allowance of a window. */
  lemma {:induction false} LevelWithinWindow(cfg: Config, times: seq<int>, i: nat, j: nat)
    requires Monotone(times) && i <= j < |times|
    ensures Level(cfg, times, j) <= Slack(cfg, times, i, j)
    decreases j
  {
    if i == j {
      SlackSelf(cfg, times, j);
    } else {
      LevelWithinWindow(cfg, times, i, j - 1);
      LevelStep(cfg, times, j - 1);
      SlackStep(cfg, times, i, j - 1);
    }
  }

  /** And it is the allowance of some window: the one open since the bucket was last full. */
  lemma {:induction false} LevelIsSomeWindow(cfg: Config, times: seq<int>, j: nat) returns (w: nat)
    requires Monotone(times) && j < |times|
    ensures w <= j && Level(cfg, times, j) == Slack(cfg, times, w, j)
  {
    SlackSelf(cfg, times, j);
    w := j;
    if j == 0 {
      FirstCallIsFull(cfg, times);
    } else if Level(cfg, times, j) < Capacity(cfg) {
      w := LevelIsSomeWindow(cfg, times, j - 1);
      LevelStep(cfg, times, j - 1);
      SlackStep(cfg, times, w, j - 1);
    }
  }

  lemma FirstCallIsFull(cfg: Config, times: seq<int>)
    requires times != []
    ensures Level(cfg, times, 0) == Capacity(cfg)
  {
    assert times[..0] == [];
    MulSplit(Gain(cfg), 0, Max(times[0], 0));
  }

  /**
   * The bucket is a sliding-window limiter: call j is admitted if and only if, for every
   * window that opens at an earlier call i and closes with j, the calls admitted in it together
   * with j cost no more than the burst plus what the rate grants over the window's length.
   */
  lemma SlidingWindowLaw(cfg: Config, times: seq<int>, j: nat)
    requires Monotone(times) && j < |times|
    ensures Decisions(cfg, times)[j] <==>
            forall i | 0 <= i <= j ::
              1_000_000_000 * (Admitted(Decisions(cfg, times)[i..j]) + 1)
              <= 1_000_000_000 * cfg.burst + Max(cfg.rps, 0) * (times[j] - times[i])
  {
    DecisionAt(cfg, times, j);
    forall i | 0 <= i <= j ensures Level(cfg, times, j) <= Slack(cfg, times, i, j) {
      LevelWithinWindow(cfg, times, i, j);
    }
    forall i | 0 <= i <= j
      ensures 1_000_000_000 * (Admitted(Decisions(cfg, times)[i..j]) + 1)
              <= 1_000_000_000 * cfg.burst + Max(cfg.rps, 0) * (times[j] - times[i])
              <==> Slack(cfg, times, i, j) >= NANO
    {}
    var w := LevelIsSomeWindow(cfg, times, j);
    assert Slack(cfg, times, w, j) >= NANO <==> Level(cfg, times, j) >= NANO;
  }

  // ----- the law, for any clock

  /** How far the clock went forwards over these times, its way back not deducted. */
  function Ascent(times: seq<int>): nat
    decreases |times|
  {
    if |times| <= 1 then 0
    else Ascent(times[..|times| - 1]) + Max(times[|times| - 1] - times[|times| - 2], 0)
  }

  /** The times of the calls that were admitted. */
  function AdmittedTimes(times: seq<int>, ds: seq<bool>): seq<int>
    requires |times| == |ds|
    decreases |times|
  {
    if times == [] then []
    else
      var n := |times| - 1;
      var before := AdmittedTimes(times[..n], ds[..n]);
      if ds[n] then before + [times[n]] else before
  }

  /** What the bucket would have left at time t had it been full when the k-th admitted call came. */
  ghost function Rest(cfg: Config, admitted: seq<int>, k: nat, t: int): int
    requires k <= |admitted|
  {
    Capacity(cfg) + Gain(cfg) * Ascent(admitted[k..] + [t]) - NANO * (|admitted| - k)
  }

  lemma RestSnoc(cfg: Config, admitted: seq<int>, a: int, k: nat, t: int)
    requires k <= |admitted|
    ensures Rest(cfg, admitted + [a], k, t) == Rest(cfg, admitted, k, a) + Gain(cfg) * Max(t - a, 0) - NANO
  {
    var tail := admitted[k..] + [a];
    assert (admitted + [a])[k..] == tail;
    assert (tail + [t])[..|tail|] == tail;
    MulSplit(Gain(cfg), Ascent(tail), Max(t - a, 0));
  }

  lemma RestOfNone(cfg: Config, admitted: seq<int>, t: int)
    ensures Rest(cfg, admitted, |admitted|, t) == Capacity(cfg)
  {
    assert admitted[|admitted|..] + [t] == [t];
  }

  /** The level is the least of these, whatever the clock did. */
  lemma {:induction false} LevelIsLeastRest(cfg: Config, times: seq<int>, t: int) returns (w: nat)
    ensures var admitted, level := AdmittedTimes(times, Decisions(cfg, times)), Available(cfg, After(cfg, times), t);
            && w <= |admitted| && level == Rest(cfg, admitted, w, t)
            && forall k | 0 <= k <= |admitted| :: level <= Rest(cfg, admitted, k, t)
    decreases |times|
  {
    var admitted := AdmittedTimes(times, Decisions(cfg, times));
    RestOfNone(cfg, admitted, t);
    if times == [] {
      w := 0;
      MulMonotone(Gain(cfg), 0, Max(t, 0));
    } else {
      var n := |times| - 1;
      var before, a := times[..n], times[n];
      assert Decisions(cfg, times)[..n] == Decisions(cfg, before);
      if Decisions(cfg, times)[n] {
        var prior := AdmittedTimes(before, Decisions(cfg, before));
        var v := LevelIsLeastRest(cfg, before, a);
        w := LeastAfter(cfg, prior, a, t, v, Available(cfg, After(cfg, before), a));
      } else {
        w := LevelIsLeastRest(cfg, before, t);
      }
    }
  }

  lemma LeastAfter(cfg: Config, prior: seq<int>, a: int, t: int, v: nat, level: int) returns (w: nat)
    requires v <= |prior| && level == Rest(cfg, prior, v, a)
    requires forall k | 0 <= k <= |prior| :: level <= Rest(cfg, prior, k, a)
    ensures var next := Min(level - NANO + Gain(cfg) * Max(t - a, 0), Capacity(cfg));
            && w <= |prior| + 1 && next == Rest(cfg, prior + [a], w, t)
            && forall k | 0 <= k <= |prior| + 1 :: next <= Rest(cfg, prior + [a], k, t)
  {
    RestOfNone(cfg, prior + [a], t);
    RestSnoc(cfg, prior, a, v, t);
    w := if level - NANO + Gain(cfg) * Max(t - a, 0) <= Capacity(cfg) then v else |prior| + 1;
    forall k | 0 <= k <= |prior|
      ensures level - NANO + Gain(cfg) * Max(t - a, 0) <= Rest(cfg, prior + [a], k, t)
    {
      RestSnoc(cfg, prior, a, k, t);
    }
  }

  /**
   * The law without any assumption on the clock: after any calls, one at `now` is admitted if and
   * only if, for every number of the latest admitted calls, these together with it cost no more
   * than the burst plus what the rate grants for how far the clock went forwards over them.
   */
  lemma AnyClockLaw(cfg: Config, times: seq<int>, now: int)
    ensures var admitted := AdmittedTimes(times, Decisions(cfg, times));
            Decisions(cfg, times + [now])[|times|] <==>
            forall k | 0 <= k <= |admitted| ::
              1_000_000_000 * (|admitted[k..]| + 1)
              <= 1_000_000_000 * cfg.burst + Max(cfg.rps, 0) * Ascent(admitted[k..] + [now])
  {
    var admitted := AdmittedTimes(times, Decisions(cfg, times));
    assert (times + [now])[..|times|] == times;
    var w := LevelIsLeastRest(cfg, times, now);
    forall k | 0 <= k <= |admitted|
      ensures 1_000_000_000 * (|admitted[k..]| + 1)
              <= 1_000_000_000 * cfg.burst + Max(cfg.rps, 0) * Ascent(admitted[k..] + [now])
              <==> Rest(cfg, admitted, k, now) >= NANO
    {}
    assert Rest(cfg, admitted, w, now) >= NANO <==> Available(cfg, After(cfg, times), now) >= NANO;
  }

  // ----- the bound, for any clock

  /** What a window of the given length may admit, in units; a negative burst admits nothing. */
  function Allowance(cfg: Config, length: int): int { NANO * Max(cfg.burst, 0) + Max(cfg.rps, 0) * length }

  lemma AscentSnoc(times: seq<int>, i: nat, j: nat)
    requires i < j < |times|
    ensures Ascent(times[i..j + 1]) == Ascent(times[i..j]) + Max(times[j] - times[j - 1], 0)
  {
    assert times[i..j + 1][..j - i] == times[i..j];
  }

  /** A clock that does not go backwards ascends by the length of the window. */
  lemma {:induction false} MonotoneAscent(times: seq<int>, i: nat, j: nat)
    requires Monotone(times) && i < j <= |times|
    ensures Ascent(times[i..j]) == times[j - 1] - times[i]
    decreases j
  {
    if i + 1 < j {
      MonotoneAscent(times, i, j - 1);
      AscentSnoc(times, i, j - 1);
    }
  }

  /** Asking at t and then at u, in whatever order these are, finds no more than this. */
  lemma AvailableBound(cfg: Config, l: Limiter, t: int, u: int)
    ensures Available(cfg, Allow(cfg, l, t).1, u)
            <= Available(cfg, l, t) - (if Allow(cfg, l, t).0 then NANO else 0) + Gain(cfg) * Max(u - t, 0)
  {
    var g := Gain(cfg);
    MulSplit(g, Max(t - l.last, 0), Max(u - t, 0));
    MulMonotone(g, Max(u - l.last, 0), Max(t - l.last, 0) + Max(u - t, 0));
  }

  lemma LevelStepBound(cfg: Config, times: seq<int>, j: nat)
    requires j + 1 < |times|
    ensures Level(cfg, times, j + 1)
            <= Level(cfg, times, j) - (if Decisions(cfg, times)[j] then NANO else 0)
               + Gain(cfg) * Max(times[j + 1] - times[j], 0)
  {
    DecisionAt(cfg, times, j);
    assert times[..j + 1][..j] == times[..j];
    AvailableBound(cfg, After(cfg, times[..j]), times[j], times[j + 1]);
  }

  lemma {:induction false} LevelBound(cfg: Config, times: seq<int>, i: nat, j: nat)
    requires i <= j < |times|
    ensures Level(cfg, times, j)
            <= Capacity(cfg) + Gain(cfg) * Ascent(times[i..j + 1]) - NANO * Admitted(Decisions(cfg, times)[i..j])
    decreases j
  {
    if i == j {
      assert Decisions(cfg, times)[i..j] == [];
      assert |times[i..j + 1]| == 1;
    } else {
      LevelBound(cfg, times, i, j - 1);
      LevelStepBound(cfg, times, j - 1);
      AscentSnoc(times, i, j);
      MulSplit(Gain(cfg), Ascent(times[i..j]), Max(times[j] - times[j - 1], 0));
      AdmittedSnoc(Decisions(cfg, times), i, j - 1);
    }
  }

  lemma AllowanceGrows(cfg: Config, a: nat, b: nat)
    requires a <= b
    ensures 0 <= Allowance(cfg, a) <= Allowance(cfg, b)
  {
    MulMonotone(Gain(cfg), a, b);
    MulMonotone(Gain(cfg), 0, a);
  }

  /**
   * Whatever clock the calls read, even one that jumps back and forth, no stretch of calls
   * i .. j-1 admits more than burst + rps * (how far the clock went forwards over the stretch),
   * both settings counted as zero when negative.
   */
  lemma {:induction false} AdmissionBound(cfg: Config, times: seq<int>, i: nat, j: nat)
    requires i < j <= |times|
    ensures NANO * Admitted(Decisions(cfg, times)[i..j]) <= Allowance(cfg, Ascent(times[i..j]))
    decreases j
  {
    var ds := Decisions(cfg, times);
    AdmittedSnoc(ds, i, j - 1);
    if ds[j - 1] {
      DecisionAt(cfg, times, j - 1);
      LevelBound(cfg, times, i, j - 1);
    } else if i < j - 1 {
      AdmissionBound(cfg, times, i, j - 1);
      AscentSnoc(times, i, j - 1);
      AllowanceGrows(cfg, Ascent(times[i..j - 1]), Ascent(times[i..j]));
    } else {
      assert ds[i..j - 1] == [];
      AllowanceGrows(cfg, 0, Ascent(times[i..j]));
    }
  }

  /** With no refill, at most `burst` requests are ever admitted, whatever the clock does. */
  lemma NoRefillBound(cfg: Config, times: seq<int>)
    requires cfg.rps <= 0
    ensures Admitted(Decisions(cfg, times)) <= Max(cfg.burst, 0)
  {
    if times != [] {
      AdmissionBound(cfg, times, 0, |times|);
      assert Decisions(cfg, times)[0..|times|] == Decisions(cfg, times);
    }
  }

  // ----- the table's answers

  /**
   * In a table whose bucket for the key, if there is one, has been called at these times, the
   * answer to one more call is the last decision of a full bucket called at all of them.
   */
  lemma AllowKeyDecides(cfg: Config, buckets: map<string, Limiter>, key: string, times: seq<int>, now: int)
    requires if key in buckets then buckets[key] == After(cfg, times) else times == []
    ensures var (ok, buckets') := AllowKey(cfg, buckets, key, now);
            && ok == Decisions(cfg, times + [now])[|times|]
            && buckets' == buckets[key := After(cfg, times + [now])]
  {
    assert (times + [now])[..|times|] == times;
  }
}
