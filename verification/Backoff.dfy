/**
 * The sleep between two attempts: an int64 shift that may wrap, a clamp, integer jitter and
 * a second clamp, against the schedule the package promises.
 */
module Backoff {
  import opened Arith
  import opened Int64
  import opened Wrappers

  /** The promised schedule: initial * 2^(attempt - 1), at most maxBackoff, in unbounded integers. */
  function Ideal(attempt: int, initial: int, maxBackoff: int): int
    requires attempt >= 1
  {
    Min(initial * Pow2(attempt - 1), maxBackoff)
  }

  /** The shift and the first clamp, as the code does them. */
  function Clamped(attempt: int, initial: int, maxBackoff: int): int
    requires attempt >= 1
  {
    var d := Shl(initial, attempt - 1);
    if d <= 0 || d > maxBackoff then maxBackoff else d
  }

  /** Adding a drawn jitter and the second clamp; additions wrap. */
  function Jittered(d: int, draw: int, maxBackoff: int): int {
    var j := Wrap(Wrap(d - Quo(d, 4)) + draw);
    if j > maxBackoff then maxBackoff else j
  }

  /** The draws rand.Int63n may return; it panics when there are none to choose from. */
  predicate IsDraw(d: int, draw: int) { 0 <= draw < Quo(d, 2) }

  /**
   * backoffFor. None is the panic of Int63n on a non-positive argument; `draw` stands for the
   * random source and is reduced into the range Int63n draws from.
   */
  method BackoffFor(attempt: int, initial: int, maxBackoff: int, draw: nat) returns (r: Option<int>)
    requires attempt >= 1 && IsInt64(initial) && IsInt64(maxBackoff)
    ensures r == Backoff(attempt, initial, maxBackoff, draw)
    ensures r.None? <==> maxBackoff <= 1 || (attempt == 1 && initial == 1)
    ensures r.Some? ==> r.value <= maxBackoff
  {
    var d := Shl(initial, attempt - 1);
    if d <= 0 || d > maxBackoff {
      d := maxBackoff;
    }
    PanicsExactly(attempt, initial, maxBackoff);
    if Quo(d, 2) <= 0 {
      return None;
    }
    var jitter := draw % Quo(d, 2);
    d := Wrap(Wrap(d - Quo(d, 4)) + jitter);
    if d > maxBackoff {
      d := maxBackoff;
    }
    return Some(d);
  }

  function Backoff(attempt: int, initial: int, maxBackoff: int, draw: nat): Option<int>
    requires attempt >= 1
  {
    var d := Clamped(attempt, initial, maxBackoff);
    if Quo(d, 2) <= 0 then None else Some(Jittered(d, draw % Quo(d, 2), maxBackoff))
  }

  // ----- when the wrapping code meets the schedule

  /**
   * For an initial backoff and a cap whose product fits in int64, the wrapping shift and the
   * clamp compute the promised schedule for every attempt, however far the shift overflows.
   */
  lemma ClampMeetsSchedule(attempt: int, initial: int, maxBackoff: int)
    requires attempt >= 1 && initial >= 1 && maxBackoff >= 1
    requires initial * maxBackoff < HALF
    ensures Clamped(attempt, initial, maxBackoff) == Ideal(attempt, initial, maxBackoff)
  {
    var s := attempt - 1;
    CapBelowHalf(initial, maxBackoff);
    if s >= 64 {
      HugeShift(initial, s);
    } else if initial * Pow2(s) >= HALF {
      WrappedIsNotBelowCap(initial, maxBackoff, s);
    } else {
      MulPositive(initial, Pow2(s));
    }
  }

  lemma HugeShift(initial: int, s: nat)
    requires initial >= 1 && s >= 64
    ensures initial * Pow2(s) >= SIZE
  {
    Pow2Of16Multiples();
    Pow2Monotone(64, s);
    ProductAtLeast(initial, Pow2(s));
  }

  /** An overflowed shift cannot come out positive and within the cap: it would be at least 2^s. */
  lemma WrappedIsNotBelowCap(initial: int, maxBackoff: int, s: nat)
    requires s < 64 && initial >= 1 && initial * maxBackoff < HALF <= initial * Pow2(s)
    ensures Shl(initial, s) <= 0 || Shl(initial, s) > maxBackoff
  {
    var m := ShlIsMultiple(initial, s);
    if m * Pow2(s) > 0 {
      PositiveMultiple(m, Pow2(s));
      BiggerFactor(initial, maxBackoff, Pow2(s));
    }
  }

  lemma BiggerFactor(a: int, b: int, c: int)
    requires a >= 1 && a * b < a * c
    ensures b < c
  {}

  /**
   * The exact condition, call by call: the code meets the schedule if and only if the shift
   * does not overflow, or the bits of `initial` that survive it are none, reach the sign bit,
   * or still amount to the cap.
   */
  lemma ClampMeetsScheduleIff(attempt: int, initial: int, maxBackoff: int)
    requires attempt >= 1 && 1 <= initial < HALF && 1 <= maxBackoff < HALF
    ensures Clamped(attempt, initial, maxBackoff) == Ideal(attempt, initial, maxBackoff) <==>
            var s := attempt - 1;
            s >= 64 || initial * Pow2(s) < HALF ||
            var kept := (initial % Pow2(64 - s)) * Pow2(s);
            kept == 0 || kept >= HALF || kept >= maxBackoff
  {
    var s := attempt - 1;
    MulPositive(initial, Pow2(s));
    if s >= 64 {
      HugeShift(initial, s);
    } else if initial * Pow2(s) >= HALF {
      WrapKeepsLowBits(initial, s);
    }
  }

  /** What the shift keeps, read as an unsigned number and then as a signed one. */
  lemma WrapKeepsLowBits(initial: int, s: nat)
    requires s < 64
    ensures 0 <= (initial % Pow2(64 - s)) * Pow2(s) < SIZE
    ensures var kept := (initial % Pow2(64 - s)) * Pow2(s);
            Shl(initial, s) == if kept < HALF then kept else kept - SIZE
  {
    Pow2Of16Multiples();
    Pow2Add(64 - s, s);
    KeptBits(initial, Pow2(64 - s), Pow2(s));
  }

  lemma KeptBits(x: int, u: int, v: int)
    requires u >= 1 && v >= 1 && u * v == SIZE
    ensures 0 <= (x % u) * v < SIZE
    ensures Wrap(x * v) == if (x % u) * v < HALF then (x % u) * v else (x % u) * v - SIZE
  {
    var q, m := x / u, x % u;
    assert x - q * u == m;
    Distribute(x, q, u, v);
    MulBound(m, u, v);
    WrapOfSum(q, m * v);
  }

  lemma WrapOfSum(q: int, kept: int)
    requires 0 <= kept < SIZE
    ensures Wrap(q * SIZE + kept) == if kept < HALF then kept else kept - SIZE
  {
    if kept < HALF {
      assert (q * SIZE + kept + HALF) % SIZE == kept + HALF;
    } else {
      assert ((q + 1) * SIZE + (kept - HALF)) % SIZE == kept - HALF;
    }
  }

  lemma MulBound(m: int, u: int, v: int)
    requires 0 <= m < u && v >= 1
    ensures 0 <= m * v < u * v
  {}

  lemma MulPositive(a: int, b: int)
    requires a >= 1 && b >= 1
    ensures a * b >= 1
  {}

  lemma ProductAtLeast(a: int, b: int)
    requires a >= 1 && b >= 0
    ensures a * b >= b
  {}

  lemma CapBelowHalf(initial: int, maxBackoff: int)
    requires initial >= 1 && maxBackoff >= 1 && initial * maxBackoff < HALF
    ensures maxBackoff < HALF
  {
    ProductAtLeast(initial, maxBackoff);
  }

  lemma PositiveMultiple(m: int, b: int)
    requires b >= 1 && m * b > 0
    ensures m * b >= b
  {}

  /** Without the product bound the promise fails: the third attempt sleeps 4ns instead of the cap. */
  lemma ScheduleFailsWithoutBound()
    ensures var initial, maxBackoff := 0x4000_0000_0000_0001, 0x4000_0000_0000_0002;
            && IsInt64(initial) && IsInt64(maxBackoff)
            && Clamped(3, initial, maxBackoff) == 4
            && Ideal(3, initial, maxBackoff) == maxBackoff
  {
    assert Pow2(2) == 4;
  }

  // ----- the panic

  /** Int63n's argument is non-positive exactly when the cap is at most 1, or the first sleep is 1ns. */
  lemma PanicsExactly(attempt: int, initial: int, maxBackoff: int)
    requires attempt >= 1 && IsInt64(initial) && IsInt64(maxBackoff)
    ensures Quo(Clamped(attempt, initial, maxBackoff), 2) <= 0 <==>
            maxBackoff <= 1 || (attempt == 1 && initial == 1)
  {
    var s := attempt - 1;
    if 0 < s < 64 {
      var m := ShlIsMultiple(initial, s);
      assert Pow2(s) == 2 * Pow2(s - 1);
      EvenProduct(m, Pow2(s - 1));
      assert Shl(initial, s) != 1;
    } else if s == 0 {
      assert Pow2(0) == 1;
    }
  }

  lemma BackoffPanicsExactly(attempt: int, initial: int, maxBackoff: int, draw: nat)
    requires attempt >= 1 && IsInt64(initial) && IsInt64(maxBackoff)
    ensures Backoff(attempt, initial, maxBackoff, draw).None? <==>
            maxBackoff <= 1 || (attempt == 1 && initial == 1)
  {
    PanicsExactly(attempt, initial, maxBackoff);
  }

  lemma EvenProduct(m: int, h: int)
    ensures m * (2 * h) != 1
  {
    assert m * (2 * h) == 2 * (m * h);
  }

  // ----- the jitter

  /**
   * For every draw the result stays within a quarter of the clamped backoff d, and under the
   * cap, if and only if the largest sum still fits in int64.
   */
  lemma JitterRange(d: int, maxBackoff: int)
    requires 2 <= d <= maxBackoff < HALF
    ensures (forall draw | IsDraw(d, draw) ::
               d - d / 4 <= Jittered(d, draw, maxBackoff) <= Min(d + d / 4, maxBackoff))
            <==> d - d / 4 + (d / 2 - 1) < HALF
  {
    var top := d / 2 - 1;
    assert IsDraw(d, top);
    if d - d / 4 + top >= HALF {
      assert Wrap(d - Quo(d, 4)) == d - d / 4;
      assert Wrap(d - d / 4 + top) == d - d / 4 + top - SIZE;
      assert Jittered(d, top, maxBackoff) < 0;
    }
  }

  /** Under the product bound nothing overflows, so each sleep is within 25% of the schedule. */
  lemma SleepNearSchedule(attempt: int, initial: int, maxBackoff: int, draw: nat)
    requires attempt >= 1 && initial >= 2 && maxBackoff >= 2
    requires initial * maxBackoff < HALF
    ensures var b, r := Ideal(attempt, initial, maxBackoff), Backoff(attempt, initial, maxBackoff, draw);
            && r.Some?
            && 2 <= b <= maxBackoff
            && b - b / 4 <= r.value <= Min(b + b / 4, maxBackoff)
  {
    ClampMeetsSchedule(attempt, initial, maxBackoff);
    var b := Ideal(attempt, initial, maxBackoff);
    MulMonotone(initial, 1, Pow2(attempt - 1));
    MulMonotone(maxBackoff, 2, initial);
    JitterRange(b, maxBackoff);
    assert IsDraw(b, draw % Quo(b, 2));
  }

  // ----- the sleep itself

  /** The clamped backoff for every int64 setting, overflow included, in unbounded integers. */
  lemma ClampedExactly(attempt: int, initial: int, maxBackoff: int)
    requires attempt >= 1 && IsInt64(initial) && IsInt64(maxBackoff)
    ensures Clamped(attempt, initial, maxBackoff) ==
            if attempt > 64 then maxBackoff
            else
              var kept := (initial % Pow2(65 - attempt)) * Pow2(attempt - 1);
              if kept == 0 || kept >= HALF || kept > maxBackoff then maxBackoff else kept
  {
    if attempt <= 64 {
      WrapKeepsLowBits(initial, attempt - 1);
    }
  }

  /** Three quarters of the clamped backoff and the draw, at most the cap, unless the sum overflows. */
  lemma JitterExactly(d: int, draw: int, maxBackoff: int)
    requires 2 <= d <= maxBackoff < HALF && IsDraw(d, draw)
    ensures var sum := d - d / 4 + draw;
            Jittered(d, draw, maxBackoff) == if sum < HALF then Min(sum, maxBackoff) else sum - SIZE
  {
    var sum := d - d / 4 + draw;
    assert Wrap(d - Quo(d, 4)) == d - d / 4;
    if sum >= HALF { assert Wrap(sum) == sum - SIZE; }
  }

  /**
   * Under the product bound a sleep is exactly three quarters of the schedule plus the draw from
   * half of it, at most the cap; so every such length comes up, for some draw.
   */
  lemma SleepExactly(attempt: int, initial: int, maxBackoff: int, draw: nat)
    requires attempt >= 1 && initial >= 2 && maxBackoff >= 2
    requires initial * maxBackoff < HALF
    ensures var b := Ideal(attempt, initial, maxBackoff);
            && 2 <= b
            && Backoff(attempt, initial, maxBackoff, draw) == Some(Min(b - b / 4 + draw % (b / 2), maxBackoff))
  {
    ClampMeetsSchedule(attempt, initial, maxBackoff);
    SleepNearSchedule(attempt, initial, maxBackoff, draw);
    var b := Ideal(attempt, initial, maxBackoff);
    MulMonotone(maxBackoff, 2, initial);
    JitterExactly(b, draw % Quo(b, 2), maxBackoff);
  }
}
