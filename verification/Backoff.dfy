/** internal/daemon/supervisor.go:405-435: the delay before each automatic restart. */
module Backoff {
  import opened Basics
  import opened Proto
  import opened Durations

  function Pow(m: real, k: nat): real {
    if k == 0 then 1.0 else m * Pow(m, k - 1)
  }

  /** delay * multiplier^attempts, multiplied out one factor at a time (see GrownIsPower). */
  function Grown(d: real, m: real, k: nat): real {
    if k == 0 then d else m * Grown(d, m, k - 1)
  }

  /** Go's conversion of an in-range float to an integer: toward zero. */
  function Trunc(x: real): (r: int)
    ensures x >= 0.0 ==> r as real <= x < r as real + 1.0
    ensures x <= 0.0 ==> r <= 0
  {
    if x >= 0.0 then x.Floor else -((-x).Floor)
  }

  /** The integer part: the nearest integer that is not further from zero. */
  lemma TruncExactly(x: real)
    ensures x >= 0.0 ==> Trunc(x) as real <= x < Trunc(x) as real + 1.0
    ensures x <= 0.0 ==> Trunc(x) as real - 1.0 < x <= Trunc(x) as real
  {
  }

  function Multiplier(b: BackoffSpec): (m: real)
    ensures m == (if b.multiplier > 0.0 then b.multiplier else 2.0) && m > 0.0
  {
    if b.multiplier <= 0.0 then 2.0 else b.multiplier
  }

  function Product(p: RestartPolicySpec, attempts: nat): real
    requires p.backoff.Some?
  {
    Grown(AsDuration(p.delay) as real, Multiplier(p.backoff.value), attempts)
  }

  /** The float product fits an int64, so that converting it back is defined by the Go specification. */
  predicate InRange(p: RestartPolicySpec, attempts: nat) {
    p.backoff.Some? && attempts > 0 ==>
      -(TWO_63 as real) < Product(p, attempts) < TWO_63 as real
  }

  function RestartDelay(p: RestartPolicySpec, attempts: nat): int
    requires InRange(p, attempts)
  {
    if p.backoff.Some? && attempts > 0 then
      var backoffDelay := Trunc(Product(p, attempts));
      var maxDelay := AsDuration(p.backoff.value.maxDelay);
      if maxDelay > 0 && backoffDelay > maxDelay then maxDelay else backoffDelay
    else
      AsDuration(p.delay)
  }

  /** time.Sleep returns at once for a negative delay. */
  function Sleep(d: int): nat {
    if d < 0 then 0 else d
  }

  function Wait(p: RestartPolicySpec, attempts: nat): nat
    requires InRange(p, attempts)
  {
    Sleep(RestartDelay(p, attempts))
  }

  ghost predicate AllInRange(p: RestartPolicySpec, m: nat) {
    forall k: nat :: k < m ==> InRange(p, k)
  }

  // ---- Products ----

  lemma {:induction false} GrownIsPower(d: real, m: real, k: nat)
    ensures Grown(d, m, k) == d * Pow(m, k)
  {
    if k > 0 {
      GrownIsPower(d, m, k - 1);
      Reassociate(d, m, Pow(m, k - 1));
    }
  }

  lemma Reassociate(d: real, m: real, x: real)
    ensures m * (d * x) == d * (m * x)
  {
  }

  lemma {:induction false} GrownSign(d: real, m: real, k: nat)
    requires m > 0.0
    ensures d >= 0.0 ==> Grown(d, m, k) >= 0.0
    ensures d <= 0.0 ==> Grown(d, m, k) <= 0.0
  {
    if k > 0 { GrownSign(d, m, k - 1); }
  }

  lemma GrownGrows(d: real, m: real, k: nat)
    requires m >= 1.0 && d >= 0.0
    ensures 0.0 <= Grown(d, m, k) <= Grown(d, m, k + 1)
  {
    GrownSign(d, m, k);
    var x := Grown(d, m, k);
    assert Grown(d, m, k + 1) == m * x;
    assert (m - 1.0) * x >= 0.0;
  }

  // ---- The sequence of waits ----

  /** What is waited at the k-th attempt, in one formula. */
  lemma WaitForm(p: RestartPolicySpec, k: nat)
    requires InRange(p, k) && p.backoff.Some?
    ensures AsDuration(p.delay) <= 0 ==> Wait(p, k) == 0
    ensures AsDuration(p.delay) >= 0 ==>
      var raw, cap := Trunc(Product(p, k)), AsDuration(p.backoff.value.maxDelay);
      raw >= 0 && Wait(p, k) == if k > 0 && cap > 0 && raw > cap then cap else raw
  {
    GrownSign(AsDuration(p.delay) as real, Multiplier(p.backoff.value), k);
  }

  /** Without a backoff section, and at the first attempt, the wait is the configured delay. */
  lemma BaseWait(p: RestartPolicySpec, k: nat)
    requires p.backoff.None? || k == 0
    ensures InRange(p, k) && RestartDelay(p, k) == AsDuration(p.delay)
    ensures Wait(p, k) == if AsDuration(p.delay) > 0 then AsDuration(p.delay) else 0
  {
  }

  /** No default is applied: a policy without a delay restarts at once, at every attempt. */
  lemma UnsetDelayMeansAtOnce(p: RestartPolicySpec, k: nat)
    requires AsDuration(p.delay) == 0
    ensures InRange(p, k) && RestartDelay(p, k) == 0
  {
    if p.backoff.Some? { GrownSign(0.0, Multiplier(p.backoff.value), k); }
  }

  /** From one attempt to the next the wait does not shrink, unless the base delay is above the cap. */
  lemma WaitNondecreasing(p: RestartPolicySpec, k: nat)
    requires InRange(p, k) && InRange(p, k + 1)
    requires p.backoff.Some? ==>
      && Multiplier(p.backoff.value) >= 1.0
      && (AsDuration(p.backoff.value.maxDelay) > 0 ==> AsDuration(p.delay) <= AsDuration(p.backoff.value.maxDelay))
    ensures Wait(p, k) <= Wait(p, k + 1)
  {
    if p.backoff.Some? {
      WaitForm(p, k);
      WaitForm(p, k + 1);
      if AsDuration(p.delay) >= 0 {
        GrownGrows(AsDuration(p.delay) as real, Multiplier(p.backoff.value), k);
      }
    }
  }

  /**
   * The cap is respected at every attempt exactly when the base delay already respects it: the first
   * wait is never capped.
   */
  lemma CapRespected(p: RestartPolicySpec, m: nat)
    requires p.backoff.Some? && AsDuration(p.backoff.value.maxDelay) > 0 && m > 0 && AllInRange(p, m)
    ensures (forall k: nat :: k < m ==> InRange(p, k) && Wait(p, k) <= AsDuration(p.backoff.value.maxDelay))
       <==> AsDuration(p.delay) <= AsDuration(p.backoff.value.maxDelay)
  {
    var cap := AsDuration(p.backoff.value.maxDelay);
    assert InRange(p, 0) && Wait(p, 0) == Sleep(AsDuration(p.delay));
    if AsDuration(p.delay) <= cap {
      forall k: nat | k < m ensures InRange(p, k) && Wait(p, k) <= cap {
        assert InRange(p, k);
        WaitForm(p, k);
      }
    }
  }

  /** Once the product has reached the cap, every later wait is exactly the cap. */
  lemma {:induction false} CappedStays(p: RestartPolicySpec, k: nat, j: nat)
    requires p.backoff.Some? && Multiplier(p.backoff.value) >= 1.0
    requires 0 < k <= j && InRange(p, k) && InRange(p, j)
    requires var cap := AsDuration(p.backoff.value.maxDelay); cap > 0 && Trunc(Product(p, k)) >= cap
    ensures Wait(p, j) == AsDuration(p.backoff.value.maxDelay)
  {
    var d, m := AsDuration(p.delay) as real, Multiplier(p.backoff.value);
    GrownSign(d, m, k);
    GrownMonotone(d, m, k, j);
    WaitForm(p, j);
  }

  lemma {:induction false} GrownMonotone(d: real, m: real, k: nat, j: nat)
    requires m >= 1.0 && d >= 0.0 && k <= j
    ensures 0.0 <= Grown(d, m, k) <= Grown(d, m, j)
    decreases j
  {
    if k < j {
      GrownMonotone(d, m, k, j - 1);
      GrownGrows(d, m, j - 1);
    } else {
      GrownSign(d, m, k);
    }
  }

  // ---- Total wait of one failing streak ----

  ghost function TotalWait(p: RestartPolicySpec, m: nat): nat
    requires AllInRange(p, m)
  {
    if m == 0 then 0
    else
      assert InRange(p, m - 1);
      TotalWait(p, m - 1) + Wait(p, m - 1)
  }

  /** d + d*m + ... + d*m^(k-1) */
  ghost function Geometric(d: real, m: real, k: nat): real {
    if k == 0 then 0.0 else Geometric(d, m, k - 1) + Grown(d, m, k - 1)
  }

  lemma {:induction false} GeometricSum(d: real, m: real, k: nat)
    ensures Geometric(d, m, k) * (m - 1.0) == Grown(d, m, k) - d
  {
    if k > 0 {
      GeometricSum(d, m, k - 1);
      Distribute(Geometric(d, m, k - 1), Grown(d, m, k - 1), m);
    }
  }

  lemma Distribute(g: real, x: real, m: real)
    ensures (g + x) * (m - 1.0) == g * (m - 1.0) + (m * x - x)
  {
  }

  lemma {:induction false} StreakGeometric(p: RestartPolicySpec, m: nat)
    requires p.backoff.Some? && AllInRange(p, m)
    ensures TotalWait(p, m) as real <= Geometric(Sleep(AsDuration(p.delay)) as real, Multiplier(p.backoff.value), m)
  {
    if m > 0 {
      StreakGeometric(p, m - 1);
      assert InRange(p, m - 1);
      WaitForm(p, m - 1);
      GrownSign(Sleep(AsDuration(p.delay)) as real, Multiplier(p.backoff.value), m - 1);
    }
  }

  ghost function StreakLimit(d: real, m: real, k: nat): real
    requires m > 1.0
  {
    d * (Pow(m, k) - 1.0) / (m - 1.0)
  }

  lemma GeometricQuotient(d: real, m: real, k: nat)
    requires m > 1.0
    ensures Geometric(d, m, k) == StreakLimit(d, m, k)
  {
    GeometricSum(d, m, k);
    GrownIsPower(d, m, k);
    Quotient(Geometric(d, m, k), m - 1.0, d, Pow(m, k));
  }

  /** m restarts of one streak wait at most delay * (mult^m - 1) / (mult - 1) altogether. */
  lemma StreakBound(p: RestartPolicySpec, m: nat, d: real, mult: real)
    requires p.backoff.Some? && AllInRange(p, m)
    requires mult == Multiplier(p.backoff.value) > 1.0 && d == Sleep(AsDuration(p.delay)) as real
    ensures TotalWait(p, m) as real <= StreakLimit(d, mult, m)
  {
    StreakGeometric(p, m);
    GeometricQuotient(d, mult, m);
  }

  lemma Quotient(g: real, c: real, d: real, x: real)
    requires c > 0.0 && g * c == d * x - d
    ensures g == d * (x - 1.0) / c
  {
    assert d * (x - 1.0) == g * c;
  }

  /** With a cap at or above the base delay, m restarts wait at most m caps. */
  lemma {:induction false} StreakCapped(p: RestartPolicySpec, m: nat)
    requires p.backoff.Some? && AllInRange(p, m)
    requires 0 < AsDuration(p.backoff.value.maxDelay) && AsDuration(p.delay) <= AsDuration(p.backoff.value.maxDelay)
    ensures TotalWait(p, m) <= m * AsDuration(p.backoff.value.maxDelay)
  {
    if m > 0 {
      StreakCapped(p, m - 1);
      assert InRange(p, m - 1);
      WaitForm(p, m - 1);
      var cap := AsDuration(p.backoff.value.maxDelay);
      assert m * cap == (m - 1) * cap + cap;
    }
  }
}
