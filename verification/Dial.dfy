/** Dialling with retries (pkg/net/dial_context.go) and the minimum total backoff
    (pkg/net/backoff.go). Durations are nanoseconds. The backoff doubles: this is what
    wait.Backoff.Step does for factor 2 without a cap, jitter adding a non-negative amount. */
module Dial {
  import opened Arith
  import opened Keys

  const MILLISECOND: int := 1_000_000

  datatype Backoff = Backoff(duration: nat, steps: int)

  function Pow2(n: nat): (p: nat)
    ensures p >= 1
  {
    if n == 0 then 1 else 2 * Pow2(n - 1)
  }

  /** Backoff.Step: the time to sleep, before jitter, and the backoff after it. */
  function Stepped(b: Backoff): (nat, Backoff) {
    if b.steps < 1 then (b.duration, b) else (b.duration, Backoff(2 * b.duration, b.steps - 1))
  }

  /** The error kept for the caller is that of the latest attempt; without attempts there is none. */
  datatype DialResult = Connected | Cancelled | Failed(lastError: Option<nat>)

  /** Attempt i fails, and the sleep after it is not cut short. */
  predicate GoesOn(dial: nat -> bool, cancelled: nat -> bool, i: nat) {
    !dial(i) && !cancelled(i)
  }

  /** wait.Backoff as the mutable record it is: Step changes it, and nothing resets its steps. */
  class BackoffCell {
    var duration: nat
    var steps: int

    constructor (b: Backoff)
      ensures Value() == b
    {
      duration, steps := b.duration, b.steps;
    }

    function Value(): Backoff
      reads this
    {
      Backoff(duration, steps)
    }

    method Step() returns (pause: nat)
      modifies this
      ensures (pause, Value()) == Stepped(old(Value()))
    {
      pause := duration;
      if steps >= 1 {
        steps := steps - 1;
        duration := 2 * duration;
      }
    }
  }

  /** The function that DialContextWithRetry returns, with the backoff and the number of tries it captures. */
  class RetryDialer {
    const backoff: BackoffCell
    const tries: int

    ghost predicate Valid()
      reads this, backoff
    {
      tries == backoff.steps
    }

    constructor (b: Backoff)
      ensures Valid() && fresh(backoff) && backoff.Value() == b
    {
      backoff := new BackoffCell(b);
      tries := b.steps;
    }

    /** Dials at most steps times. Step mutates a copy of the captured backoff, which every call finds
        and leaves as it was: each call has all its attempts and starts with the first pause. */
    method Dial(dial: nat -> bool, cancelled: nat -> bool, jitter: nat -> nat)
      returns (r: DialResult, attempts: nat, slept: nat)
      requires Valid()
      ensures Valid() && backoff.Value() == old(backoff.Value())
      ensures attempts <= Max(0, backoff.steps)
      ensures forall i | 0 <= i < attempts - 1 :: GoesOn(dial, cancelled, i)
      ensures r == Connected ==>
                attempts > 0 && dial(attempts - 1) && slept >= backoff.duration * (Pow2(attempts - 1) - 1)
      ensures r == Cancelled ==> attempts > 0 && !dial(attempts - 1) && cancelled(attempts - 1)
      ensures r.Failed? ==>
                && attempts == Max(0, backoff.steps)
                && (attempts > 0 ==> GoesOn(dial, cancelled, attempts - 1))
                && r.lastError == (if attempts > 0 then Some(attempts - 1) else None)
                && slept >= FailingSleep(backoff.Value())
    {
      var b := new BackoffCell(backoff.Value());
      var lastError: Option<nat> := None;
      attempts, slept := 0, 0;
      var i := 0;
      while i < tries
        invariant fresh(b)
        invariant 0 <= i <= Max(0, backoff.steps) && attempts == i
        invariant b.Value() == Backoff(Pow2(i) * backoff.duration, backoff.steps - i)
        invariant forall k | 0 <= k < i :: GoesOn(dial, cancelled, k)
        invariant lastError == if i > 0 then Some(i - 1) else None
        invariant slept >= backoff.duration * (Pow2(i) - 1)
      {
        attempts := attempts + 1;
        if dial(i) {
          return Connected, attempts, slept;
        }
        lastError := Some(i);
        var pause := b.Step();
        if cancelled(i) {
          return Cancelled, attempts, slept;
        }
        DoublingSum(backoff.duration, i);
        slept := slept + pause + jitter(i);
        i := i + 1;
      }
      r := Failed(lastError);
    }
  }

  lemma DoublingSum(d: nat, i: nat)
    ensures d * (Pow2(i) - 1) + Pow2(i) * d == d * (Pow2(i + 1) - 1)
  {
    assert Pow2(i + 1) == Pow2(i) + Pow2(i);
  }

  // ---- The advertised minimum

  /** 1 + 2 + ... + n */
  function Triangle(n: nat): nat {
    if n == 0 then 0 else Triangle(n - 1) + n
  }

  /** In closed form. */
  lemma {:induction false} TriangleClosed(n: nat)
    ensures 2 * Triangle(n) == n * (n + 1)
  {
    if n > 0 {
      TriangleClosed(n - 1);
      assert n * (n + 1) == (n - 1) * n + 2 * n;
    }
  }

  /** What MinTotalBackoffDuration returns: whole milliseconds times a triangle number, but never
      less than one step. */
  function MinTotal(b: Backoff): nat {
    b.duration / MILLISECOND * Triangle(Max(1, b.steps)) * MILLISECOND
  }

  method MinTotalBackoffDuration(b: Backoff) returns (total: nat)
    ensures total == MinTotal(b)
    ensures var steps := Max(1, b.steps); 2 * total == b.duration / MILLISECOND * (steps * (steps + 1)) * MILLISECOND
  {
    var initial := b.duration / MILLISECOND;
    var retMS := initial;
    var i := 2;
    assert Triangle(1) == 1;
    while i <= b.steps
      invariant 2 <= i <= Max(1, b.steps) + 1
      invariant retMS == initial * Triangle(i - 1)
    {
      assert initial * Triangle(i) == initial * Triangle(i - 1) + initial * i;
      retMS := retMS + initial * i;
      i := i + 1;
    }
    total := retMS * MILLISECOND;
    TriangleClosed(Max(1, b.steps));
    Doubled(initial, Triangle(Max(1, b.steps)));
  }

  lemma Doubled(initial: int, triangle: int)
    ensures 2 * (initial * triangle) == initial * (2 * triangle)
  {
  }

  /** Triangle numbers against powers of two: equal up to 2, then always behind. */
  lemma {:induction false} TriangleBelowPow2(n: nat)
    ensures n <= 2 ==> Triangle(n) == Pow2(n) - 1
    ensures n > 2 ==> Triangle(n) + 1 <= Pow2(n) - 1 && n + 1 <= Pow2(n) - 1
  {
    if n > 0 {
      TriangleBelowPow2(n - 1);
      assert n > 1 ==> Triangle(n - 1) == Triangle(n - 2) + n - 1;
      assert n > 1 ==> Pow2(n - 1) == 2 * Pow2(n - 2);
    }
  }

  /** The least a fully failing dial sleeps. */
  function FailingSleep(b: Backoff): nat {
    b.duration * (Pow2(Max(0, b.steps)) - 1)
  }

  lemma ProductMono(a: nat, b: nat, c: nat, d: nat)
    requires a <= b && c <= d
    ensures a * c <= b * d
  {
    MulMonoNat(a, b, c);
    MulMonoNat(c, d, b);
  }

  lemma MinTotalRegrouped(b: Backoff)
    ensures MinTotal(b) == (b.duration / MILLISECOND * MILLISECOND) * Triangle(Max(1, b.steps))
  {
    var ms, t := b.duration / MILLISECOND, Triangle(Max(1, b.steps));
    assert ms * t * MILLISECOND == (ms * MILLISECOND) * t;
  }

  /** The advertised minimum is a lower bound on what a fully failing dial sleeps exactly when there
      is at least one step, or the first one is below a millisecond. */
  lemma MinTotalIsLowerBound(b: Backoff)
    ensures MinTotal(b) <= FailingSleep(b) <==> b.steps >= 1 || b.duration < MILLISECOND
  {
    MinTotalRegrouped(b);
    var whole := b.duration / MILLISECOND * MILLISECOND;
    if b.steps >= 1 {
      TriangleBelowPow2(b.steps);
      ProductMono(whole, b.duration, Triangle(b.steps), Pow2(b.steps) - 1);
    } else {
      assert Triangle(1) == 1 && Pow2(0) == 1;
      assert FailingSleep(b) == 0;
    }
  }

  /** It is reached only by one or two steps of whole milliseconds, or by steps of no time at all. */
  lemma MinTotalIsTight(b: Backoff)
    requires b.steps >= 1 && b.duration > 0
    ensures MinTotal(b) == FailingSleep(b) <==> b.steps <= 2 && b.duration % MILLISECOND == 0
  {
    MinTotalRegrouped(b);
    TriangleBelowPow2(b.steps);
    var whole, t, p := b.duration / MILLISECOND * MILLISECOND, Triangle(b.steps), Pow2(b.steps) - 1;
    if b.steps > 2 {
      ProductMono(whole, b.duration, t, t);
      assert b.duration * t + b.duration == b.duration * (t + 1);
      ProductMono(b.duration, b.duration, t + 1, p);
    } else if b.duration % MILLISECOND != 0 {
      assert t == p && t >= 1;
      assert whole < b.duration;
      MulMono(whole, b.duration, t);
    }
  }
}
