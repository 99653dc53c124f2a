/** The sliding-window request counter: a ring of per-slot totals (pkg/queue/bucketing.go).

    Instants are nanoseconds since 1970 and durations are nanoseconds, both unbounded integers.
    `Ring` is the value of a `RequestsBuckets` object, and the functions on it specify the
    methods of the class. */
module Buckets {
  import opened Arith

  const SECOND: int := 1_000_000_000
  /** Go's zero time, 1 January of year 1. */
  const ZERO_TIME: int := -62135596800 * SECOND
  const MAX_DURATION: int := 0x7fff_ffff_ffff_ffff

  /** Time.Sub: the difference of two instants, saturating at the 64-bit range. */
  function Sub(t: int, u: int): int {
    Max(-MAX_DURATION - 1, Min(MAX_DURATION, t - u))
  }

  /** Time.Truncate: round down to a multiple of g counted from the zero time, not from 1970. */
  function Truncate(t: int, g: int): (r: int)
    requires g > 0
    ensures t - g < r <= t
  {
    t - (t - ZERO_TIME) % g
  }

  /** timeToIndex: whole seconds since 1970 divided by the whole seconds of g, truncating toward zero. */
  function TimeToIndex(t: int, g: int): (i: int)
    requires g >= SECOND
    ensures t >= 0 ==> i >= 0
  {
    Quo(t / SECOND, g / SECOND)
  }

  /** Go's integer division by a positive divisor. */
  function Quo(a: int, b: int): (q: int)
    requires b > 0
    ensures a >= 0 ==> q >= 0 && 0 <= a - q * b < b
    ensures a < 0 ==> q <= 0 && -b < a - q * b <= 0
  {
    if a >= 0 then a / b else -(-a / b)
  }

  /** The configurations the counter supports: a positive window, and slots of at least a second,
      without which it divides by zero or has no bucket. */
  predicate Config(window: int, g: int) {
    0 < window <= MAX_DURATION && SECOND <= g <= MAX_DURATION
  }

  /** The instants Record can take: others index the ring below zero, then or later. */
  predicate Recordable(now: int, g: int)
    requires g >= SECOND
  {
    now >= SECOND || (TimeToIndex(now, g) >= 0 && TimeToIndex(Truncate(now, g), g) >= -1)
  }

  /** From the second second of 1970 on, every instant can be recorded, whatever the slots. */
  type Moment = t: int | t >= SECOND witness SECOND

  lemma RecordableMeans(now: int, g: int)
    requires g >= SECOND && Recordable(now, g)
    ensures TimeToIndex(now, g) >= 0 && TimeToIndex(Truncate(now, g), g) >= -1
  {
    if now >= SECOND {
      var k, a := g / SECOND, Truncate(now, g) / SECOND;
      if a < 0 {
        assert -a <= k;
        if -a == k { DivUnique(k, k, 1, 0); } else { DivUnique(-a, k, 0, -a); }
      }
    }
  }

  /** An instant with index -1 or more lies farther from the zero time than any window reaches. */
  lemma FarFromZeroTime(t: int, g: int)
    requires SECOND <= g <= MAX_DURATION && TimeToIndex(t, g) >= -1
    ensures Sub(t, ZERO_TIME) == MAX_DURATION
  {
    var a, k := t / SECOND, g / SECOND;
    if a < 0 {
      MulMono(-a / k, 1, k);
      assert -a == -a / k * k + -a % k;
      assert -a < 2 * k;
    }
  }

  datatype Ring = Ring(window: int, granularity: int, buckets: seq<int>, windowTotal: int,
                       firstWrite: int, lastWrite: int)

  predicate WellFormed(r: Ring) {
    && Config(r.window, r.granularity)
    && |r.buckets| == CeilDiv(r.window, r.granularity) > 0
    && (r.lastWrite == ZERO_TIME || TimeToIndex(r.lastWrite, r.granularity) >= -1)
    && r.firstWrite <= r.lastWrite
  }

  /** A counter with nothing recorded. One that is not supported can be made, but not used. */
  function Empty(window: int, g: int): (r: Ring)
    requires 0 < g && -g < window
    ensures r.window == window && r.granularity == g
    ensures Config(window, g) ==> WellFormed(r)
  {
    CeilDivBound(window, g, 0);
    CeilDivBound(window, g, -1);
    Ring(window, g, seq(CeilDiv(window, g), _ => 0), 0, ZERO_TIME, ZERO_TIME)
  }

  /** Empty the buckets of slots lo..hi one after the other, taking each out of the total. */
  function ClearSlots(b: seq<int>, total: int, lo: int, hi: int): (r: (seq<int>, int))
    requires |b| > 0 && 0 <= lo
    ensures |r.0| == |b|
    decreases hi - lo
  {
    if lo > hi then (b, total)
    else
      var (c, t) := ClearSlots(b, total, lo, hi - 1);
      (c[hi % |b| := 0], t - c[hi % |b|])
  }

  /** The total less the buckets of slots lo..hi, which stay as they are. */
  function SubtractSlots(b: seq<int>, total: int, lo: int, hi: int): int
    requires |b| > 0 && 0 <= lo
    decreases hi - lo
  {
    if lo > hi then total else SubtractSlots(b, total, lo, hi - 1) - b[hi % |b|]
  }

  function Add(r: Ring, index: int, value: int): (r': Ring)
    requires WellFormed(r) && index >= 0
    ensures WellFormed(r')
  {
    var j := index % |r.buckets|;
    r.(buckets := r.buckets[j := r.buckets[j] + value], windowTotal := r.windowTotal + value)
  }

  /** The ring made ready to take a value at bucketTime, which is not too old for it. */
  function MakeRoom(r: Ring, bucketTime: int, index: nat): (r': Ring)
    requires WellFormed(r) && TimeToIndex(bucketTime, r.granularity) >= -1
    ensures WellFormed(r') && r'.window == r.window && r'.granularity == r.granularity
  {
    FarFromZeroTime(bucketTime, r.granularity);
    if bucketTime > r.lastWrite then
      if Sub(bucketTime, r.lastWrite) >= r.window then
        r.(buckets := seq(|r.buckets|, _ => 0), windowTotal := 0, firstWrite := bucketTime, lastWrite := bucketTime)
      else
        var (b, t) := ClearSlots(r.buckets, r.windowTotal, TimeToIndex(r.lastWrite, r.granularity) + 1, index);
        r.(buckets := b, windowTotal := t, firstWrite := Earlier(r.firstWrite, bucketTime), lastWrite := bucketTime)
    else r.(firstWrite := Earlier(r.firstWrite, bucketTime))
  }

  /** The ring after Record(now, value). */
  function Recorded(r: Ring, now: int, value: int): (r': Ring)
    requires WellFormed(r) && Recordable(now, r.granularity)
    ensures WellFormed(r') && r'.window == r.window && r'.granularity == r.granularity
  {
    RecordableMeans(now, r.granularity);
    var bucketTime := Truncate(now, r.granularity);
    var index := TimeToIndex(now, r.granularity);
    if r.lastWrite == bucketTime then Add(r, index, value)
    else if bucketTime + r.window <= r.lastWrite then r
    else Add(MakeRoom(r, bucketTime, index), index, value)
  }

  function Earlier(firstWrite: int, bucketTime: int): int {
    if firstWrite == ZERO_TIME || firstWrite > bucketTime then bucketTime else firstWrite
  }

  /** The instants WindowAverage can take: while nothing is written, none near the zero time. */
  predicate Readable(r: Ring, now: int)
    requires WellFormed(r)
  {
    now >= 0 || (r.lastWrite == ZERO_TIME ==> !(0 < Sub(Truncate(now, r.granularity), ZERO_TIME) < r.window))
  }

  lemma ReadableMeans(r: Ring, now: int)
    requires WellFormed(r) && Readable(r, now)
    ensures 0 < Sub(Truncate(now, r.granularity), r.lastWrite) < r.window ==>
              TimeToIndex(r.lastWrite, r.granularity) >= -1
  {
  }

  /** What is divided by the denominator in WindowAverage(now). */
  function Numerator(r: Ring, now: int): int
    requires WellFormed(r) && Readable(r, now)
  {
    var time := Truncate(now, r.granularity);
    var d := Sub(time, r.lastWrite);
    ReadableMeans(r, now);
    if d <= 0 then r.windowTotal
    else if d < r.window then
      SubtractSlots(r.buckets, r.windowTotal,
                    TimeToIndex(r.lastWrite, r.granularity) + 1, TimeToIndex(time, r.granularity))
    else 0
  }

  /** The number of buckets WindowAverage divides by. */
  function Denominator(r: Ring): (d: int)
    requires WellFormed(r)
    ensures 1 <= d <= |r.buckets|
  {
    Min(Quo(Sub(r.lastWrite, r.firstWrite), r.granularity) + 1, |r.buckets|)
  }

  const PRECISION: nat := 3

  function Pow10(n: nat): (p: real)
    ensures p > 0.0
  {
    if n == 0 then 1.0 else 10.0 * Pow10(n - 1)
  }

  function RoundToNDigits(n: nat, f: real): real {
    (f * Pow10(n)).Floor as real / Pow10(n)
  }

  function WindowAverage(r: Ring, now: int): real
    requires WellFormed(r) && Readable(r, now)
  {
    if Sub(Truncate(now, r.granularity), r.lastWrite) >= r.window then 0.0
    else RoundToNDigits(PRECISION, Numerator(r, now) as real / Denominator(r) as real)
  }

  class RequestsBuckets {
    const buckets: array<int>
    const granularity: int
    const window: int
    var firstWrite: int
    var lastWrite: int
    var windowTotal: int

    ghost function Contents(): Ring
      reads this, buckets
    {
      Ring(window, granularity, buckets[..], windowTotal, firstWrite, lastWrite)
    }

    ghost predicate Valid()
      reads this, buckets
    {
      WellFormed(Contents())
    }

    constructor (window: int, granularity: int)
      requires 0 < granularity && -granularity < window
      ensures fresh(buckets) && Contents() == Empty(window, granularity)
      ensures Config(window, granularity) ==> Valid()
    {
      CeilDivBound(window, granularity, -1);
      this.window, this.granularity := window, granularity;
      buckets := new int[CeilDiv(window, granularity)](_ => 0);
      firstWrite, lastWrite, windowTotal := ZERO_TIME, ZERO_TIME, 0;
    }

    /** The loop that resets every bucket after a silent window. */
    method ResetBuckets()
      modifies this`windowTotal, buckets
      ensures buckets[..] == seq(buckets.Length, _ => 0) && windowTotal == 0
    {
      for i := 0 to buckets.Length
        invariant forall k | 0 <= k < i :: buckets[k] == 0
      {
        buckets[i] := 0;
      }
      windowTotal := 0;
    }

    /** The loop that empties the buckets of slots lo..hi, wrapping around the ring. */
    method ClearRange(lo: int, hi: int)
      requires buckets.Length > 0 && 0 <= lo
      modifies this`windowTotal, buckets
      ensures (buckets[..], windowTotal) == ClearSlots(old(buckets[..]), old(windowTotal), lo, hi)
    {
      var i := lo;
      while i <= hi
        invariant lo <= i
        invariant i <= hi + 1 || i == lo
        invariant (buckets[..], windowTotal) == ClearSlots(old(buckets[..]), old(windowTotal), lo, i - 1)
      {
        var idx := i % buckets.Length;
        windowTotal := windowTotal - buckets[idx];
        buckets[idx] := 0;
        i := i + 1;
      }
    }

    /** The part of Record that adjusts firstWrite and lastWrite and evicts what falls out of the window. */
    method Advance(bucketTime: int, writeIdx: nat)
      requires Valid() && TimeToIndex(bucketTime, granularity) >= -1
      modifies this, buckets
      ensures Contents() == MakeRoom(old(Contents()), bucketTime, writeIdx)
    {
      FarFromZeroTime(bucketTime, granularity);
      if firstWrite == ZERO_TIME || firstWrite > bucketTime {
        firstWrite := bucketTime;
      }
      if bucketTime > lastWrite {
        if Sub(bucketTime, lastWrite) >= window {
          firstWrite := bucketTime;
          ResetBuckets();
        } else {
          ClearRange(TimeToIndex(lastWrite, granularity) + 1, writeIdx);
        }
        lastWrite := bucketTime;
      }
    }

    method Record(now: int, value: int)
      requires Valid() && Recordable(now, granularity)
      modifies this, buckets
      ensures Valid()
      ensures Contents() == Recorded(old(Contents()), now, value)
    {
      RecordableMeans(now, granularity);
      var bucketTime := Truncate(now, granularity);
      var writeIdx := TimeToIndex(now, granularity);
      if lastWrite != bucketTime {
        if bucketTime + window > lastWrite {
          Advance(bucketTime, writeIdx);
        } else {
          return;
        }
      }
      var idx := writeIdx % buckets.Length;
      buckets[idx] := buckets[idx] + value;
      windowTotal := windowTotal + value;
    }

    /** The loop that takes the buckets of slots lo..hi out of the total without touching them. */
    method TotalWithout(lo: int, hi: int) returns (ret: int)
      requires buckets.Length > 0 && 0 <= lo
      ensures ret == SubtractSlots(buckets[..], windowTotal, lo, hi)
    {
      ret := windowTotal;
      var i := lo;
      while i <= hi
        invariant lo <= i
        invariant i <= hi + 1 || i == lo
        invariant ret == SubtractSlots(buckets[..], windowTotal, lo, i - 1)
      {
        ret := ret - buckets[i % buckets.Length];
        i := i + 1;
      }
    }

    method ReadWindowAverage(now: int) returns (average: real)
      requires Valid() && Readable(Contents(), now)
      ensures average == WindowAverage(Contents(), now)
    {
      ReadableMeans(Contents(), now);
      var time := Truncate(now, granularity);
      var d := Sub(time, lastWrite);
      if d <= 0 {
        var numB := Min(Quo(Sub(lastWrite, firstWrite), granularity) + 1, buckets.Length);
        average := RoundToNDigits(PRECISION, windowTotal as real / numB as real);
      } else if d < window {
        var ret := TotalWithout(TimeToIndex(lastWrite, granularity) + 1, TimeToIndex(time, granularity));
        var numB := Min(Quo(Sub(lastWrite, firstWrite), granularity) + 1, buckets.Length);
        average := RoundToNDigits(PRECISION, ret as real / numB as real);
      } else {
        average := 0.0;
      }
    }
  }
}
