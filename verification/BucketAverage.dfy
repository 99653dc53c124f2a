/** What WindowAverage reports: it reads the log's window without evicting, never exceeds the
    busiest slot, decays to zero, and hides no request while the window has at most 1000 slots. */
module BucketAverage {
  import opened Arith
  import opened Buckets
  import opened SlotRing
  import opened BucketLog

  // ---- Reading in terms of slots

  /** The ring on slots that the counter simulates. */
  lemma SlotReplayOf(window: int, g: int, log: seq<Entry>) returns (q: Slots)
    requires Config(window, g) && Aligned(window, g)
    ensures Simulates(Replay(window, g, log), q) && Tracks(q, Hits(log, g)) && |q.buckets| == CeilDiv(window, g)
  {
    ReplaySimulates(window, g, log);
    SlotReplayTracks(CeilDiv(window, g), Hits(log, g));
    q := SlotReplay(CeilDiv(window, g), Hits(log, g));
  }

  lemma ReadBySlot(r: Ring, q: Slots, now: nat)
    requires Simulates(r, q) && Aligned(r.window, r.granularity)
    ensures var e := Slot(now, r.granularity);
            && Numerator(r, now) == SlotNumerator(q, e)
            && (Sub(Truncate(now, r.granularity), r.lastWrite) >= r.window <==> !q.written || e >= q.last + |q.buckets|)
  {
    var g, e := r.granularity, Slot(now, r.granularity);
    TruncateIsSlotStart(now, g);
    SingleSlot(r.window, g);
    if q.written {
      CompareInstants(r.window, g, q.last, e);
      LastIndex(r, q);
      if g % SECOND == 0 {
        IndexIsSlot(e * g, g);
        SlotStart(e, g);
      }
    } else {
      FarFromZeroTime(e * g, g);
    }
  }

  lemma Distribute(a: int, b: int, g: int)
    ensures (a - b) * g == a * g - b * g
  {
  }

  /** Saturating a span of k slots at the longest duration does not change the denominator. */
  lemma SpanInSlots(span: int, g: int, k: nat, window: int, n: int)
    requires g > 0 && span == k * g && window <= MAX_DURATION && n == CeilDiv(window, g)
    ensures Min(Quo(Min(MAX_DURATION, span), g) + 1, n) == Min(k + 1, n)
  {
    MulMono(0, k, g);
    SlotStart(k, g);
    if span > MAX_DURATION {
      CeilDivBound(window, g, n - 1);
      MulMono(n - 1, k, g);
      var d := MAX_DURATION / g;
      MulMono(n - 1, d + 1, g);
      assert (d + 1) * g == d * g + g;
    }
  }

  lemma DenominatorBySlot(r: Ring, q: Slots)
    requires Simulates(r, q) && q.written
    ensures Denominator(r) == SlotDenominator(q)
  {
    var g: int, k: nat := r.granularity, q.last - q.first;
    Distribute(q.last, q.first, g);
    MulMono(0, k, g);
    SpanInSlots(k * g, g, k, r.window, |r.buckets|);
  }

  // ---- The numerator

  /** The log's values of the n slots ending at the later of now and the latest record. */
  function LiveSum(log: seq<Entry>, g: int, n: nat, now: nat): int
    requires g > 0
  {
    if log == [] then 0
    else
      var hits := Hits(log, g);
      var top := Max(LastSlot(hits), Slot(now, g));
      LogSum(hits, top - n + 1, top)
  }

  /** Reading the average sees exactly the live values of the log. */
  lemma {:induction false} ReadSeesLog(window: int, g: int, log: seq<Entry>, now: nat)
    requires Config(window, g) && Aligned(window, g)
    ensures CeilDiv(window, g) > 0
    ensures Numerator(Replay(window, g, log), now) == LiveSum(log, g, CeilDiv(window, g), now)
  {
    SingleSlot(window, g);
    var q := SlotReplayOf(window, g, log);
    ReadBySlot(Replay(window, g, log), q, now);
    NumeratorIsLogSum(q, Hits(log, g), Slot(now, g));
  }

  /** Reading agrees with evicting first: the numerator is the total that recording 0 would leave,
      on every ring whose instants are slot starts, whatever its buckets hold. */
  lemma ReadIsEagerEviction(r: Ring, q: Slots, now: Moment)
    requires Simulates(r, q) && Aligned(r.window, r.granularity)
    ensures Numerator(r, now) == Recorded(r, now, 0).windowTotal
  {
    ReadBySlot(r, q, now);
    RecordSimulates(r, q, now, 0);
    NumeratorIsEagerTotal(q, Slot(now, r.granularity));
  }

  // ---- The quotient

  /** The reported average in thousandths. */
  function Thousandths(num: int, den: int): int
    requires den > 0
  {
    1000 * num / den
  }

  lemma CastProduct(a: int, b: int)
    ensures (a * b) as real == a as real * b as real
  {
  }

  /** If 1000 * f lies between k and k + 1 after scaling by d, then k is its floor. */
  lemma FloorOfQuotient(f: real, d: real, n: real, k: int, rest: real)
    requires d > 0.0 && f * d == n && 1000.0 * n == k as real * d + rest && 0.0 <= rest < d
    ensures (f * 1000.0).Floor == k
  {
    var x := f * 1000.0 - k as real;
    assert x * d == rest by {
      assert x * d == 1000.0 * (f * d) - k as real * d;
    }
    assert 0.0 <= x < 1.0;
  }

  lemma RoundedQuotient(num: int, den: int)
    requires den > 0
    ensures RoundToNDigits(PRECISION, num as real / den as real) == Thousandths(num, den) as real / 1000.0
  {
    var k := Thousandths(num, den);
    var rest := 1000 * num - k * den;
    assert 0 <= rest < den;
    CastProduct(k, den);
    FloorOfQuotient(num as real / den as real, den as real, num as real, k, rest as real);
    assert Pow10(PRECISION) == 1000.0 by { assert Pow10(1) == 10.0; assert Pow10(2) == 100.0; }
  }

  /** WindowAverage in integers: the numerator over the denominator, cut after three digits. */
  lemma AverageInThousandths(r: Ring, q: Slots, now: nat)
    requires Simulates(r, q) && Aligned(r.window, r.granularity)
    ensures WindowAverage(r, now) == Thousandths(Numerator(r, now), Denominator(r)) as real / 1000.0
  {
    ReadBySlot(r, q, now);
    RoundedQuotient(Numerator(r, now), Denominator(r));
    DivUnique(0, Denominator(r), 0, 0);
  }

  lemma ThousandthsMono(a: int, b: int, den: int)
    requires den > 0 && a <= b
    ensures Thousandths(a, den) <= Thousandths(b, den)
  {
    var x, y := Thousandths(a, den), Thousandths(b, den);
    if y < x {
      MulMono(y + 1, x, den);
      assert false;
    }
  }

  // ---- Bounds and decay

  predicate NonNegative(log: seq<Entry>) {
    forall e | e in log :: e.value >= 0
  }

  /** Slots in which nothing was logged can be cut off a window. */
  lemma {:induction false} LogSumTrim(hits: seq<Hit>, lo: int, lo': int, hi: int)
    requires lo <= lo' && forall h | h in hits :: !(lo <= h.slot < lo')
    ensures LogSum(hits, lo, hi) == LogSum(hits, lo', hi)
  {
    if hits != [] {
      assert hits[|hits| - 1] in hits;
      LogSumTrim(hits[..|hits| - 1], lo, lo', hi);
    }
  }

  /** A window of k slots sums to at most k times its busiest slot. */
  lemma {:induction false} LogSumAtMost(hits: seq<Hit>, lo: int, hi: int, m: int)
    requires lo <= hi + 1 && forall i | lo <= i <= hi :: LogSum(hits, i, i) <= m
    ensures LogSum(hits, lo, hi) <= (hi - lo + 1) * m
    decreases hi - lo
  {
    if lo > hi {
      LogSumEmpty(hits, lo, hi);
    } else {
      LogSumSplit(hits, lo, hi);
      LogSumAtMost(hits, lo + 1, hi, m);
      assert (hi - lo + 1) * m == (hi - lo) * m + m;
    }
  }

  lemma {:induction false} LogSumEmpty(hits: seq<Hit>, lo: int, hi: int)
    requires lo > hi
    ensures LogSum(hits, lo, hi) == 0
  {
    if hits != [] {
      LogSumEmpty(hits[..|hits| - 1], lo, hi);
    }
  }

  /** For non-negative values a shorter window sums to less, but never below zero. */
  lemma {:induction false} LogSumShrinks(hits: seq<Hit>, lo: int, lo': int, hi: int)
    requires lo <= lo' && forall h | h in hits :: h.value >= 0
    ensures 0 <= LogSum(hits, lo', hi) <= LogSum(hits, lo, hi)
  {
    if hits != [] {
      assert hits[|hits| - 1] in hits;
      LogSumShrinks(hits[..|hits| - 1], lo, lo', hi);
    }
  }

  /** At whatever slot e it is read, a window sums up at most the last denominator-many slots. */
  lemma NumeratorAtMost(q: Slots, hits: seq<Hit>, e: nat, m: nat)
    requires Tracks(q, hits) && q.written
    requires var top := Max(q.last, e); forall i | top - |q.buckets| < i <= top :: LogSum(hits, i, i) <= m
    ensures SlotNumerator(q, e) <= SlotDenominator(q) * m
  {
    NumeratorIsLogSum(q, hits, e);
    var top := Max(q.last, e);
    var lo := top - |q.buckets| + 1;
    LogSumBeyond(hits, lo, top, q.last);
    var lo' := Min(q.last + 1, Max(lo, q.first));
    if lo <= lo' {
      LogSumTrim(hits, lo, lo', q.last);
    } else {
      LogSumEmpty(hits, lo, q.last);
      LogSumEmpty(hits, lo', q.last);
    }
    LogSumAtMost(hits, lo', q.last, m);
    MulMonoNat(q.last - lo' + 1, SlotDenominator(q), m);
  }

  /** Every logged value that is still in the window lies in its last Denominator-many slots. */
  lemma LiveWithinDenominator(window: int, g: int, log: seq<Entry>, e: Entry)
    requires Config(window, g) && Aligned(window, g) && e in log
    requires Slot(e.time, g) > LastSlot(Hits(log, g)) - CeilDiv(window, g)
    ensures Slot(e.time, g) > LastSlot(Hits(log, g)) - Denominator(Replay(window, g, log))
  {
    var hits := Hits(log, g);
    var q := SlotReplayOf(window, g, log);
    DenominatorBySlot(Replay(window, g, log), q);
    var i :| 0 <= i < |log| && log[i] == e;
    assert hits[i] in hits;
  }

  /** The average never exceeds the total of the busiest slot that is still in the window when it is read. */
  lemma AverageAtMostBusiest(window: int, g: int, log: seq<Entry>, now: nat, m: nat)
    requires Config(window, g) && Aligned(window, g) && log != []
    requires var hits := Hits(log, g);
             var top := Max(LastSlot(hits), Slot(now, g));
             forall i | top - CeilDiv(window, g) < i <= top :: LogSum(hits, i, i) <= m
    ensures WindowAverage(Replay(window, g, log), now) <= m as real
  {
    var r := Replay(window, g, log);
    var q := SlotReplayOf(window, g, log);
    ReadBySlot(r, q, now);
    DenominatorBySlot(r, q);
    NumeratorAtMost(q, Hits(log, g), Slot(now, g), m);
    AverageInThousandths(r, q, now);
    ThousandthsAtMost(Numerator(r, now), Denominator(r), m);
  }

  lemma ThousandthsAtMost(num: int, den: int, m: int)
    requires den > 0 && num <= den * m
    ensures Thousandths(num, den) <= 1000 * m
  {
    ThousandthsMono(num, den * m, den);
    DivUnique(1000 * (den * m), den, 1000 * m, 0);
  }

  /** A fraction with a denominator up to 1000 survives the cut after three digits. */
  lemma ThousandthsPositive(num: nat, den: int)
    requires 0 < den <= 1000
    ensures Thousandths(num, den) > 0 <==> num > 0
  {
    if num > 0 {
      ThousandthsMono(1, num, den);
      MulMono(Thousandths(1, den) + 1, 1, den);
    } else {
      DivUnique(0, den, 0, 0);
    }
  }

  /** With no further records the average never rises again, and it is zero once the window has
      passed over the latest record. */
  lemma AverageDecays(window: int, g: int, log: seq<Entry>, now: nat, later: nat)
    requires Config(window, g) && Aligned(window, g) && NonNegative(log) && now <= later
    ensures var r := Replay(window, g, log);
            0.0 <= WindowAverage(r, later) <= WindowAverage(r, now)
    ensures log == [] || Slot(later, g) >= LastSlot(Hits(log, g)) + CeilDiv(window, g) ==>
              WindowAverage(Replay(window, g, log), later) == 0.0
  {
    var r := Replay(window, g, log);
    var q := SlotReplayOf(window, g, log);
    ReadBySlot(r, q, later);
    AverageInThousandths(r, q, now);
    AverageInThousandths(r, q, later);
    NumeratorDecays(window, g, log, now, later);
    ThousandthsMono(Numerator(r, later), Numerator(r, now), Denominator(r));
    ThousandthsMono(0, Numerator(r, later), Denominator(r));
    DivUnique(0, Denominator(r), 0, 0);
  }

  lemma NumeratorDecays(window: int, g: int, log: seq<Entry>, now: nat, later: nat)
    requires Config(window, g) && Aligned(window, g) && NonNegative(log) && now <= later
    ensures var r := Replay(window, g, log); 0 <= Numerator(r, later) <= Numerator(r, now)
  {
    ReadSeesLog(window, g, log, now);
    ReadSeesLog(window, g, log, later);
    LiveSumDecays(log, g, CeilDiv(window, g), now, later);
  }

  lemma {:induction false} LiveSumDecays(log: seq<Entry>, g: int, n: nat, now: nat, later: nat)
    requires g > 0 && NonNegative(log) && now <= later
    ensures 0 <= LiveSum(log, g, n, later) <= LiveSum(log, g, n, now)
  {
    if log != [] {
      SlotMono(now, later, g);
      HitsNonNegative(log, g);
      WindowShrinks(Hits(log, g), n, Slot(now, g), Slot(later, g));
    }
  }

  lemma HitsNonNegative(log: seq<Entry>, g: int)
    requires g > 0 && NonNegative(log)
    ensures forall h | h in Hits(log, g) :: h.value >= 0
  {
    assert forall i | 0 <= i < |log| :: log[i] in log;
  }

  /** The later of two windows that reach to the latest hit or beyond sums to less. */
  lemma WindowShrinks(hits: seq<Hit>, n: nat, e: int, e': int)
    requires hits != [] && e <= e' && forall h | h in hits :: h.value >= 0
    ensures var top, top' := Max(LastSlot(hits), e), Max(LastSlot(hits), e');
            0 <= LogSum(hits, top' - n + 1, top') <= LogSum(hits, top - n + 1, top)
  {
    var last := LastSlot(hits);
    var top, top' := Max(last, e), Max(last, e');
    LogSumBeyond(hits, top - n + 1, top, last);
    LogSumBeyond(hits, top' - n + 1, top', last);
    LogSumShrinks(hits, top - n + 1, top' - n + 1, last);
  }

  // ---- The divisor after a silence

  /** The slots up to the last write that are not before the first write and still in the window when
      it is read at slot e: the part of the window with data. */
  function LiveSpan(first: nat, last: nat, n: nat, e: nat): int {
    last - Max(first, Max(last, e) - n + 1) + 1
  }

  /** The average is over the live part of the window, as long as any of it is live. */
  ghost predicate AveragesLivePart(window: int, g: int, log: seq<Entry>, now: nat)
    requires Config(window, g)
  {
    var r := Replay(window, g, log);
    log != [] && Slot(now, g) < LastSlot(Hits(log, g)) + CeilDiv(window, g) ==>
      && 0 <= r.firstWrite <= r.lastWrite
      && Denominator(r) == LiveSpan(Slot(r.firstWrite, g), Slot(r.lastWrite, g), CeilDiv(window, g), Slot(now, g))
  }

  /** For one history and time: it is, exactly when no slot has passed since the last write, or the
      window when it is read still reaches back before the first write. */
  lemma DivisorExactly(window: int, g: int, log: seq<Entry>, now: nat)
    requires Config(window, g) && Aligned(window, g) && log != []
    requires Slot(now, g) < LastSlot(Hits(log, g)) + CeilDiv(window, g)
    ensures var r := Replay(window, g, log);
            && 0 <= r.firstWrite <= r.lastWrite
            && (AveragesLivePart(window, g, log, now) <==>
                Slot(now, g) <= Slot(r.lastWrite, g) || Slot(r.firstWrite, g) > Slot(now, g) - CeilDiv(window, g))
  {
    var q := SlotReplayOf(window, g, log);
    DenominatorBySlot(Replay(window, g, log), q);
    MulMono(0, q.first, g);
    SlotStart(q.first, g);
    SlotStart(q.last, g);
  }

  lemma SparseWrites(window: int, g: int, n: nat)
    requires Config(window, g) && Aligned(window, g) && n == CeilDiv(window, g) > 1
    ensures var r := Replay(window, g, SparseLog(g, n));
            0 <= r.firstWrite <= r.lastWrite && Slot(r.firstWrite, g) == 1 && Slot(r.lastWrite, g) == n
    ensures LastSlot(Hits(SparseLog(g, n), g)) == n
  {
    SparseLogHits(g, n);
    SparseHits(n, Hits(SparseLog(g, n), g));
    ReplaySimulates(window, g, SparseLog(g, n));
    LastWriteIsLastSlot(window, g, SparseLog(g, n));
    SlotStart(1, g);
  }

  /** One slot after its second request, the sparse log's average is over one slot too many. */
  lemma SparseLogAveragesAll(window: int, g: int, n: nat, now: nat)
    requires Config(window, g) && Aligned(window, g) && n == CeilDiv(window, g) > 1 && Slot(now, g) == n + 1
    ensures !AveragesLivePart(window, g, SparseLog(g, n), now)
  {
    SparseWrites(window, g, n);
    DivisorExactly(window, g, SparseLog(g, n), now);
  }

  /** For all histories and times, exactly when the window is a single slot. */
  lemma AveragesLivePartExactly(window: int, g: int)
    requires Config(window, g) && Aligned(window, g)
    ensures (forall log: seq<Entry>, now: nat :: AveragesLivePart(window, g, log, now)) <==> window <= g
  {
    SingleSlot(window, g);
    if window <= g {
      forall log: seq<Entry>, now: nat | log != [] && Slot(now, g) < LastSlot(Hits(log, g)) + CeilDiv(window, g)
        ensures AveragesLivePart(window, g, log, now)
      {
        DivisorExactly(window, g, log, now);
        LastWriteIsLastSlot(window, g, log);
      }
    } else {
      var n := CeilDiv(window, g);
      SparseLogHits(g, n);
      SparseLogAveragesAll(window, g, n, (n + 1) * g);
    }
  }

  lemma LastWriteIsLastSlot(window: int, g: int, log: seq<Entry>)
    requires Config(window, g) && Aligned(window, g) && log != []
    ensures var r := Replay(window, g, log); r.lastWrite >= 0 && Slot(r.lastWrite, g) == LastSlot(Hits(log, g))
  {
    var q := SlotReplayOf(window, g, log);
    MulMono(0, q.last, g);
    SlotStart(q.last, g);
  }

  // ---- Rounding down hides no request while the window has at most 1000 slots

  /** The reported average is positive exactly when the log holds a live value. */
  ghost predicate NothingHidden(window: int, g: int, log: seq<Entry>, now: nat)
    requires Config(window, g) && CeilDiv(window, g) > 0
  {
    WindowAverage(Replay(window, g, log), now) > 0.0 <==> LiveSum(log, g, CeilDiv(window, g), now) > 0
  }

  lemma SmallWindowHidesNothing(window: int, g: int, log: seq<Entry>, now: nat)
    requires Config(window, g) && Aligned(window, g) && NonNegative(log) && 0 < CeilDiv(window, g) <= 1000
    ensures NothingHidden(window, g, log, now)
  {
    var r := Replay(window, g, log);
    var q := SlotReplayOf(window, g, log);
    AverageInThousandths(r, q, now);
    ReadSeesLog(window, g, log, now);
    NumeratorDecays(window, g, log, now, now);
    ThousandthsPositive(Numerator(r, now), Denominator(r));
  }

  /** Two requests n - 1 slots apart, read one slot after the second. */
  function SparseLog(g: int, n: nat): seq<Entry>
    requires g >= SECOND && n > 0
  {
    MulMono(1, n, g);
    [Entry(g, 1), Entry(n * g, 1)]
  }

  lemma SparseHits(n: nat, hits: seq<Hit>)
    requires n > 1 && hits == [Hit(1, 1), Hit(n, 1)]
    ensures LastSlot(hits) == n && LogSum(hits, 2, n + 1) == 1
    ensures var q := SlotReplay(n, hits); SlotDenominator(q) == n && q.written && q.first == 1
  {
    assert hits[..1] == [Hit(1, 1)] && hits[..1][..0] == [];
    assert LogSum([Hit(1, 1)], 2, n + 1) == 0;
    var q := SlotReplay(n, hits[..1]);
    assert SlotReplay(n, []).written == false;
    assert q.first == 1 && q.last == 1 && q.written && |q.buckets| == n;
  }

  lemma SparseLogHits(g: int, n: nat)
    requires g >= SECOND && n > 1
    ensures Hits(SparseLog(g, n), g) == [Hit(1, 1), Hit(n, 1)]
    ensures (n + 1) * g >= 0 && Slot((n + 1) * g, g) == n + 1
  {
    MulMono(0, n + 1, g);
    SlotStart(1, g);
    SlotStart(n, g);
    SlotStart(n + 1, g);
  }

  lemma LargeWindowHides(window: int, g: int)
    requires Config(window, g) && Aligned(window, g) && CeilDiv(window, g) > 1000
    ensures var n := CeilDiv(window, g);
            && NonNegative(SparseLog(g, n)) && (n + 1) * g >= 0
            && LiveSum(SparseLog(g, n), g, n, (n + 1) * g) > 0
            && WindowAverage(Replay(window, g, SparseLog(g, n)), (n + 1) * g) == 0.0
  {
    var n := CeilDiv(window, g);
    var log, now := SparseLog(g, n), (n + 1) * g;
    var hits, r := Hits(log, g), Replay(window, g, log);
    SparseLogHits(g, n);
    MulMono(0, n + 1, g);
    SparseHits(n, hits);
    ReplaySimulates(window, g, log);
    ReadSeesLog(window, g, log, now);
    DenominatorBySlot(r, SlotReplay(n, hits));
    AverageInThousandths(r, SlotReplay(n, hits), now);
    DivUnique(1000, n, 0, 1000);
  }

  /** No live request is rounded away, on every history and at every time, exactly when the window
      has at most 1000 slots. */
  lemma NothingHiddenExactly(window: int, g: int)
    requires Config(window, g) && Aligned(window, g)
    ensures CeilDiv(window, g) > 0
    ensures (forall log: seq<Entry>, now: nat | NonNegative(log) :: NothingHidden(window, g, log, now))
            <==> CeilDiv(window, g) <= 1000
  {
    CeilDivBound(window, g, 0);
    if CeilDiv(window, g) <= 1000 {
      forall log: seq<Entry>, now: nat | NonNegative(log)
        ensures NothingHidden(window, g, log, now)
      {
        SmallWindowHidesNothing(window, g, log, now);
      }
    } else {
      LargeWindowHides(window, g);
      assert !NothingHidden(window, g, SparseLog(g, CeilDiv(window, g)), (CeilDiv(window, g) + 1) * g);
    }
  }

  /** The default of a minute in seconds meets all the conditions: it agrees with every log and hides
      nothing of it. */
  lemma DefaultIsExact(log: seq<Entry>, now: nat)
    requires NonNegative(log)
    ensures Config(60 * SECOND, SECOND) && Aligned(60 * SECOND, SECOND) && CeilDiv(60 * SECOND, SECOND) == 60
    ensures AgreesWithLog(Replay(60 * SECOND, SECOND, log), log)
    ensures NothingHidden(60 * SECOND, SECOND, log, now)
  {
    assert CeilDiv(60 * SECOND, SECOND) == 60;
    AlignedAgrees(60 * SECOND, SECOND, log);
    SmallWindowHidesNothing(60 * SECOND, SECOND, log, now);
  }
}
