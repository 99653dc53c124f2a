/** The ring counter in terms of slot numbers instead of instants, proved to hold exactly the
    logged values of its window. Module BucketLog ties it to the counter that works on time. */
module SlotRing {
  import opened Arith
  import opened Buckets

  /** One recorded value and the slot its time falls into. */
  datatype Hit = Hit(slot: nat, value: int)

  datatype Slots = Slots(buckets: seq<int>, total: int, written: bool, first: nat, last: nat)

  predicate Ok(r: Slots) {
    |r.buckets| > 0 && r.first <= r.last
  }

  function Put(r: Slots, s: nat, value: int): (r': Slots)
    requires Ok(r)
    ensures Ok(r')
  {
    var j := s % |r.buckets|;
    r.(buckets := r.buckets[j := r.buckets[j] + value], total := r.total + value)
  }

  function Restarted(r: Slots, s: nat): (r': Slots)
    requires Ok(r)
    ensures Ok(r')
  {
    Slots(seq(|r.buckets|, _ => 0), 0, true, s, s)
  }

  function Moved(r: Slots, s: nat): (r': Slots)
    requires Ok(r) && s > r.last
    ensures Ok(r')
  {
    var (b, t) := ClearSlots(r.buckets, r.total, r.last + 1, s);
    Slots(b, t, true, r.first, s)
  }

  /** The ring made ready to take a value at slot s. */
  function Room(r: Slots, s: nat): (r': Slots)
    requires Ok(r)
    ensures Ok(r')
  {
    if !r.written || s >= r.last + |r.buckets| then Restarted(r, s)
    else if s > r.last then Moved(r, s)
    else r.(first := Min(r.first, s))
  }

  /** The effect of Record on slots. */
  function SlotRecorded(r: Slots, s: nat, value: int): (r': Slots)
    requires Ok(r)
    ensures Ok(r')
  {
    if r.written && s <= r.last - |r.buckets| then r else Put(Room(r, s), s, value)
  }

  /** The sum of all logged values whose slot is in lo..hi. */
  function LogSum(log: seq<Hit>, lo: int, hi: int): int {
    if log == [] then 0
    else
      var h := log[|log| - 1];
      LogSum(log[..|log| - 1], lo, hi) + if lo <= h.slot <= hi then h.value else 0
  }

  /** The latest slot of a non-empty log. */
  function LastSlot(log: seq<Hit>): (s: nat)
    requires log != []
    ensures forall h | h in log :: h.slot <= s
    ensures exists h | h in log :: h.slot == s
  {
    var h := log[|log| - 1];
    if |log| == 1 then h.slot
    else
      var s := LastSlot(log[..|log| - 1]);
      assert forall x | x in log :: x == h || x in log[..|log| - 1];
      if h.slot > s then h.slot else s
  }

  /** Buckets b and total t hold exactly the logged values of the |b| slots ending at top. */
  ghost predicate Holds(b: seq<int>, t: int, log: seq<Hit>, top: int)
    requires |b| > 0
  {
    && (forall i | top - |b| < i <= top :: b[i % |b|] == LogSum(log, i, i))
    && t == LogSum(log, top - |b| + 1, top)
  }

  // ---- Sums over slots

  /** Cutting the first slot off a window. */
  lemma {:induction false} LogSumSplit(log: seq<Hit>, lo: int, hi: int)
    requires lo <= hi
    ensures LogSum(log, lo, hi) == LogSum(log, lo, lo) + LogSum(log, lo + 1, hi)
  {
    if log != [] {
      LogSumSplit(log[..|log| - 1], lo, hi);
    }
  }

  /** Slots after the latest one hold nothing. */
  lemma {:induction false} LogSumBeyond(log: seq<Hit>, lo: int, hi: int, top: int)
    requires top <= hi && forall h | h in log :: h.slot <= top
    ensures LogSum(log, lo, hi) == LogSum(log, lo, top)
    ensures top < lo ==> LogSum(log, lo, hi) == 0
  {
    if log != [] {
      assert log[|log| - 1] in log;
      LogSumBeyond(log[..|log| - 1], lo, hi, top);
    }
  }

  /** Clearing the slots after top moves the window along by as many slots. */
  lemma {:induction false} ClearMovesWindow(b: seq<int>, t: int, log: seq<Hit>, top: nat, hi: int)
    requires |b| > 0 && top <= hi && forall h | h in log :: h.slot <= top
    requires Holds(b, t, log, top)
    ensures var (c, u) := ClearSlots(b, t, top + 1, hi); Holds(c, u, log, hi)
    decreases hi - top
  {
    if top < hi {
      ClearMovesWindow(b, t, log, top, hi - 1);
      var n := |b|;
      var (c, u) := ClearSlots(b, t, top + 1, hi - 1);
      ModShift(hi - n, 1, n);
      assert hi - n + 1 * n == hi;
      forall i | hi - n < i <= hi
        ensures c[hi % n := 0][i % n] == LogSum(log, i, i)
      {
        if i == hi {
          LogSumBeyond(log, hi, hi, top);
        } else if i % n == hi % n {
          DistinctResidues(i, hi, n);
        }
      }
      LogSumSplit(log, hi - n, hi - 1);
      LogSumBeyond(log, hi - n + 1, hi, top);
      LogSumBeyond(log, hi - n + 1, hi - 1, top);
    }
  }

  /** Adding a value to the bucket of a slot inside the window. */
  lemma PutInsideWindow(b: seq<int>, t: int, log: seq<Hit>, top: int, h: Hit)
    requires |b| > 0 && Holds(b, t, log, top) && top - |b| < h.slot <= top
    ensures var j := h.slot % |b|;
            Holds(b[j := b[j] + h.value], t + h.value, log + [h], top)
  {
    var n := |b|;
    var j := h.slot % n;
    assert (log + [h])[..|log|] == log;
    forall i | top - n < i <= top
      ensures b[j := b[j] + h.value][i % n] == LogSum(log + [h], i, i)
    {
      if i % n == j {
        DistinctResidues(i, h.slot, n);
      }
    }
  }

  /** A value older than the window changes nothing in it. */
  lemma SkipOutsideWindow(b: seq<int>, t: int, log: seq<Hit>, top: int, h: Hit)
    requires |b| > 0 && Holds(b, t, log, top) && h.slot <= top - |b|
    ensures Holds(b, t, log + [h], top)
  {
    assert (log + [h])[..|log|] == log;
  }

  /** All-zero buckets hold a window that starts after everything logged. */
  lemma ZeroHolds(n: int, log: seq<Hit>, top: int)
    requires n > 0 && forall h | h in log :: h.slot <= top - n
    ensures Holds(seq(n, _ => 0), 0, log, top)
  {
    forall i | top - n < i <= top
      ensures LogSum(log, i, i) == 0
    {
      LogSumBeyond(log, i, i, top - n);
    }
    LogSumBeyond(log, top - n + 1, top, top - n);
  }

  // ---- The whole-history invariant

  /** What every reachable ring keeps: it holds the window ending at the latest slot, and no
      logged value inside that window is older than the first slot. */
  ghost predicate Tracks(r: Slots, log: seq<Hit>) {
    && Ok(r)
    && (r.written <==> log != [])
    && if log == [] then r.buckets == seq(|r.buckets|, _ => 0) && r.total == 0
       else
         && r.last == LastSlot(log)
         && Holds(r.buckets, r.total, log, r.last)
         && forall h | h in log && r.last - |r.buckets| < h.slot :: r.first <= h.slot
  }

  lemma LastSlotAfter(log: seq<Hit>, h: Hit)
    ensures LastSlot(log + [h]) == if log == [] then h.slot else Max(LastSlot(log), h.slot)
  {
    assert (log + [h])[..|log|] == log;
  }

  lemma RestartTracks(r: Slots, log: seq<Hit>, h: Hit)
    requires Ok(r) && forall x | x in log :: x.slot <= h.slot - |r.buckets|
    ensures Tracks(Put(Restarted(r, h.slot), h.slot, h.value), log + [h])
  {
    LastSlotAfter(log, h);
    ZeroHolds(|r.buckets|, log, h.slot);
    PutInsideWindow(seq(|r.buckets|, _ => 0), 0, log, h.slot, h);
  }

  lemma MoveTracks(r: Slots, log: seq<Hit>, h: Hit)
    requires Tracks(r, log) && r.written && r.last < h.slot < r.last + |r.buckets|
    ensures Tracks(Put(Moved(r, h.slot), h.slot, h.value), log + [h])
  {
    LastSlotAfter(log, h);
    MovedHolds(r, log, h.slot);
    PutInsideWindow(Moved(r, h.slot).buckets, Moved(r, h.slot).total, log, h.slot, h);
  }

  lemma MovedHolds(r: Slots, log: seq<Hit>, s: nat)
    requires Tracks(r, log) && r.written && r.last < s
    ensures Holds(Moved(r, s).buckets, Moved(r, s).total, log, s)
  {
    ClearMovesWindow(r.buckets, r.total, log, r.last, s);
  }

  /** Every recorded value, early, late or repeated, keeps the invariant. */
  lemma RecordTracks(r: Slots, log: seq<Hit>, h: Hit)
    requires Tracks(r, log)
    ensures Tracks(SlotRecorded(r, h.slot, h.value), log + [h])
  {
    if !r.written || h.slot >= r.last + |r.buckets| {
      RestartTracks(r, log, h);
    } else if h.slot > r.last {
      MoveTracks(r, log, h);
    } else {
      LastSlotAfter(log, h);
      if h.slot <= r.last - |r.buckets| {
        SkipOutsideWindow(r.buckets, r.total, log, r.last, h);
      } else {
        PutInsideWindow(r.buckets, r.total, log, r.last, h);
      }
    }
  }

  // ---- Reading without writing

  /** The numerator of the average read at slot e. */
  function SlotNumerator(r: Slots, e: nat): int
    requires Ok(r)
  {
    if !r.written || e >= r.last + |r.buckets| then 0
    else SubtractSlots(r.buckets, r.total, r.last + 1, e)
  }

  function SlotDenominator(r: Slots): int
    requires Ok(r)
  {
    Min(r.last - r.first + 1, |r.buckets|)
  }

  /** Fewer than |b| slots do not wrap onto each other, so leaving them in place or clearing them
      takes the same amount out of the total. */
  lemma {:induction false} SubtractIsClear(b: seq<int>, t: int, lo: nat, hi: int)
    requires |b| > 0 && hi - lo < |b|
    ensures SubtractSlots(b, t, lo, hi) == ClearSlots(b, t, lo, hi).1
    ensures forall i | hi < i < lo + |b| && lo <= i :: ClearSlots(b, t, lo, hi).0[i % |b|] == b[i % |b|]
    decreases hi - lo
  {
    if lo <= hi {
      SubtractIsClear(b, t, lo, hi - 1);
      forall i | hi < i < lo + |b| && lo <= i
        ensures ClearSlots(b, t, lo, hi).0[i % |b|] == b[i % |b|]
      {
        if i % |b| == hi % |b| {
          DistinctResidues(i, hi, |b|);
        }
      }
    }
  }

  /** Reading at slot e sees exactly the logged values of the window that ends at the later of e
      and the latest slot. */
  lemma NumeratorIsLogSum(r: Slots, log: seq<Hit>, e: nat)
    requires Tracks(r, log)
    ensures SlotNumerator(r, e) ==
            if log == [] then 0 else var top := Max(LastSlot(log), e); LogSum(log, top - |r.buckets| + 1, top)
  {
    if log != [] {
      var n := |r.buckets|;
      if e >= r.last + n {
        LogSumBeyond(log, e - n + 1, e, r.last);
      } else if e > r.last {
        SubtractIsClear(r.buckets, r.total, r.last + 1, e);
        ClearMovesWindow(r.buckets, r.total, log, r.last, e);
      }
    }
  }

  /** On every ring, tracked or not, reading at slot e sees what recording 0 at slot e would leave. */
  lemma NumeratorIsEagerTotal(r: Slots, e: nat)
    requires Ok(r)
    ensures SlotNumerator(r, e) == SlotRecorded(r, e, 0).total
  {
    if r.written && r.last < e < r.last + |r.buckets| {
      SubtractIsClear(r.buckets, r.total, r.last + 1, e);
    }
  }

  // ---- Order independence

  lemma {:induction false} LogSumConcat(a: seq<Hit>, b: seq<Hit>, lo: int, hi: int)
    ensures LogSum(a + b, lo, hi) == LogSum(a, lo, hi) + LogSum(b, lo, hi)
  {
    if b == [] {
      assert a + b == a;
    } else {
      var m := |b| - 1;
      LogSumConcat(a, b[..m], lo, hi);
      assert (a + b)[..|a| + m] == a + b[..m];
    }
  }

  lemma LogSumRemove(hits: seq<Hit>, k: nat, lo: int, hi: int)
    requires k < |hits|
    ensures LogSum(hits, lo, hi) ==
            LogSum(hits[..k] + hits[k + 1..], lo, hi) + if lo <= hits[k].slot <= hi then hits[k].value else 0
  {
    var a, h, b := hits[..k], [hits[k]], hits[k + 1..];
    assert hits == a + (h + b);
    LogSumConcat(a, h + b, lo, hi);
    LogSumConcat(h, b, lo, hi);
    LogSumConcat(a, b, lo, hi);
    assert h[..0] == [];
  }

  /** A permutation of s holds the last element of s somewhere; without it, it permutes the rest. */
  lemma RemoveLast<T>(s: seq<T>, s': seq<T>) returns (k: nat)
    requires s != [] && multiset(s) == multiset(s')
    ensures k < |s'| && s'[k] == s[|s| - 1]
    ensures multiset(s'[..k] + s'[k + 1..]) == multiset(s[..|s| - 1])
  {
    var m := |s| - 1;
    assert s == s[..m] + [s[m]];
    assert s[m] in multiset(s');
    k :| 0 <= k < |s'| && s'[k] == s[m];
    assert s' == s'[..k] + [s[m]] + s'[k + 1..];
    RestOfBoth(multiset(s'[..k] + s'[k + 1..]), multiset(s[..m]), s[m], multiset(s'), multiset(s));
  }

  lemma RestOfBoth<T>(rest: multiset<T>, front: multiset<T>, x: T, a: multiset<T>, b: multiset<T>)
    requires rest + multiset{x} == a && front + multiset{x} == b && a == b
    ensures rest == front
  {
    assert rest == a - multiset{x} && front == b - multiset{x};
  }

  lemma {:induction false} LogSumPermuted(hits: seq<Hit>, hits': seq<Hit>, lo: int, hi: int)
    requires multiset(hits) == multiset(hits')
    ensures LogSum(hits, lo, hi) == LogSum(hits', lo, hi)
    decreases |hits|
  {
    if hits == [] {
      assert |multiset(hits')| == 0;
    } else {
      var k := RemoveLast(hits, hits');
      LogSumPermuted(hits[..|hits| - 1], hits'[..k] + hits'[k + 1..], lo, hi);
      LogSumRemove(hits', k, lo, hi);
    }
  }

  lemma LastSlotPermuted(hits: seq<Hit>, hits': seq<Hit>)
    requires hits != [] && hits' != [] && multiset(hits) == multiset(hits')
    ensures LastSlot(hits) == LastSlot(hits')
  {
    var top, top' := LastSlot(hits), LastSlot(hits');
    var h :| h in hits && h.slot == top;
    var h' :| h' in hits' && h'.slot == top';
    assert h in multiset(hits') && h' in multiset(hits);
  }

  /** Every bucket belongs to one slot of the window ending at top. */
  lemma SlotOfBucket(top: int, j: nat, n: int) returns (i: int)
    requires j < n
    ensures top - n < i <= top && i % n == j
  {
    i := top - (top - j) % n;
    DivUnique(i, n, (top - j) / n, j);
  }

  lemma SameBucket(r: Slots, r': Slots, hits: seq<Hit>, hits': seq<Hit>, j: nat)
    requires Tracks(r, hits) && Tracks(r', hits') && multiset(hits) == multiset(hits') && hits != [] && hits' != []
    requires j < |r.buckets| == |r'.buckets| && r.last == r'.last
    ensures r.buckets[j] == r'.buckets[j]
  {
    var i := SlotOfBucket(r.last, j, |r.buckets|);
    LogSumPermuted(hits, hits', i, i);
  }

  /** Rings that track the same hits in different orders are the same but for their first slot. */
  lemma SameHitsSameRing(r: Slots, r': Slots, hits: seq<Hit>, hits': seq<Hit>)
    requires Tracks(r, hits) && Tracks(r', hits') && multiset(hits) == multiset(hits')
    requires |r.buckets| == |r'.buckets|
    ensures r.buckets == r'.buckets && r.total == r'.total && r.written == r'.written
    ensures r.written ==> r.last == r'.last
  {
    assert |multiset(hits)| == |hits| && |multiset(hits')| == |hits'|;
    if hits != [] {
      LastSlotPermuted(hits, hits');
      forall j | 0 <= j < |r.buckets|
        ensures r.buckets[j] == r'.buckets[j]
      {
        SameBucket(r, r', hits, hits', j);
      }
      LogSumPermuted(hits, hits', r.last - |r.buckets| + 1, r.last);
    }
  }
}
