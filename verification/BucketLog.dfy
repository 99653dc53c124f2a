/** The counter against a plain log of every Record call: what each bucket holds, for which
    granularities it holds it, and that the order of the calls does not matter. */
module BucketLog {
  import opened Arith
  import opened Buckets
  import opened SlotRing

  datatype Entry = Entry(time: Moment, value: int)

  /** The ring after a sequence of Record calls. */
  function Replay(window: int, g: int, log: seq<Entry>): (r: Ring)
    requires Config(window, g)
    ensures WellFormed(r) && r.window == window && r.granularity == g
  {
    if log == [] then Empty(window, g)
    else
      var e := log[|log| - 1];
      Recorded(Replay(window, g, log[..|log| - 1]), e.time, e.value)
  }

  /** The slot of an instant, counted from 1970. */
  function Slot(t: nat, g: int): (s: nat)
    requires g > 0
  {
    t / g
  }

  /** The log with every instant replaced by its slot. */
  function Hits(log: seq<Entry>, g: int): (hits: seq<Hit>)
    requires g > 0
  {
    seq(|log|, i requires 0 <= i < |log| => Hit(Slot(log[i].time, g), log[i].value))
  }

  /** The promise of the counter: every bucket of the window that ends at the latest slot holds the
      sum of all values ever recorded for its slot, and windowTotal their sum over the window. */
  ghost predicate AgreesWithLog(r: Ring, log: seq<Entry>)
    requires WellFormed(r)
  {
    log != [] ==>
      var hits := Hits(log, r.granularity);
      Holds(r.buckets, r.windowTotal, hits, LastSlot(hits))
  }

  /** The slot boundaries, counted from year 1, and the bucket indices, counted in whole seconds from
      1970, fit together. With a single slot the indices do not matter. */
  predicate Aligned(window: int, g: int)
    requires g > 0
  {
    OnGrid(g) && (g % SECOND == 0 || window <= g)
  }

  predicate OnGrid(g: int)
    requires g > 0
  {
    ZERO_TIME % g == 0
  }

  // ---- Time arithmetic for aligned granularities

  lemma IndexIsSlot(t: int, g: int)
    requires t >= 0 && g >= SECOND && g % SECOND == 0
    ensures TimeToIndex(t, g) == t / g
  {
    DivDiv(t, SECOND, g / SECOND);
    assert SECOND * (g / SECOND) == g;
  }

  lemma TruncateIsSlotStart(t: int, g: int)
    requires g > 0 && OnGrid(g)
    ensures Truncate(t, g) == t / g * g
  {
    ModShift(t, -ZERO_TIME / g, g);
    assert -ZERO_TIME == -ZERO_TIME / g * g by {
      DivUnique(-ZERO_TIME, g, -(ZERO_TIME / g), 0);
    }
  }

  lemma SlotStart(s: int, g: int)
    requires g > 0
    ensures s * g / g == s
  {
    DivUnique(s * g, g, s, 0);
  }

  // ---- The counter on time simulates the ring on slots

  ghost predicate Simulates(r: Ring, q: Slots) {
    && WellFormed(r) && Ok(q)
    && r.buckets == q.buckets && r.windowTotal == q.total
    && if q.written then r.lastWrite == q.last * r.granularity && r.firstWrite == q.first * r.granularity
       else r.lastWrite == ZERO_TIME == r.firstWrite
  }

  /** How the instants of a ring last written at slot last compare with the start of slot s. */
  lemma CompareInstants(window: int, g: int, last: nat, s: nat)
    requires Config(window, g)
    ensures s * g >= 0
    ensures s * g == last * g <==> s == last
    ensures s * g < last * g <==> s < last
    ensures s * g + window <= last * g <==> s <= last - CeilDiv(window, g)
    ensures Sub(s * g, last * g) >= window <==> s >= last + CeilDiv(window, g)
  {
    MulMono(0, s, g);
    MulMono(s, last, g);
    CeilDivBound(window, g, last - s);
    CeilDivBound(window, g, s - last);
    assert (last - s) * g == last * g - s * g && (s - last) * g == s * g - last * g;
  }

  lemma SingleSlot(window: int, g: int)
    requires Config(window, g)
    ensures CeilDiv(window, g) > 0
    ensures window <= g <==> CeilDiv(window, g) == 1
  {
    CeilDivBound(window, g, 0);
    CeilDivBound(window, g, 1);
  }

  /** An index addresses the bucket of its slot. */
  lemma IndexIsBucket(window: int, g: int, t: int)
    requires Config(window, g) && Aligned(window, g) && t >= 0
    ensures CeilDiv(window, g) > 0 && TimeToIndex(t, g) % CeilDiv(window, g) == t / g % CeilDiv(window, g)
  {
    SingleSlot(window, g);
    if g % SECOND == 0 {
      IndexIsSlot(t, g);
    }
  }

  /** The index of the last write, where there is more than one bucket. */
  lemma LastIndex(r: Ring, q: Slots)
    requires Simulates(r, q) && q.written && Aligned(r.window, r.granularity)
    ensures |r.buckets| == 1 || TimeToIndex(r.lastWrite, r.granularity) == q.last
  {
    SingleSlot(r.window, r.granularity);
    MulMono(0, q.last, r.granularity);
    var g := r.granularity;
    if g % SECOND == 0 {
      IndexIsSlot(q.last * g, g);
      SlotStart(q.last, g);
    }
  }

  /** The choice of Record between its cases, in terms of slots. */
  lemma RecordedBySlot(r: Ring, q: Slots, t: Moment, value: int, s: nat, start: int)
    requires Simulates(r, q) && q.written && Aligned(r.window, r.granularity)
    requires s == Slot(t, r.granularity) && start == s * r.granularity
    ensures start >= 0
    ensures Recorded(r, t, value) ==
            if s == q.last then Add(r, s, value)
            else if s <= q.last - |r.buckets| then r
            else Add(MakeRoom(r, start, s), s, value)
  {
    var g := r.granularity;
    CompareInstants(r.window, g, q.last, s);
    IndexIsBucket(r.window, g, t);
    TruncateIsSlotStart(t, g);
    SingleSlot(r.window, g);
    if g % SECOND == 0 {
      IndexIsSlot(t, g);
    }
  }

  lemma FirstRecordSimulates(r: Ring, q: Slots, t: Moment, value: int)
    requires Simulates(r, q) && !q.written && Aligned(r.window, r.granularity)
    ensures Simulates(Recorded(r, t, value), SlotRecorded(q, Slot(t, r.granularity), value))
  {
    IndexIsBucket(r.window, r.granularity, t);
    TruncateIsSlotStart(t, r.granularity);
    MulMono(0, Slot(t, r.granularity), r.granularity);
    FarFromZeroTime(Truncate(t, r.granularity), r.granularity);
  }

  lemma RoomSimulates(r: Ring, q: Slots, s: nat)
    requires Simulates(r, q) && q.written && (|r.buckets| == 1 || TimeToIndex(r.lastWrite, r.granularity) == q.last)
    ensures s * r.granularity >= 0
    ensures s > q.last - |r.buckets| ==> Simulates(MakeRoom(r, s * r.granularity, s), Room(q, s))
  {
    CompareInstants(r.window, r.granularity, q.last, s);
    MulMono(q.first, s, r.granularity);
  }

  /** Record on time does to the ring what it does on slots. */
  lemma RecordSimulates(r: Ring, q: Slots, t: Moment, value: int)
    requires Simulates(r, q) && Aligned(r.window, r.granularity)
    ensures Simulates(Recorded(r, t, value), SlotRecorded(q, Slot(t, r.granularity), value))
  {
    if !q.written {
      FirstRecordSimulates(r, q, t, value);
    } else {
      var s := Slot(t, r.granularity);
      LastIndex(r, q);
      RecordedBySlot(r, q, t, value, s, s * r.granularity);
      RoomSimulates(r, q, s);
    }
  }

  lemma HitsAfter(log: seq<Entry>, e: Entry, g: int)
    requires g > 0
    ensures Hits(log + [e], g) == Hits(log, g) + [Hit(Slot(e.time, g), e.value)]
  {
  }

  function SlotReplay(n: nat, hits: seq<Hit>): (q: Slots)
    requires n > 0
    ensures Ok(q)
  {
    if hits == [] then Slots(seq(n, _ => 0), 0, false, 0, 0)
    else SlotRecorded(SlotReplay(n, hits[..|hits| - 1]), hits[|hits| - 1].slot, hits[|hits| - 1].value)
  }

  lemma {:induction false} SlotReplayTracks(n: nat, hits: seq<Hit>)
    requires n > 0
    ensures Tracks(SlotReplay(n, hits), hits) && |SlotReplay(n, hits).buckets| == n
  {
    if hits != [] {
      var front, h := hits[..|hits| - 1], hits[|hits| - 1];
      SlotReplayTracks(n, front);
      RecordTracks(SlotReplay(n, front), front, h);
      assert front + [h] == hits;
    }
  }

  /** On every history, the counter on time simulates the ring on slots. */
  lemma {:induction false} ReplaySimulates(window: int, g: int, log: seq<Entry>)
    requires Config(window, g) && Aligned(window, g)
    ensures CeilDiv(window, g) > 0
    ensures Simulates(Replay(window, g, log), SlotReplay(CeilDiv(window, g), Hits(log, g)))
  {
    CeilDivBound(window, g, 0);
    if log != [] {
      var front, e := log[..|log| - 1], log[|log| - 1];
      ReplaySimulates(window, g, front);
      HitsAfter(front, e, g);
      assert front + [e] == log;
      var hits := Hits(log, g);
      assert hits[..|hits| - 1] == Hits(front, g);
      RecordSimulates(Replay(window, g, front), SlotReplay(CeilDiv(window, g), Hits(front, g)), e.time, e.value);
    }
  }

  /** With aligned slots the counter agrees with the log, whatever the order and the gaps of the calls. */
  lemma AlignedAgrees(window: int, g: int, log: seq<Entry>)
    requires Config(window, g) && Aligned(window, g)
    ensures AgreesWithLog(Replay(window, g, log), log)
  {
    ReplaySimulates(window, g, log);
    SlotReplayTracks(CeilDiv(window, g), Hits(log, g));
  }

  // ---- Slots that are not aligned

  /** A point of the year-1 grid before the start of slot k of 1970, by less than a slot. */
  lemma GridPoint(k: nat, g: int, off: int)
    requires g > 0 && off == -ZERO_TIME % g && k >= 1
    ensures k * g - off > 0 && Truncate(k * g - off, g) == k * g - off
    ensures forall t | k * g - off <= t < (k + 1) * g - off :: Truncate(t, g) == k * g - off
  {
    MulMono(1, k, g);
    var z, c := -ZERO_TIME / g, k * g - off;
    assert c - ZERO_TIME == (k + z) * g by { assert (k + z) * g == k * g + z * g; }
    forall t | c <= t < c + g
      ensures Truncate(t, g) == c
    {
      DivUnique(t - ZERO_TIME, g, k + z, t - c);
    }
    assert (k + 1) * g == k * g + g;
  }

  /** Slots around a grid point off the slot starts. */
  lemma SlotsAround(k: nat, g: int, off: int)
    requires g > 0 && 0 < off < g && k >= 1
    ensures k * g - off >= 0 && (k * g - off) / g == k - 1 && k * g / g == k
  {
    MulMono(1, k, g);
    assert (k - 1) * g == k * g - g;
    DivUnique(k * g - off, g, k - 1, g - off);
    DivUnique(k * g, g, k, 0);
  }

  /** Clearing slots lo..hi empties a ring whose only value, 1, lies in the bucket of one of them. */
  lemma {:induction false} ClearLone(b: seq<int>, lo: nat, hi: int, x: int)
    requires |b| > 0 && b == seq(|b|, _ => 0)[x % |b| := 1]
    ensures var r := ClearSlots(b, 1, lo, hi);
            (r == (b, 1) || r == (seq(|b|, _ => 0), 0)) && (lo <= x <= hi ==> r.1 == 0)
    decreases hi - lo
  {
    if lo <= hi {
      ClearLone(b, lo, hi - 1, x);
      var zeros := seq(|b|, _ => 0);
      assert b[x % |b| := 0] == zeros && zeros[hi % |b| := 0] == zeros;
      if hi % |b| != x % |b| {
        assert b[hi % |b| := 0] == b;
      }
    }
  }

  /** The first call: the ring holds 1 in the bucket of t, written at the grid point c before it. */
  lemma LoneRecord(window: int, g: int, c: int, t: Moment)
    requires Config(window, g) && TimeToIndex(c, g) >= -1 && Truncate(t, g) == c
    ensures var r := Recorded(Empty(window, g), t, 1);
            && r.lastWrite == c && r.windowTotal == 1
            && r.buckets == seq(|r.buckets|, _ => 0)[TimeToIndex(t, g) % |r.buckets| := 1]
  {
    FarFromZeroTime(c, g);
  }

  /** The total the log of two calls asks for. */
  function TotalOfTwo(window: int, g: int, e: Entry, e': Entry): int
    requires Config(window, g)
  {
    var hits := Hits([e, e'], g);
    LogSum(hits, LastSlot(hits) - CeilDiv(window, g) + 1, LastSlot(hits))
  }

  lemma TwoCallsDisagree(window: int, g: int, e: Entry, e': Entry)
    requires Config(window, g)
    requires var r := Recorded(Empty(window, g), e.time, e.value);
             Recorded(r, e'.time, e'.value).windowTotal != TotalOfTwo(window, g, e, e')
    ensures !AgreesWithLog(Replay(window, g, [e, e']), [e, e'])
  {
    assert [e, e'][..1] == [e] && [e][..0] == [];
    assert Replay(window, g, [e]) == Recorded(Replay(window, g, []), e.time, e.value);
  }

  /** The second call, one slot later, clears it if the index moved on between c and t. */
  lemma LoneCleared(r: Ring, c: Moment, index: int)
    requires WellFormed(r) && r.window > r.granularity && r.lastWrite == c && r.windowTotal == 1
    requires r.buckets == seq(|r.buckets|, _ => 0)[index % |r.buckets| := 1]
    requires Truncate(c + r.granularity, r.granularity) == c + r.granularity
    requires TimeToIndex(c, r.granularity) < index <= TimeToIndex(c + r.granularity, r.granularity)
    ensures Recorded(r, c + r.granularity, 0).windowTotal == 0
  {
    ClearLone(r.buckets, TimeToIndex(c, r.granularity) + 1, TimeToIndex(c + r.granularity, r.granularity), index);
  }

  /** If between two grid points c and c + g the index moves on and something is recorded after that,
      the next call clears it. */
  lemma LosesValue(window: int, g: int, c: Moment, t: Moment) returns (log: seq<Entry>)
    requires Config(window, g) && window > g && c < t < c + g
    requires Truncate(t, g) == c && Truncate(c + g, g) == c + g
    requires TimeToIndex(c, g) < TimeToIndex(t, g) <= TimeToIndex(c + g, g)
    ensures !AgreesWithLog(Replay(window, g, log), log)
  {
    var e, e' := Entry(t, 1), Entry(c + g, 0);
    LoneRecord(window, g, c, t);
    LoneCleared(Recorded(Empty(window, g), t, 1), c, TimeToIndex(t, g));
    NeighbouringSlots(window, g, c, e, e');
    TwoCallsDisagree(window, g, e, e');
    log := [e, e'];
  }

  lemma NeighbouringSlots(window: int, g: int, c: nat, e: Entry, e': Entry)
    requires Config(window, g) && window > g && c < e.time < c + g == e'.time && e.value == 1 && e'.value == 0
    ensures TotalOfTwo(window, g, e, e') == 1
  {
    SingleSlot(window, g);
    ModShift(c, 1, g);
    SlotMono(c, e.time, g);
    SlotMono(e.time, c + g, g);
    TwoHits(Hits([e, e'], g), CeilDiv(window, g));
  }

  /** A value in the latest slot or the one before it is in every window of two slots or more. */
  lemma TwoHits(hits: seq<Hit>, n: int)
    requires |hits| == 2 && hits[0].slot <= hits[1].slot <= hits[0].slot + 1 && hits[0].value == 1 &&
              hits[1].value == 0 && n >= 2
    ensures LastSlot(hits) == hits[1].slot && LogSum(hits, hits[1].slot - n + 1, hits[1].slot) == 1
  {
    assert hits[..1] == [hits[0]] && [hits[0]][..0] == [];
    assert LogSum([hits[0]], hits[1].slot - n + 1, hits[1].slot) == 1;
  }

  lemma SlotMono(t: nat, u: nat, g: int)
    requires g > 0 && t <= u
    ensures Slot(t, g) <= Slot(u, g)
  {
    if Slot(u, g) < Slot(t, g) {
      MulMono(Slot(u, g) + 1, Slot(t, g), g);
      assert false;
    }
  }

  lemma IndexMono(t: nat, u: nat, g: int)
    requires g >= SECOND && t <= u
    ensures TimeToIndex(t, g) <= TimeToIndex(u, g)
  {
    SlotMono(t, u, SECOND);
    SlotMono(t / SECOND, u / SECOND, g / SECOND);
  }

  /** Slots with a fraction of a second are longer than their index step. */
  lemma FractionDisagrees(window: int, g: int) returns (log: seq<Entry>)
    requires Config(window, g) && window > g && g % SECOND != 0
    ensures !AgreesWithLog(Replay(window, g, log), log)
  {
    var off, k := -ZERO_TIME % g, g / SECOND;
    var c: int := 2 * g - off;
    GridPoint(2, g, off);
    GridPoint(3, g, off);
    var t := c + k * SECOND;
    ModShift(c, k, SECOND);
    ModShift(c / SECOND, 1, k);
    IndexMono(t, c + g, g);
    log := LosesValue(window, g, c, t);
  }

  /** Slots of whole seconds off the year-1 grid: the index moves on in the middle of a slot. */
  lemma OffGridDisagrees(window: int, g: int) returns (log: seq<Entry>)
    requires Config(window, g) && window > g && g % SECOND == 0 && !OnGrid(g)
    ensures !AgreesWithLog(Replay(window, g, log), log)
  {
    var off := -ZERO_TIME % g;
    OffGridOffset(g);
    GridPoint(2, g, off);
    GridPoint(3, g, off);
    SlotsAround(2, g, off);
    SlotsAround(3, g, off);
    IndexIsSlot(2 * g - off, g);
    IndexIsSlot(2 * g, g);
    IndexIsSlot(3 * g - off, g);
    log := LosesValue(window, g, 2 * g - off, 2 * g);
  }

  lemma OffGridOffset(g: int)
    requires g > 0 && !OnGrid(g)
    ensures -ZERO_TIME % g > 0
  {
    if -ZERO_TIME % g == 0 {
      DivUnique(ZERO_TIME, g, -(-ZERO_TIME / g), 0);
    }
  }

  /** A single slot off the year-1 grid: the value of one slot is still there in the next. */
  lemma SingleSlotDisagrees(window: int, g: int) returns (log: seq<Entry>)
    requires Config(window, g) && window <= g && !OnGrid(g)
    ensures !AgreesWithLog(Replay(window, g, log), log)
  {
    var off := -ZERO_TIME % g;
    OffGridOffset(g);
    GridPoint(2, g, off);
    SlotsAround(2, g, off);
    log := KeepsOldValue(window, g, 2 * g - off, 2 * g);
  }

  lemma KeepsOldValue(window: int, g: int, c: Moment, t: Moment) returns (log: seq<Entry>)
    requires Config(window, g) && window <= g && Truncate(c, g) == c == Truncate(t, g)
    requires Slot(c, g) == 1 && Slot(t, g) == 2
    ensures !AgreesWithLog(Replay(window, g, log), log)
  {
    var e, e' := Entry(c, 1), Entry(t, 0);
    LoneRecord(window, g, c, c);
    LoneKept(Recorded(Empty(window, g), c, 1), t);
    OldHit(window, g, e, e');
    TwoCallsDisagree(window, g, e, e');
    log := [e, e'];
  }

  lemma LoneKept(r: Ring, t: Moment)
    requires WellFormed(r) && r.windowTotal == 1 && Truncate(t, r.granularity) == r.lastWrite
    ensures Recorded(r, t, 0).windowTotal == 1
  {
    RecordableMeans(t, r.granularity);
  }

  lemma OldHit(window: int, g: int, e: Entry, e': Entry)
    requires Config(window, g) && window <= g && Slot(e.time, g) == 1 && Slot(e'.time, g) == 2 && e.value == 1 &&
              e'.value == 0
    ensures TotalOfTwo(window, g, e, e') == 0
  {
    SingleSlot(window, g);
    var hits := Hits([e, e'], g);
    assert hits[..1] == [Hit(1, 1)] && hits[..1][..0] == [];
    assert LogSum([Hit(1, 1)], 2, 2) == 0;
  }

  /** A counter that is not aligned disagrees with its log after two calls. */
  lemma MisalignedDisagrees(window: int, g: int) returns (log: seq<Entry>)
    requires Config(window, g) && !Aligned(window, g)
    ensures !AgreesWithLog(Replay(window, g, log), log)
  {
    if window <= g {
      log := SingleSlotDisagrees(window, g);
    } else if g % SECOND != 0 {
      log := FractionDisagrees(window, g);
    } else {
      log := OffGridDisagrees(window, g);
    }
  }

  /** The counter agrees with its log on every history exactly when the granularity divides the
      62135596800 seconds between year 1 and 1970 and consists of whole seconds or spans the window. */
  lemma AgreesExactlyWhenAligned(window: int, g: int)
    requires Config(window, g)
    ensures (forall log: seq<Entry> :: AgreesWithLog(Replay(window, g, log), log)) <==> Aligned(window, g)
  {
    if Aligned(window, g) {
      forall log: seq<Entry>
        ensures AgreesWithLog(Replay(window, g, log), log)
      {
        AlignedAgrees(window, g, log);
      }
    } else {
      var log := MisalignedDisagrees(window, g);
    }
  }

  // ---- Order independence

  lemma HitsWithout(log: seq<Entry>, k: nat, g: int)
    requires g > 0 && k < |log|
    ensures multiset(Hits(log, g)) ==
            multiset(Hits(log[..k] + log[k + 1..], g)) + multiset{Hit(Slot(log[k].time, g), log[k].value)}
  {
    var hits := Hits(log, g);
    assert Hits(log[..k] + log[k + 1..], g) == hits[..k] + hits[k + 1..];
    assert hits == hits[..k] + [hits[k]] + hits[k + 1..];
  }

  lemma {:induction false} HitsPermuted(log: seq<Entry>, log': seq<Entry>, g: int)
    requires g > 0 && multiset(log) == multiset(log')
    ensures multiset(Hits(log, g)) == multiset(Hits(log', g))
    decreases |log|
  {
    if log == [] {
      assert |multiset(log')| == 0;
    } else {
      var k := RemoveLast(log, log');
      var m := |log| - 1;
      HitsPermuted(log[..m], log'[..k] + log'[k + 1..], g);
      assert log[..m] + log[m + 1..] == log[..m];
      HitsWithout(log, m, g);
      HitsWithout(log', k, g);
    }
  }

  /** The same calls in any order leave the same ring, though other calls are dropped and other
      windows restarted on the way; only firstWrite may differ. */
  lemma OrderIndependent(window: int, g: int, log: seq<Entry>, log': seq<Entry>)
    requires Config(window, g) && Aligned(window, g) && multiset(log) == multiset(log')
    ensures var r, r' := Replay(window, g, log), Replay(window, g, log');
            r.buckets == r'.buckets && r.windowTotal == r'.windowTotal && r.lastWrite == r'.lastWrite
  {
    var n := CeilDiv(window, g);
    var hits, hits' := Hits(log, g), Hits(log', g);
    ReplaySimulates(window, g, log);
    ReplaySimulates(window, g, log');
    SlotReplayTracks(n, hits);
    SlotReplayTracks(n, hits');
    HitsPermuted(log, log', g);
    SameHitsSameRing(SlotReplay(n, hits), SlotReplay(n, hits'), hits, hits');
  }
}
