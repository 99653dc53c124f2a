/** What the average is divided by, in terms of the log alone: the slots since the first call taken after
    the last silence of a whole window. With it the reported average is a function of the log. */
module BucketFirst {
  import opened Arith
  import opened Buckets
  import opened SlotRing
  import opened BucketLog
  import opened BucketAverage

  /** Call k comes at least n slots after every call before it: the counter starts anew. */
  predicate RestartsAt(hits: seq<Hit>, n: nat, k: nat)
    requires k < |hits|
  {
    forall j | 0 <= j < k :: hits[j].slot + n <= hits[k].slot
  }

  /** When call j is made, its slot is not n or more slots behind any call before it: it is taken. */
  predicate TakenAt(hits: seq<Hit>, n: nat, j: nat)
    requires j < |hits|
  {
    forall i | 0 <= i < j :: hits[i].slot < hits[j].slot + n
  }

  predicate LastRestart(hits: seq<Hit>, n: nat, k: nat)
    requires k < |hits|
  {
    RestartsAt(hits, n, k) && forall k' | k < k' < |hits| :: !RestartsAt(hits, n, k')
  }

  /** f is the least slot of the calls taken from call k on. */
  predicate LeastTaken(hits: seq<Hit>, n: nat, k: nat, f: nat) {
    && (exists j | k <= j < |hits| :: TakenAt(hits, n, j) && hits[j].slot == f)
    && forall j | k <= j < |hits| && TakenAt(hits, n, j) :: f <= hits[j].slot
  }

  /** f is the first slot of the current measurement. */
  predicate IsFirstSlot(hits: seq<Hit>, n: nat, f: nat) {
    exists k | 0 <= k < |hits| :: LastRestart(hits, n, k) && LeastTaken(hits, n, k, f)
  }

  /** There is at most one. */
  lemma FirstSlotUnique(hits: seq<Hit>, n: nat, f: nat, f': nat)
    requires IsFirstSlot(hits, n, f) && IsFirstSlot(hits, n, f')
    ensures f == f'
  {
    var k :| 0 <= k < |hits| && LastRestart(hits, n, k) && LeastTaken(hits, n, k, f);
    var k' :| 0 <= k' < |hits| && LastRestart(hits, n, k') && LeastTaken(hits, n, k', f');
    assert RestartsAt(hits, n, k) && RestartsAt(hits, n, k');
    assert k == k';
  }

  // ---- One more call

  lemma PrefixSame(front: seq<Hit>, h: Hit, n: nat, j: nat)
    requires j < |front|
    ensures RestartsAt(front + [h], n, j) <==> RestartsAt(front, n, j)
    ensures TakenAt(front + [h], n, j) <==> TakenAt(front, n, j)
  {
    var hits := front + [h];
    assert forall i | 0 <= i < |front| :: hits[i] == front[i];
  }

  /** Restarting and taking in terms of the latest slot so far. */
  lemma ByLastSlot(front: seq<Hit>, h: Hit, n: nat)
    requires front != []
    ensures RestartsAt(front + [h], n, |front|) <==> LastSlot(front) + n <= h.slot
    ensures TakenAt(front + [h], n, |front|) <==> LastSlot(front) < h.slot + n
  {
    var hits, top := front + [h], LastSlot(front);
    var x :| x in front && x.slot == top;
    var i :| 0 <= i < |front| && front[i] == x;
    assert hits[i].slot == top;
    assert forall j | 0 <= j < |front| :: hits[j] == front[j] && front[j] in front;
  }

  lemma RestartIsFirst(front: seq<Hit>, h: Hit, n: nat)
    requires n > 0 && RestartsAt(front + [h], n, |front|)
    ensures IsFirstSlot(front + [h], n, h.slot)
  {
    var hits := front + [h];
    assert TakenAt(hits, n, |front|) by {
      assert forall i | 0 <= i < |front| :: hits[i].slot + n <= hits[|front|].slot;
    }
    assert LastRestart(hits, n, |front|) && LeastTaken(hits, n, |front|, h.slot);
  }

  lemma LastRestartKept(front: seq<Hit>, h: Hit, n: nat, k: nat)
    requires k < |front| && LastRestart(front, n, k) && !RestartsAt(front + [h], n, |front|)
    ensures LastRestart(front + [h], n, k)
  {
    PrefixSame(front, h, n, k);
    forall k' | k < k' < |front|
      ensures !RestartsAt(front + [h], n, k')
    {
      PrefixSame(front, h, n, k');
    }
  }

  lemma LeastTakenKept(front: seq<Hit>, h: Hit, n: nat, k: nat, f: nat, f': nat)
    requires k < |front| && LeastTaken(front, n, k, f)
    requires f' == if TakenAt(front + [h], n, |front|) then Min(f, h.slot) else f
    ensures LeastTaken(front + [h], n, k, f')
  {
    var hits := front + [h];
    forall j | k <= j < |front|
      ensures TakenAt(hits, n, j) <==> TakenAt(front, n, j)
      ensures hits[j] == front[j]
    {
      PrefixSame(front, h, n, j);
    }
    var j :| k <= j < |front| && TakenAt(front, n, j) && front[j].slot == f;
    var j' := if f' == f then j else |front|;
    assert TakenAt(hits, n, j') && hits[j'].slot == f';
  }

  lemma FirstKept(front: seq<Hit>, h: Hit, n: nat, f: nat, f': nat)
    requires IsFirstSlot(front, n, f) && !RestartsAt(front + [h], n, |front|)
    requires f' == if TakenAt(front + [h], n, |front|) then Min(f, h.slot) else f
    ensures IsFirstSlot(front + [h], n, f')
  {
    var k :| 0 <= k < |front| && LastRestart(front, n, k) && LeastTaken(front, n, k, f);
    LastRestartKept(front, h, n, k);
    LeastTakenKept(front, h, n, k, f, f');
  }

  /** Recording keeps the first slot right. */
  lemma RecordKeepsFirst(r: Slots, front: seq<Hit>, h: Hit)
    requires Tracks(r, front) && (front != [] ==> IsFirstSlot(front, |r.buckets|, r.first))
    ensures IsFirstSlot(front + [h], |r.buckets|, SlotRecorded(r, h.slot, h.value).first)
  {
    var n := |r.buckets|;
    if front == [] {
      RestartIsFirst(front, h, n);
    } else {
      ByLastSlot(front, h, n);
      if h.slot >= r.last + n {
        RestartIsFirst(front, h, n);
      } else {
        FirstKept(front, h, n, r.first, SlotRecorded(r, h.slot, h.value).first);
      }
    }
  }

  lemma ReplayOnce(n: nat, front: seq<Hit>, h: Hit)
    requires n > 0
    ensures SlotReplay(n, front + [h]) == SlotRecorded(SlotReplay(n, front), h.slot, h.value)
  {
    assert (front + [h])[..|front|] == front;
  }

  lemma {:induction false} ReplayKeepsFirst(n: nat, hits: seq<Hit>)
    requires n > 0 && hits != []
    ensures IsFirstSlot(hits, n, SlotReplay(n, hits).first)
  {
    var front, h := hits[..|hits| - 1], hits[|hits| - 1];
    assert hits == front + [h];
    var q := SlotReplay(n, front);
    SlotReplayTracks(n, front);
    ReplayOnce(n, front, h);
    if front != [] {
      ReplayKeepsFirst(n, front);
    }
    RecordKeepsFirst(q, front, h);
  }

  // ---- The counter on time

  /** The ring on slots that the counter simulates, with its first slot. */
  lemma FirstOf(window: int, g: int, log: seq<Entry>, n: nat) returns (q: Slots)
    requires Config(window, g) && Aligned(window, g) && log != [] && n == CeilDiv(window, g) > 0
    ensures Simulates(Replay(window, g, log), q) && q.written && |q.buckets| == n
    ensures q.last == LastSlot(Hits(log, g)) && IsFirstSlot(Hits(log, g), n, q.first)
  {
    var hits := Hits(log, g);
    q := SlotReplay(n, hits);
    ReplaySimulates(window, g, log);
    SlotReplayTracks(n, hits);
    ReplayKeepsFirst(n, hits);
  }

  /** For every history, firstWrite is the start of the first slot. */
  lemma FirstWriteOfLog(window: int, g: int, log: seq<Entry>, n: nat)
    requires Config(window, g) && Aligned(window, g) && log != [] && n == CeilDiv(window, g) > 0
    ensures var r := Replay(window, g, log);
            && r.firstWrite >= 0 && r.firstWrite == Slot(r.firstWrite, g) * g
            && IsFirstSlot(Hits(log, g), n, Slot(r.firstWrite, g))
  {
    var q := FirstOf(window, g, log, n);
    MulMono(0, q.first, g);
    SlotStart(q.first, g);
  }

  /** So the average is divided by the slots from the first to the latest, at most those of a window. */
  lemma DivisorOfLog(window: int, g: int, log: seq<Entry>, n: nat, first: nat)
    requires Config(window, g) && Aligned(window, g) && log != [] && n == CeilDiv(window, g) > 0
    requires IsFirstSlot(Hits(log, g), n, first)
    ensures Denominator(Replay(window, g, log)) == Min(LastSlot(Hits(log, g)) - first + 1, n)
  {
    var q := FirstOf(window, g, log, n);
    FirstSlotUnique(Hits(log, g), n, first, q.first);
    DenominatorBySlot(Replay(window, g, log), q);
  }

  /** The reported average as a function of the log: the live values, over the slots since the first call
      taken after the last silence of a window, rounded down to thousandths. */
  lemma AverageOfLog(window: int, g: int, log: seq<Entry>, n: nat, now: nat, first: nat)
    requires Config(window, g) && Aligned(window, g) && log != [] && n == CeilDiv(window, g) > 0
    requires IsFirstSlot(Hits(log, g), n, first)
    ensures var d := Min(LastSlot(Hits(log, g)) - first + 1, n);
            && d > 0
            && WindowAverage(Replay(window, g, log), now) == (1000 * LiveSum(log, g, n, now) / d) as real / 1000.0
  {
    DivisorOfLog(window, g, log, n, first);
    ReadSeesLog(window, g, log, now);
    var q := SlotReplayOf(window, g, log);
    AverageInThousandths(Replay(window, g, log), q, now);
  }

  /** The last call comes a window or more after all the others. */
  predicate AfterSilence(log: seq<Entry>, g: int, n: nat)
    requires g > 0 && log != []
  {
    forall j | 0 <= j < |log| - 1 :: Slot(log[j].time, g) + n <= Slot(log[|log| - 1].time, g)
  }

  lemma SilentHits(log: seq<Entry>, g: int, n: nat)
    requires g > 0 && n > 0 && log != [] && AfterSilence(log, g, n)
    ensures var hits := Hits(log, g);
            IsFirstSlot(hits, n, hits[|hits| - 1].slot) && LastSlot(hits) == hits[|hits| - 1].slot
  {
    var hits := Hits(log, g);
    var m := |hits| - 1;
    var front, h := hits[..m], hits[m];
    assert hits == front + [h];
    assert forall j | 0 <= j < m :: hits[j].slot + n <= h.slot;
    assert RestartsAt(hits, n, m);
    RestartIsFirst(front, h, n);
    LastSlotAfter(front, h);
    assert forall x | x in front :: x.slot <= h.slot;
  }

  /** After a silence of a window the next call is averaged over its own slot alone. */
  lemma {:induction false} SilenceRestarts(window: int, g: int, log: seq<Entry>, n: nat)
    requires Config(window, g) && Aligned(window, g) && n == CeilDiv(window, g) > 0
    requires log != [] && AfterSilence(log, g, n)
    ensures Denominator(Replay(window, g, log)) == 1
  {
    SilentHits(log, g, n);
    DivisorOfLog(window, g, log, n, LastSlot(Hits(log, g)));
  }
}
