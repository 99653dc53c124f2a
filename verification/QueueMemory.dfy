/** The in-memory counter (pkg/queue/queue.go): a pending-request count and a ring of buckets per
    key. `Counters` is its value; the functions on it specify the methods of the class. */
module QueueMemory {
  import opened Arith
  import opened Buckets

  datatype Counters = Counters(concurrency: map<string, int>, rps: map<string, Ring>)

  const NO_COUNTERS: Counters := Counters(map[], map[])

  predicate WellFormedCounters(c: Counters) {
    forall h | h in c.rps :: WellFormed(c.rps[h])
  }

  /** Both maps know the same keys. */
  predicate SameKeys(c: Counters) {
    c.concurrency.Keys == c.rps.Keys
  }

  function Pending(c: Counters, host: string): int {
    if host in c.concurrency then c.concurrency[host] else 0
  }

  function Increased(c: Counters, host: string, delta: int, now: int): Counters
    requires host in c.rps && WellFormed(c.rps[host]) && Recordable(now, c.rps[host].granularity)
  {
    Counters(c.concurrency[host := Pending(c, host) + delta], c.rps[host := Recorded(c.rps[host], now, delta)])
  }

  lemma SameIncrease(c: Counters, c': Counters, host: string, delta: int, now: int)
    requires host in c.rps && WellFormed(c.rps[host]) && Recordable(now, c.rps[host].granularity)
    requires c'.concurrency == c.concurrency[host := Pending(c, host) + delta]
    requires c'.rps == c.rps[host := Recorded(c.rps[host], now, delta)]
    ensures c' == Increased(c, host, delta, now)
  {
  }

  function Decreased(c: Counters, host: string, delta: int): Counters {
    if host in c.concurrency then c.(concurrency := c.concurrency[host := Max(0, c.concurrency[host] - delta)]) else c
  }

  function EnsuredKey(c: Counters, host: string, window: int, g: int): Counters
    requires Config(window, g)
  {
    Counters(if host in c.concurrency then c.concurrency else c.concurrency[host := 0],
             if host in c.rps then c.rps else c.rps[host := Empty(window, g)])
  }

  /** The second critical section of UpdateBuckets: a ring of another shape is replaced. */
  function ReplacedBuckets(c: Counters, host: string, window: int, g: int): Counters
    requires Config(window, g)
  {
    if host in c.rps && (c.rps[host].window != window || c.rps[host].granularity != g)
    then c.(rps := c.rps[host := Empty(window, g)]) else c
  }

  function RemovedKey(c: Counters, host: string): Counters {
    Counters(c.concurrency - {host}, c.rps - {host})
  }

  datatype Count = Count(concurrency: int, rps: real)
  datatype Result<+T> = Ok(value: T) | Err(error: string)

  /** What Current reports when it reports anything; it reads the clock once per key. */
  function CountsOf(c: Counters, clock: string -> nat): map<string, Count>
    requires WellFormedCounters(c) && c.concurrency.Keys <= c.rps.Keys
  {
    map h | h in c.concurrency :: Count(c.concurrency[h], WindowAverage(c.rps[h], clock(h)))
  }

  class Memory {
    var concurrentMap: map<string, int>
    var rpsMap: map<string, RequestsBuckets>
    /** The values of the rings. */
    ghost var rings: map<string, Ring>

    ghost function Repr(): set<object>
      reads this`rpsMap
    {
      (set h | h in rpsMap :: rpsMap[h] as object) + (set h | h in rpsMap :: rpsMap[h].buckets as object)
    }

    /** No two rings share memory, and each has its recorded value. */
    ghost predicate Valid()
      reads this`rpsMap, this`rings, Repr()
    {
      && rings.Keys == rpsMap.Keys
      && (forall h | h in rpsMap :: rpsMap[h] as object != this && rpsMap[h].buckets as object != this)
      && (forall h | h in rpsMap :: rpsMap[h].Contents() == rings[h] && WellFormed(rings[h]))
      && forall h, k | h in rpsMap && k in rpsMap && h != k ::
           rpsMap[h] != rpsMap[k] && rpsMap[h].buckets != rpsMap[k].buckets
    }

    ghost function State(): Counters
      reads this
    {
      Counters(concurrentMap, rings)
    }

    constructor ()
      ensures Valid() && State() == NO_COUNTERS
    {
      concurrentMap, rpsMap, rings := map[], map[], map[];
    }

    /** Changing one ring leaves the others. */
    twostate lemma OthersKept(host: string)
      requires old(Valid()) && host in rpsMap && unchanged(this`rpsMap, this`rings)
      requires forall h | h in rpsMap && h != host :: unchanged(rpsMap[h], rpsMap[h].buckets)
      ensures forall h | h in rpsMap && h != host :: rpsMap[h].Contents() == rings[h]
    {
    }

    /** Records a value in the ring of a key. */
    method RecordAt(host: string, value: int, now: int)
      requires Valid() && host in rpsMap && Recordable(now, rings[host].granularity)
      modifies this, rpsMap[host], rpsMap[host].buckets
      ensures Valid() && concurrentMap == old(concurrentMap)
      ensures rings == old(rings)[host := Recorded(old(rings)[host], now, value)]
    {
      var b := rpsMap[host];
      b.Record(now, value);
      OthersKept(host);
      rings := rings[host := b.Contents()];
    }

    method Increase(host: string, delta: int, now: int)
      requires Valid() && host in rpsMap && Recordable(now, rings[host].granularity)
      modifies this, rpsMap[host], rpsMap[host].buckets
      ensures Valid()
      ensures State() == Increased(old(State()), host, delta, now)
    {
      var current := if host in concurrentMap then concurrentMap[host] else 0;
      concurrentMap := concurrentMap[host := current + delta];
      RecordAt(host, delta, now);
      SameIncrease(old(State()), State(), host, delta, now);
    }

    method Decrease(host: string, delta: int)
      requires Valid()
      modifies this`concurrentMap
      ensures Valid()
      ensures State() == Decreased(old(State()), host, delta)
    {
      if host !in concurrentMap {
        return;
      }
      var newVal := concurrentMap[host] - delta;
      if newVal < 0 {
        newVal := 0;
      }
      concurrentMap := concurrentMap[host := newVal];
    }

    /** Puts a new empty ring under a key. */
    method InstallBuckets(host: string, window: int, granularity: int)
      requires Valid() && Config(window, granularity)
      modifies this`rpsMap, this`rings
      ensures Valid()
      ensures rings == old(rings)[host := Empty(window, granularity)]
    {
      var b := new RequestsBuckets(window, granularity);
      rpsMap := rpsMap[host := b];
      rings := rings[host := Empty(window, granularity)];
    }

    method EnsureKey(host: string, window: int, granularity: int)
      requires Valid() && Config(window, granularity)
      modifies this
      ensures Valid()
      ensures State() == EnsuredKey(old(State()), host, window, granularity)
    {
      if host !in concurrentMap {
        concurrentMap := concurrentMap[host := 0];
      }
      if host !in rpsMap {
        InstallBuckets(host, window, granularity);
      }
    }

    method ReplaceBuckets(host: string, window: int, granularity: int)
      requires Valid() && Config(window, granularity)
      modifies this
      ensures Valid()
      ensures State() == ReplacedBuckets(old(State()), host, window, granularity)
    {
      if host in rpsMap && (rpsMap[host].window != window || rpsMap[host].granularity != granularity) {
        InstallBuckets(host, window, granularity);
      }
    }

    /** Two critical sections one after the other; other operations may come in between. */
    method UpdateBuckets(host: string, window: int, granularity: int)
      requires Valid() && Config(window, granularity)
      modifies this
      ensures Valid()
      ensures State() == ReplacedBuckets(EnsuredKey(old(State()), host, window, granularity), host, window, granularity)
    {
      EnsureKey(host, window, granularity);
      ReplaceBuckets(host, window, granularity);
    }

    method RemoveKey(host: string) returns (existed: bool)
      requires Valid()
      modifies this
      ensures Valid()
      ensures State() == RemovedKey(old(State()), host)
      ensures existed <==> old(host in concurrentMap && host in rpsMap)
    {
      existed := host in concurrentMap && host in rpsMap;
      concurrentMap := concurrentMap - {host};
      rpsMap := rpsMap - {host};
      rings := rings - {host};
    }

    /** Fails exactly when some pending count has no ring. */
    method Current(clock: string -> nat) returns (r: Result<map<string, Count>>)
      requires Valid()
      ensures WellFormedCounters(State())
      ensures r.Ok? <==> State().concurrency.Keys <= State().rps.Keys
      ensures r.Ok? ==> r.value == CountsOf(State(), clock)
    {
      var counts: map<string, Count> := map[];
      var rest := concurrentMap.Keys;
      while rest != {}
        invariant rest <= concurrentMap.Keys && counts.Keys == concurrentMap.Keys - rest
        invariant forall h | h in counts ::
            h in rings && counts[h] == Count(concurrentMap[h], WindowAverage(rings[h], clock(h)))
        decreases rest
      {
        var key :| key in rest;
        if key !in rpsMap {
          return Err("rps map doesn't contain the key '" + key + "'");
        }
        var average := rpsMap[key].ReadWindowAverage(clock(key));
        counts := counts[key := Count(concurrentMap[key], average)];
        rest := rest - {key};
      }
      r := Ok(counts);
    }
  }

  /** Counting a request changes no key of either map. */
  lemma RequestsKeepKeys(c: Counters, host: string, delta: int, now: int)
    requires WellFormedCounters(c) && SameKeys(c) && host in c.rps && Recordable(now, c.rps[host].granularity)
    ensures var i := Increased(c, host, delta, now); WellFormedCounters(i) && SameKeys(i) && i.rps.Keys == c.rps.Keys
    ensures var d := Decreased(c, host, delta); WellFormedCounters(d) && SameKeys(d) && d.rps.Keys == c.rps.Keys
  {
  }

  /** Registering a key adds it to both maps alike. */
  lemma RegistrationKeepsKeys(c: Counters, host: string, window: int, g: int)
    requires WellFormedCounters(c) && SameKeys(c) && Config(window, g)
    ensures var e := EnsuredKey(c, host, window, g);
            WellFormedCounters(e) && SameKeys(e) && e.rps.Keys == c.rps.Keys + {host}
    ensures var p := ReplacedBuckets(c, host, window, g);
            WellFormedCounters(p) && SameKeys(p) && p.rps.Keys == c.rps.Keys
  {
  }

  lemma RemovalKeepsKeys(c: Counters, host: string)
    requires WellFormedCounters(c) && SameKeys(c)
    ensures var r := RemovedKey(c, host); WellFormedCounters(r) && SameKeys(r) && r.rps.Keys == c.rps.Keys - {host}
  {
  }
}
