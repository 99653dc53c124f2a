/** The scaler: the result of a fetch and how it is saved (scaler/queue_pinger.go), and the metric for
    scaling the interceptors themselves (scaler/handlers.go). */
module Scaler {
  import opened Keys
  import opened QueueMemory
  import opened FanIn

  // ---- The result of a fetch

  /** The answers of the first n endpoints merged. */
  function MergeAll(a: Answers, n: nat): Counts
    requires n <= |a|
  {
    if n == 0 then map[] else Merge(MergeAll(a, n - 1), CountsIn(a[n - 1]))
  }

  lemma {:induction false} MergeAllAt(a: Answers, n: nat, host: string)
    requires n <= |a|
    ensures CountAt(MergeAll(a, n), host) == GrandSum(a, n, host)
  {
    if n > 0 {
      MergeAllAt(a, n - 1, host);
      MergeSum(MergeAll(a, n - 1), CountsIn(a[n - 1]), host, GrandSum(a, n - 1, host));
    }
  }

  lemma MergeSum(x: Counts, y: Counts, host: string, sum: Count)
    requires CountAt(x, host) == sum
    ensures CountAt(Merge(x, y), host) == Plus(sum, CountAt(y, host))
  {
  }

  /** One of the first n endpoints reported the host. */
  ghost predicate Mentioned(a: Answers, n: nat, host: string)
    requires n <= |a|
  {
    exists i | 0 <= i < n :: a[i].Some? && host in a[i].value
  }

  lemma MentionedNext(a: Answers, n: nat, host: string)
    requires n < |a|
    ensures Mentioned(a, n + 1, host) <==> Mentioned(a, n, host) || host in CountsIn(a[n])
  {
  }

  lemma MergeKeys(x: Counts, y: Counts)
    ensures Merge(x, y).Keys == x.Keys + y.Keys
  {
  }

  lemma {:induction false} MergeAllHosts(a: Answers, n: nat, host: string)
    requires n <= |a|
    ensures host in MergeAll(a, n).Keys <==> Mentioned(a, n, host)
  {
    if n > 0 {
      MergeAllHosts(a, n - 1, host);
      MergeKeys(MergeAll(a, n - 1), CountsIn(a[n - 1]));
      MentionedNext(a, n - 1, host);
    }
  }

  /** r is what fetchCounts can return for the listed endpoints: an error if there are none, else
      the outcome of some schedule of the fan-in. */
  ghost predicate IsFetchResult(endpoints: Result<seq<string>>, a: Answers, r: Result<Counts>) {
    if endpoints.Err? || endpoints.value == [] then r.Err?
    else
      && |a| == |endpoints.value|
      && exists steps | IsRun(a, Start(|a|), steps) ::
           var s := Outcome(a, Start(|a|), steps);
           || (s.main == Succeeded && r == Ok(s.totals))
           || (s.main == Errored && r.Err?)
  }

  /** Whatever the schedule, the fetch fails exactly when the endpoints could not be listed, there
      are none, or one of them fails, and otherwise returns all answers merged. */
  lemma FetchIsDeterminate(endpoints: Result<seq<string>>, a: Answers, r: Result<Counts>)
    requires IsFetchResult(endpoints, a, r)
    ensures r.Ok? <==> endpoints.Ok? && endpoints.value != [] && None !in a
    ensures r.Ok? ==> r.value == MergeAll(a, |a|)
    ensures r.Ok? ==> forall host ::
              && (host in r.value <==> Mentioned(a, |a|, host))
              && PendingFor(r.value, host) == PendingTotal(a, |a|, host)
              && RateFor(r.value, host) == RateTotal(a, |a|, host)
  {
    if endpoints.Ok? && endpoints.value != [] {
      var steps :| IsRun(a, Start(|a|), steps) &&
        var s := Outcome(a, Start(|a|), steps);
        (s.main == Succeeded && r == Ok(s.totals)) || (s.main == Errored && r.Err?);
      var s := Outcome(a, Start(|a|), steps);
      ResultIsExact(a, steps, "");
      if s.main == Succeeded {
        forall host
          ensures (host in s.totals <==> host in MergeAll(a, |a|)) &&
                    CountAt(s.totals, host) == CountAt(MergeAll(a, |a|), host)
        {
          ResultIsExact(a, steps, host);
          MergeAllAt(a, |a|, host);
          MergeAllHosts(a, |a|, host);
        }
        SameCounts(s.totals, MergeAll(a, |a|));
        FetchedTotals(a);
      }
    }
  }

  lemma FetchedTotals(a: Answers)
    ensures forall host ::
              && (host in MergeAll(a, |a|) <==> Mentioned(a, |a|, host))
              && PendingFor(MergeAll(a, |a|), host) == PendingTotal(a, |a|, host)
              && RateFor(MergeAll(a, |a|), host) == RateTotal(a, |a|, host)
  {
    forall host
      ensures host in MergeAll(a, |a|) <==> Mentioned(a, |a|, host)
      ensures PendingFor(MergeAll(a, |a|), host) == PendingTotal(a, |a|, host)
      ensures RateFor(MergeAll(a, |a|), host) == RateTotal(a, |a|, host)
    {
      MergeAllAt(a, |a|, host);
      MergeAllHosts(a, |a|, host);
      GrandSumIs(a, |a|, host);
      CountAtIs(MergeAll(a, |a|), host);
    }
  }

  lemma SameCounts(x: Counts, y: Counts)
    requires forall h :: (h in x <==> h in y) && CountAt(x, h) == CountAt(y, h)
    ensures x == y
  {
    assert forall h | h in x :: x[h] == CountAt(x, h) == CountAt(y, h) == y[h];
  }

  // ---- Saving it

  datatype PingerStatus = UNKNOWN | ACTIVE | ERROR

  /** The counts of the latest successful fetch. */
  function LastGood(results: seq<Result<Counts>>): Counts {
    if results == [] then map[]
    else if results[|results| - 1].Ok? then results[|results| - 1].value
    else LastGood(results[..|results| - 1])
  }

  class QueuePinger {
    var allCounts: Counts
    var status: PingerStatus
    var lastPingTime: int

    constructor ()
      ensures allCounts == map[] && status == UNKNOWN
    {
      allCounts, status, lastPingTime := map[], UNKNOWN, 0;
    }

    /** A failed fetch changes the status only. */
    method FetchAndSaveCounts(fetched: Result<Counts>, now: int)
      modifies this
      ensures fetched.Ok? ==> allCounts == fetched.value && status == ACTIVE && lastPingTime == now
      ensures fetched.Err? ==> status == ERROR && allCounts == old(allCounts) && lastPingTime == old(lastPingTime)
    {
      if fetched.Err? {
        status := ERROR;
        return;
      }
      status := ACTIVE;
      allCounts := fetched.value;
      lastPingTime := now;
    }

    /** The ping loop over what happens to it: the ticker or an endpoint event triggers a fetch, and
        the end of the context ends the loop. While it runs, the saved counts are those of the latest
        success and the status tells of the latest fetch; cancelled, it keeps the counts and the status
        is an error. */
    method Loop(events: seq<PingEvent>) returns (cancelled: bool)
      requires allCounts == map[]
      modifies this
      ensures cancelled <==> Cancelled in events
      ensures allCounts == LastGood(FetchesOf(events))
      ensures cancelled ==> status == ERROR
      ensures !cancelled && events != [] ==>
                var last := events[|events| - 1]; last.Fetch? && (status == ERROR <==> last.result.Err?)
    {
      cancelled := false;
      for i := 0 to |events|
        invariant !cancelled && Cancelled !in events[..i]
        invariant allCounts == LastGood(FetchesOf(events[..i]))
        invariant i > 0 ==> events[i - 1].Fetch? && (status == ERROR <==> events[i - 1].result.Err?)
      {
        assert events[..i + 1][..i] == events[..i];
        FetchesStep(events, i);
        match events[i] {
          case Cancelled =>
            status := ERROR;
            return true;
          case Fetch(result, now) => FetchAndSaveCounts(result, now);
        }
        assert events[..i + 1] == events[..i] + [events[i]];
      }
      assert events[..|events|] == events;
    }
  }

  /** What the ping loop waits for. */
  datatype PingEvent = Fetch(result: Result<Counts>, now: int) | Cancelled

  /** The fetches up to the cancellation. */
  function FetchesOf(events: seq<PingEvent>): seq<Result<Counts>> {
    if events == [] || events[0].Cancelled? then [] else [events[0].result] + FetchesOf(events[1..])
  }

  lemma {:induction false} FetchesBefore(front: seq<PingEvent>, rest: seq<PingEvent>)
    requires Cancelled !in front
    ensures FetchesOf(front + rest) == FetchesOf(front) + FetchesOf(rest)
  {
    if front == [] {
      assert front + rest == rest;
    } else {
      assert front[0] in front && forall e | e in front[1..] :: e in front;
      FetchesBefore(front[1..], rest);
      assert (front + rest)[1..] == front[1..] + rest;
    }
  }

  lemma FetchesStep(events: seq<PingEvent>, i: nat)
    requires i < |events| && Cancelled !in events[..i]
    ensures events[i].Cancelled? ==> FetchesOf(events) == FetchesOf(events[..i])
    ensures events[i].Fetch? ==>
              var fs := FetchesOf(events[..i]);
              FetchesOf(events[..i + 1]) == fs + [events[i].result] && (fs + [events[i].result])[..|fs|] == fs
  {
    FetchesBefore(events[..i], events[i..]);
    assert events == events[..i] + events[i..];
    FetchesBefore(events[..i], [events[i]]);
    assert events[..i + 1] == events[..i] + [events[i]];
    assert [events[i]][1..] == [];
  }

  // ---- The interceptors' own metric

  /** All pending requests of a count map. */
  ghost function TotalPending(c: Counts): int
    decreases c.Keys
  {
    if c == map[] then 0
    else
      var h :| h in c;
      c[h].concurrency + TotalPending(c - {h})
  }

  /** The total does not depend on the order in which the hosts are visited. */
  lemma {:induction false} TotalWithout(c: Counts, h: string)
    requires h in c
    ensures TotalPending(c) == c[h].concurrency + TotalPending(c - {h})
    decreases c.Keys
  {
    var k :| k in c && TotalPending(c) == c[k].concurrency + TotalPending(c - {k});
    if k != h {
      TotalWithout(c - {k}, h);
      TotalWithout(c - {h}, k);
      assert c - {k} - {h} == c - {h} - {k};
    }
  }

  method InterceptorMetrics(counts: Counts) returns (r: Result<int>)
    ensures r == if TotalPending(counts) < 0 then Err("value out of range") else Ok(TotalPending(counts))
  {
    var count := 0;
    var rest := counts;
    while rest != map[]
      invariant rest.Keys <= counts.Keys && count + TotalPending(rest) == TotalPending(counts)
      decreases rest.Keys
    {
      var h :| h in rest;
      TotalWithout(rest, h);
      count := count + rest[h].concurrency;
      rest := rest - {h};
    }
    if count < 0 {
      return Err("value out of range");
    }
    r := Ok(count);
  }

  lemma MergeWithout(x: Counts, y: Counts, h: string)
    ensures Merge(x, y) - {h} == Merge(x, y - {h}) - {h}
  {
    var m, m' := Merge(x, y), Merge(x, y - {h});
    assert m.Keys - {h} == m'.Keys - {h};
    forall k | k in m && k != h
      ensures k in m' && m[k] == m'[k]
    {
      assert CountAt(y, k) == CountAt(y - {h}, k);
      assert k in m'.Keys;
    }
  }

  lemma PendingOf(c: Counts, h: string)
    ensures TotalPending(c) == CountAt(c, h).concurrency + TotalPending(c - {h})
  {
    if h in c {
      TotalWithout(c, h);
    } else {
      assert c - {h} == c;
    }
  }

  /** One host's counts more, merged into x, add its pending requests. */
  lemma MergeAddsHost(x: Counts, y: Counts, h: string)
    requires h in y
    ensures TotalPending(Merge(x, y)) == TotalPending(Merge(x, y - {h})) + y[h].concurrency
  {
    PendingOf(Merge(x, y), h);
    PendingOf(Merge(x, y - {h}), h);
    MergeWithout(x, y, h);
    MergePendingAt(x, y, h);
    MergePendingAt(x, y - {h}, h);
  }

  lemma MergePendingAt(x: Counts, y: Counts, h: string)
    ensures CountAt(Merge(x, y), h).concurrency == CountAt(x, h).concurrency + CountAt(y, h).concurrency
  {
    if h in x || h in y {
      assert Merge(x, y)[h] == Plus(CountAt(x, h), CountAt(y, h));
    } else {
      assert h !in Merge(x, y);
    }
  }

  /** Merging counts loses and invents no request. */
  lemma {:induction false} MergeConserves(x: Counts, y: Counts)
    ensures TotalPending(Merge(x, y)) == TotalPending(x) + TotalPending(y)
    decreases y.Keys
  {
    if y == map[] {
      MergeNone(x);
    } else {
      var h :| h in y;
      MergeConserves(x, y - {h});
      MergeAddsHost(x, y, h);
      TotalWithout(y, h);
    }
  }

  ghost function PendingSum(a: Answers, n: nat): int
    requires n <= |a|
  {
    if n == 0 then 0 else PendingSum(a, n - 1) + TotalPending(CountsIn(a[n - 1]))
  }

  /** The metric for scaling the interceptors counts every pending request of every interceptor. */
  lemma {:induction false} FetchConserves(a: Answers, n: nat)
    requires n <= |a|
    ensures TotalPending(MergeAll(a, n)) == PendingSum(a, n)
  {
    if n > 0 {
      FetchConserves(a, n - 1);
      MergeConserves(MergeAll(a, n - 1), CountsIn(a[n - 1]));
    }
  }
}
