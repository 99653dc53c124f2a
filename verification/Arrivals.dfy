/** The rate an interceptor reports, end to end: over every run of the counting middleware each ring
    is the replay of the requests counted since it was installed, so that the scaler's decision can be
    stated in terms of arrivals. */
module Arrivals {
  import opened Arith
  import opened Keys
  import opened TableMemory
  import opened Buckets
  import opened BucketLog
  import opened BucketAverage
  import opened QueueMemory
  import C = Counting
  import F = FanIn
  import Scaler
  import opened Activity

  /** Whether the step puts a new ring under h. */
  predicate Installs(s: C.System, step: C.Step, h: string) {
    match step
    case Register(k, _, _) => k == h && h !in s.counters.rps
    case Replace(k, w, g) => k == h && h in s.counters.rps && (s.counters.rps[h].window != w ||
        s.counters.rps[h].granularity != g)
    case _ => false
  }

  /** The requests for h counted since its ring was installed, the given ones before the run. */
  function Since(s: C.System, steps: seq<C.Step>, h: string, log: seq<Entry>): seq<Entry>
    requires C.IsRun(s, steps)
    decreases |steps|
  {
    if steps == [] then log else Since(C.Do(s, steps[0]), steps[1..], h, Logged(s, steps[0], h, log))
  }

  function Logged(s: C.System, step: C.Step, h: string, log: seq<Entry>): seq<Entry>
    requires C.Enabled(s, step)
  {
    if Installs(s, step, h) || step == C.Remove(h) then []
    else if step.Inc? && s.reqs[step.i].host == h then log + [Entry(step.now, 1)]
    else log
  }

  ghost predicate RingIsReplay(c: Counters, h: string, log: seq<Entry>) {
    && (forall e | e in log :: e.value == 1)
    && if h !in c.rps then log == []
       else
         var r := c.rps[h];
         Config(r.window, r.granularity) && r == Replay(r.window, r.granularity, log)
  }

  lemma ReplayOneMore(window: int, g: int, log: seq<Entry>, e: Entry)
    requires Config(window, g)
    ensures Replay(window, g, log + [e]) == Recorded(Replay(window, g, log), e.time, e.value)
  {
    assert (log + [e])[..|log|] == log;
  }

  /** A counted request is one more record. */
  lemma {:induction false} RequestLogs(s: C.System, step: C.Step, h: string, log: seq<Entry>)
    requires C.Enabled(s, step) && RingIsReplay(s.counters, h, log) && step.Inc?
    ensures RingIsReplay(C.Do(s, step).counters, h, Logged(s, step, h, log))
  {
    if s.reqs[step.i].host == h {
      var r := s.counters.rps[h];
      ReplayOneMore(r.window, r.granularity, log, Entry(step.now, 1));
    }
  }

  /** Any other step keeps the ring, or installs an empty one, or removes it. */
  lemma {:induction false} KeyStepLogs(s: C.System, step: C.Step, h: string, log: seq<Entry>)
    requires C.Enabled(s, step) && RingIsReplay(s.counters, h, log) && !step.Inc?
    ensures RingIsReplay(C.Do(s, step).counters, h, Logged(s, step, h, log))
  {
    var rps, rps' := s.counters.rps, C.Do(s, step).counters.rps;
    if !Installs(s, step, h) && step != C.Remove(h) {
      assert (h in rps <==> h in rps') && (h in rps ==> rps'[h] == rps[h]);
    }
  }

  lemma StepLogs(s: C.System, step: C.Step, h: string, log: seq<Entry>)
    requires C.Enabled(s, step) && RingIsReplay(s.counters, h, log)
    ensures RingIsReplay(C.Do(s, step).counters, h, Logged(s, step, h, log))
  {
    if step.Inc? {
      RequestLogs(s, step, h, log);
    } else {
      KeyStepLogs(s, step, h, log);
    }
  }

  lemma {:induction false} RunLogs(s: C.System, steps: seq<C.Step>, h: string, log: seq<Entry>)
    requires C.IsRun(s, steps) && RingIsReplay(s.counters, h, log)
    ensures RingIsReplay(C.Outcome(s, steps).counters, h, Since(s, steps, h, log))
    decreases |steps|
  {
    if steps != [] {
      StepLogs(s, steps[0], h, log);
      RunLogs(C.Do(s, steps[0]), steps[1..], h, Logged(s, steps[0], h, log));
    }
  }

  /** A run of the counting middleware from its start. */
  type Run = steps: seq<C.Step> | C.IsRun(C.START, steps)

  /** The state an interceptor has reached. */
  function Reached(run: Run): C.System {
    C.Outcome(C.START, run)
  }

  /** What it has counted for h. */
  function Arrived(run: Run, h: string): seq<Entry> {
    Since(C.START, run, h, [])
  }

  /** If h is registered, then with this window and granularity. */
  predicate Configured(c: Counters, h: string, window: int, g: int) {
    h in c.rps ==> c.rps[h].window == window && c.rps[h].granularity == g
  }

  /** In every run, asking an interceptor does not fail, and it reports for h the requests in flight,
      unless h was removed under them, and the average of its arrivals. */
  lemma ReportsArrivals(run: Run, h: string, window: int, g: int, clock: string -> nat)
    requires Config(window, g) && Configured(Reached(run).counters, h, window, g)
    ensures var s := Reached(run);
            && WellFormedCounters(s.counters) && s.counters.concurrency.Keys <= s.counters.rps.Keys
            && NonNegative(Arrived(run, h))
            && var count := F.CountAt(CountsOf(s.counters, clock), h);
               && 0 <= count.concurrency <= C.InFlight(s.reqs, h)
               && (C.NeverTorn(C.START, run, h) ==> count.concurrency == C.InFlight(s.reqs, h))
               && count.rps == WindowAverage(Replay(window, g, Arrived(run, h)), clock(h))
  {
    C.RunKeepsInv(C.START, run);
    RunLogs(C.START, run, h, []);
    C.CountsConserved(run, h);
  }

  /** An interceptor of a fleet: its run so far and what its clock shows for each key when it is asked. */
  datatype Node = Node(run: Run, clock: string -> nat)

  /** What the node answers, if h is configured as given. */
  ghost predicate Answers(node: Node, answer: Option<F.Counts>, h: string, window: int, g: int) {
    var c := Reached(node.run).counters;
    && Configured(c, h, window, g)
    && WellFormedCounters(c) && c.concurrency.Keys <= c.rps.Keys
    && answer == Some(CountsOf(c, node.clock))
  }

  ghost predicate AllAnswer(nodes: seq<Node>, a: F.Answers, h: string, window: int, g: int) {
    |a| == |nodes| && forall j | 0 <= j < |a| :: Answers(nodes[j], a[j], h, window, g)
  }

  /** A request for h that the node counted is still in the window when it is asked. */
  predicate InWindow(node: Node, h: string, g: int, n: nat)
    requires g > 0
  {
    LiveSum(Arrived(node.run, h), g, n, node.clock(h)) > 0
  }

  lemma FleetReports(nodes: seq<Node>, a: F.Answers, h: string, window: int, g: int) returns (fleet: seq<Interceptor>)
    requires Config(window, g) && AllAnswer(nodes, a, h, window, g)
    ensures AllReport(a, h, window, g, fleet)
    ensures forall j | 0 <= j < |a| :: fleet[j] == Interceptor(Arrived(nodes[j].run, h), nodes[j].clock(h))
  {
    fleet := seq(|a|, j requires 0 <= j < |a| => Interceptor(Arrived(nodes[j].run, h), nodes[j].clock(h)));
    forall j | 0 <= j < |a|
      ensures ReportsRate(a[j], h, window, g, fleet[j]) && NonNegative(fleet[j].log)
    {
      assert Answers(nodes[j], a[j], h, window, g);
      ReportsArrivals(nodes[j].run, h, window, g, nodes[j].clock);
    }
  }

  /** From the requests to the scaling decision: for every fleet of interceptors, each after a run of
      its own, a rate-scaled object with at most 1000 slots is called active exactly when one of them
      counted a request for it that is still in the window. */
  lemma ActiveIffArrival(o: HTTPSO, nodes: seq<Node>, a: F.Answers, h: string, window: int, g: int)
    requires o.rate.Some? && Config(window, g) && Aligned(window, g) && 0 < CeilDiv(window, g) <= 1000
    requires AllAnswer(nodes, a, h, window, g)
    ensures Active(o, F.CountAt(Scaler.MergeAll(a, |a|), h)) <==>
            exists j | 0 <= j < |nodes| :: InWindow(nodes[j], h, g, CeilDiv(window, g))
  {
    var fleet := FleetReports(nodes, a, h, window, g);
    SmallWindowActivity(o, a, h, window, g, fleet);
    if j :| 0 <= j < |nodes| && InWindow(nodes[j], h, g, CeilDiv(window, g)) {
      assert LiveSum(fleet[j].log, g, CeilDiv(window, g), fleet[j].now) > 0;
    }
    if j :| 0 <= j < |fleet| && LiveSum(fleet[j].log, g, CeilDiv(window, g), fleet[j].now) > 0 {
      assert InWindow(nodes[j], h, g, CeilDiv(window, g));
    }
  }

  // ---- Concurrency, the default metric

  /** What a node answers, however its keys are configured. */
  ghost predicate AnswersAny(node: Node, answer: Option<F.Counts>) {
    var c := Reached(node.run).counters;
    WellFormedCounters(c) && c.concurrency.Keys <= c.rps.Keys && answer == Some(CountsOf(c, node.clock))
  }

  function InFlightAt(node: Node, h: string): nat {
    C.InFlight(Reached(node.run).reqs, h)
  }

  /** What an answer says is pending for the key. */
  function PendingIn(answer: Option<F.Counts>, h: string): int {
    F.CountAt(F.CountsIn(answer), h).concurrency
  }

  lemma PendingReported(node: Node, answer: Option<F.Counts>, h: string)
    requires AnswersAny(node, answer)
    ensures 0 <= PendingIn(answer, h) <= InFlightAt(node, h)
    ensures C.NeverTorn(C.START, node.run, h) ==> PendingIn(answer, h) == InFlightAt(node, h)
  {
    C.CountsConserved(node.run, h);
  }

  /** The sum of the pending counts is positive exactly when one of them is. */
  lemma {:induction false} PendingPositive(a: F.Answers, n: nat, h: string)
    requires n <= |a| && forall j | 0 <= j < n :: PendingIn(a[j], h) >= 0
    ensures F.GrandSum(a, n, h).concurrency >= 0
    ensures F.GrandSum(a, n, h).concurrency > 0 <==> exists j | 0 <= j < n :: PendingIn(a[j], h) > 0
  {
    if n > 0 {
      PendingPositive(a, n - 1, h);
      assert F.GrandSum(a, n, h).concurrency == F.GrandSum(a, n - 1, h).concurrency + PendingIn(a[n - 1], h);
    }
  }

  lemma ActiveIffPending(o: HTTPSO, a: F.Answers, h: string)
    requires o.rate.None? && forall j | 0 <= j < |a| :: PendingIn(a[j], h) >= 0
    ensures Active(o, F.CountAt(Scaler.MergeAll(a, |a|), h)) <==> exists j | 0 <= j < |a| :: PendingIn(a[j], h) > 0
  {
    PendingPositive(a, |a|, h);
    Scaler.MergeAllAt(a, |a|, h);
  }

  /** For every fleet, an object scaled on concurrency is called active only if some interceptor has a
      request for it in flight, and exactly then if its key was torn in no run. */
  lemma ActiveIffInFlight(o: HTTPSO, nodes: seq<Node>, a: F.Answers, h: string)
    requires o.rate.None? && |a| == |nodes| && forall j | 0 <= j < |a| :: AnswersAny(nodes[j], a[j])
    ensures var active := Active(o, F.CountAt(Scaler.MergeAll(a, |a|), h));
            var inFlight := exists j | 0 <= j < |nodes| :: InFlightAt(nodes[j], h) > 0;
            && (active ==> inFlight)
            && ((forall node | node in nodes :: C.NeverTorn(C.START, node.run, h)) ==> (active <==> inFlight))
  {
    forall j | 0 <= j < |a|
      ensures 0 <= PendingIn(a[j], h) <= InFlightAt(nodes[j], h)
      ensures C.NeverTorn(C.START, nodes[j].run, h) ==> PendingIn(a[j], h) == InFlightAt(nodes[j], h)
    {
      PendingReported(nodes[j], a[j], h);
    }
    ActiveIffPending(o, a, h);
  }

  /** What the scaler makes of a lone interceptor after the first k steps of its run. */
  ghost predicate TellsAfter(o: HTTPSO, run: Run, k: nat, h: string, clock: string -> nat)
    requires k <= |run|
  {
    C.PrefixIsRun(C.START, run, k);
    C.RunKeepsInv(C.START, run[..k]);
    var s := Reached(run[..k]);
    var a: F.Answers := [Some(CountsOf(s.counters, clock))];
    Active(o, F.CountAt(Scaler.MergeAll(a, |a|), h)) <==> C.InFlight(s.reqs, h) > 0
  }

  lemma LoneAnswer(o: HTTPSO, c: Counters, h: string, clock: string -> nat, a: F.Answers)
    requires WellFormedCounters(c) && c.concurrency.Keys <= c.rps.Keys && o.rate.None? && Pending(c, h) >= 0
    requires |a| == 1 && a[0] == Some(CountsOf(c, clock))
    ensures Active(o, F.CountAt(Scaler.MergeAll(a, |a|), h)) <==> Pending(c, h) > 0
  {
    assert PendingIn(a[0], h) == Pending(c, h);
    ActiveIffPending(o, a, h);
  }

  lemma TellsAfterMeans(o: HTTPSO, run: Run, k: nat, h: string, clock: string -> nat)
    requires k <= |run| && o.rate.None?
    ensures C.IsRun(C.START, run[..k])
    ensures TellsAfter(o, run, k, h, clock) <==> C.TellsInFlight(Reached(run[..k]), h)
  {
    C.PrefixIsRun(C.START, run, k);
    C.RunKeepsInv(C.START, run[..k]);
    C.CountsConserved(run[..k], h);
    var c := Reached(run[..k]).counters;
    LoneAnswer(o, c, h, clock, [Some(CountsOf(c, clock))]);
  }

  /** For an object scaled on concurrency and a lone interceptor: all along a run it is called active
      exactly when a request is in flight, if and only if its key is never removed under requests. */
  lemma ActiveInFlightExactly(o: HTTPSO, run: Run, h: string, clock: string -> nat)
    requires o.rate.None?
    ensures (forall k: nat | k <= |run| :: TellsAfter(o, run, k, h, clock)) <==> C.NeverTorn(C.START, run, h)
  {
    C.TellsExactly(C.START, run, h);
    if C.NeverTorn(C.START, run, h) {
      forall k: nat | k <= |run|
        ensures TellsAfter(o, run, k, h, clock)
      {
        C.TellsAt(C.START, run, h, k);
        TellsAfterMeans(o, run, k, h, clock);
      }
    } else {
      var k := C.TellsNotAt(C.START, run, h);
      TellsAfterMeans(o, run, k, h, clock);
    }
  }

  // ---- The value of the metric

  /** All requests for the key in flight at the first n interceptors. */
  function InFlightTotal(nodes: seq<Node>, n: nat, h: string): nat
    requires n <= |nodes|
  {
    if n == 0 then 0 else InFlightTotal(nodes, n - 1, h) + InFlightAt(nodes[n - 1], h)
  }

  /** The average of the arrivals at one interceptor. */
  function AverageAt(node: Node, h: string, window: int, g: int): real
    requires Config(window, g)
  {
    WindowAverage(Replay(window, g, Arrived(node.run, h)), node.clock(h))
  }

  /** The averages of the arrivals at the first n interceptors, added up. */
  function AverageTotal(nodes: seq<Node>, n: nat, h: string, window: int, g: int): real
    requires n <= |nodes| && Config(window, g)
  {
    if n == 0 then 0.0 else AverageTotal(nodes, n - 1, h, window, g) + AverageAt(nodes[n - 1], h, window, g)
  }

  lemma {:induction false} PendingAddsUp(nodes: seq<Node>, a: F.Answers, n: nat, h: string)
    requires n <= |a| == |nodes| && forall j | 0 <= j < |a| :: AnswersAny(nodes[j], a[j])
    ensures 0 <= F.PendingTotal(a, n, h) <= InFlightTotal(nodes, n, h)
    ensures (forall j | 0 <= j < n :: C.NeverTorn(C.START, nodes[j].run, h)) ==>
              F.PendingTotal(a, n, h) == InFlightTotal(nodes, n, h)
  {
    if n > 0 {
      PendingAddsUp(nodes, a, n - 1, h);
      PendingReported(nodes[n - 1], a[n - 1], h);
      F.CountAtIs(F.CountsIn(a[n - 1]), h);
    }
  }

  /** For every fleet, the metric of an object scaled on concurrency is at most the number of its requests in
      flight at all interceptors, and exactly that if its key was torn in no run. */
  lemma MetricIsInFlight(o: HTTPSO, nodes: seq<Node>, a: F.Answers, h: string)
    requires o.rate.None? && |a| == |nodes| && forall j | 0 <= j < |a| :: AnswersAny(nodes[j], a[j])
    ensures var value := MetricValue(o, F.CountAt(Scaler.MergeAll(a, |a|), h));
            && 0 <= value <= InFlightTotal(nodes, |nodes|, h)
            && ((forall node | node in nodes :: C.NeverTorn(C.START, node.run, h)) ==>
                  value == InFlightTotal(nodes, |nodes|, h))
  {
    PendingAddsUp(nodes, a, |a|, h);
    Scaler.MergeAllAt(a, |a|, h);
    F.GrandSumIs(a, |a|, h);
  }

  lemma RateReported(node: Node, answer: Option<F.Counts>, h: string, window: int, g: int)
    requires Config(window, g) && Answers(node, answer, h, window, g)
    ensures F.RateFor(F.CountsIn(answer), h) == AverageAt(node, h, window, g)
  {
    ReportsArrivals(node.run, h, window, g, node.clock);
    F.CountAtIs(F.CountsIn(answer), h);
  }

  lemma {:induction false} RatesAddUp(nodes: seq<Node>, a: F.Answers, n: nat, h: string, window: int, g: int)
    requires Config(window, g) && n <= |a| == |nodes|
    requires forall j | 0 <= j < n :: F.RateFor(F.CountsIn(a[j]), h) == AverageAt(nodes[j], h, window, g)
    ensures F.RateTotal(a, n, h) == AverageTotal(nodes, n, h, window, g)
  {
    if n > 0 {
      RatesAddUp(nodes, a, n - 1, h, window, g);
    }
  }

  /** For every fleet, the metric of a rate-scaled object is the sum of the averages of its arrivals at all
      interceptors, rounded up. */
  lemma MetricIsRate(o: HTTPSO, nodes: seq<Node>, a: F.Answers, h: string, window: int, g: int)
    requires o.rate.Some? && Config(window, g) && AllAnswer(nodes, a, h, window, g)
    ensures var value := MetricValue(o, F.CountAt(Scaler.MergeAll(a, |a|), h));
            value as real - 1.0 < AverageTotal(nodes, |nodes|, h, window, g) <= value as real
  {
    forall j | 0 <= j < |a|
      ensures F.RateFor(F.CountsIn(a[j]), h) == AverageAt(nodes[j], h, window, g)
    {
      RateReported(nodes[j], a[j], h, window, g);
    }
    RatesAddUp(nodes, a, |a|, h, window, g);
    Scaler.MergeAllAt(a, |a|, h);
    F.GrandSumIs(a, |a|, h);
  }
}
