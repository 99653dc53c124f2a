/** The concurrent fetch of all interceptors' counts (scaler/queue_pinger.go, fetchCounts) as a
    state machine: per endpoint a fetcher and a forwarder joined by a private channel, one shared
    channel into the main routine, a wait group and the goroutine that closes the channel. All
    channels are unbuffered, so a send and its receive are one step. */
module FanIn {
  import opened Keys
  import opened QueueMemory

  type Counts = map<string, Count>

  function Plus(a: Count, b: Count): Count {
    Count(a.concurrency + b.concurrency, a.rps + b.rps)
  }

  function CountAt(c: Counts, host: string): Count {
    if host in c then c[host] else Count(0, 0.0)
  }

  /** The per-host sum of two count maps. */
  function Merge(a: Counts, b: Counts): Counts {
    map h | h in a.Keys + b.Keys :: Plus(CountAt(a, h), CountAt(b, h))
  }

  /** What a count map says is pending for a host, and its rate; nothing for a host it does not know. */
  function PendingFor(c: Counts, host: string): int {
    if host in c then c[host].concurrency else 0
  }

  function RateFor(c: Counts, host: string): real {
    if host in c then c[host].rps else 0.0
  }

  /** Merging adds what is pending and adds the rates. */
  lemma MergeAdds(a: Counts, b: Counts, h: string)
    ensures h in Merge(a, b) <==> h in a || h in b
    ensures h in Merge(a, b) ==>
              && Merge(a, b)[h].concurrency == PendingFor(a, h) + PendingFor(b, h)
              && Merge(a, b)[h].rps == RateFor(a, h) + RateFor(b, h)
  {
    if h in a || h in b {
      PlusAdds(CountAt(a, h), CountAt(b, h), Merge(a, b)[h]);
    }
  }

  lemma PlusAdds(x: Count, y: Count, sum: Count)
    requires sum == Plus(x, y)
    ensures sum.concurrency == x.concurrency + y.concurrency && sum.rps == x.rps + y.rps
  {
  }

  /** The loop that adds one endpoint's counts to the totals. */
  method AddCounts(total: Counts, counts: Counts) returns (r: Counts)
    ensures r == Merge(total, counts)
    ensures forall h :: h in r <==> h in total || h in counts
    ensures forall h | h in r ::
              && r[h].concurrency == PendingFor(total, h) + PendingFor(counts, h)
              && r[h].rps == RateFor(total, h) + RateFor(counts, h)
  {
    r := total;
    var rest := counts.Keys;
    while rest != {}
      invariant rest <= counts.Keys && r.Keys == total.Keys + (counts.Keys - rest)
      invariant forall h | h in counts.Keys - rest :: r[h] == Plus(CountAt(total, h), CountAt(counts, h))
      invariant forall h | h in total.Keys - (counts.Keys - rest) :: r[h] == CountAt(total, h)
      decreases rest
    {
      var host :| host in rest;
      var responseCount := CountAt(r, host);
      assert responseCount == CountAt(total, host);
      r := r[host := Plus(responseCount, counts[host])];
      rest := rest - {host};
    }
    forall h | h in r
      ensures r[h] == Plus(CountAt(total, h), CountAt(counts, h))
    {
      if h !in counts {
        PlusNothing(CountAt(total, h));
      }
    }
    MergeAddsAll(total, counts, r);
  }

  lemma MergeAddsAll(a: Counts, b: Counts, m: Counts)
    requires m == Merge(a, b)
    ensures forall h :: h in m <==> h in a || h in b
    ensures forall h | h in m ::
              m[h].concurrency == PendingFor(a, h) + PendingFor(b, h) && m[h].rps == RateFor(a, h) + RateFor(b, h)
  {
    forall h
      ensures h in m <==> h in a || h in b
      ensures h in m ==>
                m[h].concurrency == PendingFor(a, h) + PendingFor(b, h) && m[h].rps == RateFor(a, h) + RateFor(b, h)
    {
      MergeAdds(a, b, h);
    }
  }

  lemma PlusNothing(c: Count)
    ensures Plus(c, Count(0, 0.0)) == c
  {
  }

  lemma MergeNone(a: Counts)
    ensures Merge(a, map[]) == a
  {
    forall h | h in a
      ensures a[h] == Plus(CountAt(a, h), CountAt(map[], h))
    {
      PlusNothing(a[h]);
    }
  }

  datatype Fetcher = Fetching | Sending | Returned | Failed
  datatype Forwarder = Receiving | Carrying | Delivered | Done
  datatype Main = Joining | Ranging | Succeeded | Errored

  datatype State = State(fetch: seq<Fetcher>, forward: seq<Forwarder>, wg: int, closed: bool,
                         main: Main, totals: Counts)

  /** What each endpoint answers: its counts, or nothing on an error. */
  type Answers = seq<Option<Counts>>

  function Start(n: nat): State {
    State(seq(n, _ => Fetching), seq(n, _ => Receiving), n, false, Joining, map[])
  }

  datatype Step =
    | FetchOk(i: nat) | FetchErr(i: nat) | Handoff(i: nat) | Deliver(i: nat) | WgDone(i: nat)
    | Close | JoinOk | JoinErr | Finish

  predicate Shaped(a: Answers, s: State) {
    |s.fetch| == |s.forward| == |a|
  }

  predicate Enabled(a: Answers, s: State, step: Step)
    requires Shaped(a, s)
  {
    match step
    case FetchOk(i) => i < |a| && s.fetch[i] == Fetching && a[i].Some?
    case FetchErr(i) => i < |a| && s.fetch[i] == Fetching && a[i].None?
    case Handoff(i) => i < |a| && s.fetch[i] == Sending && s.forward[i] == Receiving
    case Deliver(i) => i < |a| && s.forward[i] == Carrying && a[i].Some? && s.main == Ranging && !s.closed
    case WgDone(i) => i < |a| && s.forward[i] == Delivered
    case Close => s.wg == 0 && !s.closed
    case JoinOk => s.main == Joining && forall i | 0 <= i < |a| :: s.fetch[i] == Returned
    case JoinErr =>
      && s.main == Joining && Failed in s.fetch
      && forall i | 0 <= i < |a| :: s.fetch[i] == Returned || s.fetch[i] == Failed
    case Finish => s.main == Ranging && s.closed
  }

  function Do(a: Answers, s: State, step: Step): (s': State)
    requires Shaped(a, s) && Enabled(a, s, step)
    ensures Shaped(a, s')
  {
    match step
    case FetchOk(i) => s.(fetch := s.fetch[i := Sending])
    case FetchErr(i) => s.(fetch := s.fetch[i := Failed])
    case Handoff(i) => s.(fetch := s.fetch[i := Returned], forward := s.forward[i := Carrying])
    case Deliver(i) => s.(forward := s.forward[i := Delivered], totals := Merge(s.totals, a[i].value))
    case WgDone(i) => s.(forward := s.forward[i := Done], wg := s.wg - 1)
    case Close => s.(closed := true)
    case JoinOk => s.(main := Ranging)
    case JoinErr => s.(main := Errored)
    case Finish => s.(main := Succeeded)
  }

  // ---- The invariant

  predicate Out(f: Forwarder) {
    f == Delivered || f == Done
  }

  /** Where endpoint i can be, given its answer and what the main routine does. */
  predicate EndpointOk(answer: Option<Counts>, fetch: Fetcher, forward: Forwarder, main: Main) {
    && (fetch == Failed ==> answer.None?)
    && (fetch == Sending || fetch == Returned ==> answer.Some?)
    && (fetch == Returned <==> forward != Receiving)
    && (Out(forward) ==> main == Ranging || main == Succeeded)
    && (main == Ranging || main == Succeeded ==> fetch == Returned)
  }

  function NotDone(forward: seq<Forwarder>): nat {
    if forward == [] then 0
    else NotDone(forward[..|forward| - 1]) + if forward[|forward| - 1] == Done then 0 else 1
  }

  /** The sum for one host over those of the first n endpoints whose counts were delivered. */
  function DeliveredSum(a: Answers, forward: seq<Forwarder>, n: nat, host: string): Count
    requires n <= |a| == |forward|
  {
    if n == 0 then Count(0, 0.0)
    else Plus(DeliveredSum(a, forward, n - 1, host), Share(a[n - 1], forward[n - 1], host))
  }

  function Share(answer: Option<Counts>, forward: Forwarder, host: string): Count {
    if Out(forward) && answer.Some? then CountAt(answer.value, host) else Count(0, 0.0)
  }

  /** Some delivered endpoint reported the host. */
  ghost predicate Reported(a: Answers, forward: seq<Forwarder>, host: string)
    requires |a| == |forward|
  {
    exists i | 0 <= i < |a| :: Out(forward[i]) && a[i].Some? && host in a[i].value
  }

  ghost predicate TotalOk(a: Answers, s: State, host: string)
    requires Shaped(a, s)
  {
    && CountAt(s.totals, host) == DeliveredSum(a, s.forward, |a|, host)
    && (host in s.totals <==> Reported(a, s.forward, host))
  }

  ghost predicate Inv(a: Answers, s: State) {
    && Shaped(a, s)
    && (forall i | 0 <= i < |a| :: EndpointOk(a[i], s.fetch[i], s.forward[i], s.main))
    && s.wg == NotDone(s.forward)
    && (s.closed ==> s.wg == 0)
    && (s.main == Succeeded ==> s.closed)
    && (s.main == Errored ==> None in a)
    && forall host :: TotalOk(a, s, host)
  }

  lemma {:induction false} NotDoneAfter(forward: seq<Forwarder>, i: nat, f: Forwarder)
    requires i < |forward|
    ensures NotDone(forward[i := f]) == NotDone(forward) - (if forward[i] == Done then 0 else 1) +
              if f == Done then 0 else 1
  {
    var m := |forward| - 1;
    if i < m {
      NotDoneAfter(forward[..m], i, f);
      assert forward[i := f][..m] == forward[..m][i := f];
    } else {
      assert forward[i := f][..m] == forward[..m];
    }
  }

  lemma {:induction false} NotDoneZero(forward: seq<Forwarder>)
    ensures NotDone(forward) == 0 <==> forall i | 0 <= i < |forward| :: forward[i] == Done
    ensures NotDone(forward) <= |forward|
  {
    if forward != [] {
      NotDoneZero(forward[..|forward| - 1]);
    }
  }

  lemma PlusSwap(x: Count, y: Count, z: Count)
    ensures Plus(Plus(x, y), z) == Plus(Plus(x, z), y)
  {
  }

  /** Delivering endpoint i adds its share to every sum that reaches it. */
  lemma {:induction false} SumAfter(a: Answers, forward: seq<Forwarder>, i: nat, n: nat, host: string)
    requires i < |forward| == |a| && n <= |a| && !Out(forward[i])
    ensures var before := DeliveredSum(a, forward, n, host);
            DeliveredSum(a, forward[i := Delivered], n, host) ==
            if i < n then Plus(before, Share(a[i], Delivered, host)) else before
    decreases n
  {
    if n > 0 {
      SumAfter(a, forward, i, n - 1, host);
      if i < n - 1 {
        var before := DeliveredSum(a, forward, n - 1, host);
        PlusSwap(before, Share(a[i], Delivered, host), Share(a[n - 1], forward[n - 1], host));
      }
    }
  }

  /** Finishing a delivered endpoint does not change the sums. */
  lemma {:induction false} SumUnchanged(a: Answers, forward: seq<Forwarder>, i: nat, f: Forwarder, n: nat, host: string)
    requires i < |forward| == |a| && n <= |a| && Out(forward[i]) == Out(f)
    ensures DeliveredSum(a, forward[i := f], n, host) == DeliveredSum(a, forward, n, host)
    decreases n
  {
    if n > 0 {
      SumUnchanged(a, forward, i, f, n - 1, host);
    }
  }

  lemma ReportedAfter(a: Answers, forward: seq<Forwarder>, i: nat, f: Forwarder, host: string)
    requires i < |forward| == |a| && (Out(forward[i]) ==> Out(f))
    ensures Reported(a, forward[i := f], host) <==>
            Reported(a, forward, host) || (Out(f) && a[i].Some? && host in a[i].value)
  {
    var forward' := forward[i := f];
    if Reported(a, forward, host) {
      var j :| 0 <= j < |a| && Out(forward[j]) && a[j].Some? && host in a[j].value;
      assert Out(forward'[j]);
    }
    if Out(f) && a[i].Some? && host in a[i].value {
      assert Out(forward'[i]);
    }
  }

  lemma DeliverKeepsTotal(a: Answers, s: State, i: nat, host: string)
    requires Inv(a, s) && Enabled(a, s, Deliver(i))
    ensures TotalOk(a, Do(a, s, Deliver(i)), host)
  {
    assert TotalOk(a, s, host);
    DeliveryAddsShare(a, s.forward, s.totals, i, host);
    DeliveryReports(a, s.forward, s.totals, i, host);
  }

  lemma DeliveryAddsShare(a: Answers, forward: seq<Forwarder>, totals: Counts, i: nat, host: string)
    requires i < |forward| == |a| && forward[i] == Carrying && a[i].Some?
    requires CountAt(totals, host) == DeliveredSum(a, forward, |a|, host)
    ensures CountAt(Merge(totals, a[i].value), host) == DeliveredSum(a, forward[i := Delivered], |a|, host)
  {
    SumAfter(a, forward, i, |a|, host);
    MergeShare(totals, a[i], host, DeliveredSum(a, forward, |a|, host));
  }

  lemma MergeShare(totals: Counts, answer: Option<Counts>, host: string, sum: Count)
    requires answer.Some? && CountAt(totals, host) == sum
    ensures CountAt(Merge(totals, answer.value), host) == Plus(sum, Share(answer, Delivered, host))
  {
  }

  lemma DeliveryReports(a: Answers, forward: seq<Forwarder>, totals: Counts, i: nat, host: string)
    requires i < |forward| == |a| && forward[i] == Carrying && a[i].Some?
    requires host in totals <==> Reported(a, forward, host)
    ensures host in Merge(totals, a[i].value) <==> Reported(a, forward[i := Delivered], host)
  {
    ReportedAfter(a, forward, i, Delivered, host);
  }

  /** A forwarder that moves without delivering leaves the totals right. */
  lemma MoveKeepsTotal(a: Answers, s: State, i: nat, f: Forwarder, host: string)
    requires Shaped(a, s) && i < |a| && Out(s.forward[i]) == Out(f) && TotalOk(a, s, host)
    ensures TotalOk(a, s.(forward := s.forward[i := f]), host)
  {
    SumUnchanged(a, s.forward, i, f, |a|, host);
    ReportedAfter(a, s.forward, i, f, host);
  }

  lemma StepKeepsTotal(a: Answers, s: State, step: Step, host: string)
    requires Inv(a, s) && Enabled(a, s, step)
    ensures TotalOk(a, Do(a, s, step), host)
  {
    assert TotalOk(a, s, host);
    match step {
      case Handoff(i) => MoveKeepsTotal(a, s, i, Carrying, host);
      case WgDone(i) => MoveKeepsTotal(a, s, i, Done, host);
      case Deliver(i) => DeliverKeepsTotal(a, s, i, host);
      case _ =>
    }
  }

  lemma StepKeepsEndpoints(a: Answers, s: State, step: Step)
    requires Inv(a, s) && Enabled(a, s, step)
    ensures var s' := Do(a, s, step);
            forall i | 0 <= i < |a| :: EndpointOk(a[i], s'.fetch[i], s'.forward[i], s'.main)
  {
    var s' := Do(a, s, step);
    forall i | 0 <= i < |a|
      ensures EndpointOk(a[i], s'.fetch[i], s'.forward[i], s'.main)
    {
      assert EndpointOk(a[i], s.fetch[i], s.forward[i], s.main);
    }
  }

  lemma StepKeepsWaitGroup(a: Answers, s: State, step: Step)
    requires Inv(a, s) && Enabled(a, s, step)
    ensures var s' := Do(a, s, step);
            && s'.wg == NotDone(s'.forward) && (s'.closed ==> s'.wg == 0)
            && (s'.main == Succeeded ==> s'.closed) && (s'.main == Errored ==> None in a)
  {
    match step {
      case Handoff(i) => NotDoneAfter(s.forward, i, Carrying);
      case Deliver(i) => NotDoneAfter(s.forward, i, Delivered);
      case WgDone(i) => NotDoneAfter(s.forward, i, Done);
      case JoinErr =>
        var i :| 0 <= i < |a| && s.fetch[i] == Failed;
        assert EndpointOk(a[i], s.fetch[i], s.forward[i], s.main) && a[i] in a;
      case _ =>
    }
  }

  lemma StepKeepsInv(a: Answers, s: State, step: Step)
    requires Inv(a, s) && Enabled(a, s, step)
    ensures Inv(a, Do(a, s, step))
  {
    StepKeepsEndpoints(a, s, step);
    StepKeepsWaitGroup(a, s, step);
    forall host
      ensures TotalOk(a, Do(a, s, step), host)
    {
      StepKeepsTotal(a, s, step, host);
    }
  }

  // ---- Whole runs

  predicate IsRun(a: Answers, s: State, steps: seq<Step>)
    requires Shaped(a, s)
    decreases |steps|
  {
    steps == [] || (Enabled(a, s, steps[0]) && IsRun(a, Do(a, s, steps[0]), steps[1..]))
  }

  function Outcome(a: Answers, s: State, steps: seq<Step>): (s': State)
    requires Shaped(a, s) && IsRun(a, s, steps)
    ensures Shaped(a, s')
    decreases |steps|
  {
    if steps == [] then s else Outcome(a, Do(a, s, steps[0]), steps[1..])
  }

  lemma {:induction false} StartSums(a: Answers, forward: seq<Forwarder>, n: nat, host: string)
    requires n <= |forward| == |a| && forall i | 0 <= i < |forward| :: forward[i] == Receiving
    ensures DeliveredSum(a, forward, n, host) == Count(0, 0.0)
    decreases n
  {
    if n > 0 {
      StartSums(a, forward, n - 1, host);
    }
  }

  lemma {:induction false} StartNotDone(forward: seq<Forwarder>)
    requires forall i | 0 <= i < |forward| :: forward[i] == Receiving
    ensures NotDone(forward) == |forward|
  {
    if forward != [] {
      StartNotDone(forward[..|forward| - 1]);
    }
  }

  lemma StartInv(a: Answers)
    ensures Inv(a, Start(|a|))
  {
    var s := Start(|a|);
    forall host
      ensures TotalOk(a, s, host)
    {
      StartSums(a, s.forward, |a|, host);
    }
    StartNotDone(s.forward);
  }

  lemma {:induction false} RunKeepsInv(a: Answers, s: State, steps: seq<Step>)
    requires Inv(a, s) && IsRun(a, s, steps)
    ensures Inv(a, Outcome(a, s, steps))
    decreases |steps|
  {
    if steps != [] {
      StepKeepsInv(a, s, steps[0]);
      RunKeepsInv(a, Do(a, s, steps[0]), steps[1..]);
    }
  }

  // ---- Termination

  function Todo(fetch: Fetcher, forward: Forwarder): nat {
    (match fetch case Fetching => 2 case Sending => 1 case _ => 0) +
    (match forward case Receiving => 3 case Carrying => 2 case Delivered => 1 case Done => 0)
  }

  function TodoSum(fetch: seq<Fetcher>, forward: seq<Forwarder>): nat
    requires |fetch| == |forward|
  {
    if fetch == [] then 0
    else
      var m := |fetch| - 1;
      TodoSum(fetch[..m], forward[..m]) + Todo(fetch[m], forward[m])
  }

  /** What is left to do for everybody. */
  function Rank(s: State): nat
    requires |s.fetch| == |s.forward|
  {
    TodoSum(s.fetch, s.forward) + (if s.closed then 0 else 1) +
    match s.main case Joining => 2 case Ranging => 1 case _ => 0
  }

  lemma {:induction false} TodoAfter(fetch: seq<Fetcher>, forward: seq<Forwarder>, i: nat, e: Fetcher, f: Forwarder)
    requires i < |fetch| == |forward|
    ensures TodoSum(fetch[i := e], forward[i := f]) == TodoSum(fetch, forward) - Todo(fetch[i], forward[i]) + Todo(e, f)
  {
    var m := |fetch| - 1;
    if i < m {
      TodoAfter(fetch[..m], forward[..m], i, e, f);
      assert fetch[i := e][..m] == fetch[..m][i := e] && forward[i := f][..m] == forward[..m][i := f];
    } else {
      assert fetch[i := e][..m] == fetch[..m] && forward[i := f][..m] == forward[..m];
    }
  }

  /** Every step of anybody brings the whole closer to its end. */
  lemma StepDecreases(a: Answers, s: State, step: Step)
    requires Shaped(a, s) && Enabled(a, s, step)
    ensures Rank(Do(a, s, step)) < Rank(s)
  {
    if step.FetchOk? || step.FetchErr? || step.Handoff? || step.Deliver? || step.WgDone? {
      var i, s' := step.i, Do(a, s, step);
      TodoAfter(s.fetch, s.forward, i, s'.fetch[i], s'.forward[i]);
      assert s'.fetch == s.fetch[i := s'.fetch[i]] && s'.forward == s.forward[i := s'.forward[i]];
    }
  }

  /** So no run is longer than the rank of its first state. */
  lemma {:induction false} RunsAreBounded(a: Answers, s: State, steps: seq<Step>)
    requires Shaped(a, s) && IsRun(a, s, steps)
    ensures |steps| <= Rank(s)
    decreases |steps|
  {
    if steps != [] {
      StepDecreases(a, s, steps[0]);
      RunsAreBounded(a, Do(a, s, steps[0]), steps[1..]);
    }
  }

  // ---- Progress

  ghost predicate Stuck(a: Answers, s: State)
    requires Shaped(a, s)
  {
    forall step :: !Enabled(a, s, step)
  }

  lemma EndpointCanMove(a: Answers, s: State, i: nat) returns (step: Step)
    requires Inv(a, s) && i < |a| && (s.fetch[i] == Fetching || s.fetch[i] == Sending)
    ensures Enabled(a, s, step)
  {
    assert EndpointOk(a[i], s.fetch[i], s.forward[i], s.main);
    step := if s.fetch[i] == Sending then Handoff(i) else if a[i].Some? then FetchOk(i) else FetchErr(i);
  }

  /** While the main routine waits for the fetchers, somebody can move, whether or not fetches fail. */
  lemma JoiningCanMove(a: Answers, s: State) returns (step: Step)
    requires Inv(a, s) && s.main == Joining
    ensures Enabled(a, s, step)
  {
    if i :| 0 <= i < |a| && (s.fetch[i] == Fetching || s.fetch[i] == Sending) {
      step := EndpointCanMove(a, s, i);
    } else if Failed in s.fetch {
      step := JoinErr;
    } else {
      assert forall i | 0 <= i < |a| :: s.fetch[i] in s.fetch;
      step := JoinOk;
    }
  }

  /** While it ranges over the channel, somebody can move until the channel is closed and drained. */
  lemma RangingCanMove(a: Answers, s: State) returns (step: Step)
    requires Inv(a, s) && s.main == Ranging
    ensures Enabled(a, s, step)
  {
    if s.closed {
      step := Finish;
    } else if i :| 0 <= i < |a| && s.forward[i] != Done {
      assert EndpointOk(a[i], s.fetch[i], s.forward[i], s.main);
      step := if s.forward[i] == Carrying then Deliver(i) else WgDone(i);
    } else {
      NotDoneZero(s.forward);
      step := Close;
    }
  }

  /** The main routine always finishes: every run is bounded, and a run that cannot be continued
      has taken it to its end. */
  lemma MainFinishes(a: Answers, steps: seq<Step>)
    requires IsRun(a, Start(|a|), steps)
    ensures |steps| <= Rank(Start(|a|))
    ensures var s := Outcome(a, Start(|a|), steps);
            Stuck(a, s) ==> s.main == Succeeded || s.main == Errored
  {
    RunsAreBounded(a, Start(|a|), steps);
    StartInv(a);
    RunKeepsInv(a, Start(|a|), steps);
    var s := Outcome(a, Start(|a|), steps);
    if s.main == Joining {
      var step := JoiningCanMove(a, s);
    } else if s.main == Ranging {
      var step := RangingCanMove(a, s);
    }
  }

  /** Every goroutine has returned. */
  predicate AllDone(s: State) {
    && s.main == Succeeded && s.closed
    && (forall i | 0 <= i < |s.fetch| :: s.fetch[i] == Returned)
    && forall i | 0 <= i < |s.forward| :: s.forward[i] == Done
  }

  // ---- Results

  /** The counts of an answer; none on an error. */
  function CountsIn(answer: Option<Counts>): Counts {
    if answer.Some? then answer.value else map[]
  }

  /** The sum for one host over the first n endpoints, each counted once. */
  function GrandSum(a: Answers, n: nat, host: string): Count
    requires n <= |a|
  {
    if n == 0 then Count(0, 0.0) else Plus(GrandSum(a, n - 1, host), CountAt(CountsIn(a[n - 1]), host))
  }

  /** What the first n endpoints report as pending for a host, and their rates, added up. */
  function PendingTotal(a: Answers, n: nat, host: string): int
    requires n <= |a|
  {
    if n == 0 then 0 else PendingTotal(a, n - 1, host) + PendingFor(CountsIn(a[n - 1]), host)
  }

  function RateTotal(a: Answers, n: nat, host: string): real
    requires n <= |a|
  {
    if n == 0 then 0.0 else RateTotal(a, n - 1, host) + RateFor(CountsIn(a[n - 1]), host)
  }

  lemma CountAtIs(c: Counts, host: string)
    ensures CountAt(c, host).concurrency == PendingFor(c, host) && CountAt(c, host).rps == RateFor(c, host)
  {
  }

  /** The sum over endpoints is the sum of what is pending and the sum of the rates. */
  lemma {:induction false} GrandSumIs(a: Answers, n: nat, host: string)
    requires n <= |a|
    ensures GrandSum(a, n, host).concurrency == PendingTotal(a, n, host)
    ensures GrandSum(a, n, host).rps == RateTotal(a, n, host)
  {
    if n > 0 {
      GrandSumIs(a, n - 1, host);
      CountAtIs(CountsIn(a[n - 1]), host);
      PlusAdds(GrandSum(a, n - 1, host), CountAt(CountsIn(a[n - 1]), host), GrandSum(a, n, host));
    }
  }

  lemma {:induction false} AllDeliveredSum(a: Answers, forward: seq<Forwarder>, n: nat, host: string)
    requires n <= |a| == |forward| && forall i | 0 <= i < |forward| :: Out(forward[i]) && a[i].Some?
    ensures DeliveredSum(a, forward, n, host) == GrandSum(a, n, host)
    decreases n
  {
    if n > 0 {
      AllDeliveredSum(a, forward, n - 1, host);
      assert Share(a[n - 1], forward[n - 1], host) == CountAt(CountsIn(a[n - 1]), host);
    }
  }

  /** The channel is closed only after every forwarder has delivered. */
  lemma ClosedAfterDelivery(a: Answers, s: State)
    requires Inv(a, s) && s.closed
    ensures forall i | 0 <= i < |a| :: s.forward[i] == Done && a[i].Some?
  {
    NotDoneZero(s.forward);
    forall i | 0 <= i < |a|
      ensures a[i].Some?
    {
      assert EndpointOk(a[i], s.fetch[i], s.forward[i], s.main);
    }
  }

  lemma SuccessIsComplete(a: Answers, s: State)
    requires Inv(a, s) && s.main == Succeeded
    ensures None !in a && AllDone(s)
  {
    ClosedAfterDelivery(a, s);
    forall i | 0 <= i < |a|
      ensures s.fetch[i] == Returned
    {
      assert EndpointOk(a[i], s.fetch[i], s.forward[i], s.main);
    }
  }

  lemma SuccessTotals(a: Answers, s: State, host: string)
    requires Inv(a, s) && s.main == Succeeded
    ensures CountAt(s.totals, host) == GrandSum(a, |a|, host)
    ensures host in s.totals <==> exists i | 0 <= i < |a| :: a[i].Some? && host in a[i].value
  {
    ClosedAfterDelivery(a, s);
    assert TotalOk(a, s, host);
    AllDeliveredSum(a, s.forward, |a|, host);
    if i :| 0 <= i < |a| && a[i].Some? && host in a[i].value {
      assert Out(s.forward[i]);
    }
  }

  /** The main routine succeeds only if every endpoint answered, and then its totals are the sums
      over all endpoints; it fails only if some endpoint did. */
  lemma ResultIsExact(a: Answers, steps: seq<Step>, host: string)
    requires IsRun(a, Start(|a|), steps)
    ensures var s := Outcome(a, Start(|a|), steps);
            && (s.main == Errored ==> None in a)
            && (s.main == Succeeded ==>
                  && None !in a && AllDone(s)
                  && CountAt(s.totals, host) == GrandSum(a, |a|, host)
                  && PendingFor(s.totals, host) == PendingTotal(a, |a|, host)
                  && RateFor(s.totals, host) == RateTotal(a, |a|, host)
                  && (host in s.totals <==> exists i | 0 <= i < |a| :: a[i].Some? && host in a[i].value))
  {
    StartInv(a);
    RunKeepsInv(a, Start(|a|), steps);
    var s := Outcome(a, Start(|a|), steps);
    if s.main == Succeeded {
      SuccessIsComplete(a, s);
      SuccessTotals(a, s, host);
      GrandSumIs(a, |a|, host);
      CountAtIs(s.totals, host);
    }
  }

  /** When every endpoint answers, nobody is left behind: a run that cannot be continued is complete. */
  lemma NobodyLeftBehind(a: Answers, steps: seq<Step>)
    requires None !in a && IsRun(a, Start(|a|), steps) && Stuck(a, Outcome(a, Start(|a|), steps))
    ensures AllDone(Outcome(a, Start(|a|), steps))
  {
    MainFinishes(a, steps);
    ResultIsExact(a, steps, "");
  }

  /** After one failed fetch no forwarder ever delivers, and the channel stays open. */
  lemma FailureDeliversNothing(a: Answers, s: State)
    requires Inv(a, s) && None in a
    ensures !s.closed && s.main != Ranging && s.main != Succeeded && forall j | 0 <= j < |a| :: !Out(s.forward[j])
  {
    var i :| 0 <= i < |a| && a[i] == None;
    assert EndpointOk(a[i], s.fetch[i], s.forward[i], s.main);
    if s.closed {
      ClosedAfterDelivery(a, s);
    }
    forall j | 0 <= j < |a|
      ensures !Out(s.forward[j])
    {
      assert EndpointOk(a[j], s.fetch[j], s.forward[j], s.main);
    }
  }

  /** The fetch then ends with an error, and leaves every forwarder behind: that of a failed endpoint
      waiting for its answer, and those of all the others trying to hand theirs on, and the goroutine
      that was to close the channel with them. */
  lemma FailureLeaksForwarders(a: Answers, steps: seq<Step>)
    requires None in a && IsRun(a, Start(|a|), steps)
    ensures var s := Outcome(a, Start(|a|), steps);
            && !s.closed && (forall j | 0 <= j < |a| :: !Out(s.forward[j]))
            && (Stuck(a, s) ==>
                  && s.main == Errored
                  && forall j | 0 <= j < |a| :: s.forward[j] == if a[j].None? then Receiving else Carrying)
  {
    StartInv(a);
    RunKeepsInv(a, Start(|a|), steps);
    var s := Outcome(a, Start(|a|), steps);
    FailureDeliversNothing(a, s);
    if Stuck(a, s) {
      MainFinishes(a, steps);
      forall j | 0 <= j < |a|
        ensures s.forward[j] == if a[j].None? then Receiving else Carrying
      {
        StuckEndpoint(a, s, j);
      }
    }
  }

  lemma StuckEndpoint(a: Answers, s: State, j: nat)
    requires Inv(a, s) && Stuck(a, s) && j < |a| && !Out(s.forward[j])
    ensures s.forward[j] == if a[j].None? then Receiving else Carrying
  {
    assert EndpointOk(a[j], s.fetch[j], s.forward[j], s.main);
    if s.fetch[j] == Fetching || s.fetch[j] == Sending {
      var step := EndpointCanMove(a, s, j);
    }
  }
}
