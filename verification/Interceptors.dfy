/** A whole interceptor: its routing table and its counting middleware work on the same counter. Its runs
    project onto runs of either part, so that what is proved of the parts holds of the whole: every object
    is reported with the window and granularity it asks for. */
module Interceptors {
  import opened Arith
  import opened Keys
  import opened TableMemory
  import opened Buckets
  import opened BucketLog
  import opened BucketAverage
  import opened QueueMemory
  import T = RoutingTable
  import TC = TableCounters
  import TE = TableEvents
  import C = Counting
  import F = FanIn
  import Scaler
  import Activity
  import A = Arrivals

  /** A step of the routing table, or of a request. */
  datatype Step = OfTable(t: T.Step) | OfRequest(c: C.Step)

  /** The two parts; both have the one counter. */
  datatype State = State(table: T.Table, sys: C.System)

  const START: State := State(T.START, C.START)

  predicate Joined(s: State) {
    s.table.counters == s.sys.counters
  }

  /** What a step of the table does to the counter, as a step of the counting middleware's environment. */
  function KeyStep(t: T.Step): Option<C.Step> {
    match t
    case Begin(ev) =>
      if T.Registers(ev) then Some(C.Register(IndexKey(ev.o.name), T.RateOf(ev.o).window, T.RateOf(ev.o).granularity))
      else None
    case Adjust(ev) => Some(C.Replace(IndexKey(ev.o.name), T.RateOf(ev.o).window, T.RateOf(ev.o).granularity))
    case Mutate(ev) =>
      if ev.Deleted? then Some(C.Remove(IndexKey(ev.o.name)))
      else if ev.Updated? && ev.was.name != ev.o.name then Some(C.Remove(IndexKey(ev.was.name)))
      else None
    case _ => None
  }

  /** What a step of a request does to the counter, as a step of the table's environment. */
  function CounterStep(sys: C.System, c: C.Step): Option<T.Step>
    requires C.Enabled(sys, c)
  {
    match c
    case Inc(i, now) => Some(T.Increase(sys.reqs[i].host, now))
    case Dec(i) => Some(T.Decrease(sys.reqs[i].host))
    case _ => None
  }

  ghost predicate Enabled(s: State, step: Step) {
    match step
    case OfTable(t) => !t.Increase? && !t.Decrease? && T.Enabled(s.table, t)
    case OfRequest(c) => !c.Register? && !c.Replace? && !c.Remove? && C.Enabled(s.sys, c)
  }

  /** The other part's view of a step is possible too. */
  lemma BothEnabled(s: State, step: Step)
    requires Joined(s) && Enabled(s, step)
    ensures step.OfTable? && KeyStep(step.t).Some? ==> C.Enabled(s.sys, KeyStep(step.t).value)
    ensures step.OfRequest? && CounterStep(s.sys, step.c).Some? ==> T.Enabled(s.table, CounterStep(s.sys, step.c).value)
  {
  }

  ghost function Do(s: State, step: Step): State
    requires Joined(s) && Enabled(s, step)
  {
    BothEnabled(s, step);
    match step
    case OfTable(t) =>
      State(T.Do(s.table, t), match KeyStep(t) case None => s.sys case Some(k) => C.Do(s.sys, k))
    case OfRequest(c) =>
      State(match CounterStep(s.sys, c) case None => s.table case Some(t) => T.Do(s.table, t), C.Do(s.sys, c))
  }

  lemma TableStepJoins(s: State, t: T.Step)
    requires Joined(s) && Enabled(s, OfTable(t))
    ensures Joined(Do(s, OfTable(t)))
  {
    BothEnabled(s, OfTable(t));
  }

  lemma RequestStepJoins(s: State, c: C.Step)
    requires Joined(s) && Enabled(s, OfRequest(c))
    ensures Joined(Do(s, OfRequest(c)))
  {
    BothEnabled(s, OfRequest(c));
  }

  lemma StepJoins(s: State, step: Step)
    requires Joined(s) && Enabled(s, step)
    ensures Joined(Do(s, step))
  {
    match step {
      case OfTable(t) => TableStepJoins(s, t);
      case OfRequest(c) => RequestStepJoins(s, c);
    }
  }

  ghost predicate IsRun(s: State, steps: seq<Step>)
    requires Joined(s)
    decreases |steps|
  {
    steps == [] || (Enabled(s, steps[0]) && (StepJoins(s, steps[0]); IsRun(Do(s, steps[0]), steps[1..])))
  }

  ghost function Outcome(s: State, steps: seq<Step>): State
    requires Joined(s) && IsRun(s, steps)
    decreases |steps|
  {
    if steps == [] then s else StepJoins(s, steps[0]); Outcome(Do(s, steps[0]), steps[1..])
  }

  // ---- Projections

  function AsSeq<X>(x: Option<X>): seq<X> {
    match x case None => [] case Some(v) => [v]
  }

  /** The step as the table sees it, and as the middleware sees it. */
  ghost function TableView(s: State, step: Step): seq<T.Step>
    requires Enabled(s, step)
  {
    match step case OfTable(t) => [t] case OfRequest(c) => AsSeq(CounterStep(s.sys, c))
  }

  function RequestView(step: Step): seq<C.Step> {
    match step case OfTable(t) => AsSeq(KeyStep(t)) case OfRequest(c) => [c]
  }

  ghost function TableSteps(s: State, steps: seq<Step>): seq<T.Step>
    requires Joined(s) && IsRun(s, steps)
    decreases |steps|
  {
    if steps == [] then []
    else StepJoins(s, steps[0]); TableView(s, steps[0]) + TableSteps(Do(s, steps[0]), steps[1..])
  }

  function RequestSteps(steps: seq<Step>): seq<C.Step> {
    if steps == [] then [] else RequestView(steps[0]) + RequestSteps(steps[1..])
  }

  lemma TableViewRuns(s: State, step: Step)
    requires Joined(s) && Enabled(s, step)
    ensures T.IsRun(s.table, TableView(s, step)) && T.Outcome(s.table, TableView(s, step)) == Do(s, step).table
  {
    BothEnabled(s, step);
    var view := TableView(s, step);
    if view != [] {
      assert view[1..] == [];
      T.OneMore(s.table, view);
    }
  }

  lemma RequestViewRuns(s: State, step: Step)
    requires Joined(s) && Enabled(s, step)
    ensures C.IsRun(s.sys, RequestView(step)) && C.Outcome(s.sys, RequestView(step)) == Do(s, step).sys
  {
    BothEnabled(s, step);
    var view := RequestView(step);
    if view != [] {
      assert view[1..] == [];
      C.OneMore(s.sys, view);
    }
  }

  /** A run of the interceptor is a run of its table. */
  lemma {:induction false} ProjectsOnTable(s: State, steps: seq<Step>)
    requires Joined(s) && IsRun(s, steps)
    ensures T.IsRun(s.table, TableSteps(s, steps))
    ensures T.Outcome(s.table, TableSteps(s, steps)) == Outcome(s, steps).table
    decreases |steps|
  {
    if steps != [] {
      StepJoins(s, steps[0]);
      TableViewRuns(s, steps[0]);
      ProjectsOnTable(Do(s, steps[0]), steps[1..]);
      T.RunConcat(s.table, TableView(s, steps[0]), TableSteps(Do(s, steps[0]), steps[1..]));
    }
  }

  /** And a run of its counting middleware. */
  lemma {:induction false} ProjectsOnRequests(s: State, steps: seq<Step>)
    requires Joined(s) && IsRun(s, steps)
    ensures C.IsRun(s.sys, RequestSteps(steps))
    ensures C.Outcome(s.sys, RequestSteps(steps)) == Outcome(s, steps).sys
    decreases |steps|
  {
    if steps != [] {
      StepJoins(s, steps[0]);
      RequestViewRuns(s, steps[0]);
      ProjectsOnRequests(Do(s, steps[0]), steps[1..]);
      C.RunConcat(s.sys, RequestView(steps[0]), RequestSteps(steps[1..]));
    }
  }

  lemma {:induction false} StaysJoined(s: State, steps: seq<Step>)
    requires Joined(s) && IsRun(s, steps)
    ensures Joined(Outcome(s, steps))
    decreases |steps|
  {
    if steps != [] {
      StepJoins(s, steps[0]);
      StaysJoined(Do(s, steps[0]), steps[1..]);
    }
  }

  // ---- What an interceptor reports

  /** A run in which the informer calls one handler at a time, with events that can happen and no deletion
      ignored. */
  ghost predicate Regular(steps: seq<Step>) {
    && IsRun(START, steps)
    && var ts := TableSteps(START, steps);
       && T.IsRun(T.START, ts) && T.OneAtATime(T.START, ts)
       && TE.History(TE.Events(ts)) && TE.NothingLost(TE.Events(ts))
  }

  /** The object is registered and no handler is running. */
  ghost predicate Serves(steps: seq<Step>, o: HTTPSO) {
    && Regular(steps)
    && var table := Outcome(START, steps).table;
       table.handlers == multiset{} && o.name in table.objs && table.objs[o.name] == o
  }

  /** A served object has a ring of the shape it asks for. */
  lemma ServedIsConfigured(steps: seq<Step>, o: HTTPSO)
    requires Serves(steps, o)
    ensures var s := Outcome(START, steps); TC.HasShape(s.sys.counters, o)
  {
    ProjectsOnTable(START, steps);
    StaysJoined(START, steps);
    var ts := TableSteps(START, steps);
    TE.RingsOfHistory(ts);
    ShapedAtEnd(T.START, ts);
  }

  lemma {:induction false} ShapedAtEnd(s: T.Table, steps: seq<T.Step>)
    requires T.IsRun(s, steps) && TC.ShapedWhenQuiet(s, steps) && T.Outcome(s, steps).handlers == multiset{}
    ensures var s' := T.Outcome(s, steps); TC.ShapedBut(s'.objs, s'.counters, None)
    decreases |steps|
  {
    if steps != [] {
      ShapedAtEnd(T.Do(s, steps[0]), steps[1..]);
    }
  }

  /** The run of the counting middleware inside. */
  ghost function Requests(steps: seq<Step>): A.Run
    requires IsRun(START, steps)
  {
    ProjectsOnRequests(START, steps);
    RequestSteps(steps)
  }

  lemma Inside(steps: seq<Step>)
    requires IsRun(START, steps)
    ensures A.Reached(Requests(steps)) == Outcome(START, steps).sys
  {
    ProjectsOnRequests(START, steps);
  }

  /** In every regular run of an interceptor, whatever its requests do, it reports for every registered
      object the requests in flight, unless its key was removed under them, and the average of its
      arrivals over the window and granularity the object asks for. */
  lemma ReportsAsAsked(steps: seq<Step>, o: HTTPSO, clock: string -> nat)
    requires Serves(steps, o)
    ensures var rate, h, c := TC.Asked(o), IndexKey(o.name), Outcome(START, steps).sys.counters;
            && Config(rate.window, rate.granularity)
            && WellFormedCounters(c) && c.concurrency.Keys <= c.rps.Keys
            && var count := F.CountAt(CountsOf(c, clock), h);
               && (C.NeverTorn(C.START, Requests(steps), h) ==>
                     count.concurrency == C.InFlight(Outcome(START, steps).sys.reqs, h))
               && count.rps ==
                  WindowAverage(Replay(rate.window, rate.granularity, A.Arrived(Requests(steps), h)), clock(h))
  {
    var rate, h := TC.Asked(o), IndexKey(o.name);
    ServedIsConfigured(steps, o);
    Inside(steps);
    C.RunKeepsInv(C.START, Requests(steps));
    assert WellFormed(Outcome(START, steps).sys.counters.rps[h]);
    A.ReportsArrivals(Requests(steps), h, rate.window, rate.granularity, clock);
  }

  // ---- A fleet

  /** An interceptor of a fleet and what its clock shows for each key when it is asked. */
  datatype Member = Member(steps: seq<Step>, clock: string -> nat)

  /** It serves the object and gives this answer. */
  ghost predicate Replies(m: Member, o: HTTPSO, answer: Option<F.Counts>) {
    && Serves(m.steps, o)
    && var c := Outcome(START, m.steps).sys.counters;
       && WellFormedCounters(c) && c.concurrency.Keys <= c.rps.Keys
       && answer == Some(CountsOf(c, m.clock))
  }

  ghost predicate AllReply(members: seq<Member>, o: HTTPSO, a: F.Answers) {
    |a| == |members| && forall j | 0 <= j < |a| :: Replies(members[j], o, a[j])
  }

  /** A request for the object that it counted is still in the window of n slots. */
  ghost predicate StillInWindow(m: Member, o: HTTPSO, n: nat)
    requires TC.Asked(o).granularity > 0
  {
    && IsRun(START, m.steps)
    && LiveSum(A.Arrived(Requests(m.steps), IndexKey(o.name)), TC.Asked(o).granularity, n,
         m.clock(IndexKey(o.name))) > 0
  }

  ghost function NodeOf(m: Member): A.Node
    requires IsRun(START, m.steps)
  {
    A.Node(Requests(m.steps), m.clock)
  }

  lemma RepliesAsNode(m: Member, o: HTTPSO, answer: Option<F.Counts>)
    requires Replies(m, o, answer)
    ensures A.Answers(NodeOf(m), answer, IndexKey(o.name), TC.Asked(o).window, TC.Asked(o).granularity)
  {
    Inside(m.steps);
    ServedIsConfigured(m.steps, o);
  }

  lemma FleetReplies(o: HTTPSO, members: seq<Member>, a: F.Answers) returns (nodes: seq<A.Node>)
    requires AllReply(members, o, a)
    ensures A.AllAnswer(nodes, a, IndexKey(o.name), TC.Asked(o).window, TC.Asked(o).granularity)
    ensures forall j | 0 <= j < |a| :: IsRun(START, members[j].steps) && nodes[j] == NodeOf(members[j])
  {
    assert forall j | 0 <= j < |a| :: Replies(members[j], o, a[j]);
    nodes := seq(|a|, j requires 0 <= j < |a| => NodeOf(members[j]));
    forall j | 0 <= j < |a|
      ensures A.Answers(nodes[j], a[j], IndexKey(o.name), TC.Asked(o).window, TC.Asked(o).granularity)
    {
      RepliesAsNode(members[j], o, a[j]);
    }
  }

  lemma SameWindow(m: Member, o: HTTPSO, n: nat)
    requires IsRun(START, m.steps) && TC.Asked(o).granularity > 0
    ensures StillInWindow(m, o, n) <==> A.InWindow(NodeOf(m), IndexKey(o.name), TC.Asked(o).granularity, n)
  {
  }

  /** End to end: for every fleet of interceptors that serve a rate-scaled object with at most 1000 aligned
      slots, each after a regular run of its own, the scaler calls the object active exactly when one of
      them counted a request for it that is still in the window. No hypothesis about rings is left. */
  lemma FleetDecides(o: HTTPSO, members: seq<Member>, a: F.Answers)
    requires o.rate.Some? && AllReply(members, o, a)
    requires var rate := TC.Asked(o);
             && Config(rate.window, rate.granularity) && Aligned(rate.window, rate.granularity)
             && 0 < CeilDiv(rate.window, rate.granularity) <= 1000
    ensures var n := CeilDiv(TC.Asked(o).window, TC.Asked(o).granularity);
            Activity.Active(o, F.CountAt(Scaler.MergeAll(a, |a|), IndexKey(o.name))) <==>
            exists j | 0 <= j < |members| :: StillInWindow(members[j], o, n)
  {
    var rate, h := TC.Asked(o), IndexKey(o.name);
    var n := CeilDiv(rate.window, rate.granularity);
    var nodes := FleetReplies(o, members, a);
    A.ActiveIffArrival(o, nodes, a, h, rate.window, rate.granularity);
    forall j | 0 <= j < |members|
      ensures StillInWindow(members[j], o, n) <==> A.InWindow(nodes[j], h, rate.granularity, n)
    {
      SameWindow(members[j], o, n);
    }
  }
}
