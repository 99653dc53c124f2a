/** The publish protocol of the routing table (pkg/routing/table.go) as a state machine: event
    handlers change the registry and the counter and then signal; the refresher snapshots the
    registry into a memory, publishes it and waits on the one-slot signaler. */
module RoutingTable {
  import opened Keys
  import opened TableMemory
  import opened TableMemoryLaws
  import opened Routing
  import Buckets
  import opened QueueMemory

  type RouteMemory = TableMemory.Memory

  /** What the informer delivers. A deletion it learns of only by listing anew comes as a tombstone, an
      object of another type, which the handler ignores. */
  datatype Event =
    | Added(o: HTTPSO)
    | Updated(was: HTTPSO, o: HTTPSO)
    | Deleted(o: HTTPSO)
    | Tombstone(o: HTTPSO)

  /** The event registers its object. */
  predicate Registers(ev: Event) {
    ev.Added? || ev.Updated?
  }

  /** An event handler: of an update that has made sure of the key in the counter but not yet adjusted
      its ring; one that has told the counter but not yet changed the registry; one that has changed
      the registry but not yet signalled. */
  datatype Handler = Begun(ev: Event) | Started(ev: Event) | Mutated

  datatype Refresher = Unsynced | AboutToSnapshot | Holding(tm: RouteMemory) | Waiting | Stopped

  datatype Table = Table(objs: map<NamespacedName, HTTPSO>, counters: Counters, handlers: multiset<Handler>,
                         signal: bool, refresher: Refresher, published: Option<RouteMemory>)

  const START: Table := Table(map[], NO_COUNTERS, multiset{}, false, Unsynced, None)

  datatype Step =
    | Begin(ev: Event)
    | Adjust(ev: Event)
    | Mutate(ev: Event)
    | Signal
    | Synced
    | Snapshot(tm: RouteMemory)
    | Publish
    | Wake
    | Cancel
    | Increase(host: string, now: Buckets.Moment)
    | Decrease(host: string)

  /** Window and granularity of an object's counter: a minute in seconds unless it asks otherwise. */
  function RateOf(o: HTTPSO): Rate {
    match o.rate
    case None => Rate(60 * Buckets.SECOND, Buckets.SECOND)
    case Some(r) => r
  }

  predicate CountableEvent(ev: Event) {
    Registers(ev) ==> Buckets.Config(RateOf(ev.o).window, RateOf(ev.o).granularity)
  }

  ghost predicate Enabled(s: Table, step: Step) {
    match step
    case Begin(ev) => CountableEvent(ev)
    case Adjust(ev) => Begun(ev) in s.handlers && ev.Updated? && CountableEvent(ev)
    case Mutate(ev) => Started(ev) in s.handlers
    case Signal => Mutated in s.handlers
    case Synced => s.refresher == Unsynced
    case Snapshot(tm) => s.refresher == AboutToSnapshot && BuiltFrom(tm, s.objs)
    case Publish => s.refresher.Holding?
    case Wake => s.refresher == Waiting && s.signal
    case Cancel => s.refresher == Unsynced || s.refresher == Waiting
    case Increase(h, _) => h in s.counters.rps && Buckets.WellFormed(s.counters.rps[h])
    case Decrease(_) => true
  }

  function Told(c: Counters, ev: Event): Counters
    requires CountableEvent(ev)
  {
    if Registers(ev) then EnsuredKey(c, IndexKey(ev.o.name), RateOf(ev.o).window, RateOf(ev.o).granularity) else c
  }

  function Adjusted(c: Counters, ev: Event): Counters
    requires Registers(ev) && CountableEvent(ev)
  {
    ReplacedBuckets(c, IndexKey(ev.o.name), RateOf(ev.o).window, RateOf(ev.o).granularity)
  }

  /** Where the handler of an event stands after its first step. */
  function FirstPhase(ev: Event): Handler {
    if ev.Updated? then Begun(ev) else Started(ev)
  }

  function Changed(objs: map<NamespacedName, HTTPSO>, ev: Event): map<NamespacedName, HTTPSO> {
    match ev
    case Added(o) => objs[o.name := o]
    case Updated(was, o) => if was.name != o.name then objs[o.name := o] - {was.name} else objs[o.name := o]
    case Deleted(o) => objs - {o.name}
    case Tombstone(_) => objs
  }

  /** The counter key an event removes along with its change of the registry. */
  function Dropped(c: Counters, ev: Event): Counters {
    match ev
    case Added(_) => c
    case Updated(was, o) => if was.name != o.name then RemovedKey(c, IndexKey(was.name)) else c
    case Deleted(o) => RemovedKey(c, IndexKey(o.name))
    case Tombstone(_) => c
  }

  ghost function Do(s: Table, step: Step): Table
    requires Enabled(s, step)
  {
    match step
    case Begin(ev) =>
      if ev.Tombstone? then s
      else s.(counters := Told(s.counters, ev), handlers := s.handlers + multiset{FirstPhase(ev)})
    case Adjust(ev) =>
      s.(counters := Adjusted(s.counters, ev), handlers := s.handlers - multiset{Begun(ev)} + multiset{Started(ev)})
    case Mutate(ev) =>
      s.(objs := Changed(s.objs, ev), counters := Dropped(s.counters, ev),
         handlers := s.handlers - multiset{Started(ev)} + multiset{Mutated})
    case Signal => s.(signal := true, handlers := s.handlers - multiset{Mutated})
    case Synced => s.(refresher := AboutToSnapshot)
    case Snapshot(tm) => s.(refresher := Holding(tm))
    case Publish => s.(published := Some(s.refresher.tm), refresher := Waiting)
    case Wake => s.(refresher := AboutToSnapshot, signal := false)
    case Cancel => s.(refresher := Stopped)
    case Increase(h, now) => s.(counters := Increased(s.counters, h, 1, now))
    case Decrease(h) => s.(counters := Decreased(s.counters, h, 1))
  }

  ghost predicate IsRun(s: Table, steps: seq<Step>)
    decreases |steps|
  {
    steps == [] || (Enabled(s, steps[0]) && IsRun(Do(s, steps[0]), steps[1..]))
  }

  ghost function Outcome(s: Table, steps: seq<Step>): Table
    requires IsRun(s, steps)
    decreases |steps|
  {
    if steps == [] then s else Outcome(Do(s, steps[0]), steps[1..])
  }

  // ---- No lost update

  ghost predicate Current(s: Table) {
    s.published.Some? && BuiltFrom(s.published.value, s.objs)
  }

  /** Somebody is still going to make the refresher look again. */
  predicate Notified(s: Table) {
    s.signal || Mutated in s.handlers
  }

  /** The inductive form: what the refresher holds, or has published, is current or about to be redone. */
  ghost predicate Fresh(s: Table) {
    && WellNamed(s.objs)
    && match s.refresher
       case Unsynced => s.published.None?
       case AboutToSnapshot => true
       case Holding(tm) => BuiltFrom(tm, s.objs) || Notified(s)
       case Waiting => Current(s) || Notified(s)
       case Stopped => true
  }

  /** What does not touch the registry, the refresher or the notifications keeps this. */
  lemma FreshAlike(s: Table, s': Table)
    requires Fresh(s) && s'.objs == s.objs && s'.refresher == s.refresher && s'.published == s.published
    requires Notified(s) ==> Notified(s')
    ensures Fresh(s')
  {
  }

  /** A handler that has changed the registry is going to signal. */
  lemma MutateKeepsFresh(s: Table, ev: Event)
    requires Fresh(s) && Enabled(s, Mutate(ev))
    ensures Fresh(Do(s, Mutate(ev)))
  {
    assert Mutated in Do(s, Mutate(ev)).handlers;
  }

  lemma RefresherKeepsFresh(s: Table, step: Step)
    requires Fresh(s) && Enabled(s, step) && (RefresherStep(step) || step.Synced? || step.Cancel?)
    ensures Fresh(Do(s, step))
  {
  }

  lemma HandlerOrCounterKeepsFresh(s: Table, step: Step)
    requires Fresh(s) && Enabled(s, step)
    requires step.Begin? || step.Adjust? || step.Signal? || step.Increase? || step.Decrease?
    ensures Fresh(Do(s, step))
  {
    var s' := Do(s, step);
    assert s'.objs == s.objs && s'.refresher == s.refresher && s'.published == s.published;
    assert step.Signal? || (s'.signal == s.signal && s'.handlers[Mutated] == s.handlers[Mutated]);
    FreshAlike(s, s');
  }

  lemma StepKeepsFresh(s: Table, step: Step)
    requires Fresh(s) && Enabled(s, step)
    ensures Fresh(Do(s, step))
  {
    if step.Mutate? {
      MutateKeepsFresh(s, step.ev);
    } else if RefresherStep(step) || step.Synced? || step.Cancel? {
      RefresherKeepsFresh(s, step);
    } else {
      HandlerOrCounterKeepsFresh(s, step);
    }
  }

  lemma {:induction false} RunKeepsFresh(s: Table, steps: seq<Step>)
    requires Fresh(s) && IsRun(s, steps)
    ensures Fresh(Outcome(s, steps))
    decreases |steps|
  {
    if steps != [] {
      StepKeepsFresh(s, steps[0]);
      RunKeepsFresh(Do(s, steps[0]), steps[1..]);
    }
  }

  /** In every reachable state of any interleaving, once synced and until cancelled: the published
      memory is current, or a signal is pending, or a handler is about to signal, or the refresher
      is about to snapshot or holds a current snapshot. */
  lemma NoLostUpdate(steps: seq<Step>)
    requires IsRun(START, steps)
    ensures var s := Outcome(START, steps);
            s.refresher != Unsynced && s.refresher != Stopped ==>
              || Current(s)
              || s.signal
              || Mutated in s.handlers
              || s.refresher == AboutToSnapshot
              || (s.refresher.Holding? && BuiltFrom(s.refresher.tm, s.objs))
  {
    RunKeepsFresh(START, steps);
  }

  /** Nobody is doing or about to do anything. */
  predicate Quiescent(s: Table) {
    s.refresher == Waiting && !s.signal && s.handlers == multiset{}
  }

  /** What a request with a URL asks for; its Host header overrides the host of the URL. */
  function Target(url: URL, host: string): seq<string> {
    RouteSegments(if host != "" then host else url.host, url.path)
  }

  /** A request with a URL is routed by its target. */
  lemma RequestRoutes(tm: RouteMemory, objs: map<NamespacedName, HTTPSO>, url: URL, host: string)
    requires BuiltFrom(tm, objs)
    ensures IsScanResult(objs, Target(url, host), TableRoute(Some(tm), Some(Request(Some(url), host))))
  {
    RouteRefinesScan(tm, objs, if host != "" then host else url.host, url.path);
  }

  /** A quiescent table answers every request like a scan of the current registry, however many
      signals were dropped on the way. */
  lemma QuiescentRoutesByRegistry(steps: seq<Step>, url: URL, host: string)
    requires IsRun(START, steps) && Quiescent(Outcome(START, steps))
    ensures var s := Outcome(START, steps);
            IsScanResult(s.objs, Target(url, host), TableRoute(s.published, Some(Request(Some(url), host))))
  {
    RunKeepsFresh(START, steps);
    RequestRoutes(Outcome(START, steps).published.value, Outcome(START, steps).objs, url, host);
  }

  // ---- Catching up

  /** How many steps the refresher is behind when no handler is running. */
  function Lag(s: Table): nat {
    (if s.signal then 3 else 0) +
    match s.refresher
    case AboutToSnapshot => 2
    case Holding(_) => 1
    case _ => 0
  }

  predicate RefresherStep(step: Step) {
    step.Snapshot? || step.Publish? || step.Wake?
  }

  /** No refresher step is possible. */
  ghost predicate RefresherStuck(s: Table) {
    forall step | RefresherStep(step) :: !Enabled(s, step)
  }

  predicate Running(s: Table) {
    s.handlers == multiset{} && s.refresher != Unsynced && s.refresher != Stopped
  }

  /** Every step of the refresher alone brings it one step closer, and leaves the registry alone. */
  lemma RefresherStepLowersLag(s: Table, step: Step)
    requires Fresh(s) && Running(s) && RefresherStep(step) && Enabled(s, step)
    ensures Fresh(Do(s, step)) && Running(Do(s, step)) && Lag(Do(s, step)) == Lag(s) - 1 && Do(s, step).objs == s.objs
  {
    StepKeepsFresh(s, step);
  }

  /** While it lags it can move; when it does not, the table is quiescent and current. */
  lemma RefresherStuckMeans(s: Table)
    requires Fresh(s) && Running(s)
    ensures RefresherStuck(s) <==> Lag(s) == 0
    ensures Lag(s) == 0 ==> Quiescent(s) && Current(s)
  {
    if s.refresher == AboutToSnapshot {
      var order := EnumerationExists(s.objs);
      assert Enabled(s, Snapshot(MemoryOf(order)));
    } else if s.refresher.Holding? {
      assert Enabled(s, Publish);
    } else if s.signal {
      assert Enabled(s, Wake);
    }
  }

  lemma {:induction false} RefresherRuns(s: Table, steps: seq<Step>)
    requires Fresh(s) && Running(s) && IsRun(s, steps) && forall step | step in steps :: RefresherStep(step)
    ensures var s' := Outcome(s, steps);
            Fresh(s') && Running(s') && s'.objs == s.objs && |steps| + Lag(s') == Lag(s)
    decreases |steps|
  {
    if steps != [] {
      RefresherStepLowersLag(s, steps[0]);
      RefresherRuns(Do(s, steps[0]), steps[1..]);
    }
  }

  /** When handlers pause, after any run, every schedule of the refresher catches up: it takes at most Lag
      steps, and when it can take no more, which is after exactly Lag, the table is quiescent and
      current for the same registry. */
  lemma RefresherCatchesUp(before: seq<Step>, steps: seq<Step>)
    requires IsRun(START, before) && Running(Outcome(START, before)) && IsRun(Outcome(START, before), steps)
    requires forall step | step in steps :: RefresherStep(step)
    ensures var s := Outcome(START, before);
            var s' := Outcome(s, steps);
            && s'.objs == s.objs && |steps| <= Lag(s)
            && (RefresherStuck(s') <==> |steps| == Lag(s))
            && (RefresherStuck(s') ==> Quiescent(s') && Current(s'))
  {
    RunKeepsFresh(START, before);
    RefresherRuns(Outcome(START, before), steps);
    RefresherStuckMeans(Outcome(Outcome(START, before), steps));
  }

  // ---- One handler at a time

  /** A run in which the informer calls a handler only when none is running. */
  ghost predicate OneAtATime(s: Table, steps: seq<Step>)
    requires IsRun(s, steps)
    decreases |steps|
  {
    steps == [] ||
    ((steps[0].Begin? ==> s.handlers == multiset{}) && OneAtATime(Do(s, steps[0]), steps[1..]))
  }

  ghost predicate AtMostOne(handlers: multiset<Handler>) {
    handlers == multiset{} || exists h | h in handlers :: handlers == multiset{h}
  }

  /** What a step of such a run finds and leaves of the handlers. */
  lemma HandlersAfter(s: Table, step: Step)
    requires Enabled(s, step) && AtMostOne(s.handlers) && (step.Begin? ==> s.handlers == multiset{})
    ensures var after := Do(s, step).handlers;
            && AtMostOne(after)
            && match step
               case Begin(ev) => after == if ev.Tombstone? then multiset{} else multiset{FirstPhase(ev)}
               case Adjust(ev) => s.handlers == multiset{Begun(ev)} && after == multiset{Started(ev)}
               case Mutate(ev) => s.handlers == multiset{Started(ev)} && after == multiset{Mutated}
               case Signal => s.handlers == multiset{Mutated} && after == multiset{}
               case _ => after == s.handlers
  {
    var after := Do(s, step).handlers;
    match step {
      case Begin(ev) => assert !ev.Tombstone? ==> FirstPhase(ev) in after;
      case Adjust(ev) => assert s.handlers == multiset{Begun(ev)} && Started(ev) in after;
      case Mutate(ev) => assert s.handlers == multiset{Started(ev)} && Mutated in after;
      case Signal => assert s.handlers == multiset{Mutated};
      case _ =>
    }
  }

  lemma OneMore(s: Table, steps: seq<Step>)
    requires steps != [] && Enabled(s, steps[0]) && IsRun(Do(s, steps[0]), steps[1..])
    ensures IsRun(s, steps) && Outcome(s, steps) == Outcome(Do(s, steps[0]), steps[1..])
  {
  }

  lemma RunCons(s: Table, step: Step, steps: seq<Step>)
    requires Enabled(s, step) && IsRun(Do(s, step), steps)
    ensures IsRun(s, [step] + steps) && Outcome(s, [step] + steps) == Outcome(Do(s, step), steps)
  {
    assert ([step] + steps)[1..] == steps;
    OneMore(s, [step] + steps);
  }

  lemma {:induction false} RunConcat(s: Table, a: seq<Step>, b: seq<Step>)
    requires IsRun(s, a) && IsRun(Outcome(s, a), b)
    ensures IsRun(s, a + b) && Outcome(s, a + b) == Outcome(Outcome(s, a), b)
    decreases |a|
  {
    if a == [] {
      assert a + b == b;
    } else {
      RunConcat(Do(s, a[0]), a[1..], b);
      RunCons(s, a[0], a[1..] + b);
      assert a + b == [a[0]] + (a[1..] + b);
    }
  }
}
