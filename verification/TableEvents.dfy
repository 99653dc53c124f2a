/** The registry of the routing table against the objects that exist (pkg/routing/table.go): what the
    events of the informer amount to, and what an ignored deletion leaves behind. */
module TableEvents {
  import opened Keys
  import opened TableMemory
  import opened TableMemoryLaws
  import opened Routing
  import opened RoutingTable
  import opened TableCounters

  type Objects = map<NamespacedName, HTTPSO>

  /** The registry after the given events. */
  function Registry(events: seq<Event>): Objects {
    if events == [] then map[] else Changed(Registry(events[..|events| - 1]), events[|events| - 1])
  }

  /** What really exists after an event, in whatever form it is delivered. */
  function ReallyChanged(objs: Objects, ev: Event): Objects {
    match ev
    case Added(o) => objs[o.name := o]
    case Updated(was, o) => (objs - {was.name})[o.name := o]
    case Deleted(o) => objs - {o.name}
    case Tombstone(o) => objs - {o.name}
  }

  function Existing(events: seq<Event>): Objects {
    if events == [] then map[] else ReallyChanged(Existing(events[..|events| - 1]), events[|events| - 1])
  }

  /** What the informer can deliver: an addition of something that does not exist, and an update or a
      deletion of something that does. */
  predicate CanHappen(objs: Objects, ev: Event) {
    match ev
    case Added(o) => o.name !in objs
    case Updated(was, o) => was.name in objs
    case Deleted(o) => o.name in objs
    case Tombstone(o) => o.name in objs
  }

  predicate History(events: seq<Event>) {
    events == [] ||
    (History(events[..|events| - 1]) && CanHappen(Existing(events[..|events| - 1]), events[|events| - 1]))
  }

  // ---- By the latest event

  /** The event puts an object under the name. */
  predicate Puts(ev: Event, n: NamespacedName) {
    (ev.Added? || ev.Updated?) && ev.o.name == n
  }

  /** The event takes the name away: it deletes it, or renames it. A deletion may be ignored. */
  predicate Takes(ev: Event, n: NamespacedName, ignoring: bool) {
    || (ev.Deleted? && ev.o.name == n)
    || (ev.Tombstone? && ev.o.name == n && !ignoring)
    || (ev.Updated? && ev.was.name == n && ev.o.name != n)
  }

  /** Event k puts an object under the name, and no later event puts another there or takes it away. */
  predicate LatestAt(events: seq<Event>, k: nat, n: NamespacedName, ignoring: bool)
    requires k < |events|
  {
    Puts(events[k], n) && forall j | k < j < |events| :: !Puts(events[j], n) && !Takes(events[j], n, ignoring)
  }

  predicate HasLatest(events: seq<Event>, n: NamespacedName, ignoring: bool) {
    exists k | 0 <= k < |events| :: LatestAt(events, k, n, ignoring)
  }

  lemma LatestAfter(events: seq<Event>, n: NamespacedName, ignoring: bool)
    requires events != []
    ensures var front, ev := events[..|events| - 1], events[|events| - 1];
            && (HasLatest(events, n, ignoring) <==>
                Puts(ev, n) || (HasLatest(front, n, ignoring) && !Takes(ev, n, ignoring)))
            && (forall k | 0 <= k < |front| && LatestAt(events, k, n, ignoring) ::
                  !Puts(ev, n) && !Takes(ev, n, ignoring) && LatestAt(front, k, n, ignoring))
  {
    var m := |events| - 1;
    var front, ev := events[..m], events[m];
    assert forall j | 0 <= j < m :: front[j] == events[j];
    forall k | 0 <= k < m && LatestAt(events, k, n, ignoring)
      ensures !Puts(ev, n) && !Takes(ev, n, ignoring) && LatestAt(front, k, n, ignoring)
    {
      assert events[m] == ev;
    }
    if Puts(ev, n) {
      assert LatestAt(events, m, n, ignoring);
    } else if HasLatest(front, n, ignoring) && !Takes(ev, n, ignoring) {
      var k :| 0 <= k < |front| && LatestAt(front, k, n, ignoring);
      assert LatestAt(events, k, n, ignoring);
    }
  }

  /** For all events: a name is registered exactly when some event put an object there and no later event
      that the handlers heed put another there or took it away, and then it is that object. */
  lemma {:induction false} RegistryByEvents(events: seq<Event>, n: NamespacedName)
    ensures n in Registry(events) <==> HasLatest(events, n, true)
    ensures forall k | 0 <= k < |events| && LatestAt(events, k, n, true) ::
              n in Registry(events) && Registry(events)[n] == events[k].o
  {
    if events != [] {
      RegistryByEvents(events[..|events| - 1], n);
      LatestAfter(events, n, true);
    }
  }

  /** The same of what exists, where every deletion counts. */
  lemma {:induction false} ExistingByEvents(events: seq<Event>, n: NamespacedName)
    ensures n in Existing(events) <==> HasLatest(events, n, false)
    ensures forall k | 0 <= k < |events| && LatestAt(events, k, n, false) ::
              n in Existing(events) && Existing(events)[n] == events[k].o
  {
    if events != [] {
      ExistingByEvents(events[..|events| - 1], n);
      LatestAfter(events, n, false);
    }
  }

  // ---- What an ignored deletion leaves behind

  /** The event tells the handlers about the name. */
  predicate Concerns(ev: Event, n: NamespacedName) {
    !ev.Tombstone? && (ev.o.name == n || (ev.Updated? && ev.was.name == n))
  }

  /** The deletion of the name was ignored, and no event has concerned it since. */
  predicate Leftover(events: seq<Event>, n: NamespacedName) {
    exists k | 0 <= k < |events| :: LostAt(events, k, n)
  }

  predicate LostAt(events: seq<Event>, k: nat, n: NamespacedName)
    requires k < |events|
  {
    events[k].Tombstone? && events[k].o.name == n && forall j | k < j < |events| :: !Concerns(events[j], n)
  }

  lemma LeftoverAfter(events: seq<Event>, n: NamespacedName)
    requires events != []
    ensures var front, ev := events[..|events| - 1], events[|events| - 1];
            Leftover(events, n) <==> (ev.Tombstone? && ev.o.name == n) || (Leftover(front, n) && !Concerns(ev, n))
  {
    var m := |events| - 1;
    var front, ev := events[..m], events[m];
    if Leftover(events, n) {
      var k :| 0 <= k < |events| && LostAt(events, k, n);
      if k < m {
        assert LostAt(front, k, n);
      }
    }
    if ev.Tombstone? && ev.o.name == n {
      assert LostAt(events, m, n);
    }
    if Leftover(front, n) && !Concerns(ev, n) {
      var k :| 0 <= k < |front| && LostAt(front, k, n);
      assert LostAt(events, k, n);
    }
  }

  /** Name by name: the registry holds what exists, and besides it exactly the leftovers. */
  lemma {:induction false} RegistryAt(events: seq<Event>, n: NamespacedName)
    requires History(events)
    ensures n in Registry(events) <==> n in Existing(events) || Leftover(events, n)
    ensures n in Existing(events) ==> !Leftover(events, n) && Registry(events)[n] == Existing(events)[n]
  {
    if events != [] {
      RegistryAt(events[..|events| - 1], n);
      LeftoverAfter(events, n);
    }
  }

  /** For every history: the registry is what exists if and only if every ignored deletion is followed by
      another event for its name. */
  lemma RegistryIsExact(events: seq<Event>)
    requires History(events)
    ensures Registry(events) == Existing(events) <==> forall n :: !Leftover(events, n)
  {
    forall n
      ensures n in Registry(events) <==> n in Existing(events) || Leftover(events, n)
      ensures n in Existing(events) ==> !Leftover(events, n) && Registry(events)[n] == Existing(events)[n]
    {
      RegistryAt(events, n);
    }
    if forall n :: !Leftover(events, n) {
      assert Registry(events).Keys == Existing(events).Keys;
    }
  }

  predicate NothingLost(events: seq<Event>) {
    forall ev | ev in events :: !ev.Tombstone?
  }

  lemma NothingLeft(events: seq<Event>)
    requires NothingLost(events)
    ensures forall n :: !Leftover(events, n)
  {
  }

  // ---- The registry of a run

  /** The events delivered in a run. */
  function Events(steps: seq<Step>): seq<Event> {
    if steps == [] then [] else (if steps[0].Begin? then [steps[0].ev] else []) + Events(steps[1..])
  }

  /** The registry has taken in the given events, but for the last if its handler is still at it. */
  ghost predicate TakenIn(s: Table, events: seq<Event>) {
    && AtMostOne(s.handlers)
    && (s.handlers == multiset{} || s.handlers == multiset{Mutated} ==> s.objs == Registry(events))
    && forall h | h in s.handlers && h != Mutated ::
         events != [] && events[|events| - 1] == h.ev && s.objs == Registry(events[..|events| - 1])
  }

  lemma EventOf(step: Step)
    ensures Events([step]) == if step.Begin? then [step.ev] else []
  {
    assert [step][1..] == [];
  }

  lemma BeginTakesIn(s: Table, ev: Event, events: seq<Event>)
    requires TakenIn(s, events) && CountableEvent(ev) && s.handlers == multiset{}
    ensures TakenIn(Do(s, Begin(ev)), events + [ev])
  {
    HandlersAfter(s, Begin(ev));
    assert (events + [ev])[..|events|] == events;
  }

  lemma MutateTakesIn(s: Table, ev: Event, events: seq<Event>)
    requires TakenIn(s, events) && Enabled(s, Mutate(ev))
    ensures TakenIn(Do(s, Mutate(ev)), events)
  {
    HandlersAfter(s, Mutate(ev));
    assert Started(ev) in s.handlers;
    assert Changed(Registry(events[..|events| - 1]), ev) == Registry(events);
  }

  lemma OtherTakesIn(s: Table, step: Step, events: seq<Event>)
    requires TakenIn(s, events) && Enabled(s, step) && !step.Begin? && !step.Mutate?
    ensures TakenIn(Do(s, step), events)
  {
    HandlersAfter(s, step);
    match step {
      case Adjust(ev) => assert Begun(ev) in s.handlers;
      case Signal => assert Mutated in s.handlers;
      case _ =>
    }
  }

  lemma StepTakesIn(s: Table, step: Step, events: seq<Event>)
    requires TakenIn(s, events) && Enabled(s, step) && (step.Begin? ==> s.handlers == multiset{})
    ensures TakenIn(Do(s, step), events + Events([step]))
  {
    EventOf(step);
    if step.Begin? {
      BeginTakesIn(s, step.ev, events);
    } else {
      assert events + Events([step]) == events;
      if step.Mutate? {
        MutateTakesIn(s, step.ev, events);
      } else {
        OtherTakesIn(s, step, events);
      }
    }
  }

  lemma EventsStep(steps: seq<Step>)
    requires steps != []
    ensures Events(steps) == Events([steps[0]]) + Events(steps[1..])
  {
    EventOf(steps[0]);
  }

  lemma PastAndNext(past: seq<Event>, steps: seq<Step>)
    requires steps != []
    ensures past + Events(steps) == past + Events([steps[0]]) + Events(steps[1..])
  {
    EventsStep(steps);
  }

  lemma {:induction false} RunTakesIn(s: Table, steps: seq<Step>, events: seq<Event>)
    requires TakenIn(s, events) && IsRun(s, steps) && OneAtATime(s, steps)
    ensures TakenIn(Outcome(s, steps), events + Events(steps))
    decreases |steps|
  {
    if steps == [] {
      assert events + Events(steps) == events;
    } else {
      var next := events + Events([steps[0]]);
      StepTakesIn(s, steps[0], events);
      RunTakesIn(Do(s, steps[0]), steps[1..], next);
      PastAndNext(events, steps);
    }
  }

  /** With one handler at a time, whenever no handler is running: the registry is what exists if and only
      if nothing is left over from an ignored deletion. */
  lemma RegistryOfRun(steps: seq<Step>)
    requires IsRun(START, steps) && OneAtATime(START, steps) && History(Events(steps))
    requires Outcome(START, steps).handlers == multiset{}
    ensures Outcome(START, steps).objs == Existing(Events(steps)) <==> forall n :: !Leftover(Events(steps), n)
  {
    RunTakesIn(START, steps, []);
    assert [] + Events(steps) == Events(steps);
    RegistryIsExact(Events(steps));
  }

  /** A quiescent table with no leftovers answers every request like a scan of the objects that exist. */
  lemma QuiescentRoutesByExisting(steps: seq<Step>, url: URL, host: string)
    requires IsRun(START, steps) && OneAtATime(START, steps) && History(Events(steps))
    requires Quiescent(Outcome(START, steps)) && forall n :: !Leftover(Events(steps), n)
    ensures IsScanResult(Existing(Events(steps)), Target(url, host),
                         TableRoute(Outcome(START, steps).published, Some(Request(Some(url), host))))
  {
    RegistryOfRun(steps);
    QuiescentRoutesByRegistry(steps, url, host);
  }

  // ---- Additions fit unless a deletion was ignored

  lemma {:induction false} HistoryPrefix(a: seq<Event>, b: seq<Event>)
    requires History(a + b)
    ensures History(a)
    decreases |b|
  {
    if b == [] {
      assert a + b == a;
    } else {
      assert (a + b)[..|a + b| - 1] == a + b[..|b| - 1];
      HistoryPrefix(a, b[..|b| - 1]);
    }
  }

  /** An addition of a registered name means that its deletion was ignored. */
  lemma AddedTwiceMeansLeftover(events: seq<Event>, ev: Event)
    requires History(events + [ev]) && ev.Added? && ev.o.name in Registry(events)
    ensures Leftover(events, ev.o.name)
  {
    assert (events + [ev])[..|events|] == events;
    RegistryAt(events, ev.o.name);
  }

  lemma {:induction false} HistoryFits(s: Table, steps: seq<Step>, events: seq<Event>)
    requires TakenIn(s, events) && IsRun(s, steps) && OneAtATime(s, steps)
    requires History(events + Events(steps)) && NothingLost(events + Events(steps))
    ensures AllFit(s, steps)
    decreases |steps|
  {
    if steps != [] {
      var next := events + Events([steps[0]]);
      PastAndNext(events, steps);
      assert forall ev | ev in events :: ev in events + Events(steps);
      if steps[0].Begin? && steps[0].ev.Added? {
        EventOf(steps[0]);
        HistoryPrefix(next, Events(steps[1..]));
        NothingLeft(events);
        if steps[0].ev.o.name in s.objs {
          AddedTwiceMeansLeftover(events, steps[0].ev);
        }
      }
      StepTakesIn(s, steps[0], events);
      HistoryFits(Do(s, steps[0]), steps[1..], next);
    }
  }

  /** So as long as no deletion is ignored, every object is counted as it asks. */
  lemma RingsOfHistory(steps: seq<Step>)
    requires IsRun(START, steps) && OneAtATime(START, steps)
    requires History(Events(steps)) && NothingLost(Events(steps))
    ensures AllFit(START, steps) && ShapedWhenQuiet(START, steps)
  {
    assert [] + Events(steps) == Events(steps);
    HistoryFits(START, steps, []);
    RingsAsConfigured(steps);
  }

  // ---- A run that the informer can cause and that ends wrong

  lemma OneMoreSerial(s: Table, steps: seq<Step>)
    requires steps != [] && Enabled(s, steps[0]) && (steps[0].Begin? ==> s.handlers == multiset{})
    requires IsRun(Do(s, steps[0]), steps[1..]) && OneAtATime(Do(s, steps[0]), steps[1..])
    ensures IsRun(s, steps) && OneAtATime(s, steps)
    ensures Outcome(s, steps) == Outcome(Do(s, steps[0]), steps[1..])
  {
    OneMore(s, steps);
  }

  lemma SerialCons(s: Table, step: Step, steps: seq<Step>)
    requires Enabled(s, step) && (step.Begin? ==> s.handlers == multiset{})
    requires IsRun(Do(s, step), steps) && OneAtATime(Do(s, step), steps)
    ensures IsRun(s, [step] + steps) && OneAtATime(s, [step] + steps)
    ensures Outcome(s, [step] + steps) == Outcome(Do(s, step), steps)
  {
    assert ([step] + steps)[1..] == steps;
    OneMoreSerial(s, [step] + steps);
  }

  /** The handler of an addition from its beginning to its end, and the table after it. */
  function Addition(o: HTTPSO): seq<Step> {
    [Begin(Added(o)), Mutate(Added(o)), Signal]
  }

  function Having(s: Table, o: HTTPSO): Table
    requires CountableEvent(Added(o))
  {
    s.(objs := s.objs[o.name := o], counters := Told(s.counters, Added(o)), signal := true)
  }

  lemma AdditionThen(s: Table, o: HTTPSO, rest: seq<Step>)
    requires s.handlers == multiset{} && CountableEvent(Added(o))
    requires IsRun(Having(s, o), rest) && OneAtATime(Having(s, o), rest)
    ensures IsRun(s, Addition(o) + rest) && OneAtATime(s, Addition(o) + rest)
    ensures Outcome(s, Addition(o) + rest) == Outcome(Having(s, o), rest)
  {
    var s1 := Do(s, Begin(Added(o)));
    HandlersAfter(s, Begin(Added(o)));
    assert Started(Added(o)) in s1.handlers;
    var s2 := Do(s1, Mutate(Added(o)));
    HandlersAfter(s1, Mutate(Added(o)));
    assert Mutated in s2.handlers;
    HandlersAfter(s2, Signal);
    assert Do(s2, Signal) == Having(s, o);
    SerialCons(s2, Signal, rest);
    SerialCons(s1, Mutate(Added(o)), [Signal] + rest);
    SerialCons(s, Begin(Added(o)), [Mutate(Added(o))] + ([Signal] + rest));
    assert Addition(o) + rest == [Begin(Added(o))] + ([Mutate(Added(o))] + ([Signal] + rest));
  }

  lemma AdditionEvents(o: HTTPSO)
    ensures Events(Addition(o)) == [Added(o)]
  {
    var steps := Addition(o);
    assert steps[1..] == [Mutate(Added(o)), Signal] && steps[1..][1..] == [Signal];
    EventsStep(steps);
    EventsStep(steps[1..]);
    EventOf(steps[0]);
    EventOf(steps[1]);
    EventOf(steps[2]);
  }

  lemma EventsCons(step: Step, steps: seq<Step>)
    ensures Events([step] + steps) == Events([step]) + Events(steps)
  {
    assert ([step] + steps)[1..] == steps;
    EventsStep([step] + steps);
  }

  lemma {:induction false} EventsConcat(a: seq<Step>, b: seq<Step>)
    ensures Events(a + b) == Events(a) + Events(b)
  {
    if a == [] {
      assert a + b == b;
    } else {
      EventsConcat(a[1..], b);
      EventsStep(a);
      EventsCons(a[0], a[1..] + b);
      assert a + b == [a[0]] + (a[1..] + b);
    }
  }

  /** The object is deleted, which the handler ignores: it stays registered though nothing exists. */
  lemma DeletedStaysRegistered(o: HTTPSO) returns (steps: seq<Step>)
    requires CountableEvent(Added(o))
    ensures IsRun(START, steps) && OneAtATime(START, steps) && Events(steps) == [Added(o), Tombstone(o)]
    ensures History(Events(steps)) && Existing(Events(steps)) == map[]
    ensures var s := Outcome(START, steps); s.handlers == multiset{} && s.objs == map[o.name := o]
  {
    var lost := Begin(Tombstone(o));
    SerialCons(Having(START, o), lost, []);
    assert [lost] + [] == [lost];
    AdditionThen(START, o, [lost]);
    steps := Addition(o) + [lost];
    EventsConcat(Addition(o), [lost]);
    AdditionEvents(o);
    EventOf(lost);
    AddAndLose(o);
  }

  lemma AddAndLose(o: HTTPSO)
    ensures var events := [Added(o), Tombstone(o)]; History(events) && Existing(events) == map[]
  {
    var events := [Added(o), Tombstone(o)];
    assert events[..1] == [Added(o)] && [Added(o)][..0] == [];
    assert Existing([Added(o)]) == map[o.name := o] && History([Added(o)]);
  }

  /** Created anew with another window or granularity, it is counted with the old ones. */
  lemma RecreatedKeepsRing(o: HTTPSO, o': HTTPSO) returns (steps: seq<Step>)
    requires CountableEvent(Added(o)) && CountableEvent(Added(o')) && o.name == o'.name && Asked(o) != Asked(o')
    ensures IsRun(START, steps) && OneAtATime(START, steps) && History(Events(steps))
    ensures var s := Outcome(START, steps);
            && s.handlers == multiset{} && s.objs == Existing(Events(steps)) == map[o.name := o']
            && RingHas(s.counters, o.name, Asked(o)) && !HasShape(s.counters, o')
  {
    var s, lost := Having(START, o), Begin(Tombstone(o));
    AdditionThen(s, o', []);
    assert Addition(o') + [] == Addition(o');
    SerialCons(s, lost, Addition(o'));
    AdditionThen(START, o, [lost] + Addition(o'));
    steps := Addition(o) + ([lost] + Addition(o'));
    RecreatedEvents(o, o');
  }

  lemma RecreatedEvents(o: HTTPSO, o': HTTPSO)
    requires o.name == o'.name
    ensures var events := Events(Addition(o) + ([Begin(Tombstone(o))] + Addition(o')));
            History(events) && Existing(events) == map[o.name := o']
  {
    var lost := Begin(Tombstone(o));
    EventsConcat(Addition(o), [lost] + Addition(o'));
    EventsConcat([lost], Addition(o'));
    AdditionEvents(o);
    AdditionEvents(o');
    EventOf(lost);
    AddAndLose(o);
    var events := [Added(o), Tombstone(o), Added(o')];
    assert events[..2] == [Added(o), Tombstone(o)];
    assert events == [Added(o)] + ([Tombstone(o)] + [Added(o')]);
  }
}
