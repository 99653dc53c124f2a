/** The registry of the routing table against the request counter (pkg/routing/table.go): when they agree
    on their keys, and when every object is counted with the window and granularity it asks for. */
module TableCounters {
  import opened Keys
  import opened TableMemory
  import opened TableMemoryLaws
  import Buckets
  import opened QueueMemory
  import opened RoutingTable

  // ---- Every registered name is counted

  ghost function Names(objs: map<NamespacedName, HTTPSO>): set<string> {
    set n | n in objs :: IndexKey(n)
  }

  /** The counter knows every registered object. */
  ghost predicate NamesCounted(s: Table) {
    Names(s.objs) <= s.counters.rps.Keys
  }

  /** The step does not register an object whose key is gone from the counter. */
  ghost predicate FindsKey(s: Table, step: Step) {
    step.Mutate? && Registers(step.ev) ==> IndexKey(step.ev.o.name) in s.counters.rps
  }

  ghost predicate NamesThroughout(s: Table, steps: seq<Step>)
    requires IsRun(s, steps)
    decreases |steps|
  {
    NamesCounted(s) && (steps == [] || NamesThroughout(Do(s, steps[0]), steps[1..]))
  }

  ghost predicate FindsThroughout(s: Table, steps: seq<Step>)
    requires IsRun(s, steps)
    decreases |steps|
  {
    steps == [] || (FindsKey(s, steps[0]) && FindsThroughout(Do(s, steps[0]), steps[1..]))
  }

  /** The names an event takes out of the registry, and its key out of the counter. */
  function Gone(ev: Event): set<string> {
    match ev
    case Updated(was, o) => if was.name != o.name then {IndexKey(was.name)} else {}
    case Deleted(o) => {IndexKey(o.name)}
    case _ => {}
  }

  /** The names it puts in. */
  function Come(ev: Event): set<string> {
    if Registers(ev) then {IndexKey(ev.o.name)} else {}
  }

  lemma NamesAfter(objs: map<NamespacedName, HTTPSO>, ev: Event)
    ensures Names(Changed(objs, ev)) == Names(objs) + Come(ev) - Gone(ev)
  {
    forall a: NamespacedName, b: NamespacedName
      ensures IndexKey(a) == IndexKey(b) ==> a == b
    {
      IndexKeyInjective(a, b);
    }
  }

  lemma DroppedRings(c: Counters, ev: Event)
    ensures Dropped(c, ev).rps.Keys == c.rps.Keys - Gone(ev)
  {
  }

  lemma StaysCome(ev: Event)
    ensures Come(ev) !! Gone(ev)
  {
    if ev.Updated? {
      IndexKeyInjective(ev.was.name, ev.o.name);
    }
  }

  lemma MutationCounts(objs: map<NamespacedName, HTTPSO>, c: Counters, ev: Event)
    requires Names(objs) <= c.rps.Keys
    ensures Names(Changed(objs, ev)) <= Dropped(c, ev).rps.Keys <==> Come(ev) <= c.rps.Keys
  {
    NamesAfter(objs, ev);
    DroppedRings(c, ev);
    StaysCome(ev);
    StillWithin(Names(objs), c.rps.Keys, Come(ev), Gone(ev));
  }

  lemma TellingGrows(c: Counters, ev: Event)
    requires CountableEvent(ev)
    ensures c.rps.Keys <= Told(c, ev).rps.Keys
    ensures Registers(ev) ==> c.rps.Keys <= Adjusted(c, ev).rps.Keys
  {
  }

  lemma OtherStepCounts(s: Table, step: Step)
    requires Enabled(s, step) && !step.Mutate?
    ensures Do(s, step).objs == s.objs && s.counters.rps.Keys <= Do(s, step).counters.rps.Keys
  {
    match step {
      case Begin(ev) => TellingGrows(s.counters, ev);
      case Adjust(ev) => TellingGrows(s.counters, ev);
      case Increase(h, now) => assert Do(s, step).counters.rps.Keys == s.counters.rps.Keys + {h};
      case _ =>
    }
  }

  /** A step leaves every registered name counted exactly when it finds its key. */
  lemma StepCounts(s: Table, step: Step)
    requires NamesCounted(s) && Enabled(s, step)
    ensures NamesCounted(Do(s, step)) <==> FindsKey(s, step)
  {
    if step.Mutate? {
      MutationCounts(s.objs, s.counters, step.ev);
    } else {
      OtherStepCounts(s, step);
    }
  }

  lemma StillWithin(names: set<string>, keys: set<string>, come: set<string>, gone: set<string>)
    requires names <= keys && come !! gone
    ensures names + come - gone <= keys - gone <==> come <= keys
  {
    if names + come - gone <= keys - gone {
      assert forall x | x in come :: x in names + come - gone;
    }
  }

  lemma {:induction false} NamesExactly(s: Table, steps: seq<Step>)
    requires NamesCounted(s) && IsRun(s, steps)
    ensures NamesThroughout(s, steps) <==> FindsThroughout(s, steps)
    decreases |steps|
  {
    if steps != [] {
      StepCounts(s, steps[0]);
      if FindsKey(s, steps[0]) {
        NamesExactly(Do(s, steps[0]), steps[1..]);
      }
    }
  }

  /** In every run, whether or not handlers overlap: the counter knows every registered object all along
      if and only if no handler registers an object after another one has taken its key away. */
  lemma NamesCountedExactly(steps: seq<Step>)
    requires IsRun(START, steps)
    ensures NamesThroughout(START, steps) <==> FindsThroughout(START, steps)
  {
    NamesExactly(START, steps);
  }

  lemma BothBegin(o: HTTPSO)
    requires CountableEvent(Added(o))
    ensures var steps := [Begin(Added(o)), Begin(Deleted(o))];
            && IsRun(START, steps)
            && var s := Outcome(START, steps);
               s.objs == map[] && s.handlers == multiset{Started(Added(o)), Started(Deleted(o))}
  {
    var steps := [Begin(Added(o)), Begin(Deleted(o))];
    var s1 := Do(START, steps[0]);
    OneMore(s1, steps[1..]);
    OneMore(START, steps);
  }

  lemma DeletionFirst(s: Table, o: HTTPSO)
    requires s.handlers == multiset{Started(Added(o)), Started(Deleted(o))}
    ensures var steps := [Mutate(Deleted(o)), Mutate(Added(o))];
            && IsRun(s, steps)
            && var s' := Outcome(s, steps);
               && o.name in s'.objs && s'.objs[o.name] == o
               && IndexKey(o.name) !in s'.counters.rps && IndexKey(o.name) !in s'.counters.concurrency
  {
    var steps := [Mutate(Deleted(o)), Mutate(Added(o))];
    assert Started(Added(o)) != Started(Deleted(o));
    var s1 := Do(s, steps[0]);
    assert s1.handlers == multiset{Started(Added(o)), Mutated};
    OneMore(s1, steps[1..]);
    OneMore(s, steps);
  }

  /** Such a run: a deletion overtakes an addition of the same name, and the object stays registered with
      its key in neither map of the counter. */
  lemma OvertakingLosesKey(o: HTTPSO)
    requires CountableEvent(Added(o))
    ensures var steps := [Begin(Added(o)), Begin(Deleted(o))] + [Mutate(Deleted(o)), Mutate(Added(o))];
            && IsRun(START, steps)
            && var s := Outcome(START, steps);
               && o.name in s.objs && s.objs[o.name] == o
               && IndexKey(o.name) !in s.counters.rps && IndexKey(o.name) !in s.counters.concurrency
  {
    var a, b := [Begin(Added(o)), Begin(Deleted(o))], [Mutate(Deleted(o)), Mutate(Added(o))];
    BothBegin(o);
    DeletionFirst(Outcome(START, a), o);
    RunConcat(START, a, b);
  }

  // ---- One handler at a time: registry and counter agree on their keys

  /** The key a running handler has told the counter about ahead of the registry. */
  function Ahead(h: Handler): set<string> {
    if h == Mutated then {} else Come(h.ev)
  }

  /** The counter knows the registered objects and what the one running handler is about to add. */
  ghost predicate Agree(s: Table) {
    && AtMostOne(s.handlers)
    && WellFormedCounters(s.counters) && SameKeys(s.counters)
    && (s.handlers == multiset{} ==> s.counters.rps.Keys == Names(s.objs))
    && forall h | h in s.handlers :: s.counters.rps.Keys == Names(s.objs) + Ahead(h)
  }

  lemma AgreeWithOne(s: Table, h: Handler)
    requires WellFormedCounters(s.counters) && SameKeys(s.counters)
    requires s.handlers == multiset{h} && s.counters.rps.Keys == Names(s.objs) + Ahead(h)
    ensures Agree(s)
  {
    assert h in s.handlers;
  }

  lemma ToldKeys(c: Counters, ev: Event)
    requires WellFormedCounters(c) && SameKeys(c) && CountableEvent(ev)
    ensures WellFormedCounters(Told(c, ev)) && SameKeys(Told(c, ev)) && Told(c, ev).rps.Keys == c.rps.Keys + Come(ev)
  {
    if Registers(ev) {
      RegistrationKeepsKeys(c, IndexKey(ev.o.name), RateOf(ev.o).window, RateOf(ev.o).granularity);
    }
  }

  lemma BeginAgrees(s: Table, ev: Event)
    requires Agree(s) && CountableEvent(ev) && s.handlers == multiset{}
    ensures Agree(Do(s, Begin(ev)))
  {
    if !ev.Tombstone? {
      ToldKeys(s.counters, ev);
      HandlersAfter(s, Begin(ev));
      AgreeWithOne(Do(s, Begin(ev)), FirstPhase(ev));
    }
  }

  lemma AdjustAgrees(s: Table, ev: Event)
    requires Agree(s) && Enabled(s, Adjust(ev))
    ensures Agree(Do(s, Adjust(ev)))
  {
    RegistrationKeepsKeys(s.counters, IndexKey(ev.o.name), RateOf(ev.o).window, RateOf(ev.o).granularity);
    HandlersAfter(s, Adjust(ev));
    AgreeWithOne(Do(s, Adjust(ev)), Started(ev));
  }

  /** Both sides of a handler's change remove and keep the same names. */
  lemma DroppedIsChanged(objs: map<NamespacedName, HTTPSO>, c: Counters, ev: Event)
    requires WellFormedCounters(c) && SameKeys(c) && c.rps.Keys == Names(objs) + Come(ev)
    ensures WellFormedCounters(Dropped(c, ev)) && SameKeys(Dropped(c, ev))
    ensures Dropped(c, ev).rps.Keys == Names(Changed(objs, ev))
  {
    NamesAfter(objs, ev);
    DroppedRings(c, ev);
    RemovalKeepsKeys(c, IndexKey(if ev.Updated? then ev.was.name else ev.o.name));
  }

  lemma KeysBeforeMutate(s: Table, ev: Event)
    requires Agree(s) && Enabled(s, Mutate(ev))
    ensures s.counters.rps.Keys == Names(s.objs) + Come(ev)
  {
    assert Started(ev) in s.handlers;
  }

  lemma MutatedParts(s: Table, ev: Event)
    requires Enabled(s, Mutate(ev))
    ensures var s' := Do(s, Mutate(ev)); s'.objs == Changed(s.objs, ev) && s'.counters == Dropped(s.counters, ev)
  {
  }

  lemma NothingAhead(objs: map<NamespacedName, HTTPSO>)
    ensures Names(objs) + Ahead(Mutated) == Names(objs)
  {
  }

  lemma MutateAgrees(s: Table, ev: Event)
    requires Agree(s) && Enabled(s, Mutate(ev))
    ensures Agree(Do(s, Mutate(ev)))
  {
    var s' := Do(s, Mutate(ev));
    MutatedParts(s, ev);
    KeysBeforeMutate(s, ev);
    DroppedIsChanged(s.objs, s.counters, ev);
    HandlersAfter(s, Mutate(ev));
    NothingAhead(s'.objs);
    AgreeWithOne(s', Mutated);
  }

  lemma SignalAgrees(s: Table)
    requires Agree(s) && Enabled(s, Signal)
    ensures Agree(Do(s, Signal))
  {
    HandlersAfter(s, Signal);
    assert Mutated in s.handlers;
  }

  /** Counters with the same keys agree just as well. */
  lemma AgreeBySameKeys(s: Table, s': Table)
    requires Agree(s) && s'.objs == s.objs && s'.handlers == s.handlers
    requires WellFormedCounters(s'.counters) && SameKeys(s'.counters) && s'.counters.rps.Keys == s.counters.rps.Keys
    ensures Agree(s')
  {
  }

  lemma CountAgrees(s: Table, step: Step)
    requires Agree(s) && Enabled(s, step) && (step.Increase? || step.Decrease?)
    ensures Agree(Do(s, step))
  {
    if step.Increase? {
      RequestsKeepKeys(s.counters, step.host, 1, step.now);
    } else {
      DecreaseKeepsKeys(s.counters, step.host);
    }
    AgreeBySameKeys(s, Do(s, step));
  }

  lemma DecreaseKeepsKeys(c: Counters, host: string)
    requires WellFormedCounters(c) && SameKeys(c)
    ensures var d := Decreased(c, host, 1); WellFormedCounters(d) && SameKeys(d) && d.rps.Keys == c.rps.Keys
  {
  }

  lemma StepAgrees(s: Table, step: Step)
    requires Agree(s) && Enabled(s, step) && (step.Begin? ==> s.handlers == multiset{})
    ensures Agree(Do(s, step))
  {
    match step {
      case Begin(ev) => BeginAgrees(s, ev);
      case Adjust(ev) => AdjustAgrees(s, ev);
      case Mutate(ev) => MutateAgrees(s, ev);
      case Signal => SignalAgrees(s);
      case Increase(_, _) => CountAgrees(s, step);
      case Decrease(_) => CountAgrees(s, step);
      case _ => AgreeBySameKeys(s, Do(s, step));
    }
  }

  lemma {:induction false} RunAgrees(s: Table, steps: seq<Step>)
    requires Agree(s) && IsRun(s, steps) && OneAtATime(s, steps)
    ensures Agree(Outcome(s, steps))
    decreases |steps|
  {
    if steps != [] {
      StepAgrees(s, steps[0]);
      RunAgrees(Do(s, steps[0]), steps[1..]);
    }
  }

  /** With one handler at a time: the counter knows every registered object always and nothing else
      between handlers, its two maps agree, and so every object a current table can route to may be
      counted. */
  lemma RoutedObjectsAreCounted(steps: seq<Step>, key: Key)
    requires IsRun(START, steps) && OneAtATime(START, steps)
    ensures var s := Outcome(START, steps);
            && SameKeys(s.counters) && NamesCounted(s)
            && (s.handlers == multiset{} ==> s.counters.rps.Keys == Names(s.objs))
            && (Current(s) && Route(s.published.value, key).Some? ==>
                  Enabled(s, Increase(IndexKey(Route(s.published.value, key).value.name), Buckets.SECOND)))
  {
    RunAgrees(START, steps);
    var s := Outcome(START, steps);
    if Current(s) && Route(s.published.value, key).Some? {
      var r := Route(s.published.value, key).value;
      var k :| k in s.published.value.store && s.published.value.store[k] == r;
      BuiltFromMeans(s.published.value, s.objs, k);
      assert IndexKey(r.name) in Names(s.objs);
    }
  }

  // ---- Rings have the shape their objects ask for

  predicate RingHas(c: Counters, name: NamespacedName, shape: Rate) {
    var k := IndexKey(name);
    k in c.rps && c.rps[k].window == shape.window && c.rps[k].granularity == shape.granularity
  }

  /** What an object asks for: its rate if it has one, else a minute in seconds. */
  function Asked(o: HTTPSO): Rate {
    if o.rate.None? then Rate(60_000_000_000, 1_000_000_000) else o.rate.value
  }

  predicate HasShape(c: Counters, o: HTTPSO) {
    RingHas(c, o.name, Asked(o))
  }

  /** The name whose registration a running handler is changing. */
  function Changing(h: Handler): Option<NamespacedName> {
    if h != Mutated && Registers(h.ev) then Some(h.ev.o.name) else None
  }

  ghost predicate ShapedBut(objs: map<NamespacedName, HTTPSO>, c: Counters, except: Option<NamespacedName>) {
    forall n | n in objs && Some(n) != except :: HasShape(c, objs[n])
  }

  /** How the one running handler leaves the shapes: its own object's ring is right once the counter has
      been told. */
  ghost predicate ShapedUnder(objs: map<NamespacedName, HTTPSO>, c: Counters, h: Handler) {
    ShapedBut(objs, c, Changing(h)) && (h.Started? && Registers(h.ev) ==> HasShape(c, h.ev.o))
  }

  /** Every registered object's ring has its shape, but for the one being changed. */
  ghost predicate Shaped(s: Table) {
    && (s.handlers == multiset{} ==> ShapedBut(s.objs, s.counters, None))
    && forall h | h in s.handlers :: ShapedUnder(s.objs, s.counters, h)
  }

  /** An addition is for a new name, or asks for the shape the name already has. */
  predicate Fits(objs: map<NamespacedName, HTTPSO>, step: Step) {
    step.Begin? && step.ev.Added? && step.ev.o.name in objs ==> Asked(objs[step.ev.o.name]) == Asked(step.ev.o)
  }

  ghost predicate AllFit(s: Table, steps: seq<Step>)
    requires IsRun(s, steps)
    decreases |steps|
  {
    steps == [] || (Fits(s.objs, steps[0]) && AllFit(Do(s, steps[0]), steps[1..]))
  }

  /** A change of the counter at one key leaves the shapes of all other objects. */
  lemma OthersKeepShape(c: Counters, c': Counters, name: NamespacedName, o: HTTPSO)
    requires o.name != name && HasShape(c, o)
    requires forall k | k in c.rps && k != IndexKey(name) :: k in c'.rps && c'.rps[k] == c.rps[k]
    ensures HasShape(c', o)
  {
    IndexKeyInjective(o.name, name);
  }

  lemma TellingShapes(objs: map<NamespacedName, HTTPSO>, c: Counters, ev: Event)
    requires ShapedBut(objs, c, None) && WellNamed(objs) && CountableEvent(ev) && Fits(objs, Begin(ev))
    requires ev.o.name !in objs ==> IndexKey(ev.o.name) !in c.rps
    ensures ShapedUnder(objs, Told(c, ev), FirstPhase(ev))
  {
    forall n | n in objs && n != ev.o.name
      ensures HasShape(Told(c, ev), objs[n])
    {
      OthersKeepShape(c, Told(c, ev), ev.o.name, objs[n]);
    }
    if ev.o.name in objs {
      assert HasShape(c, objs[ev.o.name]);
    }
  }

  lemma ShapedWithOne(s: Table, h: Handler)
    requires s.handlers == multiset{h} && ShapedUnder(s.objs, s.counters, h)
    ensures Shaped(s)
  {
    assert h in s.handlers;
  }

  lemma BeginShapes(s: Table, ev: Event)
    requires Shaped(s) && Agree(s) && WellNamed(s.objs) && s.handlers == multiset{} && CountableEvent(ev)
    requires Fits(s.objs, Begin(ev))
    ensures Shaped(Do(s, Begin(ev)))
  {
    if !ev.Tombstone? {
      if ev.o.name !in s.objs {
        NewKeyIsFree(s, ev.o.name);
      }
      TellingShapes(s.objs, s.counters, ev);
      HandlersAfter(s, Begin(ev));
      ShapedWithOne(Do(s, Begin(ev)), FirstPhase(ev));
    }
  }

  lemma NewKeyIsFree(s: Table, name: NamespacedName)
    requires Agree(s) && s.handlers == multiset{} && name !in s.objs
    ensures IndexKey(name) !in s.counters.rps
  {
    if IndexKey(name) in Names(s.objs) {
      var n :| n in s.objs && IndexKey(n) == IndexKey(name);
      IndexKeyInjective(n, name);
    }
  }

  lemma AdjustingShapes(objs: map<NamespacedName, HTTPSO>, c: Counters, ev: Event)
    requires ShapedUnder(objs, c, Begun(ev)) && WellNamed(objs) && ev.Updated? && CountableEvent(ev)
    requires IndexKey(ev.o.name) in c.rps
    ensures ShapedUnder(objs, Adjusted(c, ev), Started(ev))
  {
    forall n | n in objs && n != ev.o.name
      ensures HasShape(Adjusted(c, ev), objs[n])
    {
      OthersKeepShape(c, Adjusted(c, ev), ev.o.name, objs[n]);
    }
  }

  lemma AdjustShapes(s: Table, ev: Event)
    requires Shaped(s) && Agree(s) && WellNamed(s.objs) && Enabled(s, Adjust(ev))
    ensures Shaped(Do(s, Adjust(ev)))
  {
    assert ShapedUnder(s.objs, s.counters, Begun(ev));
    AdjustingShapes(s.objs, s.counters, ev);
    HandlersAfter(s, Adjust(ev));
    ShapedWithOne(Do(s, Adjust(ev)), Started(ev));
  }

  lemma ChangingShapes(objs: map<NamespacedName, HTTPSO>, c: Counters, ev: Event)
    requires ShapedUnder(objs, c, Started(ev)) && WellNamed(objs)
    ensures ShapedBut(Changed(objs, ev), Dropped(c, ev), None)
  {
    var objs', c' := Changed(objs, ev), Dropped(c, ev);
    forall n | n in objs'
      ensures HasShape(c', objs'[n])
    {
      if ev.Deleted? || (ev.Updated? && ev.was.name != ev.o.name) {
        OthersKeepShape(c, c', if ev.Updated? then ev.was.name else ev.o.name, objs'[n]);
      }
    }
  }

  lemma MutateShapes(s: Table, ev: Event)
    requires Shaped(s) && Agree(s) && WellNamed(s.objs) && Enabled(s, Mutate(ev))
    ensures Shaped(Do(s, Mutate(ev)))
  {
    assert ShapedUnder(s.objs, s.counters, Started(ev));
    ChangingShapes(s.objs, s.counters, ev);
    HandlersAfter(s, Mutate(ev));
    ShapedWithOne(Do(s, Mutate(ev)), Mutated);
  }

  lemma SignalShapes(s: Table)
    requires Shaped(s) && Agree(s) && Enabled(s, Signal)
    ensures Shaped(Do(s, Signal))
  {
    assert ShapedUnder(s.objs, s.counters, Mutated);
    HandlersAfter(s, Signal);
  }

  /** The same keys with rings of the same shapes. */
  ghost predicate SameShapes(c: Counters, c': Counters) {
    forall k | k in c.rps ::
      && k in c'.rps
      && c'.rps[k].window == c.rps[k].window && c'.rps[k].granularity == c.rps[k].granularity
  }

  lemma ShapedBySameShapes(s: Table, s': Table)
    requires Shaped(s) && s'.objs == s.objs && s'.handlers == s.handlers && SameShapes(s.counters, s'.counters)
    ensures Shaped(s')
  {
    forall o | HasShape(s.counters, o)
      ensures HasShape(s'.counters, o)
    {
    }
  }

  predicate HandlerStep(step: Step) {
    step.Begin? || step.Adjust? || step.Mutate? || step.Signal?
  }

  lemma OtherStepKeeps(s: Table, step: Step)
    requires Enabled(s, step) && !HandlerStep(step)
    ensures var s' := Do(s, step);
            s'.objs == s.objs && s'.handlers == s.handlers && SameShapes(s.counters, s'.counters)
  {
  }

  lemma StepShapes(s: Table, step: Step)
    requires Shaped(s) && Agree(s) && Fresh(s) && Enabled(s, step) && (step.Begin? ==> s.handlers == multiset{})
    requires Fits(s.objs, step)
    ensures Shaped(Do(s, step))
  {
    match step {
      case Begin(ev) => BeginShapes(s, ev);
      case Adjust(ev) => AdjustShapes(s, ev);
      case Mutate(ev) => MutateShapes(s, ev);
      case Signal => SignalShapes(s);
      case _ =>
        OtherStepKeeps(s, step);
        ShapedBySameShapes(s, Do(s, step));
    }
  }

  /** In every state of the run in which no handler is running, every ring has the shape its object asks
      for. */
  ghost predicate ShapedWhenQuiet(s: Table, steps: seq<Step>)
    requires IsRun(s, steps)
    decreases |steps|
  {
    && (s.handlers == multiset{} ==> ShapedBut(s.objs, s.counters, None))
    && (steps == [] || ShapedWhenQuiet(Do(s, steps[0]), steps[1..]))
  }

  // ---- Additions that do not fit

  /** The handler of an addition that found a ring of another shape is running. */
  ghost predicate KeepsOld(s: Table, o: HTTPSO, was: Rate) {
    && was != Asked(o) && RingHas(s.counters, o.name, was)
    && (s.handlers == multiset{Started(Added(o))} ||
        (s.handlers == multiset{Mutated} && o.name in s.objs && s.objs[o.name] == o))
  }

  /** In some state of the run no handler is running, the object is registered, and its ring has the old
      shape. */
  ghost predicate OldWhenQuiet(s: Table, steps: seq<Step>, o: HTTPSO, was: Rate)
    requires IsRun(s, steps)
    decreases |steps|
  {
    || (s.handlers == multiset{} && o.name in s.objs && s.objs[o.name] == o && RingHas(s.counters, o.name, was))
    || (steps != [] && OldWhenQuiet(Do(s, steps[0]), steps[1..], o, was))
  }

  lemma SomebodyRuns(s: Table, o: HTTPSO, was: Rate)
    requires KeepsOld(s, o, was)
    ensures s.handlers != multiset{}
  {
    assert Started(Added(o)) in s.handlers || Mutated in s.handlers;
  }

  lemma StepKeepsOld(s: Table, step: Step, o: HTTPSO, was: Rate)
    requires KeepsOld(s, o, was) && Enabled(s, step) && (step.Begin? ==> s.handlers == multiset{})
    ensures KeepsOld(Do(s, step), o, was) || OldWhenQuiet(Do(s, step), [], o, was)
  {
    SomebodyRuns(s, o, was);
    var h := if s.handlers == multiset{Mutated} then Mutated else Started(Added(o));
    assert h in s.handlers && s.handlers == multiset{h};
    if HandlerStep(step) {
      HandlersAfter(s, step);
    } else {
      OtherStepKeeps(s, step);
    }
  }

  lemma {:induction false} RunKeepsOld(s: Table, steps: seq<Step>, o: HTTPSO, was: Rate)
    requires KeepsOld(s, o, was) && IsRun(s, steps) && OneAtATime(s, steps)
    requires Outcome(s, steps).handlers == multiset{}
    ensures OldWhenQuiet(s, steps, o, was)
    decreases |steps|
  {
    SomebodyRuns(s, o, was);
    if steps != [] {
      StepKeepsOld(s, steps[0], o, was);
      if KeepsOld(Do(s, steps[0]), o, was) {
        RunKeepsOld(Do(s, steps[0]), steps[1..], o, was);
      }
    }
  }

  lemma {:induction false} OldIsNotShaped(s: Table, steps: seq<Step>, o: HTTPSO, was: Rate)
    requires IsRun(s, steps) && OldWhenQuiet(s, steps, o, was) && was != Asked(o)
    ensures !ShapedWhenQuiet(s, steps)
    decreases |steps|
  {
    if steps != [] && OldWhenQuiet(Do(s, steps[0]), steps[1..], o, was) {
      OldIsNotShaped(Do(s, steps[0]), steps[1..], o, was);
    }
  }

  lemma UnfitBegins(s: Table, o: HTTPSO)
    requires Shaped(s) && WellNamed(s.objs) && s.handlers == multiset{} && CountableEvent(Added(o))
    requires !Fits(s.objs, Begin(Added(o)))
    ensures KeepsOld(Do(s, Begin(Added(o))), o, Asked(s.objs[o.name]))
  {
    assert HasShape(s.counters, s.objs[o.name]);
    HandlersAfter(s, Begin(Added(o)));
  }

  /** After any run whose additions fit, one that does not fit leaves its object, whatever else happens,
      with the ring of the object it replaces once no handler is running. */
  lemma UnfitAdditionKeepsRing(before: seq<Step>, o: HTTPSO, steps: seq<Step>)
    requires IsRun(START, before) && OneAtATime(START, before) && AllFit(START, before)
    requires var s := Outcome(START, before);
             && s.handlers == multiset{} && CountableEvent(Added(o)) && !Fits(s.objs, Begin(Added(o)))
             && var s' := Do(s, Begin(Added(o)));
                IsRun(s', steps) && OneAtATime(s', steps) && Outcome(s', steps).handlers == multiset{}
    ensures var s := Outcome(START, before);
            OldWhenQuiet(Do(s, Begin(Added(o))), steps, o, Asked(s.objs[o.name]))
  {
    var s := Outcome(START, before);
    RunShapes(START, before);
    UnfitBegins(s, o);
    RunKeepsOld(Do(s, Begin(Added(o))), steps, o, Asked(s.objs[o.name]));
  }

  lemma {:induction false} RunShapes(s: Table, steps: seq<Step>)
    requires Shaped(s) && Agree(s) && Fresh(s) && IsRun(s, steps) && OneAtATime(s, steps) && AllFit(s, steps)
    ensures ShapedWhenQuiet(s, steps)
    ensures Shaped(Outcome(s, steps)) && Agree(Outcome(s, steps)) && Fresh(Outcome(s, steps))
    decreases |steps|
  {
    if steps != [] {
      StepShapes(s, steps[0]);
      StepAgrees(s, steps[0]);
      StepKeepsFresh(s, steps[0]);
      RunShapes(Do(s, steps[0]), steps[1..]);
    }
  }

  lemma {:induction false} UnfitRuns(s: Table, steps: seq<Step>)
    requires Shaped(s) && Agree(s) && Fresh(s) && IsRun(s, steps) && OneAtATime(s, steps) && !AllFit(s, steps)
    requires Outcome(s, steps).handlers == multiset{}
    ensures !ShapedWhenQuiet(s, steps)
    decreases |steps|
  {
    var s' := Do(s, steps[0]);
    if Fits(s.objs, steps[0]) {
      StepShapes(s, steps[0]);
      StepAgrees(s, steps[0]);
      StepKeepsFresh(s, steps[0]);
      UnfitRuns(s', steps[1..]);
    } else {
      var o := steps[0].ev.o;
      UnfitBegins(s, o);
      RunKeepsOld(s', steps[1..], o, Asked(s.objs[o.name]));
      OldIsNotShaped(s', steps[1..], o, Asked(s.objs[o.name]));
    }
  }

  /** With one handler at a time: if additions fit, every registered object is counted with the window and
      granularity it asks for whenever no handler is running; and for runs that end so, only then. */
  lemma RingsAsConfigured(steps: seq<Step>)
    requires IsRun(START, steps) && OneAtATime(START, steps)
    ensures AllFit(START, steps) ==> ShapedWhenQuiet(START, steps)
    ensures Outcome(START, steps).handlers == multiset{} ==> (ShapedWhenQuiet(START, steps) <==> AllFit(START, steps))
  {
    if AllFit(START, steps) {
      RunShapes(START, steps);
    } else if Outcome(START, steps).handlers == multiset{} {
      UnfitRuns(START, steps);
    }
  }
}
