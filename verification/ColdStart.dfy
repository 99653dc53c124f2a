/** The cold-start wait (interceptor/forward_wait_func.go) against its environment, the endpoints
    cache (pkg/k8s/endpoints_cache_informer.go): the informer writes its store before it queues the
    notification, the broadcaster hands events to registered watchers in order, and the waiter
    registers its watcher before it reads the store. */
module ColdStart {
  import opened Keys

  /** A missing readiness condition counts as ready. */
  datatype Endpoint = Endpoint(ready: Option<bool>, addresses: seq<string>)

  datatype Service = Service(namespace: string, name: string)

  /** A slice is known by the service its label names and by its own name; a service may have several. */
  datatype Id = Id(service: Service, name: string)

  datatype Slice = Slice(id: Id, endpoints: seq<Endpoint>)

  predicate Ready(e: Endpoint) {
    e.ready == None || e.ready == Some(true)
  }

  function ActiveAddresses(endpoints: seq<Endpoint>): nat {
    if endpoints == [] then 0
    else
      var m := |endpoints| - 1;
      ActiveAddresses(endpoints[..m]) + if Ready(endpoints[m]) then |endpoints[m].addresses| else 0
  }

  method WorkloadActiveEndpoints(slice: Slice) returns (total: nat)
    ensures total == ActiveAddresses(slice.endpoints)
  {
    total := 0;
    for i := 0 to |slice.endpoints|
      invariant total == ActiveAddresses(slice.endpoints[..i])
    {
      var e := slice.endpoints[i];
      if e.ready == None || e.ready == Some(true) {
        total := total + |e.addresses|;
      }
      assert slice.endpoints[..i + 1][..i] == slice.endpoints[..i];
    }
    assert slice.endpoints[..|slice.endpoints|] == slice.endpoints;
  }

  predicate Active(slice: Slice) {
    ActiveAddresses(slice.endpoints) > 0
  }

  lemma ReadyMeans(e: Endpoint)
    ensures Ready(e) <==> e.ready != Some(false)
  {
    if e.ready.Some? && e.ready.value {
      assert e.ready == Some(true);
    } else if e.ready.Some? {
      assert e.ready == Some(false);
    }
  }

  /** One endpoint more adds its addresses, unless it is declared unready. */
  lemma AddressesAfter(endpoints: seq<Endpoint>, e: Endpoint)
    ensures ActiveAddresses(endpoints + [e]) ==
            ActiveAddresses(endpoints) + if e.ready == Some(false) then 0 else |e.addresses|
  {
    assert (endpoints + [e])[..|endpoints|] == endpoints;
    ReadyMeans(e);
  }

  /** Wherever it is listed. */
  lemma {:induction false} AddressesAddUp(front: seq<Endpoint>, e: Endpoint, back: seq<Endpoint>)
    ensures ActiveAddresses(front + [e] + back) ==
            ActiveAddresses(front + back) + if e.ready == Some(false) then 0 else |e.addresses|
  {
    if back == [] {
      assert front + [e] + back == front + [e] && front + back == front;
      AddressesAfter(front, e);
    } else {
      var m := |back| - 1;
      AddressesAddUp(front, e, back[..m]);
      assert front + [e] + back == front + [e] + back[..m] + [back[m]] && front + back == front + back[..m] + [back[m]];
      AddressesAfter(front + [e] + back[..m], back[m]);
      AddressesAfter(front + back[..m], back[m]);
    }
  }

  /** A slice is active exactly when an endpoint that is not declared unready has an address. */
  lemma {:induction false} ActiveMeansReady(endpoints: seq<Endpoint>)
    ensures ActiveAddresses(endpoints) > 0 <==>
            exists i | 0 <= i < |endpoints| :: endpoints[i].ready != Some(false) && endpoints[i].addresses != []
  {
    if endpoints != [] {
      var m := |endpoints| - 1;
      ActiveMeansReady(endpoints[..m]);
      AddressesAfter(endpoints[..m], endpoints[m]);
      assert endpoints == endpoints[..m] + [endpoints[m]];
      assert forall i | 0 <= i < m :: endpoints[..m][i] == endpoints[i];
    }
  }

  // ---- The protocol

  /** initial is the slice the first read returned, seen the one that ended the wait. */
  datatype Waiter =
    | Idle
    | Watching
    | Polling(initial: Slice)
    | Returned(cold: bool, initial: Slice, seen: Slice)
    | GetFailed
    | TimedOut

  /** The informer's store, its notifications on their way to the broadcaster, and the watcher's
      channel behind the filter for its service. */
  datatype World = World(cache: map<Id, Slice>, due: seq<Slice>, queue: seq<Slice>, waiter: Waiter)

  /** A deletion that the informer learns of by listing anew comes as an object of another type, which is
      not forwarded: the slice vanishes. Get reads the first slice of a listing in no particular order:
      any slice of the service. */
  datatype Step =
    | Upsert(slice: Slice)
    | Delete(id: Id)
    | Vanish(id: Id)
    | Distribute
    | Watch
    | Get(pick: Id)
    | GetNone
    | Receive
    | Timeout

  predicate Enabled(w: World, me: Service, step: Step) {
    match step
    case Upsert(_) => true
    case Delete(id) => id in w.cache
    case Vanish(id) => id in w.cache
    case Distribute => w.due != []
    case Watch => w.waiter == Idle
    case Get(pick) => w.waiter == Watching && pick in w.cache && pick.service == me
    case GetNone => w.waiter == Watching && forall id | id in w.cache :: id.service != me
    case Receive => w.waiter.Polling? && w.queue != []
    case Timeout => w.waiter.Polling?
  }

  /** The active slices of the service. */
  function ActiveIds(w: World, me: Service): set<Id> {
    set id | id in w.cache && id.service == me && Active(w.cache[id])
  }

  function Do(w: World, me: Service, step: Step): World
    requires Enabled(w, me, step)
  {
    match step
    case Upsert(slice) => w.(cache := w.cache[slice.id := slice], due := w.due + [slice])
    case Delete(id) => w.(cache := w.cache - {id}, due := w.due + [w.cache[id]])
    case Vanish(id) => w.(cache := w.cache - {id})
    case Distribute =>
      var mine := w.due[0].id.service == me && (w.waiter == Watching || w.waiter.Polling?);
      w.(due := w.due[1..], queue := if mine then w.queue + [w.due[0]] else w.queue)
    case Watch => w.(waiter := Watching)
    case Get(pick) =>
      var slice := w.cache[pick];
      w.(waiter := if Active(slice) then Returned(false, slice, slice) else Polling(slice))
    case GetNone => w.(waiter := GetFailed)
    case Receive =>
      var e := w.queue[0];
      w.(queue := w.queue[1..], waiter := if Active(e) then Returned(true, w.waiter.initial, e) else w.waiter)
    case Timeout => w.(waiter := TimedOut)
  }

  /** The latest of the given events that concerns the slice. */
  function Latest(events: seq<Slice>, id: Id): Option<Slice> {
    if events == [] then None
    else if events[|events| - 1].id == id then Some(events[|events| - 1])
    else Latest(events[..|events| - 1], id)
  }

  /** What is still on its way to the waiter. */
  function Coming(w: World): seq<Slice> {
    w.queue + w.due
  }

  predicate Finished(waiter: Waiter) {
    waiter.Returned? || waiter.GetFailed? || waiter.TimedOut?
  }

  ghost predicate Inv(w: World, me: Service) {
    && (forall id | id in w.cache :: w.cache[id].id == id)
    && (forall e | e in w.queue :: e.id.service == me)
    && (w.waiter == Idle ==> w.queue == [])
    && (w.waiter.Polling? ==> !Active(w.waiter.initial))
    && (w.waiter.Returned? ==> Active(w.waiter.seen) && (w.waiter.cold ==> !Active(w.waiter.initial)))
  }

  /** Until the waiter is done, the cached slice is the latest news of it on the way, or no news of it is;
      and if none is while it waits, then the slice is inactive or stale: active without its knowing. */
  ghost predicate Informed(w: World, id: Id, stale: bool) {
    id in w.cache && !Finished(w.waiter) ==>
      var latest := Latest(Coming(w), id);
      && (latest == None || latest == Some(w.cache[id]))
      && (w.waiter.Polling? && latest == None && Active(w.cache[id]) ==> stale)
  }

  /** The step changes the slice. */
  predicate Touches(step: Step, id: Id) {
    (step.Upsert? && step.slice.id == id) || ((step.Delete? || step.Vanish?) && step.id == id)
  }

  /** The step is the first read, it picks an inactive slice, and the given one is active. */
  predicate Overlooks(w: World, me: Service, step: Step, id: Id)
    requires Enabled(w, me, step)
  {
    step.Get? && !Active(w.cache[step.pick]) && id in ActiveIds(w, me)
  }

  lemma LatestAppend(events: seq<Slice>, e: Slice, id: Id)
    ensures Latest(events + [e], id) == if e.id == id then Some(e) else Latest(events, id)
  {
    assert (events + [e])[..|events|] == events;
  }

  /** Taking away the first event matters only if it was the only one for the slice. */
  lemma {:induction false} LatestTail(e: Slice, events: seq<Slice>, id: Id)
    ensures Latest([e] + events, id) ==
            if Latest(events, id) == None then (if e.id == id then Some(e) else None) else Latest(events, id)
  {
    if events == [] {
      assert [e] + events == [e] && [e][..0] == [];
    } else {
      var m := |events| - 1;
      LatestTail(e, events[..m], id);
      assert ([e] + events)[..m + 1] == [e] + events[..m];
    }
  }

  /** Dropping an event of another slice matters not at all. */
  lemma {:induction false} LatestWithout(front: seq<Slice>, e: Slice, back: seq<Slice>, id: Id)
    requires e.id != id
    ensures Latest(front + [e] + back, id) == Latest(front + back, id)
  {
    if back == [] {
      assert front + [e] + back == front + [e] && front + back == front;
      LatestAppend(front, e, id);
    } else {
      var m := |back| - 1;
      LatestWithout(front, e, back[..m], id);
      assert (front + [e] + back)[..|front| + 1 + m] == front + [e] + back[..m];
      assert (front + back)[..|front| + m] == front + back[..m];
    }
  }

  /** Distribution loses no event for a registered watcher, and before that only what is not the latest. */
  lemma DistributeInforms(w: World, me: Service, id: Id, stale: bool)
    requires Inv(w, me) && w.due != [] && id.service == me && Informed(w, id, stale)
    ensures Informed(Do(w, me, Distribute), id, stale)
  {
    var e, rest, w' := w.due[0], w.due[1..], Do(w, me, Distribute);
    assert Coming(w) == w.queue + [e] + rest;
    if e.id.service == me && (w.waiter == Watching || w.waiter.Polling?) {
      assert Coming(w') == Coming(w);
    } else if w.waiter == Idle {
      LatestTail(e, rest, id);
      assert Coming(w) == [e] + rest && Coming(w') == rest;
    } else if e.id.service != me {
      LatestWithout(w.queue, e, rest, id);
    }
  }

  lemma ReceiveInforms(w: World, me: Service, id: Id, stale: bool)
    requires Inv(w, me) && Enabled(w, me, Receive) && id.service == me && Informed(w, id, stale)
    ensures Informed(Do(w, me, Receive), id, stale)
  {
    assert Coming(w) == [w.queue[0]] + (w.queue[1..] + w.due);
    LatestTail(w.queue[0], w.queue[1..] + w.due, id);
  }

  /** A new or changed slice, or the end of one, is announced in order. */
  lemma ChangeInforms(w: World, me: Service, step: Step, id: Id, stale: bool)
    requires Inv(w, me) && Enabled(w, me, step) && (step.Upsert? || step.Delete?) && Informed(w, id, stale)
    ensures Informed(Do(w, me, step), id, stale && !Touches(step, id))
  {
    var e := if step.Upsert? then step.slice else w.cache[step.id];
    LatestAppend(Coming(w), e, id);
    assert Coming(Do(w, me, step)) == Coming(w) + [e];
  }

  /** Every step of the cluster, the broadcaster and the waiter keeps every slice of the service informed;
      only the first read can make one stale, and the next change of it makes it known again. */
  lemma StepInforms(w: World, me: Service, step: Step, id: Id, stale: bool)
    requires Inv(w, me) && Enabled(w, me, step) && id.service == me && Informed(w, id, stale)
    ensures Inv(Do(w, me, step), me)
    ensures Informed(Do(w, me, step), id, (stale && !Touches(step, id)) || Overlooks(w, me, step, id))
  {
    StepKeepsInv(w, me, step);
    match step {
      case Upsert(_) => ChangeInforms(w, me, step, id, stale);
      case Delete(_) => ChangeInforms(w, me, step, id, stale);
      case Distribute => DistributeInforms(w, me, id, stale);
      case Receive => ReceiveInforms(w, me, id, stale);
      case _ =>
    }
  }

  lemma StepKeepsInv(w: World, me: Service, step: Step)
    requires Inv(w, me) && Enabled(w, me, step)
    ensures Inv(Do(w, me, step), me)
  {
  }

  // ---- Whole runs

  predicate IsRun(w: World, me: Service, steps: seq<Step>)
    decreases |steps|
  {
    steps == [] || (Enabled(w, me, steps[0]) && IsRun(Do(w, me, steps[0]), me, steps[1..]))
  }

  function Outcome(w: World, me: Service, steps: seq<Step>): World
    requires IsRun(w, me, steps)
    decreases |steps|
  {
    if steps == [] then w else Outcome(Do(w, me, steps[0]), me, steps[1..])
  }

  const START: World := World(map[], [], [], Idle)

  predicate Untouched(steps: seq<Step>, id: Id) {
    forall step | step in steps :: !Touches(step, id)
  }

  /** In the run, the first read overlooked the slice, which was not changed after that. */
  predicate OverlookedIn(w: World, me: Service, steps: seq<Step>, id: Id)
    requires IsRun(w, me, steps)
    decreases |steps|
  {
    steps != [] &&
    ((Overlooks(w, me, steps[0], id) && Untouched(steps[1..], id)) ||
        OverlookedIn(Do(w, me, steps[0]), me, steps[1..], id))
  }

  lemma {:induction false} RunInforms(w: World, me: Service, steps: seq<Step>, id: Id, stale: bool)
    requires Inv(w, me) && IsRun(w, me, steps) && id.service == me && Informed(w, id, stale)
    ensures Inv(Outcome(w, me, steps), me)
    ensures Informed(Outcome(w, me, steps), id, (stale && Untouched(steps, id)) || OverlookedIn(w, me, steps, id))
    decreases |steps|
  {
    if steps != [] {
      StepInforms(w, me, steps[0], id, stale);
      RunInforms(Do(w, me, steps[0]), me, steps[1..], id, (stale && !Touches(steps[0], id)) ||
          Overlooks(w, me, steps[0], id));
      assert forall step | step in steps :: step == steps[0] || step in steps[1..];
    }
  }

  /** No missed activation: in every run, while the waiter waits, every active slice of the service in
      the store is queued for it or due, unless its own first read overlooked the slice and nothing has
      changed it since. It returns only after seeing an active slice, and calls it a cold start only if
      its first read saw none. */
  lemma NoMissedActivation(me: Service, steps: seq<Step>, id: Id)
    requires IsRun(START, me, steps)
    ensures var w := Outcome(START, me, steps);
            && (w.waiter.Polling? && id in ActiveIds(w, me) ==>
                 w.cache[id] in w.queue + w.due || OverlookedIn(START, me, steps, id))
            && (w.waiter.Returned? ==> Active(w.waiter.seen) && (w.waiter.cold ==> !Active(w.waiter.initial)))
  {
    RunInforms(START, me, steps, Id(me, id.name), false);
    var w := Outcome(START, me, steps);
    if w.waiter.Polling? && id in ActiveIds(w, me) {
      assert id == Id(me, id.name);
      LatestIsIn(Coming(w), id);
    }
  }

  lemma {:induction false} LatestIsIn(events: seq<Slice>, id: Id)
    ensures Latest(events, id).Some? ==> Latest(events, id).value in events
  {
    if events != [] && events[|events| - 1].id != id {
      LatestIsIn(events[..|events| - 1], id);
    }
  }

  // ---- Services with one slice

  /** While the waiter waits, every active slice of the service is on its way to it. */
  predicate NothingMissed(w: World, me: Service) {
    w.waiter.Polling? ==> forall id | id in ActiveIds(w, me) :: w.cache[id] in w.queue + w.due
  }

  /** The slices of the service that appear in the run are among the given ones. */
  predicate Only(steps: seq<Step>, me: Service, ids: set<Id>) {
    forall step | step in steps && step.Upsert? && step.slice.id.service == me :: step.slice.id in ids
  }

  /** No two of them belong to the service. */
  predicate AtMostOne(me: Service, ids: set<Id>) {
    forall a, b | a in ids && b in ids && a.service == me && b.service == me :: a == b
  }

  /** With a single slice, the read picks that slice and so overlooks none. */
  lemma {:induction false} SingleSliceNotOverlooked(w: World, me: Service, steps: seq<Step>, ids: set<Id>, id: Id)
    requires IsRun(w, me, steps) && Only(steps, me, ids) && AtMostOne(me, ids)
    requires forall x | x in w.cache && x.service == me :: x in ids
    ensures !OverlookedIn(w, me, steps, id)
    decreases |steps|
  {
    if steps != [] {
      assert steps[0] in steps && forall step | step in steps[1..] :: step in steps;
      SingleSliceNotOverlooked(Do(w, me, steps[0]), me, steps[1..], ids, id);
    }
  }

  lemma SingleSliceMissesNothing(me: Service, steps: seq<Step>, ids: set<Id>)
    requires IsRun(START, me, steps) && Only(steps, me, ids) && AtMostOne(me, ids)
    ensures NothingMissed(Outcome(START, me, steps), me)
  {
    forall id
      ensures !OverlookedIn(START, me, steps, id)
    {
      SingleSliceNotOverlooked(START, me, steps, ids, id);
    }
    var w := Outcome(START, me, steps);
    forall id | w.waiter.Polling? && id in ActiveIds(w, me)
      ensures w.cache[id] in w.queue + w.due
    {
      NoMissedActivation(me, steps, id);
    }
  }

  /** Two slices, one active and one not: both are stored and announced before the waiter comes, and its
      read picks the inactive one. The waiter waits, the service is active, and nothing is on its way. */
  lemma ActiveServiceOverlooked(me: Service, idle: Slice, live: Slice) returns (steps: seq<Step>)
    requires idle.id.service == me == live.id.service && idle.id != live.id && !Active(idle) && Active(live)
    ensures steps == [Upsert(live), Upsert(idle), Distribute, Distribute, Watch, Get(idle.id)]
    ensures IsRun(START, me, steps)
    ensures var w := Outcome(START, me, steps); w.waiter.Polling? && live.id in ActiveIds(w, me) && Coming(w) == []
  {
    steps := [Upsert(live), Upsert(idle), Distribute, Distribute, Watch, Get(idle.id)];
    var w1 := Do(START, me, steps[0]);
    var w2 := Do(w1, me, steps[1]);
    assert w2 == World(map[live.id := live, idle.id := idle], [live, idle], [], Idle);
    AnnouncedAndOverlooked(w2, me, idle, live, steps[2..]);
    OneMore(w1, me, steps[1..]);
    OneMore(START, me, steps);
  }

  lemma AnnouncedAndOverlooked(w: World, me: Service, idle: Slice, live: Slice, steps: seq<Step>)
    requires idle.id.service == me == live.id.service && idle.id != live.id && !Active(idle) && Active(live)
    requires w == World(map[live.id := live, idle.id := idle], [live, idle], [], Idle)
    requires steps == [Distribute, Distribute, Watch, Get(idle.id)]
    ensures IsRun(w, me, steps)
    ensures var w' := Outcome(w, me, steps); w'.waiter.Polling? && live.id in ActiveIds(w', me) && Coming(w') == []
  {
    var w1 := Do(w, me, steps[0]);
    var w2 := Do(w1, me, steps[1]);
    var w3 := Do(w2, me, steps[2]);
    OneMore(w3, me, steps[3..]);
    OneMore(w2, me, steps[2..]);
    OneMore(w1, me, steps[1..]);
    OneMore(w, me, steps);
  }

  lemma OneMore(w: World, me: Service, steps: seq<Step>)
    requires steps != [] && Enabled(w, me, steps[0]) && IsRun(Do(w, me, steps[0]), me, steps[1..])
    ensures IsRun(w, me, steps) && Outcome(w, me, steps) == Outcome(Do(w, me, steps[0]), me, steps[1..])
  {
  }

  /** Which services are safe: over the given slices no run ever misses an activation exactly when at most
      one of them belongs to the service. */
  lemma NothingMissedExactly(me: Service, ids: set<Id>)
    ensures (forall steps | IsRun(START, me, steps) && Only(steps, me, ids) ::
              NothingMissed(Outcome(START, me, steps), me))
            <==> AtMostOne(me, ids)
  {
    if AtMostOne(me, ids) {
      forall steps | IsRun(START, me, steps) && Only(steps, me, ids)
        ensures NothingMissed(Outcome(START, me, steps), me)
      {
        SingleSliceMissesNothing(me, steps, ids);
      }
    } else {
      var a, b :| a in ids && b in ids && a.service == me && b.service == me && a != b;
      var idle, live := Slice(a, []), Slice(b, [Endpoint(None, [""])]);
      ActiveMeansReady(idle.endpoints);
      ActiveMeansReady(live.endpoints);
      assert live.endpoints[0].ready != Some(false);
      var steps := ActiveServiceOverlooked(me, idle, live);
    }
  }

  // ---- Release

  predicate DeliveryStep(step: Step) {
    step == Distribute || step == Receive
  }

  /** Distributing and receiving, in whatever order, takes no more steps than twice the due events and the
      queued ones, and cannot stop before the wait has ended. */
  lemma {:induction false} DeliveryReleases(w: World, me: Service, steps: seq<Step>, id: Id)
    requires Inv(w, me) && (w.waiter.Polling? || w.waiter.Returned?) && IsRun(w, me, steps)
    requires forall step | step in steps :: DeliveryStep(step)
    requires id in ActiveIds(w, me) && Informed(w, id, false)
    ensures |steps| <= 2 * |w.due| + |w.queue|
    ensures var w' := Outcome(w, me, steps);
            !Enabled(w', me, Distribute) && !Enabled(w', me, Receive) ==> w'.waiter.Returned?
    decreases |steps|
  {
    if steps == [] {
      LatestIsIn(Coming(w), id);
    } else {
      assert DeliveryStep(steps[0]);
      StepInforms(w, me, steps[0], id, false);
      DeliveryReleases(Do(w, me, steps[0]), me, steps[1..], id);
    }
  }

  /** Every schedule releases the waiter: after any run that leaves it waiting for a service with an active
      slice that it did not overlook, delivery alone ends the wait, however it is ordered. */
  lemma WaiterIsReleased(me: Service, before: seq<Step>, steps: seq<Step>, id: Id)
    requires IsRun(START, me, before) && IsRun(Outcome(START, me, before), me, steps)
    requires forall step | step in steps :: DeliveryStep(step)
    requires var w := Outcome(START, me, before);
             w.waiter.Polling? && id in ActiveIds(w, me) && !OverlookedIn(START, me, before, id)
    ensures var w := Outcome(START, me, before);
            var w' := Outcome(w, me, steps);
            && |steps| <= 2 * |w.due| + |w.queue|
            && (!Enabled(w', me, Distribute) && !Enabled(w', me, Receive) ==> w'.waiter.Returned?)
  {
    RunInforms(START, me, before, id, false);
    DeliveryReleases(Outcome(START, me, before), me, steps, id);
  }

  // ---- What a release tells about the service

  /** News of an active slice of the service is on its way. */
  predicate ActiveNews(w: World, me: Service) {
    exists e | e in Coming(w) :: e.id.service == me && Active(e)
  }

  /** In some state of the run the service has an active slice. */
  predicate ActiveSometime(w: World, me: Service, steps: seq<Step>)
    requires IsRun(w, me, steps)
    decreases |steps|
  {
    ActiveIds(w, me) != {} || (steps != [] && ActiveSometime(Do(w, me, steps[0]), me, steps[1..]))
  }

  /** Without active slices and without news of any, a step brings neither a release nor, unless it makes
      a slice active, news. */
  lemma NoNewsStep(w: World, me: Service, step: Step)
    requires Inv(w, me) && Enabled(w, me, step) && !ActiveNews(w, me) && ActiveIds(w, me) == {}
    ensures w.waiter.Returned? || !Do(w, me, step).waiter.Returned?
    ensures ActiveIds(Do(w, me, step), me) == {} ==> !ActiveNews(Do(w, me, step), me)
  {
    var w' := Do(w, me, step);
    match step {
      case Upsert(slice) =>
        assert slice.id.service == me && Active(slice) ==> slice.id in ActiveIds(w', me);
      case Delete(id) =>
        assert id.service == me ==> id !in ActiveIds(w, me);
        assert w.cache[id].id == id;
      case Get(pick) =>
        assert pick !in ActiveIds(w, me);
      case Receive =>
        assert w.queue[0] in Coming(w);
      case _ =>
    }
  }

  /** If no news of an active slice is on its way, a release means that the service was active in between. */
  lemma {:induction false} ReleaseMeansActive(w: World, me: Service, steps: seq<Step>)
    requires Inv(w, me) && !w.waiter.Returned? && !ActiveNews(w, me)
    requires IsRun(w, me, steps) && Outcome(w, me, steps).waiter.Returned?
    ensures ActiveSometime(w, me, steps)
    decreases |steps|
  {
    if ActiveIds(w, me) == {} {
      NoNewsStep(w, me, steps[0]);
      StepKeepsInv(w, me, steps[0]);
      if ActiveIds(Do(w, me, steps[0]), me) == {} {
        ReleaseMeansActive(Do(w, me, steps[0]), me, steps[1..]);
      } else {
        assert ActiveSometime(Do(w, me, steps[0]), me, steps[1..]);
      }
    }
  }

  /** Delivery passes news on until it releases the waiter. */
  lemma NewsStep(w: World, me: Service) returns (step: Step)
    requires Inv(w, me) && w.waiter.Polling? && ActiveNews(w, me)
    ensures DeliveryStep(step) && Enabled(w, me, step)
    ensures var w' := Do(w, me, step);
            && w'.cache == w.cache && 2 * |w'.due| + |w'.queue| < 2 * |w.due| + |w.queue|
            && (w'.waiter.Returned? || (w'.waiter.Polling? && ActiveNews(w', me)))
  {
    var e :| e in Coming(w) && e.id.service == me && Active(e);
    step := if w.queue != [] then Receive else Distribute;
    var w' := Do(w, me, step);
    if w.queue != [] {
      assert w.queue == [w.queue[0]] + w.queue[1..];
    } else {
      assert w.due == [w.due[0]] + w.due[1..];
    }
    assert w'.waiter.Returned? || e in Coming(w');
  }

  lemma {:induction false} NewsReleases(w: World, me: Service) returns (steps: seq<Step>)
    requires Inv(w, me) && w.waiter.Polling? && ActiveNews(w, me) && ActiveIds(w, me) == {}
    ensures IsRun(w, me, steps) && Outcome(w, me, steps).waiter.Returned? && !ActiveSometime(w, me, steps)
    decreases 2 * |w.due| + |w.queue|
  {
    var step := NewsStep(w, me);
    var w' := Do(w, me, step);
    StepKeepsInv(w, me, step);
    assert ActiveIds(w', me) == {};
    var rest := [];
    if w'.waiter.Polling? {
      rest := NewsReleases(w', me);
    }
    steps := [step] + rest;
    assert steps[1..] == rest;
  }

  /** For a waiter and a service without an active slice: a release means that the service became active,
      on every continuation, if and only if no older news of an active slice is on its way. */
  lemma ReleaseExactly(w: World, me: Service)
    requires Inv(w, me) && w.waiter.Polling? && ActiveIds(w, me) == {}
    ensures (forall steps | IsRun(w, me, steps) && Outcome(w, me, steps).waiter.Returned? ::
              ActiveSometime(w, me, steps))
            <==> !ActiveNews(w, me)
  {
    if ActiveNews(w, me) {
      var steps := NewsReleases(w, me);
    } else {
      forall steps | IsRun(w, me, steps) && Outcome(w, me, steps).waiter.Returned?
        ensures ActiveSometime(w, me, steps)
      {
        ReleaseMeansActive(w, me, steps);
      }
    }
  }

  /** Such a waiter: the slice was active and no longer is, both of which are still to be announced when
      the waiter registers. It is released though the service has been inactive since before that. */
  lemma StaleNewsReleases(me: Service, live: Slice, idle: Slice) returns (before: seq<Step>, after: seq<Step>)
    requires live.id == idle.id && live.id.service == me && Active(live) && !Active(idle)
    ensures before == [Upsert(live), Upsert(idle)] && IsRun(START, me, before)
    ensures var w := Outcome(START, me, before);
            && IsRun(w, me, after) && after != [] && after[0] == Watch
            && !ActiveSometime(w, me, after) && Outcome(w, me, after).waiter.Returned?
  {
    before := [Upsert(live), Upsert(idle)];
    var w1 := Do(START, me, before[0]);
    OneMore(w1, me, before[1..]);
    OneMore(START, me, before);
    var w2 := Outcome(START, me, before);
    assert w2.cache == map[idle.id := idle] && w2.due == [live, idle] && w2.queue == [];
    after := StaleFrom(w2, me, live, idle);
  }

  lemma StaleFrom(w: World, me: Service, live: Slice, idle: Slice) returns (after: seq<Step>)
    requires live.id == idle.id && live.id.service == me && Active(live) && !Active(idle)
    requires w == World(map[idle.id := idle], [live, idle], [], Idle)
    ensures IsRun(w, me, after) && after != [] && after[0] == Watch
    ensures !ActiveSometime(w, me, after) && Outcome(w, me, after).waiter.Returned?
  {
    var w1 := Do(w, me, Watch);
    var w2 := Do(w1, me, Get(idle.id));
    assert ActiveIds(w, me) == {} && ActiveIds(w1, me) == {} && ActiveIds(w2, me) == {};
    assert live in Coming(w2);
    var rest := NewsReleases(w2, me);
    var more := [Get(idle.id)] + rest;
    assert more[1..] == rest;
    OneMore(w1, me, more);
    after := [Watch] + more;
    assert after[1..] == more;
    OneMore(w, me, after);
  }

  // ---- What the waiter reports

  /** From a wait with a given read on: if it ends with a slice, it is reported as a cold start. */
  lemma {:induction false} PollingReturnsCold(w: World, me: Service, steps: seq<Step>)
    requires IsRun(w, me, steps) && (w.waiter.Polling? || (w.waiter.Returned? && w.waiter.cold))
    ensures var end := Outcome(w, me, steps).waiter; end.Returned? ==> end.cold
    decreases |steps|
  {
    if steps != [] && (Do(w, me, steps[0]).waiter.Polling? || Do(w, me, steps[0]).waiter.Returned?) {
      PollingReturnsCold(Do(w, me, steps[0]), me, steps[1..]);
    } else if steps != [] {
      TimedOutStays(Do(w, me, steps[0]), me, steps[1..]);
    }
  }

  lemma {:induction false} TimedOutStays(w: World, me: Service, steps: seq<Step>)
    requires IsRun(w, me, steps) && w.waiter.TimedOut?
    ensures Outcome(w, me, steps).waiter.TimedOut?
    decreases |steps|
  {
    if steps != [] {
      TimedOutStays(Do(w, me, steps[0]), me, steps[1..]);
    }
  }

  lemma {:induction false} ReturnedStays(w: World, me: Service, steps: seq<Step>)
    requires IsRun(w, me, steps) && w.waiter.Returned?
    ensures Outcome(w, me, steps).waiter == w.waiter
    decreases |steps|
  {
    if steps != [] {
      ReturnedStays(Do(w, me, steps[0]), me, steps[1..]);
    }
  }

  lemma {:induction false} GetFailedStays(w: World, me: Service, steps: seq<Step>)
    requires IsRun(w, me, steps) && w.waiter.GetFailed?
    ensures Outcome(w, me, steps).waiter.GetFailed?
    decreases |steps|
  {
    if steps != [] {
      GetFailedStays(Do(w, me, steps[0]), me, steps[1..]);
    }
  }

  /** A waiter that finds no slice fails at once, and one whose context ends fails, for good. */
  lemma FailuresStay(w: World, me: Service, step: Step, steps: seq<Step>)
    requires Enabled(w, me, step) && IsRun(Do(w, me, step), me, steps)
    ensures var end := Outcome(Do(w, me, step), me, steps).waiter;
            && (step == GetNone ==> end == GetFailed)
            && (step == Timeout ==> end == TimedOut)
  {
    if step == GetNone {
      GetFailedStays(Do(w, me, step), me, steps);
    } else if step == Timeout {
      TimedOutStays(Do(w, me, step), me, steps);
    }
  }

  /** Whatever happens after the read, a waiter that returns reports a cold start exactly when the slice it
      read was inactive; and it returns at once when the slice was active. */
  lemma ColdExactly(w: World, me: Service, pick: Id, steps: seq<Step>)
    requires Enabled(w, me, Get(pick)) && IsRun(Do(w, me, Get(pick)), me, steps)
    ensures var end := Outcome(Do(w, me, Get(pick)), me, steps).waiter;
            && (end.Returned? ==> (end.cold <==> !Active(w.cache[pick])))
            && (Active(w.cache[pick]) ==> end.Returned?)
  {
    if Active(w.cache[pick]) {
      ReturnedStays(Do(w, me, Get(pick)), me, steps);
    } else {
      PollingReturnsCold(Do(w, me, Get(pick)), me, steps);
    }
  }
}
