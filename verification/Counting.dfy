/** The counting middleware (interceptor/middleware/counting.go) as a state machine: any number of
    requests interleaved with the registration and removal of keys. Each request has a goroutine
    that counts it in, waits for its one-slot signal and counts it out again. */
module Counting {
  import opened Buckets
  import opened QueueMemory

  /** How far the counting goroutine of a request has come. */
  datatype Phase = Spawned | Increased | Waiting | Leaving | Decreased | Finished

  /** slot is the signaler's channel of capacity one; signalled says that Signal was called. */
  datatype Req = Req(host: string, phase: Phase, slot: bool, signalled: bool)

  datatype System = System(counters: Counters, gauge: map<string, int>, reqs: seq<Req>)

  const START: System := System(NO_COUNTERS, map[], [])

  datatype Step =
    | Spawn(host: string)
    | Inc(i: nat, now: Moment)
    | GaugeUp(i: nat)
    | Signal(i: nat)
    | WaitSignalled(i: nat)
    | WaitCancelled(i: nat)
    | Dec(i: nat)
    | GaugeDown(i: nat)
    | Register(host: string, window: int, granularity: int)
    | Replace(host: string, window: int, granularity: int)
    | Remove(host: string)

  predicate At(s: System, i: nat, p: Phase) {
    i < |s.reqs| && s.reqs[i].phase == p
  }

  predicate Enabled(s: System, step: Step) {
    match step
    case Spawn(_) => true
    case Inc(i, _) => At(s, i, Spawned) && s.reqs[i].host in s.counters.rps &&
        WellFormed(s.counters.rps[s.reqs[i].host])
    case GaugeUp(i) => At(s, i, Increased)
    case Signal(i) => i < |s.reqs|
    case WaitSignalled(i) => At(s, i, Waiting) && s.reqs[i].slot
    case WaitCancelled(i) => At(s, i, Waiting)
    case Dec(i) => At(s, i, Leaving)
    case GaugeDown(i) => At(s, i, Decreased)
    case Register(_, w, g) => Config(w, g)
    case Replace(_, w, g) => Config(w, g)
    case Remove(_) => true
  }

  function Moved(s: System, i: nat, p: Phase): seq<Req>
    requires i < |s.reqs|
  {
    s.reqs[i := s.reqs[i].(phase := p)]
  }

  function Gauge(gauge: map<string, int>, host: string): int {
    if host in gauge then gauge[host] else 0
  }

  function Do(s: System, step: Step): System
    requires Enabled(s, step)
  {
    match step
    case Spawn(host) => s.(reqs := s.reqs + [Req(host, Spawned, false, false)])
    case Inc(i, now) =>
      s.(counters := QueueMemory.Increased(s.counters, s.reqs[i].host, 1, now), reqs := Moved(s, i, Phase.Increased))
    case GaugeUp(i) =>
      var h := s.reqs[i].host;
      s.(gauge := s.gauge[h := Gauge(s.gauge, h) + 1], reqs := Moved(s, i, Waiting))
    case Signal(i) => s.(reqs := s.reqs[i := s.reqs[i].(slot := true, signalled := true)])
    case WaitSignalled(i) => s.(reqs := s.reqs[i := s.reqs[i].(phase := Leaving, slot := false)])
    case WaitCancelled(i) => s.(reqs := Moved(s, i, Leaving))
    case Dec(i) =>
      s.(counters := QueueMemory.Decreased(s.counters, s.reqs[i].host, 1), reqs := Moved(s, i, Phase.Decreased))
    case GaugeDown(i) =>
      var h := s.reqs[i].host;
      s.(gauge := s.gauge[h := Gauge(s.gauge, h) - 1], reqs := Moved(s, i, Finished))
    case Register(h, w, g) => s.(counters := EnsuredKey(s.counters, h, w, g))
    case Replace(h, w, g) => s.(counters := ReplacedBuckets(s.counters, h, w, g))
    case Remove(h) => s.(counters := RemovedKey(s.counters, h))
  }

  // ---- Counting requests by phase

  function CountIn(reqs: seq<Req>, host: string, phases: set<Phase>): nat {
    if reqs == [] then 0
    else
      var r := reqs[|reqs| - 1];
      CountIn(reqs[..|reqs| - 1], host, phases) + Tally(r, host, phases)
  }

  function Tally(r: Req, host: string, phases: set<Phase>): nat {
    if r.host == host && r.phase in phases then 1 else 0
  }

  /** Requests counted in and not yet counted out. */
  function InFlight(reqs: seq<Req>, host: string): nat {
    CountIn(reqs, host, {Phase.Increased, Waiting, Leaving})
  }

  /** Requests between their +1 and their -1 on the pending gauge. */
  function OnGauge(reqs: seq<Req>, host: string): nat {
    CountIn(reqs, host, {Waiting, Leaving, Phase.Decreased})
  }

  lemma {:induction false} CountAfterUpdate(reqs: seq<Req>, i: nat, r: Req, host: string, phases: set<Phase>)
    requires i < |reqs|
    ensures CountIn(reqs[i := r], host, phases) ==
            CountIn(reqs, host, phases) - Tally(reqs[i], host, phases) + Tally(r, host, phases)
  {
    var m := |reqs| - 1;
    if i < m {
      CountAfterUpdate(reqs[..m], i, r, host, phases);
      assert reqs[i := r][..m] == reqs[..m][i := r];
    } else {
      assert reqs[i := r][..m] == reqs[..m];
    }
  }

  // ---- The invariant

  ghost predicate Inv(s: System) {
    && WellFormedCounters(s.counters) && SameKeys(s.counters)
    && (forall h :: ConcurrencyOk(s, h))
    && (forall h :: Gauge(s.gauge, h) == OnGauge(s.reqs, h))
    && forall i | 0 <= i < |s.reqs| :: SignalKept(s.reqs[i])
  }

  /** A key counts at most the requests in flight. */
  ghost predicate ConcurrencyOk(s: System, h: string) {
    0 <= Pending(s.counters, h) <= InFlight(s.reqs, h)
  }

  /** A key counts exactly the requests in flight. */
  predicate ExactAt(s: System, h: string) {
    Pending(s.counters, h) == InFlight(s.reqs, h)
  }

  /** The step removes the key under requests in flight. */
  predicate Tears(s: System, step: Step, h: string) {
    step == Remove(h) && InFlight(s.reqs, h) > 0
  }

  /** A signal sent before the goroutine gets to Wait is still in its slot. */
  predicate SignalKept(r: Req) {
    r.signalled && r.phase in {Spawned, Phase.Increased, Waiting} ==> r.slot
  }

  /** What a step keeps of a key's counts: the bounds, the gauge, and exactness unless it tears the key,
      which loses it. */
  ghost predicate CountsKept(s: System, step: Step, h: string)
    requires Enabled(s, step)
  {
    var s' := Do(s, step);
    && ConcurrencyOk(s', h)
    && Gauge(s'.gauge, h) == OnGauge(s'.reqs, h)
    && (ExactAt(s, h) ==> (ExactAt(s', h) <==> !Tears(s, step, h)))
  }

  /** Steps that register, update or remove a key leave all requests where they are. */
  lemma KeyStepKeepsCounts(s: System, step: Step, h: string)
    requires Inv(s) && Enabled(s, step) && (step.Register? || step.Replace? || step.Remove?)
    ensures CountsKept(s, step, h)
  {
    assert ConcurrencyOk(s, h);
  }

  lemma SpawnKeepsCounts(s: System, host: string, h: string)
    requires Inv(s)
    ensures CountsKept(s, Spawn(host), h)
  {
    assert ConcurrencyOk(s, h);
    assert Do(s, Spawn(host)).reqs[..|s.reqs|] == s.reqs;
  }

  /** How a step of request i changes the two counts of a key. */
  lemma CountsAfterMove(reqs: seq<Req>, i: nat, r: Req, h: string)
    requires i < |reqs| && r.host == reqs[i].host
    ensures InFlight(reqs[i := r], h) - InFlight(reqs, h) ==
            if r.host != h then 0
            else (if r.phase in {Phase.Increased, Waiting, Leaving} then 1 else 0)
                 - (if reqs[i].phase in {Phase.Increased, Waiting, Leaving} then 1 else 0)
    ensures OnGauge(reqs[i := r], h) - OnGauge(reqs, h) ==
            if r.host != h then 0
            else (if r.phase in {Waiting, Leaving, Phase.Decreased} then 1 else 0)
                 - (if reqs[i].phase in {Waiting, Leaving, Phase.Decreased} then 1 else 0)
  {
    CountAfterUpdate(reqs, i, r, h, {Phase.Increased, Waiting, Leaving});
    CountAfterUpdate(reqs, i, r, h, {Waiting, Leaving, Phase.Decreased});
  }

  lemma IncKeepsCounts(s: System, i: nat, now: Moment, h: string)
    requires Inv(s) && Enabled(s, Inc(i, now))
    ensures CountsKept(s, Inc(i, now), h)
  {
    assert ConcurrencyOk(s, h);
    CountsAfterMove(s.reqs, i, s.reqs[i].(phase := Phase.Increased), h);
  }

  /** Clamping at zero never makes a key count more than is in flight. */
  lemma DecKeepsCounts(s: System, i: nat, h: string)
    requires Inv(s) && Enabled(s, Dec(i))
    ensures CountsKept(s, Dec(i), h)
  {
    assert ConcurrencyOk(s, h);
    CountsAfterMove(s.reqs, i, s.reqs[i].(phase := Phase.Decreased), h);
  }

  /** The remaining steps touch no counter. */
  lemma OtherStepKeepsCounts(s: System, step: Step, h: string)
    requires Inv(s) && Enabled(s, step)
    requires step.GaugeUp? || step.GaugeDown? || step.Signal? || step.WaitSignalled? || step.WaitCancelled?
    ensures CountsKept(s, step, h)
  {
    assert ConcurrencyOk(s, h);
    CountsAfterMove(s.reqs, step.i, Do(s, step).reqs[step.i], h);
  }

  lemma StepKeepsCounts(s: System, step: Step, h: string)
    requires Inv(s) && Enabled(s, step)
    ensures CountsKept(s, step, h)
  {
    match step {
      case Spawn(host) => SpawnKeepsCounts(s, host, h);
      case Inc(i, now) => IncKeepsCounts(s, i, now, h);
      case Dec(i) => DecKeepsCounts(s, i, h);
      case Register(_, _, _) => KeyStepKeepsCounts(s, step, h);
      case Replace(_, _, _) => KeyStepKeepsCounts(s, step, h);
      case Remove(_) => KeyStepKeepsCounts(s, step, h);
      case _ => OtherStepKeepsCounts(s, step, h);
    }
  }

  lemma StepKeepsSignals(s: System, step: Step)
    requires Inv(s) && Enabled(s, step)
    ensures forall i | 0 <= i < |Do(s, step).reqs| :: SignalKept(Do(s, step).reqs[i])
  {
    var s' := Do(s, step);
    if step.Spawn? || step.Register? || step.Replace? || step.Remove? {
      assert forall i | 0 <= i < |s.reqs| :: s'.reqs[i] == s.reqs[i];
    } else {
      assert forall i | 0 <= i < |s.reqs| && i != step.i :: s'.reqs[i] == s.reqs[i];
      assert SignalKept(s.reqs[step.i]);
    }
  }

  lemma StepKeepsKeys(s: System, step: Step)
    requires Inv(s) && Enabled(s, step)
    ensures WellFormedCounters(Do(s, step).counters) && SameKeys(Do(s, step).counters)
  {
    match step {
      case Inc(i, now) => RequestsKeepKeys(s.counters, s.reqs[i].host, 1, now);
      case Register(h, w, g) => RegistrationKeepsKeys(s.counters, h, w, g);
      case Replace(h, w, g) => RegistrationKeepsKeys(s.counters, h, w, g);
      case Remove(h) => RemovalKeepsKeys(s.counters, h);
      case _ =>
    }
  }

  /** Every step of every participant keeps the invariant. */
  lemma StepKeepsInv(s: System, step: Step)
    requires Inv(s) && Enabled(s, step)
    ensures Inv(Do(s, step))
  {
    StepKeepsSignals(s, step);
    StepKeepsKeys(s, step);
    var s' := Do(s, step);
    forall h
      ensures ConcurrencyOk(s', h) && Gauge(s'.gauge, h) == OnGauge(s'.reqs, h)
    {
      StepKeepsCounts(s, step, h);
    }
  }

  // ---- Whole runs

  predicate IsRun(s: System, steps: seq<Step>)
    decreases |steps|
  {
    steps == [] || (Enabled(s, steps[0]) && IsRun(Do(s, steps[0]), steps[1..]))
  }

  function Outcome(s: System, steps: seq<Step>): System
    requires IsRun(s, steps)
    decreases |steps|
  {
    if steps == [] then s else Outcome(Do(s, steps[0]), steps[1..])
  }

  lemma {:induction false} RunKeepsInv(s: System, steps: seq<Step>)
    requires Inv(s) && IsRun(s, steps)
    ensures Inv(Outcome(s, steps))
    decreases |steps|
  {
    if steps != [] {
      StepKeepsInv(s, steps[0]);
      RunKeepsInv(Do(s, steps[0]), steps[1..]);
    }
  }

  /** A run in which h is never removed while requests for it are in flight. */
  predicate NeverTorn(s: System, steps: seq<Step>, h: string)
    requires IsRun(s, steps)
    decreases |steps|
  {
    steps == [] || (!Tears(s, steps[0], h) && NeverTorn(Do(s, steps[0]), steps[1..], h))
  }

  /** The count of h is exact in every state of the run. */
  predicate ExactThroughout(s: System, steps: seq<Step>, h: string)
    requires IsRun(s, steps)
    decreases |steps|
  {
    ExactAt(s, h) && (steps == [] || ExactThroughout(Do(s, steps[0]), steps[1..], h))
  }

  /** From a reachable state with an exact count: it stays exact exactly as long as the key is not torn. */
  lemma {:induction false} ExactExactly(s: System, steps: seq<Step>, h: string)
    requires Inv(s) && IsRun(s, steps) && ExactAt(s, h)
    ensures ExactThroughout(s, steps, h) <==> NeverTorn(s, steps, h)
    ensures NeverTorn(s, steps, h) ==> ExactAt(Outcome(s, steps), h)
    decreases |steps|
  {
    if steps != [] {
      StepKeepsInv(s, steps[0]);
      StepKeepsCounts(s, steps[0], h);
      if !Tears(s, steps[0], h) {
        ExactExactly(Do(s, steps[0]), steps[1..], h);
      }
    }
  }

  /** In every run, whatever the interleaving: the count of a key lies between zero and its requests
      in flight, the gauge is exact always, and the count is exact all along if and only if the key is
      never removed under requests in flight. */
  lemma CountsConserved(steps: seq<Step>, h: string)
    requires IsRun(START, steps)
    ensures var s := Outcome(START, steps);
            0 <= Pending(s.counters, h) <= InFlight(s.reqs, h) && Gauge(s.gauge, h) == OnGauge(s.reqs, h)
    ensures ExactThroughout(START, steps, h) <==> NeverTorn(START, steps, h)
    ensures NeverTorn(START, steps, h) ==> ExactAt(Outcome(START, steps), h)
  {
    RunKeepsInv(START, steps);
    assert ConcurrencyOk(Outcome(START, steps), h);
    ExactExactly(START, steps, h);
  }

  /** Draining mends: once no request for the key is in flight, whatever happened to it before, its
      count is exact, and stays so on every continuation that does not tear it again. */
  lemma DrainingMends(before: seq<Step>, after: seq<Step>, h: string)
    requires IsRun(START, before) && IsRun(Outcome(START, before), after)
    requires InFlight(Outcome(START, before).reqs, h) == 0
    ensures var s := Outcome(START, before);
            && ExactAt(s, h)
            && (ExactThroughout(s, after, h) <==> NeverTorn(s, after, h))
            && (NeverTorn(s, after, h) ==> ExactAt(Outcome(s, after), h))
  {
    RunKeepsInv(START, before);
    assert ConcurrencyOk(Outcome(START, before), h);
    ExactExactly(Outcome(START, before), after, h);
  }

  /** The count of h is positive exactly when a request is in flight. */
  predicate TellsInFlight(s: System, h: string) {
    Pending(s.counters, h) > 0 <==> InFlight(s.reqs, h) > 0
  }

  predicate TellsThroughout(s: System, steps: seq<Step>, h: string)
    requires IsRun(s, steps)
    decreases |steps|
  {
    TellsInFlight(s, h) && (steps == [] || TellsThroughout(Do(s, steps[0]), steps[1..], h))
  }

  /** Even whether anything is in flight is told all along exactly as long as the key is not torn. */
  lemma {:induction false} TellsExactly(s: System, steps: seq<Step>, h: string)
    requires Inv(s) && IsRun(s, steps) && ExactAt(s, h)
    ensures TellsThroughout(s, steps, h) <==> NeverTorn(s, steps, h)
    decreases |steps|
  {
    if steps != [] {
      var s' := Do(s, steps[0]);
      StepKeepsInv(s, steps[0]);
      StepKeepsCounts(s, steps[0], h);
      if Tears(s, steps[0], h) {
        assert Pending(s'.counters, h) == 0 && s'.reqs == s.reqs;
        assert !TellsThroughout(s', steps[1..], h);
      } else {
        TellsExactly(s', steps[1..], h);
      }
    }
  }

  lemma {:induction false} PrefixIsRun(s: System, steps: seq<Step>, k: nat)
    requires IsRun(s, steps) && k <= |steps|
    ensures IsRun(s, steps[..k])
    decreases |steps|
  {
    if k > 0 {
      PrefixIsRun(Do(s, steps[0]), steps[1..], k - 1);
      assert steps[..k][1..] == steps[1..][..k - 1];
    }
  }

  /** State by state: what is told after each number of steps. */
  lemma {:induction false} TellsAt(s: System, steps: seq<Step>, h: string, k: nat)
    requires IsRun(s, steps) && TellsThroughout(s, steps, h) && k <= |steps|
    ensures IsRun(s, steps[..k]) && TellsInFlight(Outcome(s, steps[..k]), h)
    decreases |steps|
  {
    PrefixIsRun(s, steps, k);
    if k > 0 {
      TellsAt(Do(s, steps[0]), steps[1..], h, k - 1);
      assert steps[..k][1..] == steps[1..][..k - 1];
    }
  }

  lemma {:induction false} TellsNotAt(s: System, steps: seq<Step>, h: string) returns (k: nat)
    requires IsRun(s, steps) && !TellsThroughout(s, steps, h)
    ensures k <= |steps| && IsRun(s, steps[..k]) && !TellsInFlight(Outcome(s, steps[..k]), h)
    decreases |steps|
  {
    if !TellsInFlight(s, h) {
      k := 0;
    } else {
      k := TellsNotAt(Do(s, steps[0]), steps[1..], h);
      k := k + 1;
      PrefixIsRun(s, steps, k);
      assert steps[..k][1..] == steps[1..][..k - 1];
    }
  }

  lemma {:induction false} RunConcat(s: System, a: seq<Step>, b: seq<Step>)
    requires IsRun(s, a) && IsRun(Outcome(s, a), b)
    ensures IsRun(s, a + b) && Outcome(s, a + b) == Outcome(Outcome(s, a), b)
    decreases |a|
  {
    if a == [] {
      assert a + b == b;
    } else {
      RunConcat(Do(s, a[0]), a[1..], b);
      assert (a + b)[1..] == a[1..] + b;
    }
  }

  lemma OneMore(s: System, steps: seq<Step>)
    requires steps != [] && Enabled(s, steps[0]) && IsRun(Do(s, steps[0]), steps[1..])
    ensures IsRun(s, steps) && Outcome(s, steps) == Outcome(Do(s, steps[0]), steps[1..])
  {
  }

  lemma OneOfTwo(reqs: seq<Req>, h: string)
    requires reqs == [Req(h, Leaving, false, false), Req(h, Spawned, false, false)]
    ensures InFlight(reqs, h) == 1
  {
    var phases := {Phase.Increased, Waiting, Leaving};
    assert reqs[..1] == [reqs[0]] && [reqs[0]][..0] == [];
    assert CountIn([reqs[0]], h, phases) == CountIn([], h, phases) + Tally(reqs[0], h, phases);
  }

  lemma ThreeSteps(s: System, a: Step, b: Step, c: Step)
    requires Enabled(s, a) && Enabled(Do(s, a), b) && Enabled(Do(Do(s, a), b), c)
    ensures IsRun(s, [a, b, c]) && Outcome(s, [a, b, c]) == Do(Do(Do(s, a), b), c)
  {
    TwoSteps(Do(s, a), b, c);
    assert [a, b, c][1..] == [b, c];
    OneMore(s, [a, b, c]);
  }

  /** Two requests for a registered key arrive. */
  lemma TwoArrive(h: string, window: int, g: int)
    requires Config(window, g)
    ensures var steps := [Register(h, window, g), Spawn(h), Spawn(h)];
            && IsRun(START, steps)
            && var s := Outcome(START, steps);
               && s.reqs == [Req(h, Spawned, false, false), Req(h, Spawned, false, false)]
               && h in s.counters.rps && WellFormed(s.counters.rps[h])
  {
    ThreeSteps(START, Register(h, window, g), Spawn(h), Spawn(h));
  }

  /** A request is counted in and cancelled. */
  lemma CountedAndCancelled(s: System, i: nat, now: Moment)
    requires At(s, i, Spawned) && s.reqs[i].host in s.counters.rps && WellFormed(s.counters.rps[s.reqs[i].host])
    ensures var steps := [Inc(i, now), GaugeUp(i), WaitCancelled(i)];
            IsRun(s, steps) && Outcome(s, steps).reqs == s.reqs[i := s.reqs[i].(phase := Leaving)]
  {
    ThreeSteps(s, Inc(i, now), GaugeUp(i), WaitCancelled(i));
  }

  /** A run after which one request for h is about to leave and a second one about to be counted in. */
  lemma TwoRequests(h: string, window: int, g: int, now: Moment) returns (steps: seq<Step>)
    requires Config(window, g)
    ensures IsRun(START, steps)
    ensures Outcome(START, steps).reqs == [Req(h, Leaving, false, false), Req(h, Spawned, false, false)]
  {
    var a, b := [Register(h, window, g), Spawn(h), Spawn(h)], [Inc(0, now), GaugeUp(0), WaitCancelled(0)];
    TwoArrive(h, window, g);
    CountedAndCancelled(Outcome(START, a), 0, now);
    RunConcat(START, a, b);
    steps := a + b;
  }

  /** Why the exception is needed: a run from the start that removes a key and registers it again under
      one request, and at whose end another request is in flight while nothing counts as pending. */
  lemma RemovalUndercounts(h: string, window: int, g: int, now: Moment) returns (steps: seq<Step>)
    requires Config(window, g)
    ensures IsRun(START, steps) && Remove(h) in steps
    ensures var s := Outcome(START, steps); Pending(s.counters, h) == 0 && InFlight(s.reqs, h) == 1
  {
    var before := TwoRequests(h, window, g, now);
    var s := Outcome(START, before);
    var rest := [Remove(h), Register(h, window, g), Inc(1, now), Dec(0)];
    RunKeepsInv(START, before);
    OneOfTwo(s.reqs, h);
    UndercountsFrom(s, h, 0, 1, window, g, now);
    RunConcat(START, before, rest);
    steps := before + rest;
    assert rest[0] in steps;
  }

  /** The same from any state that the invariant allows. */
  lemma UndercountsFrom(s: System, h: string, i: nat, j: nat, window: int, g: int, now: Moment)
    requires Inv(s) && At(s, i, Leaving) && At(s, j, Spawned) && s.reqs[i].host == h == s.reqs[j].host
    requires InFlight(s.reqs, h) == 1 && Config(window, g)
    ensures var steps := [Remove(h), Register(h, window, g), Inc(j, now), Dec(i)];
            && IsRun(s, steps)
            && Pending(Outcome(s, steps).counters, h) == 0
            && InFlight(Outcome(s, steps).reqs, h) == 1
  {
    var s2 := Do(Do(s, Remove(h)), Register(h, window, g));
    InThenOut(s2, h, i, j, now);
    FourSteps(s, Remove(h), Register(h, window, g), [Inc(j, now), Dec(i)]);
  }

  lemma InThenOut(s: System, h: string, i: nat, j: nat, now: Moment)
    requires At(s, i, Leaving) && At(s, j, Spawned) && s.reqs[i].host == h == s.reqs[j].host
    requires InFlight(s.reqs, h) == 1 && h in s.counters.concurrency && s.counters.concurrency[h] == 0
    requires h in s.counters.rps && WellFormed(s.counters.rps[h])
    ensures var steps := [Inc(j, now), Dec(i)];
            && IsRun(s, steps)
            && Pending(Outcome(s, steps).counters, h) == 0 && InFlight(Outcome(s, steps).reqs, h) == 1
  {
    var s' := Do(s, Inc(j, now));
    CountsAfterMove(s.reqs, j, s.reqs[j].(phase := Phase.Increased), h);
    CountsAfterMove(s'.reqs, i, s'.reqs[i].(phase := Phase.Decreased), h);
    TwoSteps(s, Inc(j, now), Dec(i));
  }

  lemma TwoSteps(s: System, a: Step, b: Step)
    requires Enabled(s, a) && Enabled(Do(s, a), b)
    ensures IsRun(s, [a, b]) && Outcome(s, [a, b]) == Do(Do(s, a), b)
  {
    assert [a, b][1..] == [b] && [b][1..] == [];
    var s1 := Do(s, a);
    assert IsRun(Do(s1, b), []) && Outcome(Do(s1, b), []) == Do(s1, b);
    assert IsRun(s1, [b]) && Outcome(s1, [b]) == Do(s1, b);
  }

  lemma FourSteps(s: System, a: Step, b: Step, rest: seq<Step>)
    requires Enabled(s, a) && Enabled(Do(s, a), b) && |rest| == 2 && IsRun(Do(Do(s, a), b), rest)
    ensures var steps := [a, b, rest[0], rest[1]];
            IsRun(s, steps) && Outcome(s, steps) == Outcome(Do(Do(s, a), b), rest)
  {
    var steps := [a, b, rest[0], rest[1]];
    assert steps[1..] == [b] + rest && steps[1..][1..] == rest;
    assert IsRun(Do(s, a), steps[1..]) && Outcome(Do(s, a), steps[1..]) == Outcome(Do(Do(s, a), b), rest);
  }

  /** Steps left for the goroutine of a request that was counted in. */
  function StepsLeft(p: Phase): nat {
    match p
    case Spawned => 5
    case Increased => 4
    case Waiting => 3
    case Leaving => 2
    case Decreased => 1
    case Finished => 0
  }

  /** The next step of the goroutine of request i, once its handler has returned. */
  function NextStep(r: Req, i: nat, now: Moment): Step
    requires r.phase != Finished
  {
    match r.phase
    case Spawned => Inc(i, now)
    case Increased => GaugeUp(i)
    case Waiting => WaitSignalled(i)
    case Leaving => Dec(i)
    case Decreased => GaugeDown(i)
  }

  /** The request has not come yet, or still waits for a signal or a cancellation. */
  predicate NotReleased(s: System, i: nat) {
    i < |s.reqs| ==>
      !s.reqs[i].slot && !s.reqs[i].signalled && s.reqs[i].phase in {Spawned, Phase.Increased, Waiting}
  }

  lemma StepReleases(s: System, step: Step, i: nat)
    requires Enabled(s, step) && NotReleased(s, i) && step != Signal(i) && step != WaitCancelled(i)
    ensures NotReleased(Do(s, step), i)
  {
  }

  /** A request is not counted out before its handler has returned or its context has ended: without a
      signal and without a cancellation in the run, it stays counted in. */
  lemma {:induction false} NotCountedOutEarly(s: System, steps: seq<Step>, i: nat)
    requires IsRun(s, steps) && NotReleased(s, i) && Signal(i) !in steps && WaitCancelled(i) !in steps
    ensures NotReleased(Outcome(s, steps), i) && Dec(i) !in steps
    decreases |steps|
  {
    if steps != [] {
      assert steps[0] in steps && forall step | step in steps[1..] :: step in steps;
      StepReleases(s, steps[0], i);
      NotCountedOutEarly(Do(s, steps[0]), steps[1..], i);
      assert steps[0] != Dec(i);
      assert forall step | step in steps :: step == steps[0] || step in steps[1..];
    }
  }

  lemma SignalledCanMove(s: System, i: nat, now: Moment)
    requires Inv(s) && i < |s.reqs| && s.reqs[i].signalled && s.reqs[i].phase != Finished
    requires s.reqs[i].phase == Spawned ==> s.reqs[i].host in s.counters.rps
    ensures var step := NextStep(s.reqs[i], i, now);
            && Enabled(s, step)
            && StepsLeft(Do(s, step).reqs[i].phase) < StepsLeft(s.reqs[i].phase)
            && Do(s, step).reqs[i].signalled
  {
    assert SignalKept(s.reqs[i]);
  }

  lemma StaysSignalled(s: System, step: Step, i: nat)
    requires Enabled(s, step) && i < |s.reqs| && (s.reqs[i].signalled || step == Signal(i))
    ensures i < |Do(s, step).reqs| && Do(s, step).reqs[i].signalled
  {
  }

  /** A request that was signalled in the run, or before it, is a signalled request. */
  lemma {:induction false} SignalIsKept(s: System, steps: seq<Step>, i: nat)
    requires IsRun(s, steps) && (Signal(i) in steps || (i < |s.reqs| && s.reqs[i].signalled))
    ensures i < |Outcome(s, steps).reqs| && Outcome(s, steps).reqs[i].signalled
    decreases |steps|
  {
    if steps != [] {
      if steps[0] == Signal(i) || (i < |s.reqs| && s.reqs[i].signalled) {
        StaysSignalled(s, steps[0], i);
      }
      SignalIsKept(Do(s, steps[0]), steps[1..], i);
    }
  }

  /** A request whose Signal was called is never stuck, not even when that came before it waited: in every
      reachable state its next step is enabled and brings it closer to the end. */
  lemma SignalledRequestDrains(steps: seq<Step>, i: nat, now: Moment)
    requires IsRun(START, steps) && Signal(i) in steps
    requires var s := Outcome(START, steps);
             i < |s.reqs| ==>
               s.reqs[i].phase != Finished && (s.reqs[i].phase == Spawned ==> s.reqs[i].host in s.counters.rps)
    ensures i < |Outcome(START, steps).reqs|
    ensures var s := Outcome(START, steps);
            var step := NextStep(s.reqs[i], i, now);
            && Enabled(s, step)
            && StepsLeft(Do(s, step).reqs[i].phase) < StepsLeft(s.reqs[i].phase)
            && Do(s, step).reqs[i].signalled
  {
    RunKeepsInv(START, steps);
    SignalIsKept(START, steps, i);
    SignalledCanMove(Outcome(START, steps), i, now);
  }
}
