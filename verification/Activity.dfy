/** The metric and activity decision of the scaler (scaler/handlers.go), and what "active" means in
    terms of the requests the interceptors recorded. */
module Activity {
  import opened Keys
  import opened TableMemory
  import opened Arith
  import Buckets
  import opened BucketLog
  import opened BucketAverage
  import opened QueueMemory
  import opened FanIn
  import opened Scaler
  import Naming

  const HTTP_SCALED_OBJECT_KEY: string := "httpScaledObject"
  const INTERCEPTOR_KEY: string := "interceptorTargetPendingRequests"

  /** What KEDA sends; absent metadata is an empty map. */
  datatype ScaledObjectRef = ScaledObjectRef(namespace: Label, name: Bytes, metadata: map<string, Bytes>)

  datatype Metric = Metric(name: Bytes, value: int)

  function Ceil(x: real): (c: int)
    ensures c as real - 1.0 < x <= c as real
  {
    -(-x).Floor
  }

  /** The value of an object's metric: what is pending, or the rate rounded up if it is scaled on that. */
  function MetricValue(o: HTTPSO, count: Count): (v: int)
    ensures o.rate.None? ==> v == count.concurrency
    ensures o.rate.Some? ==> v as real - 1.0 < count.rps <= v as real
  {
    if o.rate.Some? then Ceil(count.rps) else count.concurrency
  }

  /** The one metric of a reference, given the objects known to the informer and the saved counts. */
  method GetMetrics(sor: ScaledObjectRef, objs: map<NamespacedName, HTTPSO>, counts: Counts) returns (r: Result<Metric>)
    ensures HTTP_SCALED_OBJECT_KEY !in sor.metadata ==>
              && (r.Ok? <==> INTERCEPTOR_KEY in sor.metadata && TotalPending(counts) >= 0)
              && (r.Ok? ==> r.value == Metric(Naming.MetricName(NamespacedName(sor.namespace, sor.name)),
                   TotalPending(counts)))
    ensures HTTP_SCALED_OBJECT_KEY in sor.metadata ==>
              var n := NamespacedName(sor.namespace, sor.metadata[HTTP_SCALED_OBJECT_KEY]);
              && (r.Ok? <==> n in objs)
              && (r.Ok? ==> r.value == Metric(Naming.MetricName(n), MetricValue(objs[n], CountAt(counts, IndexKey(n)))))
              && (r.Ok? && objs[n].rate.None? ==> r.value.value == PendingFor(counts, IndexKey(n)))
              && (r.Ok? && objs[n].rate.Some? ==>
                    r.value.value as real - 1.0 < RateFor(counts, IndexKey(n)) <= r.value.value as real)
  {
    if HTTP_SCALED_OBJECT_KEY !in sor.metadata {
      if INTERCEPTOR_KEY in sor.metadata {
        var total := InterceptorMetrics(counts);
        match total
        case Err(e) => return Err(e);
        case Ok(value) => return Ok(Metric(Naming.MetricName(NamespacedName(sor.namespace, sor.name)), value));
      }
      return Err("unable to get HTTPScaledObject reference");
    }
    var n := NamespacedName(sor.namespace, sor.metadata[HTTP_SCALED_OBJECT_KEY]);
    if n !in objs {
      return Err("unable to get HTTPScaledObject");
    }
    var count := CountAt(counts, IndexKey(n));
    var metricValue := count.concurrency;
    if objs[n].rate.Some? {
      metricValue := Ceil(count.rps);
    }
    r := Ok(Metric(Naming.MetricName(n), metricValue));
  }

  /** Active means a positive metric; errors pass through. */
  method IsActive(sor: ScaledObjectRef, objs: map<NamespacedName, HTTPSO>, counts: Counts) returns (r: Result<bool>)
    ensures HTTP_SCALED_OBJECT_KEY in sor.metadata ==>
              var n := NamespacedName(sor.namespace, sor.metadata[HTTP_SCALED_OBJECT_KEY]);
              && (r.Ok? <==> n in objs)
              && (r.Ok? ==> (r.value <==> Active(objs[n], CountAt(counts, IndexKey(n)))))
              && (r.Ok? && objs[n].rate.None? ==> (r.value <==> PendingFor(counts, IndexKey(n)) > 0))
              && (r.Ok? && objs[n].rate.Some? ==> (r.value <==> RateFor(counts, IndexKey(n)) > 0.0))
    ensures HTTP_SCALED_OBJECT_KEY !in sor.metadata ==>
              && (r.Ok? <==> INTERCEPTOR_KEY in sor.metadata && TotalPending(counts) >= 0)
              && (r.Ok? ==> (r.value <==> TotalPending(counts) > 0))
  {
    var metric := GetMetrics(sor, objs, counts);
    match metric
    case Err(e) => r := Err(e);
    case Ok(m) => r := Ok(m.value > 0);
  }

  predicate Active(o: HTTPSO, count: Count) {
    MetricValue(o, count) > 0
  }

  // ---- What activity means for a rate-scaled object

  /** What one interceptor has recorded for the object, and when it was asked. */
  datatype Interceptor = Interceptor(log: seq<Entry>, now: nat)

  /** Answer a reports for key the window average of what the interceptor recorded. */
  ghost predicate ReportsRate(answer: Option<Counts>, key: string, window: int, g: int, i: Interceptor)
    requires Buckets.Config(window, g)
  {
    answer.Some? && CountAt(answer.value, key).rps == Buckets.WindowAverage(Replay(window, g, i.log), i.now)
  }

  ghost predicate AllReport(a: Answers, key: string, window: int, g: int, fleet: seq<Interceptor>)
    requires Buckets.Config(window, g)
  {
    |a| == |fleet| && forall j | 0 <= j < |a| ::
        ReportsRate(a[j], key, window, g, fleet[j]) && NonNegative(fleet[j].log)
  }

  /** Some interceptor still has a live request for the object in its window. */
  ghost predicate SomeoneLive(fleet: seq<Interceptor>, g: int, n: nat)
    requires g > 0
  {
    exists j | 0 <= j < |fleet| :: LiveSum(fleet[j].log, g, n, fleet[j].now) > 0
  }

  lemma CeilPositive(x: real)
    ensures Ceil(x) > 0 <==> x > 0.0
  {
  }

  /** A sum of rates is positive exactly when one of them is. */
  lemma {:induction false} SumPositive(a: Answers, n: nat, key: string)
    requires n <= |a| && forall j | 0 <= j < n :: CountAt(CountsIn(a[j]), key).rps >= 0.0
    ensures GrandSum(a, n, key).rps >= 0.0
    ensures GrandSum(a, n, key).rps > 0.0 <==> exists j | 0 <= j < n :: CountAt(CountsIn(a[j]), key).rps > 0.0
  {
    if n > 0 {
      SumPositive(a, n - 1, key);
    }
  }

  lemma AverageNonNegative(window: int, g: int, i: Interceptor)
    requires Buckets.Config(window, g) && Aligned(window, g) && NonNegative(i.log)
    ensures Buckets.WindowAverage(Replay(window, g, i.log), i.now) >= 0.0
  {
    AverageDecays(window, g, i.log, i.now, i.now);
  }

  /** The merged counts call a rate-scaled object active exactly when some reported rate is positive. */
  lemma ActiveIffSomeRate(o: HTTPSO, a: Answers, key: string, window: int, g: int, fleet: seq<Interceptor>)
    requires Buckets.Config(window, g) && Aligned(window, g) && o.rate.Some? && AllReport(a, key, window, g, fleet)
    ensures Active(o, CountAt(MergeAll(a, |a|), key)) <==>
            exists j | 0 <= j < |fleet| :: Buckets.WindowAverage(Replay(window, g, fleet[j].log), fleet[j].now) > 0.0
  {
    forall j | 0 <= j < |a|
      ensures CountAt(CountsIn(a[j]), key).rps ==
              Buckets.WindowAverage(Replay(window, g, fleet[j].log), fleet[j].now) >= 0.0
    {
      assert ReportsRate(a[j], key, window, g, fleet[j]);
      AverageNonNegative(window, g, fleet[j]);
    }
    SumPositive(a, |a|, key);
    MergeAllAt(a, |a|, key);
    CeilPositive(GrandSum(a, |a|, key).rps);
  }

  lemma SmallWindowActivity(o: HTTPSO, a: Answers, key: string, window: int, g: int, fleet: seq<Interceptor>)
    requires Buckets.Config(window, g) && Aligned(window, g) && o.rate.Some? && AllReport(a, key, window, g, fleet)
    requires 0 < CeilDiv(window, g) <= 1000
    ensures Active(o, CountAt(MergeAll(a, |a|), key)) <==> SomeoneLive(fleet, g, CeilDiv(window, g))
  {
    ActiveIffSomeRate(o, a, key, window, g, fleet);
    forall j | 0 <= j < |fleet|
      ensures NothingHidden(window, g, fleet[j].log, fleet[j].now)
    {
      assert ReportsRate(a[j], key, window, g, fleet[j]) && NonNegative(fleet[j].log);
      SmallWindowHidesNothing(window, g, fleet[j].log, fleet[j].now);
    }
  }

  lemma LoneReport(key: string, window: int, g: int, i: Interceptor, a: Answers)
    requires Buckets.Config(window, g) && NonNegative(i.log) && a == [Some(map[key := Count(0, 0.0)])]
    requires Buckets.WindowAverage(Replay(window, g, i.log), i.now) == 0.0
    ensures AllReport(a, key, window, g, [i])
  {
    assert CountAt(a[0].value, key) == Count(0, 0.0);
    assert ReportsRate(a[0], key, window, g, [i][0]);
  }

  /** A lone interceptor that hides a live request. */
  lemma HiddenMeansInactive(o: HTTPSO, key: string, window: int, g: int, i: Interceptor) returns (a: Answers)
    requires Buckets.Config(window, g) && Aligned(window, g) && o.rate.Some? && NonNegative(i.log)
    requires Buckets.WindowAverage(Replay(window, g, i.log), i.now) == 0.0
    ensures AllReport(a, key, window, g, [i]) && !Active(o, CountAt(MergeAll(a, |a|), key))
  {
    a := [Some(map[key := Count(0, 0.0)])];
    LoneReport(key, window, g, i, a);
    ActiveIffSomeRate(o, a, key, window, g, [i]);
  }

  /** With more than 1000 slots a live request can go unreported, and the workload to sleep. */
  lemma LargeWindowMissesRequest(o: HTTPSO, key: string, window: int, g: int)
    returns (a: Answers, fleet: seq<Interceptor>)
    requires Buckets.Config(window, g) && Aligned(window, g) && o.rate.Some? && CeilDiv(window, g) > 1000
    ensures AllReport(a, key, window, g, fleet)
    ensures !Active(o, CountAt(MergeAll(a, |a|), key)) && SomeoneLive(fleet, g, CeilDiv(window, g))
  {
    var n := CeilDiv(window, g);
    LargeWindowHides(window, g);
    var i := Interceptor(SparseLog(g, n), (n + 1) * g);
    fleet := [i];
    a := HiddenMeansInactive(o, key, window, g, i);
    assert LiveSum(fleet[0].log, g, n, fleet[0].now) > 0;
  }

  /** A rate-scaled object is reported active exactly when some interceptor has a live request for
      it, for every fleet and every history, exactly when its window has at most 1000 slots. */
  lemma RateActivityExactly(o: HTTPSO, key: string, window: int, g: int)
    requires Buckets.Config(window, g) && Aligned(window, g) && o.rate.Some?
    ensures CeilDiv(window, g) > 0
    ensures (forall a, fleet | AllReport(a, key, window, g, fleet) ::
               Active(o, CountAt(MergeAll(a, |a|), key)) <==> SomeoneLive(fleet, g, CeilDiv(window, g)))
            <==> CeilDiv(window, g) <= 1000
  {
    CeilDivBound(window, g, 0);
    if CeilDiv(window, g) <= 1000 {
      forall a, fleet | AllReport(a, key, window, g, fleet)
        ensures Active(o, CountAt(MergeAll(a, |a|), key)) <==> SomeoneLive(fleet, g, CeilDiv(window, g))
      {
        SmallWindowActivity(o, a, key, window, g, fleet);
      }
    } else {
      var a, fleet := LargeWindowMissesRequest(o, key, window, g);
    }
  }
}
