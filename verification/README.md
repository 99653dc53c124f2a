# A verified model of the KEDA HTTP add-on's request counting, routing and scaling

The HTTP add-on scales workloads on their HTTP traffic. An interceptor routes each request to an
`HTTPScaledObject`, counts it while it is in flight and records its arrival in a sliding window. A
scaler polls all interceptors, adds up what they report and tells KEDA whether an object is active.
A request for a workload that has been scaled to zero waits until it hears of an endpoint of the
workload.

The project models this path and proves what it promises, in this order:

| file | what it models |
|---|---|
| `Arith.dfy` | integer arithmetic shared by the other modules |
| `Buckets.dfy` | the sliding-window counter: functions on its value, and the class with its ring array and loops |
| `SlotRing.dfy` | the ring in terms of slot numbers, proved to hold exactly the logged values of its window |
| `BucketLog.dfy` | the counter on time against a log of every call, and the granularities for which it is right |
| `BucketAverage.dfy` | the reported average: what it reads, its bound, its decay, what rounding hides |
| `BucketFirst.dfy` | what the average is divided by, and with it the average, as a function of the log |
| `QueueMemory.dfy` | the in-memory counter: pending counts and rings per key, with update in place |
| `Counting.dfy` | the counting middleware: any number of requests interleaved with changes of the keys |
| `Arrivals.dfy` | end to end, from counted requests over a fleet of interceptors to the activity decision |
| `Keys.dfy` | routing keys and what their prefix order means |
| `TableMemory.dfy`, `TableMemoryLaws.dfy` | the routing memory, its coherence over runs, what Forget leaves, order independence |
| `Routing.dfy` | routing by longest key against a scan over all objects |
| `RoutingTable.dfy` | event handlers, signaler and refresher of the routing table as one protocol |
| `TableCounters.dfy` | the table's registry against the counter: keys, and shapes of the rings |
| `TableEvents.dfy` | the registry against the objects that exist, by the informer's events |
| `Interceptors.dfy` | a whole interceptor, whose runs project onto runs of its table and of its counting middleware |
| `FanIn.dfy`, `Scaler.dfy`, `Activity.dfy` | the concurrent fetch, its result and the metrics computed from it |
| `ColdStart.dfy` | the cold-start wait against the endpoints cache |
| `Naming.dfy`, `NamingLaws.dfy` | metric names: their escaping undone, and spelled out |
| `Dial.dfy` | dialling with retries and the advertised minimum backoff |

`dafny verify dfyconfig.toml` checks all of it.

## What holds and what does not

Some of what the source promises is true only under a condition. The code is then modelled as it is,
lemmas give the failing family, and an if-and-only-if theorem gives the condition:

- The counter agrees with a log of its calls for every history exactly when its granularity divides
  the 62135596800 seconds between year 1 and 1970, and consists of whole seconds or spans the whole
  window (`BucketLog.AgreesExactlyWhenAligned`): slot boundaries are truncated from year 1, while
  bucket indices count whole seconds from 1970. One second and one minute are fine; seven seconds and
  one and a half are not.
- The average is cut after three digits, so a live request can be reported as a rate of zero. This
  never happens exactly when the window has at most 1000 slots (`BucketAverage.NothingHiddenExactly`),
  and the scaling decision inherits the condition (`Activity.RateActivityExactly`).
- The comment at pkg/queue/bucketing.go:84-87 says that after a silence the average is over the part
  of the window that has data. The code at lines 115-118 divides by the same number of buckets as
  before, and the test in pkg/queue/bucketing_test.go:290-297 expects so. The model follows the code.
  For a history and a time, the comment is right exactly when no slot has passed since the last write
  or the window reaches back before the first (`BucketAverage.DivisorExactly`); for all of them,
  exactly when the window is one slot (`BucketAverage.AveragesLivePartExactly`).
- Rebuilding the routing memory gives the same result for every order in which Go visits the map
  exactly when no key has two oldest claimants (`TableMemoryLaws.BuildIsUnique`).
- Forget leaves no route to the forgotten name exactly when every store entry of the name lies under
  a key of the indexed object (`TableMemoryLaws.ForgetExactly`). Runs that forget a name before they
  remember it again keep this; others leave routes behind (`UndisciplinedLeavesRoute`). The table
  rebuilds its memory from nothing, so it is not affected.
- Forget undoes Remember exactly when the name was new and nobody was displaced
  (`TableMemoryLaws.ForgetUndoesRemember`).
- The pending count equals the requests in flight all along a run exactly when the key is never
  removed under them (`Counting.CountsConserved`); once they have drained it is exact again
  (`Counting.DrainingMends`). Even whether anything is in flight is told all along exactly under that
  condition (`Arrivals.ActiveInFlightExactly`).
- A cold start misses no activation, in any run over given slices, exactly when at most one of them
  belongs to the service (`ColdStart.NothingMissedExactly`): the first read looks at one slice only.
- A released waiter was not released by old news, on any continuation, exactly when none was on its
  way (`ColdStart.ReleaseExactly`): a slice that was active before the waiter came, and no longer is,
  can still release it (`ColdStart.StaleNewsReleases`).
- The counter knows every registered object all along a run, whether or not handlers overlap, exactly
  when no handler registers an object after another has taken its key away
  (`TableCounters.NamesCountedExactly`). With one handler at a time this is always so
  (`TableCounters.RoutedObjectsAreCounted`); a handler that overtakes another can break it
  (`TableCounters.OvertakingLosesKey`).
- With one handler at a time, every object is counted with the window and granularity it asks for,
  whenever no handler is running, exactly when additions are for new names or ask for what the name
  already has (`TableCounters.RingsAsConfigured`). The informer can break this only through a deletion
  that the handler ignores (`TableEvents.RingsOfHistory`, `TableEvents.RecreatedKeepsRing`).
- A deletion that the informer learns of by listing anew is delivered as an object of another type,
  which OnDelete ignores. The registry is what exists exactly when every such deletion is followed by
  another event for its name (`TableEvents.RegistryOfRun`).
- The advertised minimum backoff is a lower bound exactly when there is a step, or the duration is
  below a millisecond (`Dial.MinTotalIsLowerBound`).
- The fan-in never blocks its caller. When every endpoint answers, all its goroutines end
  (`FanIn.NobodyLeftBehind`); when one fails, none of the forwarders does, nor the goroutine that
  closes the channel (`FanIn.FailureLeaksForwarders`).

## Model

| member | source | states |
|---|---|---|
| `Buckets.RequestsBuckets.constructor` | pkg/queue/bucketing.go:47-56 | a new counter is the empty ring with window divided by granularity, rounded up, buckets and zero times |
| `Buckets.RequestsBuckets.ResetBuckets` | pkg/queue/bucketing.go:160-164 | the reset loop zeroes every bucket and the total |
| `Buckets.RequestsBuckets.ClearRange` | pkg/queue/bucketing.go:170-174 | the clearing loop, wrapping around the ring in place, equals clearing the slots one after the other on values |
| `Buckets.RequestsBuckets.Advance` | pkg/queue/bucketing.go:149-178 | in-place adjustment of first and last write and eviction equals the ring made ready for the new slot |
| `Buckets.RequestsBuckets.Record` | pkg/queue/bucketing.go:140-188 | recording in place equals the function whose whole-history meaning is AlignedAgrees |
| `Buckets.RequestsBuckets.TotalWithout` | pkg/queue/bucketing.go:109-114 | the reading loop computes the total less the outdated slots and changes no bucket |
| `Buckets.RequestsBuckets.ReadWindowAverage` | pkg/queue/bucketing.go:92-122 | reading the average computes the function about which the average lemmas speak |
| `SlotRing.ClearMovesWindow` | pkg/queue/bucketing.go:165-175 | clearing the slots after the last write moves the window along: each bucket again holds its slot's logged sum, across wrap-around |
| `SlotRing.RecordTracks` | pkg/queue/bucketing.go:148-187 | every recorded value, early, late, repeated or after a gap, keeps: buckets, total and last slot are those of the log, and no live value is older than the first slot |
| `SlotRing.NumeratorIsLogSum` | pkg/queue/bucketing.go:96-121 | reading at any slot sees exactly the logged values of the window ending at the later of that slot and the latest record |
| `BucketLog.RecordSimulates` | pkg/queue/bucketing.go:127-188 | Record on nanosecond times, with saturating subtraction, does to the ring what it does on slots |
| `BucketLog.AlignedAgrees` | pkg/queue/bucketing.go:134-188 | with aligned slots, after any sequence of calls every bucket of the window holds the sum of all values ever recorded for its slot, and the total their sum |
| `BucketLog.MisalignedDisagrees` | pkg/queue/bucketing.go:127-188 | for every window and granularity that are not aligned, two calls after which the total is wrong |
| `BucketLog.AgreesExactlyWhenAligned` | pkg/queue/bucketing.go:127-188 | for every positive window and granularity of a second or more, the counter agrees with its log on all histories if and only if the granularity divides the seconds from year 1 to 1970 and is whole seconds or spans the window |
| `BucketLog.OrderIndependent` | pkg/queue/bucketing.go:140-188 | the same calls in any order leave the same buckets, total and last write |
| `BucketAverage.ReadSeesLog` | pkg/queue/bucketing.go:92-122 | the numerator of the average is the log's live sum at every time, for every history |
| `BucketAverage.ReadIsEagerEviction` | pkg/queue/bucketing.go:105-114 | the lazy read agrees with evicting first: its numerator is the total that recording zero would leave |
| `BucketAverage.RoundedQuotient` | pkg/queue/bucketing.go:71-74 | rounding down to three digits is integer division in thousandths |
| `BucketAverage.LiveWithinDenominator` | pkg/queue/bucketing.go:101-103 | every live value lies within the last denominator-many slots |
| `BucketAverage.AverageAtMostBusiest` | pkg/queue/bucketing.go:92-122 | the average never exceeds the total of the busiest slot that is still in the window at the time it is read |
| `BucketAverage.AverageDecays` | pkg/queue/bucketing.go:92-122 | without further records the average never rises, never goes below zero, and is zero once the window has passed |
| `BucketAverage.DivisorExactly` | pkg/queue/bucketing.go:105-118 | while data is live, the average is over the live part of the window if and only if no slot has passed since the last write or the window still reaches back before the first write |
| `BucketAverage.AveragesLivePartExactly` | pkg/queue/bucketing.go:84-118 | it is so for all histories and times if and only if the window is a single slot |
| `BucketFirst.FirstWriteOfLog` | pkg/queue/bucketing.go:150-159 | for every history, firstWrite is the start of the least slot of the calls taken since the last call that came a window or more after all before it |
| `BucketFirst.DivisorOfLog` | pkg/queue/bucketing.go:101-103 | the average is divided by the slots from that one to the latest, at most those of a window |
| `BucketFirst.AverageOfLog` | pkg/queue/bucketing.go:76-122 | for every history and time, the reported average is the live sum of the log over that divisor, rounded down to thousandths |
| `BucketFirst.SilenceRestarts` | pkg/queue/bucketing.go:134-139 | a call that comes a window or more after all others is averaged over its own slot alone |
| `BucketAverage.LargeWindowHides` | pkg/queue/bucketing.go:71-74 | for every window of more than 1000 slots, a history with a live request whose average is zero |
| `BucketAverage.NothingHiddenExactly` | pkg/queue/bucketing.go:71-122 | the average is positive exactly when the log has a live value, on all histories and times, if and only if the window has at most 1000 slots |
| `BucketAverage.DefaultIsExact` | pkg/routing/table.go:155-156 | the default window of a minute in seconds meets all these conditions, so it agrees with every log and hides no request |
| `QueueMemory.Memory.constructor` | pkg/queue/queue.go:57-64 | a new counter knows no key |
| `QueueMemory.Memory.RecordAt` | pkg/queue/queue.go:71 | recording in one key's ring in place leaves the rings of all other keys alone |
| `QueueMemory.Memory.Increase` | pkg/queue/queue.go:67-73 | adds to the pending count and records in the ring of that key, and changes no other key |
| `QueueMemory.Memory.Decrease` | pkg/queue/queue.go:76-94 | subtracts, clamping at zero; an unknown key is left unknown |
| `QueueMemory.Memory.EnsureKey` | pkg/queue/queue.go:96-107 | adds what is missing of the key in either map |
| `QueueMemory.Memory.ReplaceBuckets` | pkg/queue/queue.go:111-118 | replaces the ring exactly when there is one and window or granularity differ |
| `QueueMemory.Memory.UpdateBuckets` | pkg/queue/queue.go:109-119 | the two critical sections: make sure of the key, then replace a ring of another shape |
| `QueueMemory.Memory.RemoveKey` | pkg/queue/queue.go:121-129 | removes the key from both maps and says whether both had it |
| `QueueMemory.Memory.Current` | pkg/queue/queue.go:132-147 | fails exactly when some pending count has no ring, else reports each key's count and its window average at the time read for that key |
| `Counting.StepKeepsInv` | interceptor/middleware/counting.go:29-87 | every step of every request and every change of a key keeps: counts between zero and the requests in flight, gauge exact, key sets equal, sent signals kept |
| `Counting.CountsConserved` | interceptor/middleware/counting.go:48-87 | in every run the count lies between zero and the requests in flight and the gauge is exact; the count equals the requests in flight in every state of the run if and only if the key is never removed under them |
| `Counting.DrainingMends` | pkg/queue/queue.go:86-91 | after any run that leaves no request of the key in flight, its count is exact, and on every continuation stays so if and only if the key is not torn again |
| `Counting.TellsExactly` | pkg/queue/queue.go:67-129 | from an exact count, it is positive exactly when a request is in flight in every state of a run if and only if the key is never removed under requests |
| `Counting.RemovalUndercounts` | pkg/queue/queue.go:121-129 | for every key and configuration, a run from the start that removes and registers the key under a request and ends with another request in flight and nothing pending |
| `Counting.SignalledRequestDrains` | pkg/util/signaler.go:20-34 | a request whose Signal occurred in the run is never stuck, even if that was before it waited: its next step is enabled and brings it closer to the end |
| `Counting.NotCountedOutEarly` | interceptor/middleware/counting.go:48-64 | a request without a signal and without a cancellation in the run is not counted out |
| `Arrivals.RunLogs` | pkg/queue/queue.go:67-129 | over every run each ring is the replay of the requests counted since it was installed |
| `Arrivals.ReportsArrivals` | pkg/queue/queue.go:132-147 | in every reachable state Current does not fail and reports the requests in flight, unless torn, and the average of the arrivals |
| `Arrivals.ActiveIffArrival` | scaler/handlers.go:61-84 | for every fleet of interceptors, each after a run of its own, a rate-scaled object with at most 1000 slots is active exactly when one of them counted a request still in the window |
| `Arrivals.ActiveIffInFlight` | scaler/handlers.go:218-221 | for every fleet, an object scaled on concurrency is active only if some interceptor has a request for it in flight, and exactly then if no run removed the key under requests |
| `Arrivals.ActiveInFlightExactly` | scaler/handlers.go:218-221 | for a lone interceptor, all along a run, the object is active exactly when a request is in flight, if and only if its key is never removed under requests |
| `Arrivals.MetricIsInFlight` | scaler/handlers.go:214-229 | for every fleet, the metric of an object scaled on concurrency is at most the sum of its requests in flight at all interceptors, and exactly that if no run removed the key under requests |
| `Arrivals.MetricIsRate` | scaler/handlers.go:215-217 | for every fleet, the metric of a rate-scaled object is the sum of the averages of its arrivals at all interceptors, rounded up |
| `Interceptors.ReportsAsAsked` | pkg/routing/table.go:148-206 | in every run of a whole interceptor, with one handler at a time and no deletion ignored, every registered object is reported with the average of its arrivals over the window and granularity it asks for, and its requests in flight |
| `Interceptors.ProjectsOnTable` | pkg/routing/table.go:85-223 | a run of an interceptor is a run of its routing table |
| `Interceptors.ProjectsOnRequests` | interceptor/middleware/counting.go:29-87 | a run of an interceptor is a run of its counting middleware |
| `Interceptors.FleetDecides` | scaler/handlers.go:61-84 | for every fleet of such interceptors, a rate-scaled object with at most 1000 aligned slots is active exactly when one of them counted a request still in the window |
| `Keys.KeyPrefix` | pkg/routing/key.go:14-26 | one key is a prefix of another exactly when its list of host and path segments is: never in the middle of a segment |
| `Keys.KeyPrefixByHost` | pkg/routing/key.go:14-26 | for hosts without slashes: equal hosts up to the port, and a prefix of whole path segments |
| `Keys.KeyInjective` | pkg/routing/key.go:14-26 | keys are equal exactly when they address the same segments |
| `Keys.PortStripped` | pkg/routing/key.go:15-17 | a port is cut off whatever the host; a host stays as it is exactly when it has no colon |
| `Keys.TrimIsSlice` | pkg/routing/key.go:19 | trimming a path cuts off the slashes on either side, all of them and nothing else |
| `Keys.KeysForHas` | pkg/routing/key.go:82-87 | every pair of host and path prefix contributes its key |
| `Keys.KeysForFrom` | pkg/routing/key.go:82-87 | every key comes from such a pair |
| `Keys.NewKeys` | pkg/routing/key.go:62-90 | the nested loops compute exactly those keys; a missing list stands for one empty entry, an empty one for none |
| `TableMemory.IndexKeyInjective` | pkg/routing/tablememory.go:109-126 | index keys are equal exactly when the namespaced names are |
| `TableMemory.Remember` | pkg/routing/tablememory.go:32-58 | the loop offers the object for each of its keys and indexes it; nothing to remember changes nothing |
| `TableMemory.OfferAllAt` | pkg/routing/tablememory.go:41-52 | key by key: the object takes exactly the keys it claims that no older object holds |
| `TableMemory.Forget` | pkg/routing/tablememory.go:74-102 | the loop withdraws the name from the keys of the indexed object; an unknown name changes nothing, no name yields no memory |
| `TableMemory.WithdrawAllAt` | pkg/routing/tablememory.go:85-96 | key by key: entries of that name under those keys go, all others stay |
| `TableMemory.LongestPrefix` | pkg/routing/tablememory.go:104-107 | the entry of a longest stored key that is a prefix of the given one, and none only if there is no such key |
| `TableMemoryLaws.RunsStayCoherent` | pkg/routing/tablememory.go:32-102 | over every run that forgets before it remembers again, each store entry lies under a key of its object, and is the object its name is indexed to |
| `TableMemoryLaws.RecallLaws` | pkg/routing/tablememory.go:60-72 | Recall after Remember and Forget sees that change for that name and no change for others |
| `TableMemoryLaws.ForgetExactly` | pkg/routing/tablememory.go:74-102 | after Forget no request reaches the name if and only if every entry of the name lay under a key of the indexed object |
| `TableMemoryLaws.ForgetLeavesNoRoute` | pkg/routing/tablememory.go:74-102 | after every such run Forget leaves no route to the name |
| `TableMemoryLaws.UndisciplinedLeavesRoute` | pkg/routing/tablememory.go:32-58 | remembering a changed object without forgetting it leaves any key that only the earlier version claims routed to it, even after Forget |
| `TableMemoryLaws.ForgetUndoesRemember` | pkg/routing/tablememory.go:32-102 | Forget undoes Remember if and only if the name was new and the object displaced nobody |
| `TableMemoryLaws.OldestWins` | pkg/routing/tablememory.go:46-49 | whatever the order, a key is stored exactly when claimed, and held by an oldest claimant |
| `TableMemoryLaws.NewMemoryFromHTTPSOs` | pkg/routing/table.go:106-116 | the rebuild remembers every registered object once, in some order |
| `TableMemoryLaws.BuiltFromMeans` | pkg/routing/table.go:106-116 | its result stores exactly the claimed keys, each for an oldest registered claimant |
| `TableMemoryLaws.LastOldestHolds` | pkg/routing/tablememory.go:46-49 | each of several oldest claimants of a key can end up holding it |
| `TableMemoryLaws.BuildIsUnique` | pkg/routing/table.go:110-115 | for every registry: the order in which the map is visited leaves no trace if and only if no key has two oldest claimants |
| `Routing.RouteRefinesScan` | pkg/routing/tablememory.go:104-107 | for every registry, host and path, routing by longest key answers like a scan: a claim covering most segments of the request, the oldest object among equal claims, nothing only if nothing covers it; an object without hosts or without path prefixes claims the empty one |
| `Routing.CoversByHost` | pkg/routing/key.go:14-26 | what covering means for hosts without slashes |
| `Routing.NoURLNoRoute` | pkg/routing/table.go:127-139 | a request without a URL is routed nowhere |
| `Routing.NothingToRoute` | pkg/routing/table.go:128-135 | no request, and any request before a memory is published, is routed nowhere |
| `RoutingTable.NoLostUpdate` | pkg/routing/table.go:85-223 | in every interleaving, once synced and until cancelled, the published memory is current or somebody is about to make the refresher look again |
| `RoutingTable.QuiescentRoutesByRegistry` | pkg/routing/table.go:127-139 | a quiescent table answers every request like a scan of the current registry, however many signals were dropped |
| `RoutingTable.RefresherCatchesUp` | pkg/routing/table.go:96-103 | when handlers pause after any run, every schedule of the refresher takes at most as many steps as it lags behind, and when it can take no more the table is quiescent and current |
| `TableCounters.RoutedObjectsAreCounted` | pkg/routing/table.go:148-223 | with one handler at a time the counter knows every registered object, nothing else between handlers, and every routed object can be counted |
| `TableCounters.NamesCountedExactly` | pkg/routing/table.go:148-223 | in every run, handlers overlapping or not, the counter knows every registered object all along if and only if no handler registers an object whose key another has taken away |
| `TableCounters.OvertakingLosesKey` | pkg/routing/table.go:162-169 | from the start, a deletion overtaking an addition of the same name leaves an object registered that is in neither map of the counter |
| `TableCounters.RingsAsConfigured` | pkg/routing/table.go:155-192 | with one handler at a time: if additions are for new names or ask for the shape the name has, every ring has the shape its object asks for whenever no handler is running; for runs that end so, if and only if |
| `TableCounters.UnfitAdditionKeepsRing` | pkg/routing/table.go:148-170 | after any run whose additions fit, one that does not leaves its object, whatever else happens, with a ring of the window and granularity of the object it replaced |
| `TableEvents.RegistryByEvents` | pkg/routing/table.go:148-223 | for all events: a name is registered exactly when some event put an object there and no later event that the handlers heed put another there or took it away, and then it is that object |
| `TableEvents.ExistingByEvents` | pkg/routing/table.go:148-223 | the same of what exists, where every deletion counts |
| `TableEvents.RegistryIsExact` | pkg/routing/table.go:208-223 | for every history of the informer: the registry is what exists if and only if every ignored deletion is followed by another event for its name |
| `TableEvents.RegistryOfRun` | pkg/routing/table.go:148-223 | the same of the registry of every run with one handler at a time, whenever no handler is running |
| `TableEvents.QuiescentRoutesByExisting` | pkg/routing/table.go:127-139 | with nothing left over, a quiescent table answers every request like a scan of the objects that exist |
| `TableEvents.RingsOfHistory` | pkg/routing/table.go:148-206 | as long as no deletion is ignored, every object is counted with the window and granularity it asks for |
| `TableEvents.DeletedStaysRegistered` | pkg/routing/table.go:208-212 | from the start, an object whose deletion is ignored stays registered though nothing exists |
| `TableEvents.RecreatedKeepsRing` | pkg/routing/table.go:148-170 | created anew with another window or granularity, it is counted with the old ones |
| `FanIn.AddCounts` | scaler/queue_pinger.go:201-210 | the loop adds, host by host, what is pending and the rates of one endpoint to the totals |
| `FanIn.GrandSumIs` | scaler/queue_pinger.go:207-208 | the sum over endpoints is the sum of what they report as pending and the sum of their rates |
| `FanIn.StepKeepsInv` | scaler/queue_pinger.go:152-211 | every step of every goroutine keeps: wait group, channel and endpoint states consistent, totals equal to the sum over the delivered endpoints |
| `FanIn.StepDecreases` | scaler/queue_pinger.go:152-211 | every step of anybody brings the whole closer to its end |
| `FanIn.MainFinishes` | scaler/queue_pinger.go:191-213 | runs are bounded, and one that cannot go on has finished the main routine, whether or not fetches fail |
| `FanIn.ClosedAfterDelivery` | scaler/queue_pinger.go:183-189 | the channel is closed only after every forwarder has delivered |
| `FanIn.ResultIsExact` | scaler/queue_pinger.go:140-214 | it succeeds only if every endpoint answered, with the sums over all endpoints of what is pending and of the rates per host, and exactly the reported hosts; it fails only if some endpoint did |
| `FanIn.NobodyLeftBehind` | scaler/queue_pinger.go:174-189 | when every endpoint answers, a run that cannot go on has ended every goroutine |
| `FanIn.FailureLeaksForwarders` | scaler/queue_pinger.go:174-194 | after one failed fetch no forwarder ever delivers and the channel stays open; a run that cannot go on has failed, with the forwarders of failed endpoints still receiving and all others still sending |
| `Scaler.FetchIsDeterminate` | scaler/queue_pinger.go:131-214 | whatever the schedule, the fetch fails exactly when endpoints cannot be listed, there are none or one fails, and else returns for exactly the reported hosts the sums of what is pending and of the rates |
| `Scaler.QueuePinger.constructor` | scaler/queue_pinger.go:57-70 | a new pinger has no counts and unknown status |
| `Scaler.QueuePinger.FetchAndSaveCounts` | scaler/queue_pinger.go:115-129 | a success replaces counts, status and time; a failure changes the status only |
| `Scaler.QueuePinger.Loop` | scaler/queue_pinger.go:83-104 | after any series of fetches the saved counts are those of the latest success and the status is an error exactly when the latest fetch failed; cancellation ends the loop, keeps the counts and sets the error |
| `Scaler.InterceptorMetrics` | scaler/handlers.go:234-255 | the sum of all pending counts, independent of the order of the hosts, or an error if it is negative |
| `Scaler.MergeConserves` | scaler/queue_pinger.go:196-211 | merging counts loses and invents no pending request |
| `Scaler.FetchConserves` | scaler/handlers.go:237-240 | the total over the merged counts is the sum of all endpoints' totals |
| `Activity.GetMetrics` | scaler/handlers.go:182-232 | which reference gets which metric name, that its value is what is pending or the rate rounded up, and exactly which references fail |
| `Activity.IsActive` | scaler/handlers.go:61-84 | active exactly when something is pending, or the rate is positive for an object scaled on it; fails exactly when the metric does |
| `Activity.ActiveIffSomeRate` | scaler/handlers.go:214-217 | the merged counts call a rate-scaled object active exactly when some interceptor's rate is positive |
| `Activity.LargeWindowMissesRequest` | scaler/handlers.go:215-217 | for every window of more than 1000 slots, a fleet with a live request whose object is called inactive |
| `Activity.RateActivityExactly` | scaler/handlers.go:61-84 | active exactly when some interceptor has a live request, for all fleets and histories, if and only if the window has at most 1000 slots |
| `ColdStart.WorkloadActiveEndpoints` | interceptor/forward_wait_func.go:17-27 | the loop counts the addresses of ready endpoints, a missing condition counting as ready |
| `ColdStart.ActiveMeansReady` | interceptor/forward_wait_func.go:17-27 | the count is positive exactly when an endpoint that is not declared unready has an address |
| `ColdStart.AddressesAddUp` | interceptor/forward_wait_func.go:17-27 | each endpoint, wherever it is listed, adds its addresses unless it is declared unready |
| `ColdStart.StepInforms` | interceptor/forward_wait_func.go:33-80 | every step of the cluster, the broadcaster and the waiter keeps: news of a cached slice is on its way, or it is inactive, or stale; only the first read makes a slice stale, and its next change makes it known |
| `ColdStart.NoMissedActivation` | interceptor/forward_wait_func.go:34-69 | in every run, while the waiter waits, every active cached slice is queued or due, unless its first read overlooked it and it was not changed since; it returns only on an active slice, and calls it a cold start only if the read saw none |
| `ColdStart.SingleSliceMissesNothing` | interceptor/forward_wait_func.go:34-69 | in every run over a single slice of the service, while the waiter waits, the slice is inactive or its event queued or due |
| `ColdStart.WaiterIsReleased` | interceptor/forward_wait_func.go:59-69 | after any run that leaves it waiting for a slice it did not overlook, every order of distributing and receiving is bounded and cannot stop before the wait has ended |
| `ColdStart.ReleaseMeansActive` | interceptor/forward_wait_func.go:60-69 | if no news of an active slice is on its way, on every run to the release the service has an active slice in some state |
| `ColdStart.ReleaseExactly` | interceptor/forward_wait_func.go:60-69 | for a waiter and a service without an active slice, that is so on every continuation if and only if no such news is on its way |
| `ColdStart.StaleNewsReleases` | interceptor/forward_wait_func.go:60-69 | from the start, a waiter released though the service has been inactive since before it registered |
| `ColdStart.ColdExactly` | interceptor/forward_wait_func.go:53-69 | whatever happens after the read, a waiter that returns reports a cold start exactly when the slice it read was inactive, and it returns at once when that was active |
| `ColdStart.FailuresStay` | interceptor/forward_wait_func.go:44-76 | a waiter that finds no slice, or whose context ends, fails for good |
| `ColdStart.ActiveServiceOverlooked` | pkg/k8s/endpoints_cache_informer.go:56 | for any two slices of a service, one active and one not, a run that leaves the waiter waiting with nothing on its way |
| `ColdStart.NothingMissedExactly` | pkg/k8s/endpoints_cache_informer.go:40-57 | over given slices, no run misses an activation if and only if at most one of them belongs to the service |
| `Naming.UnescapeEscape` | scaler/naming.go:14-20 | escaping can be undone on every byte string, valid UTF-8 or not |
| `Naming.EscapeIsSafe` | scaler/naming.go:10-20 | escaped strings have only safe characters and underscores |
| `Naming.MetricNamesDiffer` | scaler/naming.go:22-25 | different objects never share a metric name |
| `NamingLaws.PlainIsKept` | scaler/naming.go:11 | a string is left as it is exactly when it is made of letters, digits, hyphens and dots |
| `NamingLaws.EscapeSpelled` | scaler/naming.go:14-16 | a character is escaped as an underscore and two upper-case hexadecimal digits for each byte, after two zeros if there is only one |
| `NamingLaws.WidthOfRune` | scaler/naming.go:18-20 | every UTF-8 encoded character is escaped as a whole, whatever follows |
| `NamingLaws.RuneOfWidth` | scaler/naming.go:18-20 | what is escaped as more than one byte is an encoded character |
| `NamingLaws.MetricNameSpelled` | scaler/naming.go:22-25 | a metric name is http-, the escaped namespace, an escaped slash and the escaped name |
| `Dial.RetryDialer.constructor` | pkg/net/dial_context.go:29-30 | captures the backoff and its number of steps |
| `Dial.RetryDialer.Dial` | pkg/net/dial_context.go:31-59 | at most steps attempts; success, cancellation and failure each come about as they should, the last error is that of the last attempt, the doubled sleeps add up, and the captured backoff, whose steps would run out, is left unchanged |
| `Dial.MinTotalBackoffDuration` | pkg/net/backoff.go:11-19 | the loop computes whole milliseconds times a triangle number, n(n + 1)/2 |
| `Dial.MinTotalIsLowerBound` | pkg/net/backoff.go:9-19 | that is a lower bound on the sleep of a fully failing dial if and only if there is a step, or the duration is below a millisecond |
| `Dial.MinTotalIsTight` | pkg/net/backoff.go:9-19 | for positive durations the bound is reached exactly by one or two steps of whole milliseconds |

## Left out

- Buckets.RequestsBuckets.constructor: takes positive granularities and windows above minus one of them; with others the source asks for an array of negative or undefined length.
- Buckets.RequestsBuckets.Record: on counters with a positive window and a granularity of at least a second, without which the source divides by zero; and for the instants whose index, and that of their slot start plus one, are not negative; others make the source index the ring below zero, unless the index happens to be a multiple of the length. Times are compared as instants, not by location or monotonic clock reading.
- Buckets.RequestsBuckets.ReadWindowAverage: while nothing is written, not for instants within a window after the zero time, for the same reason.
- QueueMemory.Memory.Increase: requires a ring for the key, without which the source dereferences nil.
- BucketLog.AlignedAgrees: for calls from the second second of 1970 on; counts are unbounded integers, and overflow of machine integers is not modelled.
- BucketAverage.RoundedQuotient: exact real arithmetic; the rounding of 64-bit floats is not modelled, here or in the sums of rates.
- BucketAverage.AverageDecays: for non-negative values, the only ones the interceptor records.
- Scaler.InterceptorMetrics: the sum is unbounded, so that the error stands for a negative sum and not for every overflow.
- Counting.CountsConserved: a request for an unregistered key cannot be counted in, and the counter's operations never fail, as in the in-memory implementation.
- TableCounters.RoutedObjectsAreCounted: registered objects have a positive window and a granularity of at least a second, which the source does not check.
- FanIn.ResultIsExact: goroutines not yet started are goroutines that have not yet moved; cancellation of the context is an endpoint that fails.
- Dial.RetryDialer.Dial: backoff with factor 2 and no cap, which is what the interceptor configures.
- ColdStart.NoMissedActivation: the informer and broadcaster are in-order queues that lose no slice they are given; a slice whose service label changes is not modelled.
- The routing table, the counting middleware, the fan-in and the cold-start wait are state machines over values, one step per critical section or channel operation; mutexes and aliasing inside a step are not captured.
- The signaler is a boolean slot inside those protocols.
- The immutable radix trees are finite maps; deep copies of objects have no counterpart.
- The counter's IsEmpty, HasSynced and health checks would add only easy members.
- Listing the addresses of a service's endpoints (pkg/k8s/endpoints.go) is an input of the fetch.
- GetMetricSpec only looks up the configured target, and StreamIsActive repeats the activity decision on a timer.
- Proxying, TLS, gRPC, logging, tracing, metric exporters and the operator's reconciliation.
