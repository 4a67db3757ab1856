# Verification of the path from metric history to scale events

A Dafny 4.11 model of how ninjascale turns arriving metric samples into scale
calls, with proofs about all of its runs. `dafny verify dfyconfig.toml` checks
the whole project.

The path has five stages, each with its own files:

- **The bounded metric store.** `MetricStore.dfy` and `Slices.dfy` hold the
  store as the code has it: a map of slices over shared backing arrays, written
  in place, resliced and pruned into copies. Every operation is proved against
  the state machine of `StoreModel.dfy`, which carries the whole accepted
  history, never pruned or capped, beside what is stored. `StoreInvariant.dfy` and
  `StoreRuns.dfy` prove the inductive invariant of its runs, `StoreTheorems.dfy`
  draws the conclusions, and `Feeds.dfy` builds runs that reach a given history.
- **The completed-window query.** `Snapshots.dfy` holds the snapshot and its
  search loops; `Buckets.dfy` says what a window query means, bucket by bucket;
  `Eviction.dfy` and `Retention.dfy` say what eviction and pruning can do to an
  answer.
- **The window policy** (`WindowPolicy.dfy`): thresholds over a complete window,
  and the cutoff that forbids reusing old buckets.
- **Configuration** (`Config.dfy`): window validation and the derived retention.
- **The reconciler** (`Decisions.dfy`, `Reconciler.dfy`): combining, clamping,
  cooldowns, the scale call, and one tick over all services. `BoundedDecisions.dfy`
  compares what the policies of a service decide on the bounded store with what they
  would decide on the whole history, `Exposure.dfy` says exactly which configurations
  eviction can mislead, with the configurations in `Shapes.dfy` and the runs that
  mislead them in `Stories.dfy` and `Stages.dfy`. `Runs.dfy` proves what holds over
  whole runs of one service, `System.dfy` what holds over runs in which arrivals and
  reconciliations of all services interleave, `Exactness.dfy` that below the caps such
  runs are those of an unbounded store, `Ticks.dfy` that the reconciler's ticks are
  such runs, and `Rounds.dfy` that each service goes through runs of `Runs.dfy` in them.

Times are integers, nanoseconds since the zero time, so that 0 is the zero time and
truncation to a bucket boundary is arithmetic modulo the width. Sample values are
mathematical reals; a reading that is not finite exists only until `Add` rejects it.
Every clock reading is a parameter.

Central claims and where they are proved:

| claim | member |
|---|---|
| each stored series is a suffix of everything ever accepted for its key | `StoreTheorems.SuffixPreserved` |
| arrival order does not matter to what is unexpired | `StoreTheorems.ArrivalOrderIrrelevant` |
| eviction can only make a window incomplete, and exactly when that fails | `Eviction.EvictionFailsClosed`, `Eviction.FailsClosedIff`, `Eviction.FailsClosedUnlessBoth` |
| a policy then decides as on the whole history or holds, and exactly when not | `Exposure.SafeUnlessInverted` |
| which services, with window and target policies, never lower their count because of eviction: exactly those that are not exposed | `Exposure.UnexposedFailsClosed`, `Exposure.DownscaleFailsClosedIff`, `System.UnexposedDownscale` |
| below the caps every reconciliation is the one on the whole history | `Exactness.ReconcileExact`, `Exactness.RunExact` |
| two buckets of retention slack are what pruning needs, to the clock tick | `Retention.SlackIsExact` |
| no sample is behind breaches of window policies at two scale events of a service (a target policy uses its latest sample again by design, README.md:163) | `System.NoSampleDrivesTwo` |
| scale events of a service with window policies only are rate bounded in time and in instances, and the bounds are attained | `Runs.EventsTakeTime`, `Runs.DriftBounded`, `Runs.RateBoundAttained` |
| any number of ticks of the reconciler is a run of the system, and of each of its services, so the claims about runs are about them | `Ticks.RunThenTick`, `Rounds.ServiceRun`, `Rounds.ServiceUndisturbed` |
| exactly which ticks of a run are scale events, and which counts they go to | `Runs.EventExactly`, `Runs.EventIff`, `Runs.EventsWithinEntries` |
| what a query and a breach say about the samples themselves | `Buckets.StatusIff`, `WindowPolicies.BreachIff` |
| a snapshot never changes, although the store writes in place | `MetricStore.ArrivalsLeaveSnapshot` |

## Hypotheses

- The clock never goes back, and each store operation is one atomic step with its
  clock reading. A reconciliation reads the clock three times, as the code does: at
  its start, for the snapshot, and for the cooldown.
- Where the whole history is compared with the store, every arrival names a service
  (`Scoped`, `ScopedIngest`), as all configured ingestion does; then no unscoped
  series can answer for a service's own evicted one (`Eviction.ScopedNeverShadowed`).
  The store itself does not check this; `Eviction.FailsClosedUnlessBoth` shows exactly
  which arrivals it matters for.
- Where both directions of a policy matter, its thresholds are in order
  (`Inverted`), which configuration validation does not check;
  `Exposure.SafeUnlessInverted` shows exactly what it costs.
- Active bounds satisfy `0 <= min <= max`. Validation checks the service's own
  bounds but not those of schedule entries.
- Service names and policies are used once, and identifiers too where counts are
  followed over several ticks (`DistinctIdentifiers`; validation checks names only).
  Counts from the platform are not negative, and clock readings come after the zero
  time.

## Where code and documentation differ

- README.md:167 and internal/metrics/store.go:82-84 say that an eviction can only
  make a window incomplete. That is false when a whole service-scoped series is
  evicted and an unscoped series of the same name exists: the fallback at
  internal/metrics/store.go:265-273 then answers complete with other data.
  `Eviction.ShadowingHappens` is a two-sample run that gets there, for any such key, and
  `Eviction.FailsClosedUnlessBoth` shows that both keys arriving is the exact condition.
- The same passage concludes that scaling fails closed. That is false in three ways,
  none of which validation rules out. With an upscale threshold below the downscale
  threshold and a longer upscale window, eviction turns a policy's upscale into a
  downscale (`Exposure.InvertedDecidesUnsafely`). A service with one policy that can only
  raise the count and another that can lower it does the same when the first loses its
  data, since it then abstains instead of holding (`Exposure.SilentUpscale`). And a target
  policy whose series is evicted whole returns an error (internal/policy/target.go:55-57)
  and is passed over (internal/reconciler/reconciler.go:207-211), so that another policy
  can lower a count that it would have raised, unless that policy reads the same metric or
  some window policy with a downscale direction does, which then holds
  (`Exposure.TargetSilenced`). Where no two window policies read the same metric there is
  no other way (`Exposure.DownscaleFailsClosedIff`). One window policy with both directions
  beside a target policy on another metric, as in the example of README.md:142-155, is
  exposed.
- A count outside its bounds is corrected only when some policy has an opinion
  (internal/reconciler/reconciler.go:220-223), as `Runs.WantsFewerIff` and
  `Runs.WantsMoreIff` say.

## Model

| member | source | states |
|---|---|---|
| `StoreTheorems.HistoryIsLastWrites` | internal/metrics/store.go:145-157 | over any run, the reference history holds a sample exactly if it is the last accepted write to its timestamp in its series |
| `StoreTheorems.SuffixPreserved` | internal/metrics/store.go:132-247 | in every state of every run each stored series is strictly sorted, within its limit, and a suffix of the whole accepted history of its key; the total is within its limit |
| `StoreTheorems.LatestPreserved` | internal/metrics/store.go:175-281 | the latest stored sample of a key is the newest one ever accepted for it, or the key has none |
| `StoreTheorems.PruningKeepsLatest` | internal/metrics/store.go:233-247 | pruning at any cutoff keeps the newest sample of every series |
| `StoreTheorems.UnexpiredKept` | internal/metrics/store.go:158-159 | while neither cap is reached, no accepted sample inside the retention is missing, whatever was evicted before |
| `StoreTheorems.RetentionKept` | internal/metrics/store.go:138-182 | after every accepted arrival and every snapshot of every run, each series holds a single sample or none older than the retention before the clock reading |
| `StoreTheorems.Canonical` | internal/metrics/store.go:191-231 | in every state of every run, what the store holds from any unexpired time on is what one application of the two caps leaves of the accepted history from then on |
| `StoreTheorems.EvictedUnique` | internal/metrics/store.go:204-230 | without event-time ties across series there is only one result of evicting the oldest heads, so map iteration order does not matter |
| `StoreTheorems.Confluence` | internal/metrics/store.go:132-231 | two runs whose last accepted writes agree from some unexpired time on hold the same samples from then on, whatever else came, expired or was evicted, if no two series share an event time there; stores that hold nothing older are equal |
| `StoreTheorems.ArrivalOrderIrrelevant` | internal/metrics/store.go:145-159 | the same unexpired arrivals at distinct event times, in any order and with anything older and any snapshots between, leave the same unexpired samples |
| `StoreTheorems.TiesBreakEitherWay` | internal/metrics/store.go:209-218 | with a tie across series either sample may be the one evicted, so the condition on ties is needed |
| `StoreRuns.AddKeepsInvariant` | internal/metrics/store.go:132-161 | one arrival, rejected, stored, or evicted in the call that accepted it, keeps the invariant that every missing sample is expired, below a full series, or no newer than anything in a full store |
| `StoreRuns.SnapshotKeepsInvariant` | internal/metrics/store.go:178-183 | the pruning and capping before a snapshot keep the same invariant |
| `StoreRuns.RunKeepsInvariant` | internal/metrics/store.go:132-247 | every state of every run satisfies the invariant |
| `StoreInvariant.TooLateIsNoOp` | internal/metrics/store.go:145-231 | a sample older than everything in its full series, or in a full store, leaves the store as if it had not arrived |
| `StoreInvariant.EnforcedExcuses` | internal/metrics/store.go:191-231 | after pruning, per-series cap and global cap in this order, whatever a series lacks is excused by one of the three reasons |
| `StoreInvariant.PruneMeaning` | internal/metrics/store.go:233-247 | pruning leaves a suffix that is never empty, drops only samples before the cutoff, and keeps one of those only as the last |
| `Samples.InsertMeaning` | internal/metrics/store.go:145-157 | insertion keeps the strict order and the result is the old samples at other timestamps plus the new one |
| `Samples.InsertAtIndex` | internal/metrics/store.go:146-155 | the index of the binary search, with overwrite or shift, is the ordered insertion |
| `Samples.InsertIntoSuffix` | internal/metrics/store.go:145-157 | a sample no older than the newest missing one goes to the same place in the stored suffix as in the whole series |
| `Slices.Search` | internal/metrics/store.go:146-148 | the binary search returns the only index that splits the slice at the time |
| `Slices.Append` | internal/metrics/store.go:152 | appending writes into the shared array while there is capacity, else into a fresh one; either way the slice grows by one |
| `Slices.ShiftIn` | internal/metrics/store.go:153-154 | the overlapping copy in place moves everything from the index up by one and puts the sample there |
| `Slices.InsertInPlace` | internal/metrics/store.go:145-157 | the in-place insertion computes the ordered insertion of the old contents |
| `Slices.PruneSamples` | internal/metrics/store.go:233-247 | the slice returned holds the pruned samples, in a fresh array whenever any was dropped |
| `Slices.CapSamples` | internal/metrics/store.go:199-201 | reslicing keeps the newest samples, in the same array |
| `MetricStore.MetricStore.constructor` | internal/metrics/store.go:74-128 | options that are not positive leave half a minute, 10000 samples a series and 100000 in all, and an empty store satisfies the invariant |
| `MetricStore.MetricStore.PruneLocked` | internal/metrics/store.go:191-195 | every series is pruned, in whatever order the map is traversed |
| `MetricStore.MetricStore.CapSeries` | internal/metrics/store.go:198-202 | every series is cut to its newest samples |
| `MetricStore.MetricStore.CountSamples` | internal/metrics/store.go:204-207 | the loop computes the sum of all series lengths |
| `MetricStore.MetricStore.OldestSeries` | internal/metrics/store.go:209-219 | the scan finds a series whose head is oldest of all, and fails only on a store without samples |
| `MetricStore.MetricStore.EvictOldest` | internal/metrics/store.go:204-230 | the loop ends, its total is the sum of the lengths throughout, its early exit is never taken, and what it evicts is no newer than anything it leaves |
| `MetricStore.DroppedOldest` | internal/metrics/store.go:212-229 | evicting one oldest head keeps the loop's invariant and lowers the total by one |
| `MetricStore.MetricStore.InsertSample` | internal/metrics/store.go:145-157 | the write changes its own series only, although it writes into an array in place |
| `MetricStore.MetricStore.Add` | internal/metrics/store.go:132-161 | accepts a sample if and only if its key has a name, its time is not zero, its value is finite, and its time lies between the retention before the clock reading and that reading; and takes the step of the state machine on the stored slices |
| `MetricStore.MetricStore.Snapshot` | internal/metrics/store.go:178-189 | prunes and bounds the store and returns its contents in arrays the store does not use |
| `MetricStore.ArrivalsLeaveSnapshot` | internal/metrics/store.go:145-189 | a snapshot is unaffected by any later arrivals, although they write in place and reslice |
| `Snapshots.MetricSnapshot.SamplesFor` | internal/metrics/store.go:265-273 | a key's own series if it has samples, else the unscoped one of its name |
| `Snapshots.MetricSnapshot.Latest` | internal/metrics/store.go:275-281 | the last visible sample, if any |
| `Snapshots.MetricSnapshot.CompleteBuckets` | internal/metrics/store.go:283-338 | the loops and binary searches compute the declarative window query, statuses included; the second missing answer is never given |
| `Snapshots.BeginsBefore` | internal/metrics/store.go:291-298 | some bucket starts before the cutoff exactly if the first one does |
| `Snapshots.LatestBySearch` | internal/metrics/store.go:310-320 | two binary searches find the newest sample of a half-open interval, or that there is none |
| `Snapshots.Classify` | internal/metrics/store.go:323-337 | from the list of empty buckets: complete, stale if the newest is empty, gap if another but the oldest is, else incomplete |
| `Buckets.CompleteMeaning` | internal/metrics/store.go:288-325 | a complete answer lists all buckets, contiguous, ending at the last boundary, none before the cutoff, each with its sample of greatest event time |
| `Buckets.StatusIff` | internal/metrics/store.go:288-338 | exactly when a query has each of its statuses, by which half-open intervals of the window hold a sample: cut off by the window's start, missing by an empty series, stale by the newest interval, gap by any other but the oldest, incomplete by the oldest alone, else complete |
| `Buckets.AnswerBuckets` | internal/metrics/store.go:304-321 | whatever the status, the buckets answered are those of the intervals that hold a sample, in order, each with its sample of greatest event time, and none where the window is cut off or the series empty |
| `Buckets.NoWindow` | internal/metrics/store.go:284-286 | without a positive width and count the answer is incomplete and has no buckets |
| `Buckets.IncompleteHasNewest` | internal/metrics/store.go:334-337 | a window short only of its oldest bucket has its newest one, so the second missing return is unreachable |
| `Buckets.FailsClosed` | internal/metrics/store.go:283-338 | a query complete on a suffix of a series has the same answer on the whole series |
| `Buckets.NothingMissingSameAnswer` | internal/metrics/store.go:283-338 | if nothing from the start of the window on is missing, the answer is the same whatever its status |
| `Eviction.EvictionFailsClosed` | internal/metrics/store.go:82-84 | in every state of every run, a query complete on the bounded store is complete with identical buckets on the whole accepted history, unless an unscoped series shadows the key |
| `Eviction.FailsClosedIff` | internal/metrics/store.go:265-273 | exactly when that holds for every query on a key: it is not shadowed, or the shadowing series equals the newest sample the key ever had |
| `Eviction.ShadowingHappens` | internal/metrics/store.go:204-273 | for every key that names a service, a run of two arrivals, of that key and of the unscoped one of its name, reaches a state in which a complete answer about it is wrong |
| `Eviction.FailsClosedUnlessBoth` | internal/metrics/store.go:265-273 | for any key and any set of keys: after all runs whose arrivals lie in the set every complete answer about the key is that of the whole history, if and only if the set does not hold both the key, which names a service, and the unscoped key of its name |
| `Eviction.NeverArrived` | internal/metrics/store.go:132-144 | a key that never arrives, or has no name, has no history |
| `Eviction.ScopedNeverShadowed` | internal/metrics/store.go:268-269 | in a run whose arrivals all name a service no query ever falls back to an unscoped series |
| `Retention.RetentionRefinesHistory` | internal/config/config.go:523-542 | with retention for the window plus two buckets and no cap reached, a query on a store pruned up to one bucket after `now` answers as the whole history, status included; only a series that an earlier eviction emptied is missing where the history is stale |
| `Retention.SlackIsExact` | internal/config/config.go:534 | a retention suffices for every series of positive times and every pruning delay up to one bucket if and only if it covers the window and two buckets less one tick |
| `Config.ValidatePolicy` | internal/config/config.go:357-398 | a policy passes exactly if all requirements on window and target policies hold |
| `Config.Validate` | internal/config/config.go:246-398 | of the requirements on services and policies, reports the first service or policy in order that misses one, and none exactly if all hold |
| `Config.MetricRetention` | internal/config/config.go:523-542 | the least retention of half a minute or more that covers every threshold configured by a window policy with its whole duration and two buckets more |
| `Config.ValidatedWindows` | internal/config/config.go:368-387 | after validation each window is a positive whole number of buckets, exactly as long as configured, and covered by the retention with two buckets of slack |
| `Config.ConfigIff` | internal/config/config.go:246-398 | exactly which services pass: distinct names, identifiers, ordered bounds that are not negative, and policies that are target policies whose expression compiles or window policies on a metric bound by the service with a direction, each sustained for a positive whole number of buckets with a positive step |
| `Config.BuiltDecides` | internal/config/config.go:481-501 | the policy built from a configuration reads its own metric of its own service, asks for more by its upscale threshold and for fewer by its downscale threshold |
| `Runs.DirectionNeeded` | internal/config/config.go:374-376 | of window policies that are otherwise valid, those with a direction and no others can ever ask for a change |
| `BoundedDecisions.UnboundNeverActs` | internal/config/config.go:368-370 | a window policy on a metric that never arrives never asks for a change, in any run |
| `WindowPolicies.WindowPolicy.Evaluate` | internal/policy/window.go:34-60 | a breached upscale wins; else a policy with a downscale direction lowers or explicitly holds; any other has no decision |
| `WindowPolicies.WindowPolicy.EvaluateDirection` | internal/policy/window.go:62-111 | a breach is a complete window all of whose buckets are strictly beyond the threshold; otherwise downscale holds and upscale abstains |
| `WindowPolicies.BreachWindow` | internal/policy/window.go:71-72 | a breach rests on whole buckets that begin no earlier than the cutoff and end no later than now |
| `WindowPolicies.BreachIff` | internal/policy/window.go:62-110 | a policy breaches if and only if at least one whole bucket is to be sustained, the window does not begin before a nonzero cutoff, and in each of its half-open intervals there is a sample and the one of greatest event time is strictly beyond the threshold |
| `WindowPolicies.DecisionMeaning` | internal/policy/window.go:34-60 | the decision by the samples alone: one upscale step more where upscale is sustained, else one downscale step less where downscale is, else a hold or nothing |
| `WindowPolicies.DirectionsExclusive` | internal/policy/window.go:41-59 | with the downscale threshold at most the upscale threshold no data breaches both directions, since their windows share the newest bucket |
| `WindowPolicies.OrderedDecidesSafely` | internal/policy/window.go:34-111 | unless its thresholds are inverted, a policy decides on any suffix of any history as on the whole, or holds |
| `BoundedDecisions.RunDecidesSafely` | internal/policy/window.go:34-111 | so it does in every state of every run of named services |
| `Exposure.SafeUnlessInverted` | internal/policy/window.go:34-111 | in all runs, at all times and after all scale events a validated policy decides as on the whole history or holds, if and only if its upscale threshold is not below a downscale threshold with a shorter window |
| `Exposure.InvertedDecidesUnsafely` | internal/policy/window.go:41-59 | for every inverted policy, a run that ends in a store on which it lowers the count where on the whole history it would raise it |
| `WindowPolicies.UpscaleOnSuffix` | internal/policy/window.go:41-50 | a decision for more on a suffix is the decision on the whole |
| `Decisions.ComputeDesired` | internal/reconciler/reconciler.go:290-317 | the two passes compute the maximum of the decisions and zero, for any decisions and a count that is not negative |
| `Decisions.CombinedIgnoresOrder` | internal/reconciler/reconciler.go:290-317 | only which decisions there are matters, not their order or number |
| `Decisions.CombinedMonotone` | internal/reconciler/reconciler.go:290-317 | raising any decision never lowers the result |
| `Decisions.OpinionsMeaning` | internal/reconciler/reconciler.go:203-218 | the decisions collected are exactly those of the policies that have one |
| `Decisions.TargetMeaning` | internal/policy/target.go:50-72 | a target policy asks for nothing if a metric has no sample or its expression fails on the newest values, else for the least count that is neither negative nor below the expression's value |
| `Reconciler.CollectValues` | internal/policy/target.go:52-60 | the latest value of each metric, or an error if one is missing |
| `Reconciler.EvaluateAll` | internal/reconciler/reconciler.go:205-218 | every policy is asked about the same snapshot at the same time, and one that fails is passed over |
| `Reconciler.Reconciler.MayScale` | internal/reconciler/reconciler.go:319-349 | no event yet, an upscale from zero, or a cooldown that has passed in this direction |
| `Reconciler.Reconciler.RecordScaleEvent` | internal/reconciler/reconciler.go:351-370 | sets the time of one direction, leaves the other, and cuts every window policy of the service off |
| `Reconciler.Reconciler.Act` | internal/reconciler/reconciler.go:239-288 | no event, and nothing changed, where nothing is wanted, a cooldown holds or the call fails; else the count, the time and the cutoffs change |
| `Reconciler.Reconciler.ReconcileService` | internal/reconciler/reconciler.go:171-288 | one reconciliation is the step function on the service's state, its snapshot and its clock readings, and touches no other service |
| `Reconciler.Reconciler.ReconcileAll` | internal/reconciler/reconciler.go:116-139 | every service starts from the count the platform reported for its identifier, zero only if it reported none, and takes the step it would take alone, on the snapshot of its own turn, whatever arrives between the turns; the store goes through all arrivals and snapshots in order and the platform's counts follow the events |
| `Runs.EvidenceUsedOnce` | internal/reconciler/reconciler.go:351-370 | the window of any breach after a scale event starts at or after the event's time, and those behind the event end by it |
| `Runs.TimesAreLastEvents` | internal/reconciler/reconciler.go:351-364 | over any run the recorded times are those of the last events, each direction apart |
| `Runs.CooldownRespected` | internal/reconciler/reconciler.go:319-349 | two events in one direction, unless the later scales up from zero, are a cooldown apart at the later one's reading |
| `Runs.EventIff` | internal/reconciler/reconciler.go:195-288 | exactly when a reconciliation is a scale event: some policy has an opinion, the goal is not the present count, its direction has waited for its cooldown or wakes the service up from zero, and the call succeeds or is a dry run; the goal is the largest wish that is not negative, brought within the matching schedule entry, or the service's own bounds where none matches |
| `Runs.EventExactly` | internal/reconciler/reconciler.go:195-349 | the same over runs, the cooldown being measured from every earlier event of the run in the same direction |
| `Runs.StateAfter` | internal/reconciler/reconciler.go:351-370 | without an event nothing changes; with one every window policy is cut off at its time, which is recorded in its direction alone |
| `Runs.EventsWithinEntries` | internal/reconciler/reconciler.go:195-229 | in every run, however schedules change, each event ends within the entry matched at its tick, or within the service's own bounds where none is |
| `Runs.WantsFewerIff` | internal/reconciler/reconciler.go:220-242 | exactly when a reconciliation wants fewer |
| `Runs.WantsMoreIff` | internal/reconciler/reconciler.go:220-242 | exactly when a reconciliation wants more |
| `Runs.DownscaleUnanimous` | internal/reconciler/reconciler.go:303-316 | every downscale of every run, from within bounds, is wanted by every policy with an opinion, and every window policy with a downscale direction saw a complete window with the newest sample of each bucket below its threshold |
| `Runs.StaysInBounds` | internal/reconciler/reconciler.go:225-229 | a run that starts in bounds stays in bounds |
| `Runs.EventHasBreach` | internal/reconciler/reconciler.go:225-242 | with window policies only and within the bounds in force, every event rests on a breach: clamping alone never causes one |
| `Runs.EventsApart` | internal/policy/window.go:71-110 | two events are at least the shortest configured window apart |
| `Runs.EventsTakeTime` | internal/reconciler/reconciler.go:226-285 | k events take at least k - 1 times the shortest configured window |
| `Runs.DriftBounded` | internal/policy/window.go:99-103 | k events move the count by at most k times the largest configured step |
| `Runs.RateBoundAttained` | internal/reconciler/reconciler.go:226-285 | for either direction of any exact policy, a run whose two events are exactly that direction's window apart and move the count by two of its steps |
| `BoundedDecisions.UpscaleNeverInflated` | internal/reconciler/reconciler.go:290-301 | if the bounded store wants more than there is, the whole history wants at least as much, for window and target policies together |
| `BoundedDecisions.DownscaleFailsClosed` | internal/reconciler/reconciler.go:303-316 | if no policy can only raise the count, none is inverted and no metric of a target policy is missing, then fewer on the bounded store is exactly what the whole history wants |
| `Exposure.UnexposedFailsClosed` | internal/reconciler/reconciler.go:205-316 | of any service with window and target policies, on any store of a run in which nothing is shadowed: fewer on the bounded store is exactly what the whole history wants, whatever data is missing, unless some policy can lower the count and either a window policy can only raise it or is inverted, or a target policy reads a metric that neither the lowering policy nor any window policy with a downscale direction reads |
| `Exposure.DownscaleFailsClosedIff` | internal/reconciler/reconciler.go:205-316 | where no two window policies read the same metric, that condition on the configuration is exact, over all runs, times, cutoffs, target expressions and counts |
| `Exposure.EvictionTurnsUpscaleDown` | internal/reconciler/reconciler.go:290-316 | for every configuration that is exposed in this sense, a run and expressions for the target policies with which the service ends up wanting fewer than there is where on the whole history it wants more |
| `Stages.Tell` | internal/metrics/store.go:191-202 | a run whose accepted history is the story of every policy and whose store is what the per-series limit leaves of it |
| `Stages.TellWithout` | internal/metrics/store.go:204-230 | a run whose store holds every story in full except that the one sample of a metric, accepted last and oldest of all, fell to the global limit at once |
| `Exposure.SilentUpscale` | internal/reconciler/reconciler.go:290-316 | a concrete service of two window policies, neither inverted, to which that happens |
| `Exposure.TargetSilenced` | internal/policy/target.go:52-60 | a run of two arrivals and a snapshot after which one window policy with both directions lowers the count from 10, where on the whole history the target policy beside it wants 100 |
| `BoundedDecisions.DecisionExact` | internal/policy/window.go:34-60 | with the derived retention, no cap reached and no unscoped series a window policy decides exactly as on the whole history |
| `BoundedDecisions.ConfiguredDecisionExact` | internal/config/config.go:523-542 | this is so for every window policy of every validated configuration in every state of every run of named services, below the caps |
| `Exactness.ReconcileExact` | internal/reconciler/reconciler.go:171-288 | below the caps and with no unscoped series, a whole reconciliation of a service, state and event, is the one on the accepted history: window policies with retention for their windows, target policies where no series was emptied, on a snapshot within one bucket of the start |
| `Exactness.NeverEmptied` | internal/metrics/store.go:204-247 | in a run in which the global limit is never reached no series is ever emptied, since pruning and the per-series cap keep the newest sample |
| `Exactness.RunExact` | internal/reconciler/reconciler.go:171-288 | in every such run of named services, every reconciliation is exactly the one on the whole accepted history, if its window policies have retention for their windows, series below the cap, and a snapshot within one bucket of its start |
| `System.StoreInvariantHolds` | internal/reconciler/reconciler.go:116-180 | the store's invariant holds throughout any interleaving of arrivals and reconciliations |
| `System.BreachedInHistory` | internal/policy/window.go:62-110 | every breach of every run, of a policy whose series is not shadowed, is a breach on the whole accepted history, in the same buckets with the same samples |
| `System.ScopedBreachedInHistory` | internal/policy/window.go:62-110 | in a system that ingests for named services only, every breach of every run is one |
| `System.EventJustified` | internal/reconciler/reconciler.go:203-285 | every event of a service with window policies only, from within the bounds in force, is justified by a policy whose threshold is sustained in every bucket of its window, and where ingestion names services also in the whole accepted history |
| `System.DownscaleSustained` | internal/reconciler/reconciler.go:303-316 | behind every downscale of every run, from within the upper bound, each window policy with a downscale direction has it sustained in every bucket of its window |
| `System.DownscaleAsOnHistory` | internal/reconciler/reconciler.go:171-288 | every downscale of every run of a service whose policies can all be trusted with one, from within the upper bound, is exactly the event the whole accepted history leads to |
| `System.UnexposedDownscale` | internal/reconciler/reconciler.go:171-288 | so is every downscale of every run of a service whose configuration is not exposed, from within the upper bound, whatever its store holds |
| `System.NoSampleDrivesTwo` | internal/reconciler/reconciler.go:351-370 | the samples behind a breach after a scale event, by whichever policy of the service, are at or after its time, those behind a breach at the event before it |
| `Ticks.TickIsStretch` | internal/reconciler/reconciler.go:116-139 | a tick over all services is a stretch of the system's arrivals and reconciliations in the order of the turns, from the world before to the world after, in which each service's turn starts from its own state and reads what the tick says it read |
| `Ticks.RunThenTick` | internal/reconciler/reconciler.go:97-139 | a run of the system followed by a tick whose readings come later is a run of the system |
| `Rounds.CountAfterTurn` | internal/reconciler/reconciler.go:131-139 | with distinct identifiers the platform's count of a service after a tick is where its own event went, or where it started from without one or in a dry run |
| `Rounds.NextTickStarts` | internal/reconciler/reconciler.go:116-139 | without outside changes the next tick starts each service from there |
| `Rounds.FailedFetch` | internal/reconciler/reconciler.go:126-130 | a tick that cannot fetch the counts changes nothing |
| `Rounds.ServiceRun` | internal/reconciler/reconciler.go:97-139 | over successive ticks each service goes through a run of the kind the theorems on single services are about |
| `Rounds.ServiceUndisturbed` | internal/reconciler/reconciler.go:97-139 | with distinct identifiers, no schedule and a start within bounds its counts follow its events, as the bounds on rate and drift suppose |
| `Rounds.PlatformDrift` | internal/reconciler/reconciler.go:226-285 | so the platform's count of a service with window policies only moves by at most its largest step for each of its events |

## Left out

- Transport: OTLP and Prometheus ingestion, protobuf, HTTP and gRPC servers. Ingestion is any sequence of arrivals.
- The ECS adapter: the platform is a map of counts whose scale call may fail; fetching the counts may fail as a whole.
- Target expressions: an expression is any function of the count and the latest values that gives a real number or fails. Converting a result that is huge or not a number to an integer is not modelled, nor is the name `current` shadowing a metric.
- Configuration loading, environment variables and defaults.
- Config.Validate: leaves out the adapter, Prometheus sources, metric bindings and schedules, whose errors come before or between those modelled, and reports which service or policy is wrong but not which of its requirements is missed.
- Config.ConfigIff: leaves out the same requirements as `Config.Validate`.
- Schedule matching: the bounds of a matching entry are an input of each reconciliation.
- Reason strings, window observations, metrics export, logging and the health cache.
- `Set`, `Get` and `AsMap` of the store, which only wrap the operations modelled.
- Mutexes and goroutines: store operations are atomic, and a reading of the clock belongs to the operation. Two arrivals whose readings and writes interleave in opposite orders are outside the model.
- Floating-point rounding and the overflow of 64-bit times and durations; values are real numbers. `Exposure.InvertedDecidesUnsafely` uses a value strictly between two thresholds, which adjacent floating-point numbers do not have.
- Slices.Append: the capacity of a grown array is any larger one, where Go has a growth rule.
- MetricStore.MetricStore.EvictOldest: the exit for a scan that finds nothing is asserted unreachable instead of being a branch.
- Snapshots.Classify: the second missing return is not a branch, since `Buckets.IncompleteHasNewest` shows it cannot be taken.
- Eviction.EvictionFailsClosed: holds for keys that are not shadowed; the exact condition is `Eviction.FailsClosedIff`.
- System.BreachedInHistory: holds for policies whose series is not shadowed; `System.ScopedBreachedInHistory` has no such condition.
- Exposure.DownscaleFailsClosedIff: the condition is exact where no two window policies read the same metric, and for a configuration whose target expressions are left open. With several window policies on one metric it is still sufficient (`Exposure.UnexposedFailsClosed`), but a configuration that misses it need not be misled; nor need one whose expressions happen never to disagree.
- Exactness.RunExact: asks that the global limit is not reached from the start of the run on, which only target policies need; `Exactness.ReconcileExact` asks it of one state.
- Ticks.RunThenTick: arrivals between two ticks count as arrivals before the next tick's first turn.
- Decisions.ComputeDesired: says nothing for a negative count, which no platform reports.
