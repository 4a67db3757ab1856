/** The reconciler: one snapshot, all policies against it, one scale call. Each
    reconciliation is proved to be the step function of Decisions. */
module Reconciler {
  import opened Samples
  import opened StoreModel
  import opened StoreRuns
  import opened Snapshots
  import opened WindowPolicies
  import opened Decisions
  import S = MetricStore

  datatype Policy = Window(policy: WindowPolicy) | Target(target: TargetSpec)

  datatype Service = Service(spec: ServiceSpec, policies: seq<Policy>)

  ghost function Windows(ps: seq<Policy>): set<WindowPolicy> {
    set p | p in ps && p.Window? :: p.policy
  }

  ghost function StateOf(p: Policy): PolicyState
    reads if p.Window? then {p.policy} else {}
  {
    match p
    case Window(w) => WindowState(w.config, w.resetCutoff)
    case Target(t) => TargetState(t)
  }

  ghost function StatesOf(ps: seq<Policy>): seq<PolicyState>
    reads Windows(ps)
  {
    if ps == [] then [] else StatesOf(ps[..|ps| - 1]) + [StateOf(ps[|ps| - 1])]
  }

  predicate WellFormedPolicies(ps: seq<Policy>) {
    forall i :: 0 <= i < |ps| && ps[i].Window? ==> ps[i].policy.config.bucketDuration != 0
  }

  lemma {:induction false} StatesMeaning(ps: seq<Policy>)
    ensures |StatesOf(ps)| == |ps|
    ensures forall i :: 0 <= i < |ps| ==> StatesOf(ps)[i] == StateOf(ps[i])
  {
    if ps != [] { StatesMeaning(ps[..|ps| - 1]); }
  }

  lemma VisibleSorted(m: Store, key: MetricKey)
    requires S.Ordered(m)
    ensures Sorted(Visible(m, key))
  {
    forall k | k in m ensures Sorted(m[k]) { assert S.OrderedAt(m, k); }
  }

  method LatestValue(service: string, name: string, snapshot: MetricSnapshot, ghost m: Store) returns (x: Option<Sample>)
    requires snapshot.Valid() && snapshot.Contents() == m
    ensures x == LatestOf(m, MetricKey(service, name))
  {
    x := snapshot.Latest(MetricKey(service, name));
  }

  /** Fails on the first missing metric. */
  method CollectValues(t: TargetSpec, snapshot: MetricSnapshot, ghost m: Store) returns (env: Option<map<string, real>>)
    requires snapshot.Valid() && snapshot.Contents() == m
    ensures env == LatestValues(m, t.service, t.metricNames)
  {
    var values: map<string, real> := map[];
    for i := 0 to |t.metricNames|
      invariant LatestValues(m, t.service, t.metricNames[..i]) == Some(values)
    {
      var x := LatestValue(t.service, t.metricNames[i], snapshot, m);
      OneMoreValue(m, t.service, t.metricNames, i, values, x);
      if x == None {
        MissingStays(m, t.service, t.metricNames, i + 1);
        return None;
      }
      values := values[t.metricNames[i] := x.value.value];
    }
    assert t.metricNames[..|t.metricNames|] == t.metricNames;
    env := Some(values);
  }

  method EvaluateTarget(t: TargetSpec, current: int, snapshot: MetricSnapshot,
                        ghost m: Store) returns (decision: Option<int>)
    requires snapshot.Valid() && snapshot.Contents() == m
    ensures decision == TargetDecision(t, m, current)
  {
    var env := CollectValues(t, snapshot, m);
    if env == None { return None; }
    var result := t.expression(current, env.value);
    if result == None { return None; }
    var desired := Ceil(result.value);
    if desired < 0 { desired := 0; }
    decision := Some(desired);
  }

  lemma OneMoreValue(m: Store, service: string, names: seq<string>, i: nat, values: map<string, real>, x: Option<Sample>)
    requires i < |names| && LatestValues(m, service, names[..i]) == Some(values)
    requires x == LatestOf(m, MetricKey(service, names[i]))
    ensures LatestValues(m, service, names[..i + 1]) ==
              if x.Some? then Some(values[names[i] := x.value.value]) else None
  {
    assert names[..i + 1][..i] == names[..i];
  }

  lemma OneMoreOpinion(ps: seq<PolicyState>, i: nat, m: Store, now: int, current: int, front: seq<int>, d: Option<int>)
    requires i < |ps| && forall p :: p in ps ==> WellFormed(p)
    requires front == Opinions(ps[..i], m, now, current) && d == Opinion(ps[i], m, now, current)
    ensures Opinions(ps[..i + 1], m, now, current) == if d.Some? then front + [d.value] else front
  {
    assert ps[..i + 1][..i] == ps[..i];
  }

  lemma {:induction false} MissingStays(m: Store, service: string, names: seq<string>, i: nat)
    requires i <= |names| && LatestValues(m, service, names[..i]) == None
    ensures LatestValues(m, service, names) == None
    decreases |names|
  {
    if i < |names| {
      assert names[..|names| - 1][..i] == names[..i];
      MissingStays(m, service, names[..|names| - 1], i);
    } else {
      assert names[..i] == names;
    }
  }

  method Evaluate(p: Policy, ghost st: PolicyState, current: int, snapshot: MetricSnapshot, ghost m: Store, now: int)
    returns (decision: Option<int>)
    requires snapshot.Valid() && snapshot.Contents() == m && S.Ordered(m)
    requires st == StateOf(p) && WellFormed(st)
    ensures decision == Opinion(st, m, now, current)
  {
    match p {
      case Window(w) =>
        VisibleSorted(m, w.config.Key());
        decision := w.Evaluate(current, snapshot, Visible(m, w.config.Key()), now);
      case Target(t) =>
        decision := EvaluateTarget(t, current, snapshot, m);
    }
  }

  lemma WellFormedStates(ps: seq<Policy>)
    requires WellFormedPolicies(ps)
    ensures forall p :: p in StatesOf(ps) ==> WellFormed(p)
  {
    StatesMeaning(ps);
  }

  /** Every policy sees the same snapshot at the same time; one that fails is passed
      over. */
  method EvaluateAll(ps: seq<Policy>, ghost states: seq<PolicyState>, current: int, snapshot: MetricSnapshot,
                     ghost m: Store, now: int) returns (decisions: seq<int>)
    requires snapshot.Valid() && snapshot.Contents() == m && S.Ordered(m)
    requires states == StatesOf(ps) && forall p :: p in states ==> WellFormed(p)
    ensures decisions == Opinions(states, m, now, current)
  {
    StatesMeaning(ps);
    decisions := [];
    for i := 0 to |ps|
      invariant decisions == Opinions(states[..i], m, now, current)
    {
      ghost var front := decisions;
      assert states[i] == StateOf(ps[i]);
      var decision := Evaluate(ps[i], states[i], current, snapshot, m, now);
      if decision.Some? { decisions := decisions + [decision.value]; }
      OneMoreOpinion(states, i, m, now, current, front, decision);
    }
    assert states[..|ps|] == states;
  }

  /** The platform: a count for each identifier, and a call that may fail. */
  class Adapter {
    var counts: map<string, int>

    constructor (counts: map<string, int>)
      ensures this.counts == counts
    {
      this.counts := counts;
    }

    method Scale(identifier: string, desired: int, succeeds: bool) returns (ok: bool)
      modifies this
      ensures ok == succeeds
      ensures counts == if succeeds then old(counts)[identifier := desired] else old(counts)
    {
      if succeeds { counts := counts[identifier := desired]; }
      ok := succeeds;
    }
  }

  class Reconciler {
    const adapter: Adapter
    const store: S.MetricStore
    const dryRun: bool
    var state: map<string, Times>

    constructor (adapter: Adapter, store: S.MetricStore, dryRun: bool)
      ensures this.adapter == adapter && this.store == store && this.dryRun == dryRun && state == map[]
    {
      this.adapter := adapter;
      this.store := store;
      this.dryRun := dryRun;
      state := map[];
    }

    ghost function TimesOf(name: string): Option<Times>
      reads this
    {
      if name in state then Some(state[name]) else None
    }

    ghost function StateOfService(svc: Service): ServiceState
      reads this, Windows(svc.policies)
    {
      ServiceState(StatesOf(svc.policies), TimesOf(svc.spec.name))
    }

    method MayScale(svc: Service, current: int, d: Direction, now: int) returns (ok: bool)
      ensures ok == CanScale(svc.spec, TimesOf(svc.spec.name), current, d, now)
    {
      if svc.spec.name !in state { return true; }
      var t := state[svc.spec.name];
      if current == 0 && d == Upscale { return true; }
      match d {
        case Upscale => ok := t.lastUpscaleTime == 0 || now - t.lastUpscaleTime >= svc.spec.upscaleCooldown;
        case Downscale => ok := t.lastDownscaleTime == 0 || now - t.lastDownscaleTime >= svc.spec.downscaleCooldown;
      }
    }

    /** Records the time of the event in its direction and cuts every policy off
        from the buckets that led to it. */
    method RecordScaleEvent(svc: Service, d: Direction, now: int)
      modifies this`state, Windows(svc.policies)
      ensures state == old(state)[svc.spec.name := RecordTime(old(TimesOf(svc.spec.name)), d, now)]
      ensures StatesOf(svc.policies) == ResetAll(old(StatesOf(svc.policies)), now)
    {
      var t := if svc.spec.name in state then state[svc.spec.name] else Times(0, 0);
      match d {
        case Upscale => t := t.(lastUpscaleTime := now);
        case Downscale => t := t.(lastDownscaleTime := now);
      }
      state := state[svc.spec.name := t];
      ResetPolicies(svc.policies, now);
    }

    method ResetPolicies(ps: seq<Policy>, now: int)
      modifies Windows(ps)
      ensures StatesOf(ps) == ResetAll(old(StatesOf(ps)), now)
    {
      StatesMeaning(ps);
      for i := 0 to |ps|
        invariant forall j :: 0 <= j < i && ps[j].Window? ==> ps[j].policy.resetCutoff == now
      {
        if ps[i].Window? {
          assert ps[i].policy in Windows(ps);
          ps[i].policy.Reset(now);
        }
      }
      StatesMeaning(ps);
    }

    /** The count wanted after clamping, if any policy has an opinion. */
    method Decide(svc: Service, ghost st: ServiceState, snapshot: MetricSnapshot, ghost t: Tick,
                  current: int, now: int, scheduled: Option<Bounds>) returns (wanted: Option<int>)
      requires snapshot.Valid() && snapshot.Contents() == t.m && S.Ordered(t.m) && current >= 0
      requires st.policies == StatesOf(svc.policies) && WellFormedState(st)
      requires t.current == current && t.now == now && t.scheduled == scheduled
      ensures wanted == Wanted(svc.spec, st, t)
    {
      var decisions := EvaluateAll(svc.policies, st.policies, current, snapshot, t.m, now);
      if decisions == [] { return None; }
      var desired := ComputeDesired(current, decisions);
      var bounds := ActiveBounds(svc.spec, scheduled);
      wanted := Some(Clamp(desired, bounds.min, bounds.max));
    }

    /** Scales toward the wanted count unless it is the present one, a cooldown holds
        or the platform refuses; in a dry run it only pretends to. */
    method Act(svc: Service, ghost st: ServiceState, ghost t: Tick, wanted: int, current: int, now: int, cooldownNow: int,
               scaleSucceeds: bool) returns (event: Option<Event>)
      requires st == StateOfService(svc) && WellFormedState(st) && Wanted(svc.spec, st, t) == Some(wanted)
      requires t.current == current && t.now == now && t.cooldownNow == cooldownNow && t.scaleSucceeds == scaleSucceeds
      modifies this`state, adapter, Windows(svc.policies)
      ensures Effect(svc, st, t, event)
      ensures event == None ==> state == old(state)
      ensures state - {svc.spec.name} == old(state) - {svc.spec.name}
      ensures adapter.counts == (if event == None || dryRun then old(adapter.counts)
                                 else old(adapter.counts)[svc.spec.identifier := wanted])
    {
      event := None;
      if wanted == current { return; }
      var d := if wanted < current then Downscale else Upscale;
      var canScale := MayScale(svc, current, d, cooldownNow);
      if !canScale { return; }
      if !dryRun {
        var ok := adapter.Scale(svc.spec.identifier, wanted, scaleSucceeds);
        if !ok { return; }
      }
      RecordScaleEvent(svc, d, now);
      event := Some(Event(now, d, current, wanted));
    }

    /** The service's state and the reported event are those of the step function. */
    ghost predicate Effect(svc: Service, st: ServiceState, t: Tick, event: Option<Event>)
      requires WellFormedState(st)
      reads this, Windows(svc.policies)
    {
      var out := Reconcile(svc.spec, dryRun, st, t);
      StateOfService(svc) == out.state && event == out.event
    }

    /** A snapshot concerns the store alone, not the policies. */
    method TakeSnapshot(ps: seq<Policy>, snapshotNow: int) returns (snapshot: MetricSnapshot)
      requires store.Valid() && store.model.clock <= snapshotNow
      modifies store
      ensures store.Valid() && fresh(store.Bufs() - old(store.Bufs()))
      ensures SnapshotStep(store.Lim(), old(store.model), store.model, snapshotNow)
      ensures snapshot.Valid() && snapshot.Contents() == store.model.series && S.Ordered(store.model.series)
      ensures StatesOf(ps) == old(StatesOf(ps))
    {
      StatesMeaning(ps);
      snapshot := store.Snapshot(snapshotNow);
      StatesMeaning(ps);
    }

    /** Takes one snapshot and asks every policy about it. */
    method Observe(svc: Service, ghost st: ServiceState, current: int, now: int, snapshotNow: int, cooldownNow: int,
                   scheduled: Option<Bounds>, scaleSucceeds: bool) returns (wanted: Option<int>, ghost t: Tick)
      requires store.Valid() && store.model.clock <= snapshotNow && current >= 0
      requires st.policies == StatesOf(svc.policies) && WellFormedState(st)
      modifies store
      ensures store.Valid() && fresh(store.Bufs() - old(store.Bufs()))
      ensures SnapshotStep(store.Lim(), old(store.model), store.model, snapshotNow)
      ensures t == Tick(now, cooldownNow, scheduled, store.model.series, current, scaleSucceeds)
      ensures wanted == Wanted(svc.spec, st, t)
    {
      hide Invariant, Enforced, Wanted;
      var snapshot := TakeSnapshot(svc.policies, snapshotNow);
      t := Tick(now, cooldownNow, scheduled, store.model.series, current, scaleSucceeds);
      wanted := Decide(svc, st, snapshot, t, current, now, scheduled);
    }

    /** Reconciles one service from one reading of its count. `now` is read first,
        the store reads its clock for the snapshot, and the cooldown check reads its
        own last. */
    method ReconcileService(svc: Service, current: int, now: int, snapshotNow: int, cooldownNow: int,
                            scheduled: Option<Bounds>, scaleSucceeds: bool) returns (event: Option<Event>, ghost t: Tick)
      requires store.Valid() && store.model.clock <= snapshotNow && now <= snapshotNow <= cooldownNow
      requires current >= 0 && WellFormedPolicies(svc.policies)
      modifies this`state, adapter, store, Windows(svc.policies)
      ensures store.Valid() && fresh(store.Bufs() - old(store.Bufs()))
      ensures SnapshotStep(store.Lim(), old(store.model), store.model, snapshotNow)
      ensures t == Tick(now, cooldownNow, scheduled, store.model.series, current, scaleSucceeds)
      ensures WellFormedState(old(StateOfService(svc))) && Effect(svc, old(StateOfService(svc)), t, event)
      ensures event == None ==> state == old(state)
      ensures state - {svc.spec.name} == old(state) - {svc.spec.name}
      ensures adapter.counts == (if event == None || dryRun then old(adapter.counts)
                                 else old(adapter.counts)[svc.spec.identifier := event.value.to])
    {
      hide Invariant, Enforced;
      WellFormedStates(svc.policies);
      ghost var st := StateOfService(svc);
      var wanted;
      wanted, t := Observe(svc, st, current, now, snapshotNow, cooldownNow, scheduled, scaleSucceeds);
      event := None;
      if wanted.Some? {
        label Observed:
        ghost var bufs := store.Bufs();
        assert fresh(bufs - old(store.Bufs()));
        event := Act(svc, st, t, wanted.value, current, now, cooldownNow, scaleSucceeds);
        assert unchanged@Observed(store) && forall b :: b in bufs ==> unchanged@Observed(b);
        assert store.Bufs() == bufs;
      }
    }

    ghost function AllStates(services: seq<Service>): seq<ServiceState>
      reads this, AllWindows(services)
    {
      if services == [] then []
      else
        IncludesFront(services);
        AllStates(services[..|services| - 1]) + [StateOfService(services[|services| - 1])]
    }

    lemma {:induction false} AllStatesMeaning(services: seq<Service>)
      ensures |AllStates(services)| == |services|
      ensures forall i :: 0 <= i < |services| ==> AllStates(services)[i] == StateOfService(services[i])
    {
      if services != [] { AllStatesMeaning(services[..|services| - 1]); }
    }

    /** The store, the services and the platform as they are. */
    ghost function Now(services: seq<Service>): World
      reads this, store, adapter, AllWindows(services)
    {
      World(store.model, AllStates(services), adapter.counts)
    }

    /** One tick: every service is reconciled from counts fetched once at the start,
        if they can be. Services do not disturb each other: each takes the step it would
        take alone, on the snapshot it takes after whatever has arrived by then. */
    method ReconcileAll(services: seq<Service>, inputs: seq<ServiceInput>, fetched: bool)
      returns (events: seq<Option<Event>>, ghost p: Progress)
      requires store.Valid() && Independent(services) && InputsInOrder(inputs, store.model.clock)
      requires |inputs| == |services| && forall id :: id in adapter.counts ==> adapter.counts[id] >= 0
      modifies this`state, adapter, store, store.Bufs(), AllWindows(services)
      ensures store.Valid() && events == p.events && |events| == (if fetched then |services| else 0)
      ensures Progressed(store.Lim(), services, inputs, dryRun, old(Now(services)), p, Now(services))
      ensures |p.ticks| == |events|
      ensures forall k :: 0 <= k < |events| ==>
                var id := services[k].spec.identifier;
                && p.ticks[k].current == (if id in old(adapter.counts) then old(adapter.counts)[id] else 0)
                && (events[k].Some? ==> events[k].value.from == p.ticks[k].current)
    {
      hide Invariant, InputsInOrder, Independent, AllWindows, Progressed;
      AllStatesMeaning(services);
      NoProgressYet(store.Lim(), services, inputs, dryRun, Now(services));
      ghost var first := Now(services);
      events, p := [], Progress([], [], [store.model]);
      if fetched { events, p := ReconcileEach(services, inputs, adapter.counts, Now(services), p); }
      TurnsFromCounts(store.Lim(), services, inputs, dryRun, first, p, Now(services));
    }

    method ReconcileEach(services: seq<Service>, inputs: seq<ServiceInput>, counts: map<string, int>,
                         ghost first: World, ghost start: Progress)
      returns (events: seq<Option<Event>>, ghost p: Progress)
      requires store.Valid() && Independent(services) && InputsInOrder(inputs, first.store.clock)
      requires |inputs| == |services| && counts == first.counts && forall id :: id in counts ==> counts[id] >= 0
      requires start.events == [] && start.ticks == []
      requires Progressed(store.Lim(), services, inputs, dryRun, first, start, Now(services))
      modifies this`state, adapter, store, store.Bufs(), AllWindows(services)
      ensures store.Valid() && events == p.events && |events| == |services|
      ensures Progressed(store.Lim(), services, inputs, dryRun, first, p, Now(services))
    {
      hide Progressed, Invariant, InputsInOrder, Independent, AllWindows;
      events, p := [], start;
      for i := 0 to |services|
        invariant store.Valid() && fresh(store.Bufs() - old(store.Bufs()))
        invariant events == p.events && |events| == |p.ticks| == i
        invariant Progressed(store.Lim(), services, inputs, dryRun, first, p, Now(services))
      {
        var event;
        event, p := ReconcileNext(services, inputs, i, counts, first, p);
        events := events + [event];
      }
    }

    /** The turn of service `i`: what has arrived by then is stored first. */
    method ReconcileNext(services: seq<Service>, inputs: seq<ServiceInput>, i: nat, counts: map<string, int>,
                         ghost first: World, ghost p: Progress) returns (event: Option<Event>, ghost p': Progress)
      requires Independent(services) && i < |services| == |inputs| && |p.ticks| == i && counts == first.counts
      requires store.Valid() && InputsInOrder(inputs, first.store.clock) && forall id :: id in counts ==> counts[id] >= 0
      requires Progressed(store.Lim(), services, inputs, dryRun, first, p, Now(services))
      modifies this`state, adapter, store, store.Bufs(), AllWindows(services)
      ensures store.Valid() && fresh(store.Bufs() - old(store.Bufs()))
      ensures p'.events == p.events + [event] && |p'.ticks| == i + 1
      ensures Progressed(store.Lim(), services, inputs, dryRun, first, p', Now(services))
    {
      hide Invariant, Step, Progressed;
      ghost var lim, last := store.Lim(), Now(services);
      NextInOrder(lim, services, inputs, dryRun, first, p, last);
      ghost var trace := ReceiveAll(services, inputs[i].arrivals, inputs[i].snapshotNow);
      ghost var arrived := Now(services);
      IncludesWindows(services, i);
      ghost var t;
      event, t := ReconcileTurn(services, i, inputs[i], CountOf(counts, services[i].spec.identifier));
      SnapshotLast(lim, trace, inputs[i], arrived.store, store.model);
      trace := trace + [store.model];
      p' := Progress(p.ticks + [t], p.events + [event], p.stores + trace[1..]);
      MoreProgress(lim, services, inputs, dryRun, first, p, last, trace, t, event, Now(services));
    }

    /** Arrivals concern the store alone. */
    method ReceiveAll(services: seq<Service>, arrivals: seq<Op>, ghost end: int) returns (ghost trace: seq<State>)
      requires store.Valid() && S.InOrder(arrivals, store.model.clock, end)
      modifies store, store.Bufs()
      ensures store.Valid() && fresh(store.Bufs() - old(store.Bufs())) && store.model.clock <= end
      ensures Trace(store.Lim(), trace, arrivals) && trace[0] == old(store.model) && trace[|arrivals|] == store.model
      ensures Now(services) == old(Now(services)).(store := store.model)
    {
      trace := S.IngestAll(store, arrivals, end);
      assert unchanged(this) && unchanged(adapter);
      assert forall w :: w in AllWindows(services) ==> unchanged(w);
      assert AllStates(services) == old(AllStates(services));
    }

    /** Only the service itself changes, by its own step. */
    method ReconcileTurn(services: seq<Service>, i: nat, input: ServiceInput, current: int)
      returns (event: Option<Event>, ghost t: Tick)
      requires Independent(services) && i < |services| && store.Valid() && store.model.clock <= input.snapshotNow
      requires input.now <= input.snapshotNow <= input.cooldownNow && current >= 0
      modifies this`state, adapter, store, Windows(services[i].policies)
      ensures store.Valid() && fresh(store.Bufs() - old(store.Bufs()))
      ensures SnapshotStep(store.Lim(), old(store.model), store.model, input.snapshotNow)
      ensures Reads(t, input, current) && t.m == store.model.series
      ensures TurnTaken(services, i, dryRun, old(Now(services)), t, event, Now(services))
    {
      hide Invariant, Enforced, Reconcile;
      AllStatesMeaning(services);
      event, t := ReconcileService(services[i], current, input.now, input.snapshotNow, input.cooldownNow,
        input.scheduled, input.scaleSucceeds);
      forall k: nat | k < |services| && k != i
        ensures StateOfService(services[k]) == old(StateOfService(services[k]))
      {
        OtherEntry(state, old(state), services[i].spec.name, services[k].spec.name);
        assert Windows(services[i].policies) !! Windows(services[k].policies);
        assert StatesOf(services[k].policies) == old(StatesOf(services[k].policies));
      }
      AllStatesMeaning(services);
    }
  }

  lemma OtherEntry<V>(a: map<string, V>, b: map<string, V>, removed: string, key: string)
    requires a - {removed} == b - {removed} && key != removed
    ensures key in a <==> key in b
    ensures key in a ==> a[key] == b[key]
  {
    assert key in a <==> key in a - {removed};
    assert key in b <==> key in b - {removed};
  }

  /** A count from the platform; one for an identifier it does not know is zero. */
  function CountOf(counts: map<string, int>, identifier: string): int {
    if identifier in counts then counts[identifier] else 0
  }

  function CountsAfterOne(counts: map<string, int>, svc: Service, event: Option<Event>, dryRun: bool): map<string, int> {
    if event == None || dryRun then counts else counts[svc.spec.identifier := event.value.to]
  }

  /** The counts after the events of the first services, in their order. */
  function CountsAfter(counts: map<string, int>, services: seq<Service>, events: seq<Option<Event>>,
                       dryRun: bool): map<string, int>
    requires |events| <= |services|
  {
    if events == [] then counts
    else
      var n := |events| - 1;
      CountsAfterOne(CountsAfter(counts, services, events[..n], dryRun), services[n], events[n], dryRun)
  }

  lemma OneMoreEvent(counts: map<string, int>, services: seq<Service>, events: seq<Option<Event>>,
                     event: Option<Event>, dryRun: bool)
    requires |events| < |services|
    ensures CountsAfter(counts, services, events + [event], dryRun) ==
            CountsAfterOne(CountsAfter(counts, services, events, dryRun), services[|events|], event, dryRun)
  {
    assert (events + [event])[..|events|] == events;
  }

  /** The tick was taken with these clock readings, bounds and count. */
  predicate Reads(t: Tick, input: ServiceInput, current: int) {
    && t.current == current && t.now == input.now && t.cooldownNow == input.cooldownNow
    && t.scheduled == input.scheduled && t.scaleSucceeds == input.scaleSucceeds
  }

  /** What one service's turn reads: the arrivals stored before its snapshot, three
      clock readings, the bounds of a matching schedule entry, and whether scaling
      succeeds. */
  datatype ServiceInput = ServiceInput(
    arrivals: seq<Op>, now: int, snapshotNow: int, cooldownNow: int, scheduled: Option<Bounds>, scaleSucceeds: bool)

  /** What the store goes through in one turn, and in the turns of several services. */
  function StoreOps(input: ServiceInput): seq<Op> { input.arrivals + [View(input.snapshotNow)] }

  function AllStoreOps(inputs: seq<ServiceInput>): seq<Op> {
    if inputs == [] then [] else AllStoreOps(inputs[..|inputs| - 1]) + StoreOps(inputs[|inputs| - 1])
  }

  /** The store went through all arrivals and snapshots in order; each service was
      looked at with its own inputs, the count fetched for it, and the snapshot its
      own turn took. */
  ghost predicate TicksTaken(lim: Limits, services: seq<Service>, inputs: seq<ServiceInput>, counts: map<string, int>,
                             stores: seq<State>, ticks: seq<Tick>)
  {
    && lim.Positive() && |ticks| <= |inputs| == |services| && Trace(lim, stores, AllStoreOps(inputs[..|ticks|]))
    && forall k :: 0 <= k < |ticks| ==>
         TickTaken(stores, inputs, k, ticks[k], CountOf(counts, services[k].spec.identifier))
  }

  ghost predicate TickTaken(stores: seq<State>, inputs: seq<ServiceInput>, k: nat, t: Tick, current: int)
    requires k < |inputs|
  {
    var i := |AllStoreOps(inputs[..k + 1])|;
    i < |stores| && t.m == stores[i].series && Reads(t, inputs[k], current)
  }

  ghost predicate FromTo(states: seq<State>, first: State, last: State) {
    states != [] && states[0] == first && states[|states| - 1] == last
  }

  lemma OneMoreInput(inputs: seq<ServiceInput>, i: nat)
    requires i < |inputs|
    ensures AllStoreOps(inputs[..i + 1]) == AllStoreOps(inputs[..i]) + StoreOps(inputs[i])
  {
    assert inputs[..i + 1][..i] == inputs[..i];
  }

  lemma SnapshotLast(lim: Limits, trace: seq<State>, input: ServiceInput, s: State, s': State)
    requires lim.Positive() && Trace(lim, trace, input.arrivals) && trace[|input.arrivals|] == s
    requires s.clock <= input.snapshotNow && SnapshotStep(lim, s, s', input.snapshotNow)
    ensures Trace(lim, trace + [s'], StoreOps(input))
  {
    assert Step(lim, s, View(input.snapshotNow), s');
    hide Step;
    TracesJoin(lim, trace, input.arrivals, [s, s'], [View(input.snapshotNow)]);
    assert trace + [s, s'][1..] == trace + [s'];
  }

  lemma OneMoreTick(lim: Limits, services: seq<Service>, inputs: seq<ServiceInput>, counts: map<string, int>,
                    stores: seq<State>, ticks: seq<Tick>, trace: seq<State>, t: Tick)
    requires TicksTaken(lim, services, inputs, counts, stores, ticks) && |ticks| < |inputs| && stores != []
    requires Trace(lim, trace, StoreOps(inputs[|ticks|])) && trace[0] == stores[|stores| - 1]
    requires t.m == trace[|trace| - 1].series
    requires Reads(t, inputs[|ticks|], CountOf(counts, services[|ticks|].spec.identifier))
    ensures TicksTaken(lim, services, inputs, counts, stores + trace[1..], ticks + [t])
  {
    hide Step, Reads, AllStoreOps, StoreOps;
    var n, stores', ticks' := |ticks|, stores + trace[1..], ticks + [t];
    OneMoreInput(inputs, n);
    TracesJoin(lim, stores, AllStoreOps(inputs[..n]), trace, StoreOps(inputs[n]));
    forall k | 0 <= k < |ticks'|
      ensures TickTaken(stores', inputs, k, ticks'[k], CountOf(counts, services[k].spec.identifier))
    {
      if k < n { assert TickTaken(stores, inputs, k, ticks[k], CountOf(counts, services[k].spec.identifier)); }
    }
  }

  datatype World = World(store: State, services: seq<ServiceState>, counts: map<string, int>)

  /** The service took the step it would have taken alone. */
  ghost predicate SteppedAlone(s: ServiceSpec, dryRun: bool, st: ServiceState, t: Tick, st': ServiceState,
                               event: Option<Event>)
  {
    && WellFormedState(st)
    && var out := Reconcile(s, dryRun, st, t);
       st' == out.state && event == out.event
  }

  /** What one turn does to the services and the platform. */
  ghost predicate TurnTaken(services: seq<Service>, i: nat, dryRun: bool, x: World, t: Tick, event: Option<Event>,
                            x': World)
    requires i < |services|
  {
    && |x.services| == |x'.services| == |services|
    && SteppedAlone(services[i].spec, dryRun, x.services[i], t, x'.services[i], event)
    && (forall k :: 0 <= k < |services| && k != i ==> x'.services[k] == x.services[k])
    && x'.counts == CountsAfterOne(x.counts, services[i], event, dryRun)
  }

  /** The ticks and events of the services that have had a turn, and the states the
      store went through meanwhile. */
  datatype Progress = Progress(ticks: seq<Tick>, events: seq<Option<Event>>, stores: seq<State>)

  /** From `first` the world has come to `last` by what these services did and saw,
      each alone from where it started. */
  ghost predicate Progressed(lim: Limits, services: seq<Service>, inputs: seq<ServiceInput>, dryRun: bool,
                             first: World, p: Progress, last: World)
  {
    && TicksTaken(lim, services, inputs, first.counts, p.stores, p.ticks) && FromTo(p.stores, first.store, last.store)
    && last.store.clock == ClockBefore(inputs, |p.ticks|, first.store.clock)
    && |p.events| == |p.ticks| && last.counts == CountsAfter(first.counts, services, p.events, dryRun)
    && AllSteppedAlone(services, dryRun, first, p, last)
  }

  ghost predicate AllSteppedAlone(services: seq<Service>, dryRun: bool, first: World, p: Progress, last: World)
    requires |p.events| == |p.ticks| <= |services|
  {
    && |first.services| == |last.services| == |services|
    && (forall k :: 0 <= k < |p.ticks| ==>
          SteppedAlone(services[k].spec, dryRun, first.services[k], p.ticks[k], last.services[k], p.events[k]))
    && (forall k :: |p.ticks| <= k < |services| ==> last.services[k] == first.services[k])
  }

  lemma NoProgressYet(lim: Limits, services: seq<Service>, inputs: seq<ServiceInput>, dryRun: bool, x: World)
    requires lim.Positive() && |inputs| == |services| == |x.services|
    ensures Progressed(lim, services, inputs, dryRun, x, Progress([], [], [x.store]), x)
  {
    assert inputs[..0] == [];
  }

  /** Every turn starts from the count the platform reported for the service's
      identifier, or from zero where it does not know the identifier. */
  lemma TurnsFromCounts(lim: Limits, services: seq<Service>, inputs: seq<ServiceInput>, dryRun: bool,
                        first: World, p: Progress, last: World)
    requires Progressed(lim, services, inputs, dryRun, first, p, last)
    ensures |p.events| == |p.ticks| <= |services|
    ensures forall k :: 0 <= k < |p.ticks| ==>
              var id := services[k].spec.identifier;
              && p.ticks[k].current == (if id in first.counts then first.counts[id] else 0)
              && (p.events[k].Some? ==> p.events[k].value.from == p.ticks[k].current)
  {
    hide Trace, CountsAfter, FromTo, Opinions;
    forall k | 0 <= k < |p.ticks|
      ensures var id := services[k].spec.identifier;
              && p.ticks[k].current == (if id in first.counts then first.counts[id] else 0)
              && (p.events[k].Some? ==> p.events[k].value.from == p.ticks[k].current)
    {
      assert TickTaken(p.stores, inputs, k, p.ticks[k], CountOf(first.counts, services[k].spec.identifier));
      assert SteppedAlone(services[k].spec, dryRun, first.services[k], p.ticks[k], last.services[k], p.events[k]);
    }
  }

  lemma NextInOrder(lim: Limits, services: seq<Service>, inputs: seq<ServiceInput>, dryRun: bool,
                    first: World, p: Progress, last: World)
    requires Progressed(lim, services, inputs, dryRun, first, p, last) && |p.ticks| < |inputs|
    requires InputsInOrder(inputs, first.store.clock)
    ensures InputInOrder(inputs[|p.ticks|], last.store.clock)
  {
  }

  lemma TurnCounts(services: seq<Service>, i: nat, dryRun: bool, x: World, t: Tick, event: Option<Event>, x': World)
    requires i < |services| && TurnTaken(services, i, dryRun, x, t, event, x')
    ensures x'.counts == CountsAfterOne(x.counts, services[i], event, dryRun)
  {
  }

  lemma LongerPath(states: seq<State>, more: seq<State>)
    requires states != [] && |more| > 1
    ensures FromTo(states + more[1..], states[0], more[|more| - 1])
  {
  }

  lemma SameStep(services: seq<Service>, dryRun: bool, first: World, p: Progress, last: World, store: State)
    requires |p.events| == |p.ticks| <= |services| && AllSteppedAlone(services, dryRun, first, p, last)
    ensures AllSteppedAlone(services, dryRun, first, p, last.(store := store))
  {
    hide SteppedAlone;
  }

  lemma OneMoreAlone(services: seq<Service>, dryRun: bool, first: World, p: Progress, last: World,
                     t: Tick, event: Option<Event>, next: World, stores: seq<State>)
    requires |p.events| == |p.ticks| < |services| && AllSteppedAlone(services, dryRun, first, p, last)
    requires TurnTaken(services, |p.ticks|, dryRun, last, t, event, next)
    ensures AllSteppedAlone(services, dryRun, first, Progress(p.ticks + [t], p.events + [event], stores), next)
  {
    hide Reconcile;
    var n, p' := |p.ticks|, Progress(p.ticks + [t], p.events + [event], stores);
    forall k | 0 <= k <= n
      ensures SteppedAlone(services[k].spec, dryRun, first.services[k], p'.ticks[k], next.services[k], p'.events[k])
    {
      if k < n {
        assert SteppedAlone(services[k].spec, dryRun, first.services[k], p.ticks[k], last.services[k], p.events[k]);
      }
    }
  }

  lemma MoreProgress(lim: Limits, services: seq<Service>, inputs: seq<ServiceInput>, dryRun: bool, first: World,
                     p: Progress, last: World, trace: seq<State>, t: Tick, event: Option<Event>, next: World)
    requires Progressed(lim, services, inputs, dryRun, first, p, last) && |p.ticks| < |inputs|
    requires Trace(lim, trace, StoreOps(inputs[|p.ticks|])) && FromTo(trace, last.store, next.store)
    requires t.m == next.store.series && next.store.clock == inputs[|p.ticks|].snapshotNow
    requires Reads(t, inputs[|p.ticks|], CountOf(first.counts, services[|p.ticks|].spec.identifier))
    requires TurnTaken(services, |p.ticks|, dryRun, last.(store := next.store), t, event, next)
    ensures Progressed(lim, services, inputs, dryRun, first,
                       Progress(p.ticks + [t], p.events + [event], p.stores + trace[1..]), next)
  {
    TurnCounts(services, |p.ticks|, dryRun, last.(store := next.store), t, event, next);
    assert |inputs| == |services| && trace != [];
    hide TicksTaken, AllSteppedAlone, Reads, CountsAfter, TurnTaken, Step, StoreOps;
    OneMoreTick(lim, services, inputs, first.counts, p.stores, p.ticks, trace, t);
    OneMoreEvent(first.counts, services, p.events, event, dryRun);
    LongerPath(p.stores, trace);
    SameStep(services, dryRun, first, p, last, next.store);
    OneMoreAlone(services, dryRun, first, p, last.(store := next.store), t, event, next, p.stores + trace[1..]);
  }

  /** Arrivals and readings of one turn follow the clock. */
  ghost predicate InputInOrder(input: ServiceInput, clock: int) {
    S.InOrder(input.arrivals, clock, input.snapshotNow) && input.now <= input.snapshotNow <= input.cooldownNow
  }

  function ClockBefore(inputs: seq<ServiceInput>, i: nat, clock: int): int
    requires i <= |inputs|
  {
    if i == 0 then clock else inputs[i - 1].snapshotNow
  }

  /** Every turn follows the one before it. */
  ghost predicate InputsInOrder(inputs: seq<ServiceInput>, clock: int) {
    && (forall i :: 0 <= i < |inputs| ==> InputInOrder(inputs[i], ClockBefore(inputs, i, clock)))
    && (forall i, j :: 0 <= i < j < |inputs| ==> inputs[i].cooldownNow <= inputs[j].now)
  }

  /** Service names and policies are used once. */
  ghost predicate Independent(services: seq<Service>) {
    && (forall i :: 0 <= i < |services| ==> WellFormedPolicies(services[i].policies))
    && (forall i, j :: 0 <= i < |services| && 0 <= j < |services| && i != j ==>
          && services[i].spec.name != services[j].spec.name
          && Windows(services[i].policies) !! Windows(services[j].policies))
  }

  ghost function AllWindows(services: seq<Service>): set<WindowPolicy> {
    set i, w | 0 <= i < |services| && w in Windows(services[i].policies) :: w
  }

  lemma IncludesWindows(services: seq<Service>, i: nat)
    requires i < |services|
    ensures Windows(services[i].policies) <= AllWindows(services)
  {
  }

  lemma IncludesFront(services: seq<Service>)
    requires services != []
    ensures AllWindows(services[..|services| - 1]) <= AllWindows(services)
    ensures Windows(services[|services| - 1].policies) <= AllWindows(services)
  {
    var front := services[..|services| - 1];
    forall w | w in AllWindows(front) ensures w in AllWindows(services) {
      var i :| 0 <= i < |front| && w in Windows(front[i].policies);
      assert services[i] == front[i];
    }
  }
}
