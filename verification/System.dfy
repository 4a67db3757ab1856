/** The whole path from arriving samples to scale events: arrivals and
    reconciliations in any interleaving, the decisions on the bounded store against
    the decisions the whole accepted history would have led to. */
module System {
  import opened Samples
  import opened StoreModel
  import opened BoundedDecisions
  import opened StoreRuns
  import opened Buckets
  import opened Eviction
  import opened WindowPolicies
  import opened Decisions
  import opened Shapes
  import E = Exposure
  import R = Runs

  // ---------------------------------------------------------- the whole run

  datatype Label =
    | Ingest(now: int, key: MetricKey, value: Reading, observedAt: int)
    | Reconciled(name: string, start: int, snapshotNow: int, cooldownNow: int,
                 scheduled: Option<Bounds>, current: int, scaleSucceeds: bool)

  datatype Sys = Sys(store: State, services: map<string, ServiceState>)

  ghost function TickOf(l: Label, after: Sys): Tick
    requires l.Reconciled?
  {
    Tick(l.start, l.cooldownNow, l.scheduled, after.store.series, l.current, l.scaleSucceeds)
  }

  ghost predicate ReconcileStep(lim: Limits, specs: map<string, ServiceSpec>, dryRun: bool, x: Sys, l: Label, x': Sys)
    requires lim.Positive() && l.Reconciled?
  {
    && l.name in specs && l.name in x.services && WellFormedState(x.services[l.name])
    && l.start <= l.snapshotNow <= l.cooldownNow && l.current >= 0
    && SnapshotStep(lim, x.store, x'.store, l.snapshotNow)
    && x'.services == x.services[l.name := Reconcile(specs[l.name], dryRun, x.services[l.name], TickOf(l, x')).state]
  }

  ghost predicate SysStep(lim: Limits, specs: map<string, ServiceSpec>, dryRun: bool, x: Sys, l: Label, x': Sys)
    requires lim.Positive()
  {
    match l
    case Ingest(now, key, value, observedAt) =>
      x.store.clock <= now && AddStep(lim, x.store, x'.store, now, key, value, observedAt) && x'.services == x.services
    case Reconciled(_, _, snapshotNow, _, _, _, _) =>
      x.store.clock <= snapshotNow && ReconcileStep(lim, specs, dryRun, x, l, x')
  }

  /** Reconciliations follow one another; arrivals fall anywhere between their clock
      readings. All readings come after the zero time. */
  ghost predicate SysRun(lim: Limits, specs: map<string, ServiceSpec>, dryRun: bool, xs: seq<Sys>, labels: seq<Label>)
    requires lim.Positive()
  {
    && |xs| == |labels| + 1
    && Initial(xs[0].store) && (forall name :: name in xs[0].services ==> R.Fresh(xs[0].services[name]))
    && (forall i {:trigger labels[i]} :: 0 <= i < |labels| ==> SysStep(lim, specs, dryRun, xs[i], labels[i], xs[i + 1]))
    && (forall i :: 0 <= i < |labels| && labels[i].Reconciled? ==> labels[i].start > 0)
    && (forall i, j :: 0 <= i < j < |labels| && labels[i].Reconciled? && labels[j].Reconciled? ==>
          labels[i].cooldownNow <= labels[j].start)
  }

  lemma {:induction false} StoreInvariantHolds(lim: Limits, specs: map<string, ServiceSpec>, dryRun: bool,
                                               xs: seq<Sys>, labels: seq<Label>, i: nat)
    requires lim.Positive() && SysRun(lim, specs, dryRun, xs, labels) && i < |xs|
    ensures Invariant(lim, xs[i].store)
  {
    hide *;
    StartsEmpty(lim, specs, dryRun, xs, labels);
    if i == 0 {
      InitialInvariant(lim, xs[0].store);
    } else {
      StoreInvariantHolds(lim, specs, dryRun, xs, labels, i - 1);
      StepAt(lim, specs, dryRun, xs, labels, i - 1);
      SysStepKeepsInvariant(lim, specs, dryRun, xs[i - 1], labels[i - 1], xs[i]);
    }
  }

  lemma InitialInvariant(lim: Limits, s: State)
    requires lim.Positive() && Initial(s)
    ensures Invariant(lim, s)
  {
  }

  lemma SysStepKeepsInvariant(lim: Limits, specs: map<string, ServiceSpec>, dryRun: bool, x: Sys, l: Label, x': Sys)
    requires lim.Positive() && SysStep(lim, specs, dryRun, x, l, x') && Invariant(lim, x.store)
    ensures Invariant(lim, x'.store)
  {
    hide Invariant, AddStep, SnapshotStep, Reconcile;
    match l
    case Ingest(now, key, value, observedAt) =>
      AddKeepsInvariant(lim, x.store, x'.store, now, key, value, observedAt);
    case Reconciled(_, _, snapshotNow, _, _, _, _) =>
      SnapshotKeepsInvariant(lim, x.store, x'.store, snapshotNow);
  }

  /** Step `i` of the run was a scale event of this service. */
  ghost predicate ScaledAt(lim: Limits, specs: map<string, ServiceSpec>, dryRun: bool, xs: seq<Sys>, labels: seq<Label>,
                           name: string, i: nat)
    requires lim.Positive() && SysRun(lim, specs, dryRun, xs, labels) && i < |labels|
  {
    && labels[i].Reconciled? && labels[i].name == name
    && assert SysStep(lim, specs, dryRun, xs[i], labels[i], xs[i + 1]);
       Reconcile(specs[name], dryRun, xs[i].services[name], TickOf(labels[i], xs[i + 1])).event.Some?
  }

  lemma StepAt(lim: Limits, specs: map<string, ServiceSpec>, dryRun: bool, xs: seq<Sys>, labels: seq<Label>, i: nat)
    requires lim.Positive() && SysRun(lim, specs, dryRun, xs, labels) && i < |labels|
    ensures SysStep(lim, specs, dryRun, xs[i], labels[i], xs[i + 1])
    ensures labels[i].Reconciled? ==> labels[i].start <= labels[i].cooldownNow
  {
  }

  ghost predicate CutOffIn(x: Sys, name: string, at: int) {
    name in x.services && R.CutOffAt(x.services[name], at)
  }

  lemma StepCutOff(lim: Limits, specs: map<string, ServiceSpec>, dryRun: bool, x: Sys, l: Label, x': Sys,
                   name: string, at: int)
    requires lim.Positive() && SysStep(lim, specs, dryRun, x, l, x')
    requires name in x.services && (l.Reconciled? ==> at <= l.start)
    requires CutOffIn(x, name, at) ||
             (l.Reconciled? && l.name == name && at == l.start &&
              Reconcile(specs[name], dryRun, x.services[name], TickOf(l, x')).event.Some?)
    ensures CutOffIn(x', name, at)
  {
    if l.Reconciled? && l.name == name {
      R.StepCutoffs(specs[name], dryRun, x.services[name], TickOf(l, x'), at);
    }
  }

  lemma ScaledWasReconciled(lim: Limits, specs: map<string, ServiceSpec>, dryRun: bool, xs: seq<Sys>, labels: seq<Label>,
                            name: string, i: nat)
    requires lim.Positive() && SysRun(lim, specs, dryRun, xs, labels) && i < |labels|
    requires ScaledAt(lim, specs, dryRun, xs, labels, name, i)
    ensures labels[i].Reconciled?
  {
    hide SysRun, SysStep, Reconcile;
  }

  lemma CutOffAtEvent(lim: Limits, specs: map<string, ServiceSpec>, dryRun: bool, xs: seq<Sys>, labels: seq<Label>,
                      name: string, i: nat)
    requires lim.Positive() && SysRun(lim, specs, dryRun, xs, labels) && i < |labels|
    requires ScaledAt(lim, specs, dryRun, xs, labels, name, i)
    ensures CutOffIn(xs[i + 1], name, labels[i].start)
  {
    StepAt(lim, specs, dryRun, xs, labels, i);
    StepCutOff(lim, specs, dryRun, xs[i], labels[i], xs[i + 1], name, labels[i].start);
  }

  lemma CutOffNext(lim: Limits, specs: map<string, ServiceSpec>, dryRun: bool, xs: seq<Sys>, labels: seq<Label>,
                   name: string, i: nat, k: nat)
    requires lim.Positive() && SysRun(lim, specs, dryRun, xs, labels) && i < k < |labels| && labels[i].Reconciled?
    requires CutOffIn(xs[k], name, labels[i].start)
    ensures CutOffIn(xs[k + 1], name, labels[i].start)
  {
    StepAt(lim, specs, dryRun, xs, labels, i);
    StepAt(lim, specs, dryRun, xs, labels, k);
    StepCutOff(lim, specs, dryRun, xs[k], labels[k], xs[k + 1], name, labels[i].start);
  }

  /** From a scale event on, the policies of the service are cut off at its time,
      whatever arrives and whichever services are reconciled in between. */
  lemma {:induction false} CutOffSince(lim: Limits, specs: map<string, ServiceSpec>, dryRun: bool, xs: seq<Sys>,
                                       labels: seq<Label>, name: string, i: nat, j: nat)
    requires lim.Positive() && SysRun(lim, specs, dryRun, xs, labels) && i < j <= |labels|
    requires ScaledAt(lim, specs, dryRun, xs, labels, name, i)
    ensures CutOffIn(xs[j], name, labels[i].start)
    decreases j
  {
    hide *;
    ScaledWasReconciled(lim, specs, dryRun, xs, labels, name, i);
    if j == i + 1 {
      CutOffAtEvent(lim, specs, dryRun, xs, labels, name, i);
    } else {
      CutOffSince(lim, specs, dryRun, xs, labels, name, i, j - 1);
      CutOffNext(lim, specs, dryRun, xs, labels, name, i, j - 1);
    }
  }

  /** The policy of the service breached at step `i`. */
  ghost predicate BreachedAt(lim: Limits, specs: map<string, ServiceSpec>, dryRun: bool, xs: seq<Sys>, labels: seq<Label>,
                             name: string, i: nat, p: PolicyState, d: Direction, th: Threshold)
    requires lim.Positive() && SysRun(lim, specs, dryRun, xs, labels) && i < |labels|
  {
    && labels[i].Reconciled? && labels[i].name == name && name in xs[i].services
    && R.BreachAt(xs[i].services[name], TickOf(labels[i], xs[i + 1]), p, d, th)
  }

  /** What the policy saw at step `i`, on the store as it was. */
  ghost function Evidence(xs: seq<Sys>, labels: seq<Label>, i: nat, p: PolicyState, th: Threshold): Answer
    requires i + 1 < |xs| && i < |labels| && labels[i].Reconciled? && p.WindowState? && p.config.bucketDuration != 0
  {
    var seen := Visible(xs[i + 1].store.series, p.config.Key());
    Query(seen, labels[i].start, p.config.bucketDuration, p.config.Required(th), p.cutoff)
  }

  /** What it would have seen, had the store kept everything it ever accepted. */
  ghost function FullEvidence(xs: seq<Sys>, labels: seq<Label>, i: nat, p: PolicyState, th: Threshold): Answer
    requires i + 1 < |xs| && i < |labels| && labels[i].Reconciled? && p.WindowState? && p.config.bucketDuration != 0
  {
    var full := Visible(xs[i + 1].store.history, p.config.Key());
    Query(full, labels[i].start, p.config.bucketDuration, p.config.Required(th), p.cutoff)
  }

  /** Every arrival names a service, as those of configured ingestion do. */
  ghost predicate ScopedIngest(labels: seq<Label>) {
    forall i :: 0 <= i < |labels| && labels[i].Ingest? ==> labels[i].key.service != ""
  }

  lemma SysStepStaysScoped(lim: Limits, specs: map<string, ServiceSpec>, dryRun: bool, x: Sys, l: Label, x': Sys)
    requires lim.Positive() && SysStep(lim, specs, dryRun, x, l, x') && NothingUnscoped(x.store.history)
    requires l.Ingest? ==> l.key.service != ""
    ensures NothingUnscoped(x'.store.history)
  {
    hide Enforced, NothingUnscoped, Reconcile;
    match l
    case Ingest(now, key, value, observedAt) =>
      StepStaysScoped(lim, x.store, Arrive(now, key, value, observedAt), x'.store);
    case Reconciled(_, _, snapshotNow, _, _, _, _) =>
      StepStaysScoped(lim, x.store, View(snapshotNow), x'.store);
  }

  lemma StartsEmpty(lim: Limits, specs: map<string, ServiceSpec>, dryRun: bool, xs: seq<Sys>, labels: seq<Label>)
    requires lim.Positive() && SysRun(lim, specs, dryRun, xs, labels)
    ensures |xs| == |labels| + 1 && Initial(xs[0].store)
  {
  }

  lemma {:induction false} ScopedSystemHistory(lim: Limits, specs: map<string, ServiceSpec>, dryRun: bool,
                                               xs: seq<Sys>, labels: seq<Label>, i: nat)
    requires lim.Positive() && SysRun(lim, specs, dryRun, xs, labels) && ScopedIngest(labels) && i < |xs|
    ensures NothingUnscoped(xs[i].store.history)
  {
    hide SysRun, SysStep;
    StartsEmpty(lim, specs, dryRun, xs, labels);
    if i > 0 {
      hide NothingUnscoped;
      ScopedSystemHistory(lim, specs, dryRun, xs, labels, i - 1);
      StepAt(lim, specs, dryRun, xs, labels, i - 1);
      SysStepStaysScoped(lim, specs, dryRun, xs[i - 1], labels[i - 1], xs[i]);
    }
  }

  /** So nothing is ever shadowed in a system that ingests for services only. */
  lemma SystemNeverShadowed(lim: Limits, specs: map<string, ServiceSpec>, dryRun: bool, xs: seq<Sys>,
                            labels: seq<Label>, i: nat)
    requires lim.Positive() && SysRun(lim, specs, dryRun, xs, labels) && ScopedIngest(labels) && i < |xs|
    ensures NoShadowing(xs[i].store)
  {
    hide SysRun, Invariant, NothingUnscoped;
    StoreInvariantHolds(lim, specs, dryRun, xs, labels, i);
    ScopedSystemHistory(lim, specs, dryRun, xs, labels, i);
    NothingToShadow(lim, xs[i].store);
  }

  /** Every breach is a breach on the whole accepted history, in the same buckets with
      the same samples, unless an unscoped series shadows the policy's own. */
  lemma BreachedInHistory(lim: Limits, specs: map<string, ServiceSpec>, dryRun: bool, xs: seq<Sys>, labels: seq<Label>,
                          name: string, i: nat, p: PolicyState, d: Direction, th: Threshold)
    requires lim.Positive() && SysRun(lim, specs, dryRun, xs, labels) && i < |labels|
    requires BreachedAt(lim, specs, dryRun, xs, labels, name, i, p, d, th)
    requires !Shadowed(xs[i + 1].store, p.config.Key())
    ensures Breach(p.config, d, th, Visible(xs[i + 1].store.history, p.config.Key()), labels[i].start, p.cutoff)
    ensures FullEvidence(xs, labels, i, p, th) == Evidence(xs, labels, i, p, th)
  {
    StoreInvariantHolds(lim, specs, dryRun, xs, labels, i + 1);
    var s, key := xs[i + 1].store, p.config.Key();
    hide SysRun, Query, Shadowed, Invariant;
    VisibleSuffix(lim, s, key);
    FailsClosed(Visible(s.series, key), Visible(s.history, key), labels[i].start, p.config.bucketDuration,
                p.config.Required(th), p.cutoff);
  }

  /** In a system that ingests for services only, every breach of every run is one. */
  lemma ScopedBreachedInHistory(lim: Limits, specs: map<string, ServiceSpec>, dryRun: bool, xs: seq<Sys>,
                                labels: seq<Label>,
                                name: string, i: nat, p: PolicyState, d: Direction, th: Threshold)
    requires lim.Positive() && SysRun(lim, specs, dryRun, xs, labels) && ScopedIngest(labels) && i < |labels|
    requires BreachedAt(lim, specs, dryRun, xs, labels, name, i, p, d, th)
    ensures Breach(p.config, d, th, Visible(xs[i + 1].store.history, p.config.Key()), labels[i].start, p.cutoff)
    ensures FullEvidence(xs, labels, i, p, th) == Evidence(xs, labels, i, p, th)
  {
    assert |xs| == |labels| + 1;
    hide SysRun, Shadowed, Breach;
    SystemNeverShadowed(lim, specs, dryRun, xs, labels, i + 1);
    BreachedInHistory(lim, specs, dryRun, xs, labels, name, i, p, d, th);
  }

  /** The bounds in force at step `i`. */
  ghost function BoundsAt(specs: map<string, ServiceSpec>, l: Label): Bounds
    requires l.Reconciled? && l.name in specs
  {
    ActiveBounds(specs[l.name], l.scheduled)
  }

  /** A scale event of a service with window policies only, found within whatever
      bounds are in force, is justified by a breach; where ingestion is for services
      only, by one on the whole accepted history. */
  lemma EventJustified(lim: Limits, specs: map<string, ServiceSpec>, dryRun: bool, xs: seq<Sys>, labels: seq<Label>,
                       name: string, i: nat, sustained: int, step: int)
    returns (p: PolicyState, d: Direction, th: Threshold)
    requires lim.Positive() && SysRun(lim, specs, dryRun, xs, labels) && i < |labels|
    requires ScaledAt(lim, specs, dryRun, xs, labels, name, i) && name in xs[i].services && name in specs
    requires R.WindowsOnly(xs[i].services[name], sustained, step)
    requires var b := BoundsAt(specs, labels[i]); 0 <= b.min <= labels[i].current <= b.max
    ensures BreachedAt(lim, specs, dryRun, xs, labels, name, i, p, d, th)
    ensures R.SustainedIn(xs[i + 1].store.series, p, d, th, labels[i].start)
    ensures ScopedIngest(labels) ==> R.SustainedIn(xs[i + 1].store.history, p, d, th, labels[i].start)
  {
    StepAt(lim, specs, dryRun, xs, labels, i);
    hide SysRun;
    p, d, th := R.EventHasBreach(specs[name], dryRun, xs[i].services[name], TickOf(labels[i], xs[i + 1]), sustained, step);
    hide Breach, Sustained, Visible, Sorted;
    var s, key := xs[i + 1].store, p.config.Key();
    EvidenceSorted(lim, specs, dryRun, xs, labels, i + 1, key);
    BreachIff(p.config, d, th, Visible(s.series, key), labels[i].start, p.cutoff);
    if ScopedIngest(labels) {
      ScopedBreachedInHistory(lim, specs, dryRun, xs, labels, name, i, p, d, th);
      BreachIff(p.config, d, th, Visible(s.history, key), labels[i].start, p.cutoff);
    }
  }

  /** Behind a downscale of any run, from within the upper bound, every window policy
      that could object has sustained its threshold in every bucket. */
  lemma DownscaleSustained(lim: Limits, specs: map<string, ServiceSpec>, dryRun: bool, xs: seq<Sys>,
                           labels: seq<Label>, i: nat, p: PolicyState)
    requires lim.Positive() && SysRun(lim, specs, dryRun, xs, labels) && i < |labels|
    requires labels[i].Reconciled? && ReconcileStep(lim, specs, dryRun, xs[i], labels[i], xs[i + 1])
    requires R.PositiveSteps(xs[i].services[labels[i].name])
    requires var b := BoundsAt(specs, labels[i]); 0 <= b.min <= b.max && labels[i].current <= b.max
    requires var st := xs[i].services[labels[i].name];
             var e := Reconcile(specs[labels[i].name], dryRun, st, TickOf(labels[i], xs[i + 1])).event;
             e.Some? && e.value.direction == Downscale
    requires p in xs[i].services[labels[i].name].policies && p.WindowState? && p.config.downscale.Some?
    ensures R.SustainedIn(xs[i + 1].store.series, p, Downscale, p.config.downscale.value, labels[i].start)
  {
    EvidenceSorted(lim, specs, dryRun, xs, labels, i + 1, p.config.Key());
    hide Breach, Sustained, Visible, Sorted, Reconcile, SnapshotStep, SysRun;
    R.UnanimousStep(specs[labels[i].name], dryRun, xs[i].services[labels[i].name], TickOf(labels[i], xs[i + 1]));
    assert R.SustainedAt(TickOf(labels[i], xs[i + 1]), p, Downscale, p.config.downscale.value);
  }

  // ------------------------------------------ events, bounded and unbounded

  /** What step `i` would have been on the whole accepted history. */
  ghost function OnHistory(specs: map<string, ServiceSpec>, dryRun: bool, x: Sys, l: Label, x': Sys): Outcome
    requires l.Reconciled? && l.name in specs && l.name in x.services && WellFormedState(x.services[l.name])
  {
    Reconcile(specs[l.name], dryRun, x.services[l.name], TickOf(l, x').(m := x'.store.history))
  }

  ghost predicate AllGuarded(st: ServiceState, m: Store)
    requires WellFormedState(st)
  {
    forall p :: p in st.policies ==> Guarded(p, m)
  }

  lemma SameWanted(s: ServiceSpec, dryRun: bool, st: ServiceState, t: Tick, m: Store)
    requires WellFormedState(st)
    requires Opinions(st.policies, m, t.now, t.current) == Opinions(st.policies, t.m, t.now, t.current)
    ensures Reconcile(s, dryRun, st, t.(m := m)) == Reconcile(s, dryRun, st, t)
  {
    hide Opinions, Clamp, Combined, CanScale;
  }

  lemma LoweredByPolicies(s: ServiceSpec, dryRun: bool, st: ServiceState, t: Tick)
    requires WellFormedState(st) && t.current >= 0
    requires var b := ActiveBounds(s, t.scheduled); b.min <= b.max && t.current <= b.max
    requires var e := Reconcile(s, dryRun, st, t).event; e.Some? && e.value.direction == Downscale
    ensures var ds := Opinions(st.policies, t.m, t.now, t.current); ds != [] && Combined(ds) < t.current
  {
    hide Opinions, Combined, CanScale;
  }

  /** Scaling down fails closed over whole runs: if every policy of a service can be
      trusted with a downscale, then every downscale of every run, from a count within
      the upper bound, is exactly the event the whole accepted history leads to. */
  lemma DownscaleAsOnHistory(lim: Limits, specs: map<string, ServiceSpec>, dryRun: bool, xs: seq<Sys>,
                             labels: seq<Label>, i: nat)
    requires lim.Positive() && SysRun(lim, specs, dryRun, xs, labels) && ScopedIngest(labels) && i < |labels|
    requires labels[i].Reconciled? && ReconcileStep(lim, specs, dryRun, xs[i], labels[i], xs[i + 1])
    requires AllGuarded(xs[i].services[labels[i].name], xs[i + 1].store.series)
    requires var b := BoundsAt(specs, labels[i]); b.min <= b.max && labels[i].current <= b.max
    requires var st := xs[i].services[labels[i].name];
             var e := Reconcile(specs[labels[i].name], dryRun, st, TickOf(labels[i], xs[i + 1])).event;
             e.Some? && e.value.direction == Downscale
    ensures var st := xs[i].services[labels[i].name];
            OnHistory(specs, dryRun, xs[i], labels[i], xs[i + 1]) ==
            Reconcile(specs[labels[i].name], dryRun, st, TickOf(labels[i], xs[i + 1]))
  {
    StoreInvariantHolds(lim, specs, dryRun, xs, labels, i + 1);
    SystemNeverShadowed(lim, specs, dryRun, xs, labels, i + 1);
    hide SysRun, Invariant, NoShadowing, Guarded, Opinions, Reconcile, Opinion, WellFormed, SnapshotStep;
    var st, t, s := xs[i].services[labels[i].name], TickOf(labels[i], xs[i + 1]), xs[i + 1].store;
    LoweredByPolicies(specs[labels[i].name], dryRun, st, t);
    DownscaleFailsClosed(lim, s, st.policies, t.now, t.current);
    SameWanted(specs[labels[i].name], dryRun, st, t, s.history);
  }

  lemma SameClamped(s: ServiceSpec, dryRun: bool, st: ServiceState, t: Tick, m: Store)
    requires WellFormedState(st)
    requires var a, b := Opinions(st.policies, m, t.now, t.current), Opinions(st.policies, t.m, t.now, t.current);
             a != [] && b != [] && Combined(a) == Combined(b)
    ensures Reconcile(s, dryRun, st, t.(m := m)) == Reconcile(s, dryRun, st, t)
  {
    hide Opinions, Clamp, Combined, CanScale;
  }

  /** The service's policies are those of its configuration, whatever scale events have
      cut off. */
  ghost predicate ConfiguredBy(st: ServiceState, name: string, ps: seq<Shape>, cutoffs: seq<int>, es: seq<Expression>) {
    ConfiguredService(name, ps) && |cutoffs| == |ps| == |es| && st.policies == PoliciesOf(name, ps, cutoffs, es)
  }

  /** So is every downscale of every run of a service whose configuration is not
      exposed, whatever its store holds. */
  lemma UnexposedDownscale(lim: Limits, specs: map<string, ServiceSpec>, dryRun: bool, xs: seq<Sys>,
                           labels: seq<Label>, i: nat, ps: seq<Shape>, cutoffs: seq<int>, es: seq<Expression>)
    requires lim.Positive() && SysRun(lim, specs, dryRun, xs, labels) && ScopedIngest(labels) && i < |labels|
    requires labels[i].Reconciled? && ReconcileStep(lim, specs, dryRun, xs[i], labels[i], xs[i + 1])
    requires ConfiguredBy(xs[i].services[labels[i].name], labels[i].name, ps, cutoffs, es) && !Exposed(ps)
    requires var b := BoundsAt(specs, labels[i]); b.min <= b.max && labels[i].current <= b.max
    requires var st := xs[i].services[labels[i].name];
             var e := Reconcile(specs[labels[i].name], dryRun, st, TickOf(labels[i], xs[i + 1])).event;
             e.Some? && e.value.direction == Downscale
    ensures var st := xs[i].services[labels[i].name];
            OnHistory(specs, dryRun, xs[i], labels[i], xs[i + 1]) ==
            Reconcile(specs[labels[i].name], dryRun, st, TickOf(labels[i], xs[i + 1]))
  {
    StoreInvariantHolds(lim, specs, dryRun, xs, labels, i + 1);
    SystemNeverShadowed(lim, specs, dryRun, xs, labels, i + 1);
    hide SysRun, Invariant, NoShadowing, Opinions, Reconcile, SnapshotStep, Exposed, ConfiguredService, PoliciesOf;
    var st, t, s := xs[i].services[labels[i].name], TickOf(labels[i], xs[i + 1]), xs[i + 1].store;
    LoweredByPolicies(specs[labels[i].name], dryRun, st, t);
    E.UnexposedFailsClosed(lim, s, labels[i].name, ps, cutoffs, es, t.now, t.current);
    SameClamped(specs[labels[i].name], dryRun, st, t, s.history);
  }

  lemma BucketWithin(now: int, width: int, count: int, a: nat)
    requires width > 0 && a < count
    ensures var start := BucketStart(OldestStart(now, width, count), width, a);
            OldestStart(now, width, count) <= start && start + width <= Truncate(now, width)
  {
    var oldest := OldestStart(now, width, count);
    BucketStartMonotone(oldest, width, 0, a);
    BucketStartMonotone(oldest, width, a + 1, count);
    BucketStartStep(oldest, width, a);
    WindowEnds(now, width, count);
    assert BucketStart(oldest, width, 0) == oldest;
  }

  lemma EvidenceWithin(values: seq<Sample>, now: int, width: int, count: int, after: int, a: int)
    requires Sorted(values) && Query(values, now, width, count, after).status == Complete
    requires 0 <= a < |Query(values, now, width, count, after).buckets|
    ensures width > 0 && count > 0
    ensures var x := Query(values, now, width, count, after).buckets[a].sample;
            OldestStart(now, width, count) <= x.observedAt < Truncate(now, width)
  {
    CompleteMeaning(values, now, width, count, after);
    BucketWithin(now, width, count, a);
  }

  lemma EvidenceSorted(lim: Limits, specs: map<string, ServiceSpec>, dryRun: bool, xs: seq<Sys>, labels: seq<Label>,
                       i: nat, key: MetricKey)
    requires lim.Positive() && SysRun(lim, specs, dryRun, xs, labels) && i < |xs|
    ensures Sorted(Visible(xs[i].store.series, key)) && Sorted(Visible(xs[i].store.history, key))
  {
    StoreInvariantHolds(lim, specs, dryRun, xs, labels, i);
    hide SysRun, Sorted;
    SuffixSortedAt(lim, xs[i].store, key);
    SuffixSortedAt(lim, xs[i].store, MetricKey("", key.name));
  }

  /** The samples behind a breach lie in its window, which ends by the evaluation. */
  lemma BreachEvidence(lim: Limits, specs: map<string, ServiceSpec>, dryRun: bool, xs: seq<Sys>, labels: seq<Label>,
                       name: string, i: nat, p: PolicyState, d: Direction, th: Threshold, a: int)
    requires lim.Positive() && SysRun(lim, specs, dryRun, xs, labels) && i < |labels|
    requires BreachedAt(lim, specs, dryRun, xs, labels, name, i, p, d, th)
    requires 0 <= a < |Evidence(xs, labels, i, p, th).buckets|
    ensures var t := Evidence(xs, labels, i, p, th).buckets[a].sample.observedAt;
            t < labels[i].start && (p.cutoff != 0 ==> p.cutoff <= t)
  {
    var v := Visible(xs[i + 1].store.series, p.config.Key());
    EvidenceSorted(lim, specs, dryRun, xs, labels, i + 1, p.config.Key());
    hide SysRun, Visible, Sorted;
    EvidenceWithin(v, labels[i].start, p.config.bucketDuration, p.config.Required(th), p.cutoff, a);
    BreachWindow(p.config, d, th, v, labels[i].start, p.cutoff);
  }

  /** No sample drives two scale events: the samples that justify a breach after a
      scale event, by whichever policy, are at or after its time, and those that
      justified a breach at the event are before it. */
  lemma NoSampleDrivesTwo(lim: Limits, specs: map<string, ServiceSpec>, dryRun: bool, xs: seq<Sys>, labels: seq<Label>,
                          name: string, i: nat, j: nat, p: PolicyState, d: Direction, th: Threshold,
                          p': PolicyState, d': Direction, th': Threshold, a: int, b: int)
    requires lim.Positive() && SysRun(lim, specs, dryRun, xs, labels) && i < j < |labels|
    requires ScaledAt(lim, specs, dryRun, xs, labels, name, i)
    requires BreachedAt(lim, specs, dryRun, xs, labels, name, i, p, d, th)
    requires BreachedAt(lim, specs, dryRun, xs, labels, name, j, p', d', th')
    requires 0 <= a < |Evidence(xs, labels, i, p, th).buckets| && 0 <= b < |Evidence(xs, labels, j, p', th').buckets|
    ensures Evidence(xs, labels, i, p, th).buckets[a].sample.observedAt < labels[i].start
    ensures labels[i].start <= Evidence(xs, labels, j, p', th').buckets[b].sample.observedAt < labels[j].start
  {
    BreachEvidence(lim, specs, dryRun, xs, labels, name, i, p, d, th, a);
    BreachEvidence(lim, specs, dryRun, xs, labels, name, j, p', d', th', b);
    CutOffSince(lim, specs, dryRun, xs, labels, name, i, j);
    assert labels[i].start > 0;
    hide SysRun, Breach, Query;
    assert p' in xs[j].services[name].policies && p'.cutoff >= labels[i].start;
  }
}
