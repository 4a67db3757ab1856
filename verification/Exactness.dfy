/** Below the caps nothing the policies look at is missing: a whole reconciliation on
    the bounded store is the reconciliation on the accepted history. */
module Exactness {
  import opened Samples
  import opened StoreModel
  import opened StoreInvariant
  import opened StoreRuns
  import opened StoreTheorems
  import opened Eviction
  import opened Feeds
  import opened WindowPolicies
  import opened Decisions
  import opened BoundedDecisions
  import opened System

  // ------------------------------------------------------------- nothing evicted

  /** Only eviction empties a series, since pruning and the per-series limit leave at
      least the newest sample. */
  ghost predicate NoneEmptied(s: State) {
    forall k {:trigger At(s.series, k)} :: At(s.series, k) == [] ==> At(s.history, k) == []
  }

  lemma NotOverfull(m: Store, after: Store, limit: int, k: MetricKey)
    requires Evicted(m, after, limit) && Total(m) <= limit
    ensures |At(after, k)| == |At(m, k)|
  {
    forall k ensures |At(after, k)| <= |At(m, k)| { assert IsSuffix(At(after, k), At(m, k)); }
    TotalMonotone(after, m);
  }

  lemma EnforcedEmptiesNone(lim: Limits, m: Store, cutoff: int, after: Store, k: MetricKey)
    requires lim.Positive() && Enforced(lim, m, cutoff, after) && Total(m) <= lim.total
    requires forall k :: Sorted(At(m, k))
    ensures At(after, k) == [] ==> At(m, k) == []
  {
    hide Evicted, Sorted;
    TrimmedTotal(lim, m, cutoff);
    TrimmedAt(lim, m, cutoff, k);
    NotOverfull(Trimmed(lim, m, cutoff), after, lim.total, k);
  }

  lemma StepEmptiesNone(lim: Limits, s: State, op: Op, s': State)
    requires lim.Positive() && Step(lim, s, op, s') && Invariant(lim, s) && NoneEmptied(s) && Total(s.series) < lim.total
    ensures NoneEmptied(s')
  {
    SortedStore(lim, s);
    hide Invariant, Enforced, Sorted, Insert;
    match op
    case Arrive(now, key, value, observedAt) =>
      if Accepts(lim, now, key, value, observedAt) {
        var x := Sample(value.value, observedAt);
        RecordSorted(lim, s, key, x);
        RecordTotal(s.series, key, x);
        forall k ensures At(s'.series, k) == [] ==> At(s'.history, k) == [] {
          EnforcedEmptiesNone(lim, Record(s.series, key, x), Cutoff(lim, now), s'.series, k);
          RecordAt(s.series, key, x);
          RecordAt(s.history, key, x);
          InsertNotEmpty(At(s.series, key), x);
        }
      }
    case View(now) =>
      forall k ensures At(s'.series, k) == [] ==> At(s'.history, k) == [] {
        EnforcedEmptiesNone(lim, s.series, Cutoff(lim, now), s'.series, k);
      }
  }

  lemma InsertNotEmpty(s: seq<Sample>, x: Sample)
    ensures Insert(s, x) != []
  {
  }

  // -------------------------------------------------------------- one service

  /** What the policy needs of the store to see all that matters to it. */
  ghost predicate SeesAll(lim: Limits, s: State, p: PolicyState, now: int) {
    match p
    case WindowState(c, _) =>
      && c.bucketDuration > 0 && c.service != "" && Covered(lim, c, c.upscale) && Covered(lim, c, c.downscale)
      && |At(s.series, c.Key())| < lim.perSeries && now <= s.clock <= now + c.bucketDuration
    case TargetState(_) => NoneEmptied(s)
  }

  lemma LastKept(lim: Limits, s: State, key: MetricKey)
    requires Invariant(lim, s) && NoneEmptied(s)
    ensures var v, h := At(s.series, key), At(s.history, key);
            (v == [] <==> h == []) && (v != [] ==> v[|v| - 1] == h[|h| - 1])
  {
    assert IsSuffix(At(s.series, key), At(s.history, key));
    hide Invariant;
  }

  lemma LatestKept(lim: Limits, s: State, key: MetricKey)
    requires Invariant(lim, s) && NoneEmptied(s)
    ensures LatestOf(s.series, key) == LatestOf(s.history, key)
  {
    hide Invariant, NoneEmptied, At;
    LastKept(lim, s, key);
    LastKept(lim, s, MetricKey("", key.name));
  }

  lemma {:induction false} ValuesKept(lim: Limits, s: State, service: string, names: seq<string>)
    requires Invariant(lim, s) && NoneEmptied(s)
    ensures LatestValues(s.series, service, names) == LatestValues(s.history, service, names)
  {
    if names != [] {
      hide Invariant, NoneEmptied, LatestOf;
      LatestKept(lim, s, MetricKey(service, names[|names| - 1]));
      ValuesKept(lim, s, service, names[..|names| - 1]);
    }
  }

  lemma OpinionExact(lim: Limits, s: State, p: PolicyState, now: int, current: int)
    requires lim.Positive() && Invariant(lim, s) && NothingUnscoped(s.history) && Total(s.series) < lim.total
    requires SeesAll(lim, s, p, now)
    ensures WellFormed(p) && Opinion(p, s.series, now, current) == Opinion(p, s.history, now, current)
  {
    hide Invariant, NoneEmptied, Covered, Decision;
    match p
    case WindowState(c, cutoff) =>
      DecisionExact(lim, s, c, now, cutoff, current);
    case TargetState(t) =>
      ValuesKept(lim, s, t.service, t.metricNames);
  }

  /** Below the caps a whole reconciliation, state and event, is that on the accepted
      history: window policies with the retention for their windows, and target policies
      if no series was ever emptied. */
  lemma ReconcileExact(lim: Limits, s: State, spec: ServiceSpec, dryRun: bool, st: ServiceState, t: Tick)
    requires lim.Positive() && Invariant(lim, s) && NothingUnscoped(s.history) && Total(s.series) < lim.total
    requires t.m == s.series && forall p :: p in st.policies ==> SeesAll(lim, s, p, t.now)
    ensures WellFormedState(st) && Reconcile(spec, dryRun, st, t.(m := s.history)) == Reconcile(spec, dryRun, st, t)
  {
    hide Invariant, NothingUnscoped, SeesAll, Opinion;
    forall p | p in st.policies
      ensures WellFormed(p) && Opinion(p, s.history, t.now, t.current) == Opinion(p, s.series, t.now, t.current)
    {
      OpinionExact(lim, s, p, t.now, t.current);
    }
    SameOpinions(st.policies, s.history, s.series, t.now, t.current);
    SameWanted(spec, dryRun, st, t, s.history);
  }

  // ------------------------------------------------------------ whole runs

  lemma SysStepEmptiesNone(lim: Limits, specs: map<string, ServiceSpec>, dryRun: bool, x: Sys, l: Label, x': Sys)
    requires lim.Positive() && SysStep(lim, specs, dryRun, x, l, x')
    requires Invariant(lim, x.store) && NoneEmptied(x.store) && Total(x.store.series) < lim.total
    ensures NoneEmptied(x'.store)
  {
    hide Invariant, NoneEmptied, AddStep, SnapshotStep, Reconcile, Total;
    match l
    case Ingest(now, key, value, observedAt) =>
      StepEmptiesNone(lim, x.store, Arrive(now, key, value, observedAt), x'.store);
    case Reconciled(_, _, snapshotNow, _, _, _, _) =>
      StepEmptiesNone(lim, x.store, View(snapshotNow), x'.store);
  }

  lemma NoneEmptiedAtFirst(s: State)
    requires Initial(s)
    ensures NoneEmptied(s)
  {
  }

  /** As long as the global limit is never reached, no series is ever emptied. */
  lemma {:induction false} NeverEmptied(lim: Limits, specs: map<string, ServiceSpec>, dryRun: bool, xs: seq<Sys>,
                                        labels: seq<Label>, i: nat)
    requires lim.Positive() && SysRun(lim, specs, dryRun, xs, labels) && i < |xs|
    requires forall j :: 0 <= j < i ==> Total(xs[j].store.series) < lim.total
    ensures NoneEmptied(xs[i].store)
  {
    hide *;
    StartsEmpty(lim, specs, dryRun, xs, labels);
    if i == 0 {
      NoneEmptiedAtFirst(xs[0].store);
    } else {
      NeverEmptied(lim, specs, dryRun, xs, labels, i - 1);
      StoreInvariantHolds(lim, specs, dryRun, xs, labels, i - 1);
      StepAt(lim, specs, dryRun, xs, labels, i - 1);
      SysStepEmptiesNone(lim, specs, dryRun, xs[i - 1], labels[i - 1], xs[i]);
    }
  }

  /** So in every run in which neither cap is reached, every reconciliation of a
      service is exactly the one on the whole accepted history. */
  lemma RunExact(lim: Limits, specs: map<string, ServiceSpec>, dryRun: bool, xs: seq<Sys>, labels: seq<Label>, i: nat)
    requires lim.Positive() && SysRun(lim, specs, dryRun, xs, labels) && ScopedIngest(labels) && i < |labels|
    requires labels[i].Reconciled? && ReconcileStep(lim, specs, dryRun, xs[i], labels[i], xs[i + 1])
    requires forall j :: 0 <= j <= i + 1 ==> Total(xs[j].store.series) < lim.total
    requires forall p :: p in xs[i].services[labels[i].name].policies && p.WindowState? ==>
               SeesAll(lim, xs[i + 1].store, p, labels[i].start)
    ensures var st := xs[i].services[labels[i].name];
            OnHistory(specs, dryRun, xs[i], labels[i], xs[i + 1]) ==
            Reconcile(specs[labels[i].name], dryRun, st, TickOf(labels[i], xs[i + 1]))
  {
    StoreInvariantHolds(lim, specs, dryRun, xs, labels, i + 1);
    ScopedSystemHistory(lim, specs, dryRun, xs, labels, i + 1);
    NeverEmptied(lim, specs, dryRun, xs, labels, i + 1);
    hide SysRun, Invariant, NothingUnscoped, NoneEmptied, Reconcile, SnapshotStep, Covered;
    var st, t := xs[i].services[labels[i].name], TickOf(labels[i], xs[i + 1]);
    ReconcileExact(lim, xs[i + 1].store, specs[labels[i].name], dryRun, st, t);
  }
}
