/** Decisions on the bounded store against the decisions the whole accepted history
    would have led to: of one window policy, and of all policies of a service. */
module BoundedDecisions {
  import opened Samples
  import opened StoreModel
  import opened StoreRuns
  import opened Buckets
  import opened Eviction
  import opened Retention
  import opened WindowPolicies
  import opened Decisions
  import C = Config

  // ------------------------------------------------------------- one policy

  /** The bounded store decides as the whole history would, or holds. */
  ghost predicate DecidesSafelyIn(s: State, c: WindowConfig, now: int, cutoff: int, current: int)
    requires c.bucketDuration != 0
  {
    DecidesSafely(c, Visible(s.series, c.Key()), Visible(s.history, c.Key()), now, cutoff, current)
  }

  lemma StateDecidesSafely(lim: Limits, s: State, c: WindowConfig, now: int, cutoff: int, current: int)
    requires Invariant(lim, s) && !Shadowed(s, c.Key()) && c.bucketDuration != 0 && !Inverted(c)
    ensures DecidesSafelyIn(s, c, now, cutoff, current)
  {
    hide Invariant, Inverted, DecidesSafely;
    VisibleSuffix(lim, s, c.Key());
    OrderedDecidesSafely(c, Visible(s.series, c.Key()), Visible(s.history, c.Key()), now, cutoff, current);
  }

  /** In every state of every run of named services, a policy whose thresholds are not
      inverted decides as on the whole history, or holds. */
  lemma RunDecidesSafely(lim: Limits, states: seq<State>, ops: seq<Op>, i: nat,
                         c: WindowConfig, now: int, cutoff: int, current: int)
    requires lim.Positive() && Run(lim, states, ops) && Scoped(ops) && i < |states|
    requires c.bucketDuration != 0 && !Inverted(c)
    ensures DecidesSafelyIn(states[i], c, now, cutoff, current)
  {
    RunKeepsInvariant(lim, states, ops, i);
    ScopedNeverShadowed(lim, states, ops, i);
    StateDecidesSafely(lim, states[i], c, now, cutoff, current);
  }

  lemma SameBreach(c: WindowConfig, d: Direction, t: Threshold, v: seq<Sample>, h: seq<Sample>, now: int, cutoff: int)
    requires c.bucketDuration != 0
    requires var bounded, full := Query(v, now, c.bucketDuration, c.Required(t), cutoff),
                                  Query(h, now, c.bucketDuration, c.Required(t), cutoff);
             bounded == full || (bounded.status != Complete && full.status != Complete)
    ensures Breach(c, d, t, v, now, cutoff) <==> Breach(c, d, t, h, now, cutoff)
  {
    hide Query;
  }

  /** What a direction needs of the store to see exactly the whole history. */
  ghost predicate Covered(lim: Limits, c: WindowConfig, t: Option<Threshold>)
    requires c.bucketDuration != 0
  {
    t.Some? && c.Required(t.value) > 0 ==>
      lim.retention >= c.Required(t.value) * c.bucketDuration + 2 * c.bucketDuration
  }

  lemma ExactBreach(lim: Limits, s: State, c: WindowConfig, d: Direction, t: Threshold, now: int, cutoff: int)
    requires lim.Positive() && Invariant(lim, s) && c.bucketDuration > 0 && Covered(lim, c, Some(t))
    requires |At(s.series, c.Key())| < lim.perSeries && Total(s.series) < lim.total
    requires now <= s.clock <= now + c.bucketDuration
    ensures Breach(c, d, t, At(s.series, c.Key()), now, cutoff) <==> Breach(c, d, t, At(s.history, c.Key()), now, cutoff)
  {
    hide Invariant, Breach;
    RetentionRefinesHistory(lim, s, c.Key(), now, c.bucketDuration, c.Required(t), cutoff);
    SameBreach(c, d, t, At(s.series, c.Key()), At(s.history, c.Key()), now, cutoff);
  }

  /** With retention for its windows, no limit reached and no unscoped series, a
      window policy decides exactly as on the whole history. */
  lemma DecisionExact(lim: Limits, s: State, c: WindowConfig, now: int, cutoff: int, current: int)
    requires lim.Positive() && Invariant(lim, s) && c.bucketDuration > 0
    requires |At(s.series, c.Key())| < lim.perSeries && Total(s.series) < lim.total
    requires c.service != "" && At(s.history, MetricKey("", c.metric)) == []
    requires now <= s.clock <= now + c.bucketDuration
    requires Covered(lim, c, c.upscale) && Covered(lim, c, c.downscale)
    ensures Decision(c, Visible(s.series, c.Key()), now, cutoff, current) ==
            Decision(c, Visible(s.history, c.Key()), now, cutoff, current)
  {
    hide Invariant, Breach, Visible;
    OwnSeriesOnly(lim, s, c.Key());
    if c.upscale.Some? { ExactBreach(lim, s, c, Upscale, c.upscale.value, now, cutoff); }
    if c.downscale.Some? { ExactBreach(lim, s, c, Downscale, c.downscale.value, now, cutoff); }
  }

  lemma ConfiguredCovered(services: seq<C.ServiceConfig>, i: nat, j: nat, lim: Limits)
    requires C.ValidConfig(services) && i < |services| && j < |services[i].policies|
    requires services[i].policies[j].kind == "window"
    requires forall i, j, d, duration :: C.Needs(services, i, j, d, duration) ==> duration <= lim.retention
    ensures services[i].policies[j].bucketDuration.Some? && services[i].name != ""
    ensures var c := C.BuildWindow(services[i].name, services[i].policies[j]);
            c.bucketDuration > 0 && Covered(lim, c, c.upscale) && Covered(lim, c, c.downscale)
  {
    assert C.ValidHeader(services, i) && C.ValidPolicies(services[i], |services[i].policies|);
    var p := services[i].policies[j];
    assert C.ValidPolicy(p, services[i].metrics);
    if p.upscale.Some? { C.ValidatedWindows(services, i, j, Upscale, lim.retention); }
    if p.downscale.Some? { C.ValidatedWindows(services, i, j, Downscale, lim.retention); }
  }

  /** So it is for every window policy of a validated configuration, in every state of
      every run of a store that got the retention derived from it, as long as neither
      cap is reached there. */
  lemma ConfiguredDecisionExact(services: seq<C.ServiceConfig>, i: nat, j: nat,
                                lim: Limits, states: seq<State>, ops: seq<Op>, k: nat, now: int, cutoff: int, current: int)
    requires C.ValidConfig(services) && i < |services| && j < |services[i].policies|
    requires services[i].policies[j].kind == "window"
    requires forall i, j, d, duration :: C.Needs(services, i, j, d, duration) ==> duration <= lim.retention
    requires lim.Positive() && Run(lim, states, ops) && Scoped(ops) && k < |states|
    requires |At(states[k].series, MetricKey(services[i].name, services[i].policies[j].metric))| < lim.perSeries
    requires Total(states[k].series) < lim.total
    requires services[i].policies[j].bucketDuration.Some? ==>
               now <= states[k].clock <= now + services[i].policies[j].bucketDuration.value
    ensures services[i].policies[j].bucketDuration.Some?
    ensures var c := C.BuildWindow(services[i].name, services[i].policies[j]);
      && c.bucketDuration > 0
      && Decision(c, Visible(states[k].series, c.Key()), now, cutoff, current) ==
         Decision(c, Visible(states[k].history, c.Key()), now, cutoff, current)
  {
    ConfiguredCovered(services, i, j, lim);
    RunKeepsInvariant(lim, states, ops, k);
    ScopedHistory(lim, states, ops, k);
    DecisionExact(lim, states[k], C.BuildWindow(services[i].name, services[i].policies[j]), now, cutoff, current);
  }

  /** A policy on a metric that never arrives, for its service or for none, never asks
      for a change. */
  lemma UnboundNeverActs(lim: Limits, states: seq<State>, ops: seq<Op>, keys: iset<MetricKey>, i: nat, c: WindowConfig,
                         now: int, cutoff: int, current: int)
    requires lim.Positive() && Run(lim, states, ops) && ArriveIn(ops, keys) && i < |states| && c.bucketDuration != 0
    requires c.Key() !in keys && Unscoped(c.Key()) !in keys
    ensures Decision(c, Visible(states[i].series, c.Key()), now, cutoff, current) ==
            if c.downscale.Some? then Some(current) else None
  {
    NeverArrived(lim, states, ops, i, keys, c.Key());
    NeverArrived(lim, states, ops, i, keys, Unscoped(c.Key()));
    RunKeepsInvariant(lim, states, ops, i);
    OwnSeriesOnly(lim, states[i], c.Key());
    assert IsSuffix(At(states[i].series, c.Key()), At(states[i].history, c.Key()));
    hide Invariant, Run;
  }

  // ------------------------------------------------- all policies: for more

  ghost predicate PositiveStepsOf(p: PolicyState) {
    p.WindowState? ==>
      && (p.config.upscale.Some? ==> p.config.upscale.value.step > 0)
      && (p.config.downscale.Some? ==> p.config.downscale.value.step > 0)
  }

  lemma {:induction false} SameLatestValues(lim: Limits, s: State, service: string, names: seq<string>)
    requires Invariant(lim, s) && NoShadowing(s)
    requires LatestValues(s.series, service, names).Some?
    ensures LatestValues(s.history, service, names) == LatestValues(s.series, service, names)
  {
    if names != [] {
      hide Invariant;
      var key := MetricKey(service, names[|names| - 1]);
      SameLatestValues(lim, s, service, names[..|names| - 1]);
      VisibleSuffix(lim, s, key);
      LastOfSuffix(Visible(s.series, key), Visible(s.history, key));
    }
  }

  lemma LastOfSuffix(v: seq<Sample>, full: seq<Sample>)
    requires v != [] && IsSuffix(v, full)
    ensures full != [] && v[|v| - 1] == full[|full| - 1]
  {
  }

  /** An opinion for more on the bounded store is the opinion the whole history
      gives, for window and target policies alike. */
  lemma UpscaleOpinionKept(lim: Limits, s: State, p: PolicyState, now: int, current: int)
    requires Invariant(lim, s) && NoShadowing(s) && WellFormed(p) && PositiveStepsOf(p)
    requires Opinion(p, s.series, now, current).Some? && Opinion(p, s.series, now, current).value > current
    ensures Opinion(p, s.history, now, current) == Opinion(p, s.series, now, current)
  {
    hide Invariant, Breach;
    match p
    case WindowState(c, cutoff) =>
      VisibleSuffix(lim, s, c.Key());
      UpscaleOnSuffix(c, Visible(s.series, c.Key()), Visible(s.history, c.Key()), now, cutoff, current);
    case TargetState(t) =>
      SameLatestValues(lim, s, t.service, t.metricNames);
  }

  /** Eviction never inflates an upscale: what the bounded store wants beyond the
      present count, the whole history wants at least as much. */
  lemma UpscaleNeverInflated(lim: Limits, s: State, ps: seq<PolicyState>, now: int, current: int)
    requires Invariant(lim, s) && NoShadowing(s) && current >= 0
    requires forall p :: p in ps ==> WellFormed(p) && PositiveStepsOf(p)
    requires Opinions(ps, s.series, now, current) != []
    requires Combined(Opinions(ps, s.series, now, current)) > current
    ensures Opinions(ps, s.history, now, current) != []
    ensures Combined(Opinions(ps, s.history, now, current)) >= Combined(Opinions(ps, s.series, now, current))
  {
    hide Invariant, NoShadowing, Opinion;
    var most := MaxOf(Opinions(ps, s.series, now, current));
    OpinionsMeaning(ps, s.series, now, current);
    OpinionsMeaning(ps, s.history, now, current);
    var p :| p in ps && Opinion(p, s.series, now, current) == Some(most);
    UpscaleOpinionKept(lim, s, p, now, current);
    assert most in Opinions(ps, s.history, now, current);
  }

  // ------------------------------------------------ all policies: for fewer

  predicate UpscaleOnly(c: WindowConfig) { c.upscale.Some? && c.downscale == None }

  /** The policy can be trusted with a downscale: a window policy that can object to
      one holds where it lacks data, and a target policy lacks none. */
  ghost predicate Guarded(p: PolicyState, m: Store)
    requires WellFormed(p)
  {
    match p
    case WindowState(c, _) => !UpscaleOnly(c) && !Inverted(c)
    case TargetState(t) => LatestValues(m, t.service, t.metricNames).Some?
  }

  lemma LowerOpinionExact(lim: Limits, s: State, p: PolicyState, now: int, current: int)
    requires Invariant(lim, s) && NoShadowing(s) && WellFormed(p) && Guarded(p, s.series)
    requires Opinion(p, s.series, now, current).Some? ==> Opinion(p, s.series, now, current).value < current
    ensures Opinion(p, s.history, now, current) == Opinion(p, s.series, now, current)
  {
    hide Invariant, Breach;
    match p
    case WindowState(c, cutoff) =>
      StateDecidesSafely(lim, s, c, now, cutoff, current);
    case TargetState(t) =>
      SameLatestValues(lim, s, t.service, t.metricNames);
  }

  lemma {:induction false} SameOpinions(ps: seq<PolicyState>, m: Store, m': Store, now: int, current: int)
    requires forall p :: p in ps ==> WellFormed(p) && Opinion(p, m, now, current) == Opinion(p, m', now, current)
    ensures Opinions(ps, m, now, current) == Opinions(ps, m', now, current)
  {
    hide Opinion;
    if ps != [] { SameOpinions(ps[..|ps| - 1], m, m', now, current); }
  }

  /** What the policies want on the bounded store, if it is fewer, they want on the
      whole history. */
  ghost predicate LowersAsOnHistory(s: State, ps: seq<PolicyState>, now: int, current: int)
    requires forall p :: p in ps ==> WellFormed(p)
  {
    var bounded, full := Opinions(ps, s.series, now, current), Opinions(ps, s.history, now, current);
    bounded != [] && Combined(bounded) < current ==> full != [] && Combined(full) == Combined(bounded)
  }

  /** A downscale of a service is never an effect of eviction, if no policy has an
      upscale direction without a downscale direction, none is inverted, and no metric
      of a target policy is missing. Then all opinions are those of the history. */
  lemma DownscaleFailsClosed(lim: Limits, s: State, ps: seq<PolicyState>, now: int, current: int)
    requires Invariant(lim, s) && NoShadowing(s) && current >= 0
    requires forall p :: p in ps ==> WellFormed(p) && Guarded(p, s.series)
    ensures LowersAsOnHistory(s, ps, now, current)
    ensures var bounded := Opinions(ps, s.series, now, current);
            bounded != [] && Combined(bounded) < current ==> Opinions(ps, s.history, now, current) == bounded
  {
    hide Invariant, NoShadowing, Opinion, Guarded;
    var bounded := Opinions(ps, s.series, now, current);
    if bounded != [] && Combined(bounded) < current {
      OpinionsMeaning(ps, s.series, now, current);
      forall p | p in ps ensures Opinion(p, s.series, now, current) == Opinion(p, s.history, now, current) {
        LowerOpinionExact(lim, s, p, now, current);
      }
      SameOpinions(ps, s.series, s.history, now, current);
    }
  }
}
