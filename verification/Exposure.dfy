/** Exactly which configurations eviction can mislead. For every other configuration
    scaling down fails closed; for these a run is given that ends in a store on which
    the policies lower a count that they would raise on the whole accepted history. */
module Exposure {
  import opened Arithmetic
  import opened Samples
  import opened StoreModel
  import opened StoreRuns
  import opened Buckets
  import opened Eviction
  import opened Feeds
  import opened WindowPolicies
  import opened Decisions
  import opened BoundedDecisions
  import opened Stories
  import opened Shapes
  import opened Stages

  // ------------------------------------------------ every other configuration

  /** An opinion for fewer rests on samples of every metric the policy reads. */
  lemma LowersWithSamples(m: Store, service: string, p: Shape, cutoff: int, e: Expression, now: int, current: int,
                          n: string)
    requires ConfiguredShape(service, p) && Reads(p, n) && (p.WindowShape? ==> p.config.downscale.Some?)
    requires Opinion(StateFor(service, p, cutoff, e), m, now, current).Some?
    requires Opinion(StateFor(service, p, cutoff, e), m, now, current).value < current
    ensures LatestOf(m, MetricKey(service, n)).Some?
  {
    match p
    case WindowShape(c) =>
    case TargetShape(names) => AllValuesPresent(m, service, names);
  }

  /** Where the service wants fewer, a configuration that is not exposed has data for
      every target policy. */
  lemma TargetHasData(m: Store, service: string, ps: seq<Shape>, cutoffs: seq<int>, es: seq<Expression>, now: int,
                      current: int, l: nat, n: string)
    requires ConfiguredService(service, ps) && |cutoffs| == |ps| == |es| && !Exposed(ps) && l < |ps| && CanLower(ps[l])
    requires Opinion(StateFor(service, ps[l], cutoffs[l], es[l]), m, now, current).Some?
    requires forall i :: 0 <= i < |ps| && Opinion(StateFor(service, ps[i], cutoffs[i], es[i]), m, now, current).Some? ==>
               Opinion(StateFor(service, ps[i], cutoffs[i], es[i]), m, now, current).value < current
    requires exists t :: 0 <= t < |ps| && ps[t].TargetShape? && Reads(ps[t], n)
    ensures LatestOf(m, MetricKey(service, n)).Some?
  {
    assert !LowersUnchecked(ps, l) && !Silences(ps, l, n);
    if Reads(ps[l], n) {
      LowersWithSamples(m, service, ps[l], cutoffs[l], es[l], now, current, n);
    } else {
      var i :| 0 <= i < |ps| && HoldsWithout(ps[i], n);
      NeverAbstains(m, service, ps[i], cutoffs[i], es[i], now, current);
      LowersWithSamples(m, service, ps[i], cutoffs[i], es[i], now, current, n);
    }
  }

  lemma NeverAbstains(m: Store, service: string, p: Shape, cutoff: int, e: Expression, now: int, current: int)
    requires ConfiguredShape(service, p) && p.WindowShape? && p.config.downscale.Some?
    ensures Opinion(StateFor(service, p, cutoff, e), m, now, current).Some?
  {
    hide Breach, Visible;
  }

  /** Only a policy that can lower the count wants fewer. */
  lemma LowererCanLower(m: Store, service: string, p: Shape, cutoff: int, e: Expression, now: int, current: int)
    requires ConfiguredShape(service, p) && Opinion(StateFor(service, p, cutoff, e), m, now, current).Some?
    requires Opinion(StateFor(service, p, cutoff, e), m, now, current).value < current
    ensures CanLower(p)
  {
    hide Breach, Visible;
  }

  lemma GuardedIfUnexposed(m: Store, service: string, ps: seq<Shape>, cutoffs: seq<int>, es: seq<Expression>, now: int,
                           current: int, l: nat)
    requires ConfiguredService(service, ps) && |cutoffs| == |ps| == |es| && !Exposed(ps) && l < |ps| && CanLower(ps[l])
    requires Opinion(StateFor(service, ps[l], cutoffs[l], es[l]), m, now, current).Some?
    requires forall i :: 0 <= i < |ps| && Opinion(StateFor(service, ps[i], cutoffs[i], es[i]), m, now, current).Some? ==>
               Opinion(StateFor(service, ps[i], cutoffs[i], es[i]), m, now, current).value < current
    ensures forall i :: 0 <= i < |ps| ==> Guarded(StateFor(service, ps[i], cutoffs[i], es[i]), m)
  {
    assert !LowersUnchecked(ps, l);
    hide Opinion, Exposed, LatestOf;
    forall i | 0 <= i < |ps| ensures Guarded(StateFor(service, ps[i], cutoffs[i], es[i]), m) {
      match ps[i]
      case WindowShape(c) =>
        assert ConfiguredShape(service, ps[i]) && !AnyMisled(ps);
      case TargetShape(names) =>
        forall n | n in names ensures LatestOf(m, MetricKey(service, n)).Some? {
          assert Reads(ps[i], n);
          TargetHasData(m, service, ps, cutoffs, es, now, current, l, n);
        }
        AllValuesPresent(m, service, names);
    }
  }

  /** A configuration that is not exposed fails closed: wherever the service wants fewer
      on the bounded store, it wants the same on the whole history. */
  lemma UnexposedFailsClosed(lim: Limits, s: State, service: string, ps: seq<Shape>, cutoffs: seq<int>,
                             es: seq<Expression>, now: int, current: int)
    requires ConfiguredService(service, ps) && |cutoffs| == |ps| == |es| && !Exposed(ps)
    requires Invariant(lim, s) && NoShadowing(s) && current >= 0
    ensures LowersAsOnHistory(s, PoliciesOf(service, ps, cutoffs, es), now, current)
  {
    var states := PoliciesOf(service, ps, cutoffs, es);
    hide Invariant, NoShadowing, Opinion, Exposed, Guarded;
    var bounded := Opinions(states, s.series, now, current);
    if bounded != [] && Combined(bounded) < current {
      OpinionsMeaning(states, s.series, now, current);
      assert MaxOf(bounded) in bounded;
      var p :| p in states && Opinion(p, s.series, now, current) == Some(MaxOf(bounded));
      var l: nat :| l < |states| && states[l] == p;
      LowererCanLower(s.series, service, ps[l], cutoffs[l], es[l], now, current);
      forall i | 0 <= i < |ps| && Opinion(StateFor(service, ps[i], cutoffs[i], es[i]), s.series, now, current).Some?
        ensures Opinion(StateFor(service, ps[i], cutoffs[i], es[i]), s.series, now, current).value < current
      {
        assert states[i] in states;
      }
      GuardedIfUnexposed(s.series, service, ps, cutoffs, es, now, current, l);
      DownscaleFailsClosed(lim, s, states, now, current);
    }
  }

  // ------------------------------------------------- exposed configurations

  /** Every exposed configuration is misled in some run: with some expressions for its
      target policies, eviction turns an upscale of the service into a downscale. */
  lemma EvictionTurnsUpscaleDown(service: string, ps: seq<Shape>, current: int)
    returns (lim: Limits, states: seq<State>, ops: seq<Op>, es: seq<Expression>, now: int)
    requires ConfiguredService(service, ps) && OwnMetrics(ps) && Exposed(ps) && current > 0
    ensures lim.Positive() && Run(lim, states, ops) && Scoped(ops) && 0 < now <= states[|ops|].clock && |es| == |ps|
    ensures RaisedByHistory(states[|ops|], PoliciesOf(service, ps, Zeros(|ps|), es), now, current)
  {
    var l: nat :| l < |ps| && LowersUnchecked(ps, l);
    hide RaisedByHistory, Tells, Run, Scoped, Stage, Invariant, NothingUnscoped, OwnMetrics;
    if AnyMisled(ps) {
      lim, states, ops, es, now := SilencedByLimit(service, ps, l, current);
    } else {
      var lost :| Silences(ps, l, lost);
      lim, states, ops, es, now := SilencedByLoss(service, ps, l, lost, current);
    }
  }

  lemma SilencedByLimit(service: string, ps: seq<Shape>, l: nat, current: int)
    returns (lim: Limits, states: seq<State>, ops: seq<Op>, es: seq<Expression>, now: int)
    requires ConfiguredService(service, ps) && OwnMetrics(ps) && current > 0 && l < |ps| && CanLower(ps[l]) && AnyMisled(ps)
    ensures lim.Positive() && Run(lim, states, ops) && Scoped(ops) && 0 < now <= states[|ops|].clock && |es| == |ps|
    ensures RaisedByHistory(states[|ops|], PoliciesOf(service, ps, Zeros(|ps|), es), now, current)
  {
    var e: nat :| e < |ps| && ps[e].WindowShape? && Configured(ps[e].config) && Misled(ps[e].config);
    hide Tells, Stage, Invariant, NothingUnscoped, OwnMetrics, Configured, Misled, RaisedByHistory;
    var limit;
    lim, states, ops, now, limit := Tell(service, ps, Some(e));
    RunKeepsInvariant(lim, states, ops, |ops|);
    ScopedHistory(lim, states, ops, |ops|);
    es := ExpressionsFor(ps, None);
    ServiceByStory(lim, states[|ops|], service, ps, Some(e), now, limit, None, l, e, current);
  }

  lemma SilencedByLoss(service: string, ps: seq<Shape>, l: nat, lost: string, current: int)
    returns (lim: Limits, states: seq<State>, ops: seq<Op>, es: seq<Expression>, now: int)
    requires ConfiguredService(service, ps) && OwnMetrics(ps) && current > 0 && l < |ps| && CanLower(ps[l])
    requires Silences(ps, l, lost)
    ensures lim.Positive() && Run(lim, states, ops) && Scoped(ops) && 0 < now <= states[|ops|].clock && |es| == |ps|
    ensures RaisedByHistory(states[|ops|], PoliciesOf(service, ps, Zeros(|ps|), es), now, current)
  {
    var t: nat :| t < |ps| && ps[t].TargetShape? && Reads(ps[t], lost);
    assert ConfiguredShape(service, ps[t]);
    hide Tells, Stage, Invariant, NothingUnscoped, OwnMetrics, RaisedByHistory;
    var limit;
    lim, states, ops, now, limit := TellWithout(service, ps, lost);
    RunKeepsInvariant(lim, states, ops, |ops|);
    ScopedHistory(lim, states, ops, |ops|);
    es := ExpressionsFor(ps, Some(lost));
    ServiceByStory(lim, states[|ops|], service, ps, None, now, limit, Some(lost), l, t, current);
  }

  // ------------------------------------------------------------- exactly when

  ghost predicate LowersAsOnHistoryIn(lim: Limits, states: seq<State>, ops: seq<Op>, service: string, ps: seq<Shape>,
                                      cutoffs: seq<int>, es: seq<Expression>, now: int, current: int)
    requires ConfiguredService(service, ps)
  {
    lim.Positive() && Run(lim, states, ops) && Scoped(ops) && |cutoffs| == |ps| == |es| &&
    0 < now <= states[|ops|].clock && current >= 0 ==>
      LowersAsOnHistory(states[|ops|], PoliciesOf(service, ps, cutoffs, es), now, current)
  }

  /** In no run, at no time, after no scale events and with no expressions does eviction
      make the service want fewer than on the whole history, where it wants fewer at all. */
  ghost predicate AlwaysLowersAsOnHistory(service: string, ps: seq<Shape>)
    requires ConfiguredService(service, ps)
  {
    forall lim, states, ops, cutoffs, es, now, current ::
      LowersAsOnHistoryIn(lim, states, ops, service, ps, cutoffs, es, now, current)
  }

  lemma UnexposedLowers(lim: Limits, states: seq<State>, ops: seq<Op>, service: string, ps: seq<Shape>,
                        cutoffs: seq<int>, es: seq<Expression>, now: int, current: int)
    requires ConfiguredService(service, ps) && !Exposed(ps)
    ensures LowersAsOnHistoryIn(lim, states, ops, service, ps, cutoffs, es, now, current)
  {
    if lim.Positive() && Run(lim, states, ops) && Scoped(ops) && |cutoffs| == |ps| == |es| && current >= 0 {
      RunKeepsInvariant(lim, states, ops, |ops|);
      ScopedNeverShadowed(lim, states, ops, |ops|);
      hide Run, Scoped, Invariant, NoShadowing, LowersAsOnHistory, Exposed;
      UnexposedFailsClosed(lim, states[|ops|], service, ps, cutoffs, es, now, current);
    }
  }

  lemma RaisedIsNotLowered(s: State, states: seq<PolicyState>, now: int, current: int)
    requires (forall p :: p in states ==> WellFormed(p)) && RaisedByHistory(s, states, now, current)
    ensures !LowersAsOnHistory(s, states, now, current)
  {
    hide Opinions;
  }

  /** Exactly when a service's downscales fail closed under eviction, its window
      policies being on metrics of their own and its target policies any. */
  lemma DownscaleFailsClosedIff(service: string, ps: seq<Shape>)
    requires ConfiguredService(service, ps) && OwnMetrics(ps)
    ensures AlwaysLowersAsOnHistory(service, ps) <==> !Exposed(ps)
  {
    hide Exposed, Scoped, ConfiguredService, OwnMetrics, RaisedByHistory, LowersAsOnHistory;
    if Exposed(ps) {
      var lim, states, ops, es, now := EvictionTurnsUpscaleDown(service, ps, 1);
      RaisedIsNotLowered(states[|ops|], PoliciesOf(service, ps, Zeros(|ps|), es), now, 1);
      assert !LowersAsOnHistoryIn(lim, states, ops, service, ps, Zeros(|ps|), es, now, 1);
    } else {
      forall lim, states, ops, cutoffs, es, now, current
        ensures LowersAsOnHistoryIn(lim, states, ops, service, ps, cutoffs, es, now, current)
      {
        UnexposedLowers(lim, states, ops, service, ps, cutoffs, es, now, current);
      }
    }
  }

  // ----------------------------------------------------- the smallest witnesses

  const RAISES := WindowConfig("api", "queue", 10 * SECOND, Some(Threshold(100.0, 30 * SECOND, 2)), None)
  const LOWERS := WindowConfig("api", "cpu", 10 * SECOND, None, Some(Threshold(20.0, 60 * SECOND, 1)))

  /** Of two policies, neither inverted, one can only raise the count and loses its
      data, the other can only lower it and does. */
  lemma SilentUpscale(current: int)
    returns (lim: Limits, states: seq<State>, ops: seq<Op>, es: seq<Expression>, now: int)
    requires current > 0
    ensures !Inverted(RAISES) && !Inverted(LOWERS)
    ensures lim.Positive() && Run(lim, states, ops) && Scoped(ops) && 0 < now <= states[|ops|].clock && |es| == 2
    ensures RaisedByHistory(states[|ops|], PoliciesOf("api", [WindowShape(RAISES), WindowShape(LOWERS)], Zeros(2), es),
                            now, current)
  {
    var ps := [WindowShape(RAISES), WindowShape(LOWERS)];
    assert Configured(RAISES) && Misled(RAISES) && ps[0] == WindowShape(RAISES);
    assert CanLower(ps[1]) && AnyMisled(ps) && LowersUnchecked(ps, 1);
    lim, states, ops, es, now := EvictionTurnsUpscaleDown("api", ps, current);
  }

  const GUARDED := WindowConfig("api", "cpu", 1, Some(Threshold(50.0, 1, 2)), Some(Threshold(25.0, 1, 1)))
  const BACKLOG :=
    TargetSpec("api", ["queue"], (current, values) => if "queue" in values then Some(values["queue"]) else None)

  lemma OneTickBreach(c: WindowConfig, d: Direction, t: Threshold, x: Sample)
    requires c.bucketDuration == 1 && c.Required(t) == 1
    ensures Breach(c, d, t, [x], x.observedAt + 1, 0) <==> Beyond(d, x.value, t.threshold)
  {
    var values := [x];
    TickQuery(values, x.observedAt);
    assert values[0] in values;
    hide Query;
    var a := Query(values, x.observedAt + 1, 1, 1, 0);
    assert a.status == Complete && |a.buckets| == 1 && a.buckets[0].sample == x;
  }

  lemma LowersInOneTick(x: Sample, current: int)
    requires x == Sample(10.0, 2)
    ensures Decision(GUARDED, [x], 3, 0, current) == Some(current - 1)
  {
    OneTickBreach(GUARDED, Upscale, GUARDED.upscale.value, x);
    OneTickBreach(GUARDED, Downscale, GUARDED.downscale.value, x);
    hide Breach;
  }

  const SCALERS := [WindowState(GUARDED, 0), TargetState(BACKLOG)]

  lemma OneValue(m: Store, service: string, name: string)
    ensures LatestValues(m, service, [name]) ==
            match LatestOf(m, MetricKey(service, name)) case None => None case Some(x) => Some(map[name := x.value])
  {
    assert [name][..0] == [];
    hide LatestOf;
  }

  lemma BacklogDecision(m: Store, current: int)
    ensures TargetDecision(BACKLOG, m, current) ==
            match LatestOf(m, MetricKey("api", "queue")) case None => None case Some(x) => Some(Larger(0, Ceil(x.value)))
  {
    OneValue(m, "api", "queue");
    hide LatestOf, LatestValues, Ceil;
  }

  lemma BacklogSilenced(s: State)
    requires Visible(s.series, GUARDED.Key()) == Visible(s.history, GUARDED.Key()) == [Sample(10.0, 2)]
    requires Visible(s.history, MetricKey("api", "queue")) == [Sample(100.0, 1)]
    requires Visible(s.series, MetricKey("api", "queue")) == []
    ensures RaisedByHistory(s, SCALERS, 3, 10)
  {
    LowersInOneTick(Sample(10.0, 2), 10);
    BacklogDecision(s.series, 10);
    BacklogDecision(s.history, 10);
    hide Decision, TargetDecision, Opinions, Visible, RaisedByHistory;
    RaisedThough(s, SCALERS, SCALERS[0], SCALERS[1], 3, 10);
  }

  /** A window policy that holds without data, beside a target policy whose only sample
      is evicted: the target policy, which would ask for 100, is passed over, and the
      window policy lowers the count. */
  lemma TargetSilenced() returns (states: seq<State>, ops: seq<Op>)
    ensures Run(TINY, states, ops) && Scoped(ops) && states[|ops|].clock == 3
    ensures RaisedByHistory(states[|ops|], SCALERS, 3, 10)
  {
    var queue, cpu, x, y := MetricKey("api", "queue"), GUARDED.Key(), Sample(100.0, 1), Sample(10.0, 2);
    states, ops := ArrivedAndSeen(queue, cpu, x, y);
    hide RaisedByHistory, Run, Scoped;
    BacklogSilenced(states[|ops|]);
  }

  lemma ArrivedAndSeen(a: MetricKey, b: MetricKey, x: Sample, y: Sample) returns (states: seq<State>, ops: seq<Op>)
    requires a != b && a.name != "" && b.name != "" && x.observedAt == 1 && y.observedAt == 2
    requires a.service != "" && b.service != ""
    ensures Run(TINY, states, ops) && Scoped(ops)
    ensures states[|ops|] == State(map[b := [y]], map[a := [x], b := [y]], 3)
  {
    states, ops := TwoArrivals(a, b, x, y);
    var s := State(map[b := [y]], map[a := [x], b := [y]], 3);
    SeenAlone(b, y, s.history);
    hide Run, Step;
    RunAndStep(TINY, states, ops, View(3), s);
    states, ops := states + [s], ops + [View(3)];
  }

  /** A snapshot leaves a store of one unexpired sample as it is. */
  lemma SeenAlone(key: MetricKey, x: Sample, history: Store)
    requires x.observedAt == 2
    ensures Step(TINY, State(map[key := [x]], history, 2), View(3), State(map[key := [x]], history, 3))
  {
    var m := map[key := [x]];
    assert CapAll(PruneAll(m, Cutoff(TINY, 3)), 5) == m;
    OneSample(m, key, x);
    NoneEvicted(m, 1);
  }

  // ---------------------------------------------------------- a single policy

  ghost predicate DecidesSafelyOn(lim: Limits, states: seq<State>, ops: seq<Op>, c: WindowConfig, now: int, cutoff: int,
                                  current: int)
    requires c.bucketDuration != 0
  {
    lim.Positive() && Run(lim, states, ops) && Scoped(ops) && 0 < now <= states[|ops|].clock ==>
      DecidesSafelyIn(states[|ops|], c, now, cutoff, current)
  }

  ghost predicate AlwaysSafe(c: WindowConfig)
    requires c.bucketDuration != 0
  {
    forall lim, states, ops, now, cutoff, current :: DecidesSafelyOn(lim, states, ops, c, now, cutoff, current)
  }

  /** With inverted thresholds a run ends in a store of which only the downscale
      window is left, with values between the thresholds: the policy lowers the count
      where on the whole history it would raise it. */
  lemma InvertedDecidesUnsafely(c: WindowConfig, current: int)
    returns (lim: Limits, states: seq<State>, ops: seq<Op>, now: int)
    requires Configured(c) && Inverted(c)
    ensures lim.Positive() && Run(lim, states, ops) && Scoped(ops) && 0 < now <= states[|ops|].clock
    ensures !DecidesSafelyIn(states[|ops|], c, now, 0, current)
    ensures Decision(c, Visible(states[|ops|].series, c.Key()), now, 0, current) == Some(current - c.downscale.value.step)
    ensures Decision(c, Visible(states[|ops|].history, c.Key()), now, 0, current) == Some(current + c.upscale.value.step)
  {
    hide Decision, Scoped, Tells, Invariant, NothingUnscoped, Stage, Visible, ConfiguredService, Chosen;
    var limit;
    AloneOnStage(c);
    lim, states, ops, now, limit := Tell(c.service, [WindowShape(c)], Some(0));
    RunKeepsInvariant(lim, states, ops, |ops|);
    ScopedHistory(lim, states, ops, |ops|);
    WindowByStory(lim, states[|ops|], c.service, [WindowShape(c)], Some(0), now, limit, None, 0, current);
  }

  lemma AloneOnStage(c: WindowConfig)
    requires Configured(c) && Inverted(c)
    ensures var ps := [WindowShape(c)]; ConfiguredService(c.service, ps) && OwnMetrics(ps) && Chosen(ps, Some(0))
  {
  }

  /** Exactly when eviction can only make a policy hold: unless its thresholds are
      inverted, which configuration validation does not rule out. */
  lemma SafeUnlessInverted(c: WindowConfig)
    requires Configured(c)
    ensures AlwaysSafe(c) <==> !Inverted(c)
  {
    if Inverted(c) {
      var lim, states, ops, now := InvertedDecidesUnsafely(c, 0);
      assert !DecidesSafelyOn(lim, states, ops, c, now, 0, 0);
    } else {
      forall lim, states, ops, now, cutoff, current ensures DecidesSafelyOn(lim, states, ops, c, now, cutoff, current) {
        if lim.Positive() && Run(lim, states, ops) && Scoped(ops) {
          RunDecidesSafely(lim, states, ops, |ops|, c, now, cutoff, current);
        }
      }
    }
  }
}
