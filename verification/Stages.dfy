/** For every exposed configuration a store on which its policies lower a count that
    they would raise on the whole history, and the run that gets there. */
module Stages {
  import opened Arithmetic
  import opened Samples
  import opened StoreModel
  import opened StoreRuns
  import opened Eviction
  import opened Feeds
  import opened WindowPolicies
  import opened Decisions
  import opened BoundedDecisions
  import opened Stories
  import opened Shapes

  // ------------------------------------------------- a stage for every policy

  function NamesOf(p: Shape): set<string> {
    match p
    case WindowShape(c) => {c.metric}
    case TargetShape(names) => set n | n in names
  }

  function AllNames(ps: seq<Shape>): set<string> { set i, n | 0 <= i < |ps| && n in NamesOf(ps[i]) :: n }

  lemma {:induction false} Listing(all: set<string>) returns (names: seq<string>)
    ensures forall n :: n in names <==> n in all
    ensures forall i, j :: 0 <= i < j < |names| ==> names[i] != names[j]
    decreases all
  {
    names := [];
    if all != {} {
      var n :| n in all;
      var rest := Listing(all - {n});
      names := rest + [n];
    }
  }

  function KeysFor(service: string, names: seq<string>): seq<MetricKey> {
    seq(|names|, i requires 0 <= i < |names| => MetricKey(service, names[i]))
  }

  /** All windows lie after the zero time, and a limit keeps every downscale window. */
  ghost predicate Stage(ps: seq<Shape>, now: int, limit: nat) {
    && now > 0 && limit > 0
    && forall i :: 0 <= i < |ps| && ps[i].WindowShape? ==>
         Configured(ps[i].config) && Kept(ps[i].config) <= limit && Reach(ps[i].config) < now
  }

  lemma {:induction false} SetStage(service: string, ps: seq<Shape>) returns (now: int, limit: nat)
    requires ConfiguredService(service, ps)
    ensures Stage(ps, now, limit)
    decreases |ps|
  {
    now, limit := 1, 1;
    if ps != [] {
      hide Configured, Kept, Reach;
      var front, last := ps[..|ps| - 1], ps[|ps| - 1];
      assert forall i :: 0 <= i < |front| ==> front[i] == ps[i];
      now, limit := SetStage(service, front);
      if last.WindowShape? {
        assert ConfiguredShape(service, last);
        now, limit := Larger(now, Reach(last.config) + 1), Larger(limit, Kept(last.config));
      }
    }
  }

  predicate WindowOn(ps: seq<Shape>, i: int, name: string) {
    0 <= i < |ps| && ps[i].WindowShape? && ps[i].config.metric == name
  }

  /** The policy whose history is to mislead, if any is. */
  ghost predicate Chosen(ps: seq<Shape>, e: Option<nat>) {
    e.Some? ==> e.value < |ps| && ps[e.value].WindowShape? && Configured(ps[e.value].config) && Misled(ps[e.value].config)
  }

  ghost function StoryOf(ps: seq<Shape>, e: Option<nat>, i: nat, now: int, limit: nat): seq<Sample>
    requires Stage(ps, now, limit) && Chosen(ps, e) && i < |ps| && ps[i].WindowShape?
  {
    if e == Some(i) then Misleading(ps[i].config, now, limit) else Plain(ps[i].config, now)
  }

  /** The history of each metric. */
  ghost function Story(ps: seq<Shape>, e: Option<nat>, now: int, limit: nat, name: string): seq<Sample>
    requires Stage(ps, now, limit) && Chosen(ps, e)
  {
    if exists i: nat :: WindowOn(ps, i, name) then
      var i: nat :| WindowOn(ps, i, name);
      StoryOf(ps, e, i, now, limit)
    else Filler(now)
  }

  lemma OwnStory(ps: seq<Shape>, e: Option<nat>, now: int, limit: nat, i: nat)
    requires Stage(ps, now, limit) && Chosen(ps, e) && OwnMetrics(ps) && i < |ps| && ps[i].WindowShape?
    ensures Story(ps, e, now, limit, ps[i].config.metric) == StoryOf(ps, e, i, now, limit)
  {
    assert WindowOn(ps, i, ps[i].config.metric);
    var j: nat :| WindowOn(ps, j, ps[i].config.metric) &&
                  Story(ps, e, now, limit, ps[i].config.metric) == StoryOf(ps, e, j, now, limit);
  }

  ghost predicate Tellable(h: seq<Sample>, now: int, limit: nat, short: bool) {
    Timely(now + limit, h) && h != [] && Cap(h, limit) != [] && (short ==> Cap(h, limit) == h)
  }

  lemma PolicyTellable(ps: seq<Shape>, e: Option<nat>, i: nat, now: int, limit: nat)
    requires Stage(ps, now, limit) && Chosen(ps, e) && i < |ps| && ps[i].WindowShape?
    ensures Tellable(StoryOf(ps, e, i, now, limit), now, limit, e == None)
  {
    hide Timely, Misleading, Plain, Cap, Reach, Kept;
    if e == Some(i) {
      MisleadingTimely(ps[i].config, now, limit);
      MisleadingFits(ps[i].config, now, limit);
    } else {
      PlainTimely(ps[i].config, now, limit);
      PlainFits(ps[i].config, now, limit);
    }
  }

  lemma StoryTellable(ps: seq<Shape>, e: Option<nat>, now: int, limit: nat, name: string)
    requires Stage(ps, now, limit) && Chosen(ps, e)
    ensures Tellable(Story(ps, e, now, limit, name), now, limit, e == None)
  {
    hide Tellable, StoryOf, Filler;
    if exists i: nat :: WindowOn(ps, i, name) {
      var i: nat :| WindowOn(ps, i, name) && Story(ps, e, now, limit, name) == StoryOf(ps, e, i, now, limit);
      PolicyTellable(ps, e, i, now, limit);
    } else {
      FillerTellable(now, limit, e == None);
    }
  }

  lemma FillerTellable(now: int, limit: nat, short: bool)
    requires now > 0 && limit > 0
    ensures Tellable(Filler(now), now, limit, short)
  {
    FillerTimely(now, limit);
    FillerFits(now, limit);
  }

  ghost function StoriesOf(ps: seq<Shape>, e: Option<nat>, now: int, limit: nat, names: seq<string>): seq<seq<Sample>>
    requires Stage(ps, now, limit) && Chosen(ps, e)
  {
    seq(|names|, i requires 0 <= i < |names| => Story(ps, e, now, limit, names[i]))
  }

  ghost predicate Lost(s: State, key: MetricKey) { At(s.history, key) != [] && At(s.series, key) == [] }

  /** The store holds what a limit on each series leaves of the histories, and nothing
      of the metric that is lost. */
  ghost predicate Tells(s: State, service: string, ps: seq<Shape>, e: Option<nat>, now: int, limit: nat,
                        lost: Option<string>)
    requires Stage(ps, now, limit) && Chosen(ps, e)
  {
    && (forall n :: n in AllNames(ps) && lost != Some(n) ==>
          && At(s.history, MetricKey(service, n)) == Story(ps, e, now, limit, n)
          && At(s.series, MetricKey(service, n)) == Cap(Story(ps, e, now, limit, n), limit))
    && (lost.Some? ==> Lost(s, MetricKey(service, lost.value)))
  }

  lemma StoriesFeedable(ps: seq<Shape>, e: Option<nat>, now: int, limit: nat, names: seq<string>, lim: Limits)
    requires Stage(ps, now, limit) && Chosen(ps, e) && lim.retention == now + limit
    ensures forall h :: h in StoriesOf(ps, e, now, limit, names) ==>
              && Feedable(lim, now + limit, h) && (forall x :: x in h ==> 1 <= x.observedAt)
              && h != [] && (e == None ==> |h| <= limit)
  {
    hide Story, Chosen, Stage;
    var hs := StoriesOf(ps, e, now, limit, names);
    forall i | 0 <= i < |names|
      ensures Feedable(lim, now + limit, hs[i]) && (forall x: Sample :: x in hs[i] ==> 1 <= x.observedAt)
      ensures hs[i] != [] && (e == None ==> |hs[i]| <= limit)
    {
      StoryTellable(ps, e, now, limit, names[i]);
    }
  }

  lemma KeysDistinct(service: string, names: seq<string>)
    requires service != "" && "" !in names && forall i, j :: 0 <= i < j < |names| ==> names[i] != names[j]
    ensures DistinctKeys(KeysFor(service, names))
  {
    assert forall i :: 0 <= i < |names| ==> names[i] in names;
  }

  lemma AllNamed(service: string, ps: seq<Shape>)
    requires ConfiguredService(service, ps)
    ensures forall n :: n in AllNames(ps) ==> n != ""
  {
    forall n | n in AllNames(ps) ensures n != "" {
      var i :| 0 <= i < |ps| && n in NamesOf(ps[i]);
      assert ConfiguredShape(service, ps[i]);
    }
  }

  lemma StoryTold(m: Store, service: string, ps: seq<Shape>, e: Option<nat>, now: int, limit: nat, names: seq<string>,
                  n: string)
    requires Stage(ps, now, limit) && Chosen(ps, e) && n in names
    requires Holds(m, KeysFor(service, names), StoriesOf(ps, e, now, limit, names))
    ensures At(m, MetricKey(service, n)) == Story(ps, e, now, limit, n)
  {
    hide Story;
    var i :| 0 <= i < |names| && names[i] == n;
    assert KeysFor(service, names)[i] == MetricKey(service, n);
  }

  /** A run that ends with every policy's story told, as far as a limit on each series
      lets it. */
  lemma Tell(service: string, ps: seq<Shape>, e: Option<nat>)
    returns (lim: Limits, states: seq<State>, ops: seq<Op>, now: int, limit: nat)
    requires ConfiguredService(service, ps) && Chosen(ps, e)
    ensures lim.Positive() && Run(lim, states, ops) && Scoped(ops) && 0 < now <= states[|ops|].clock
    ensures Stage(ps, now, limit) && Tells(states[|ops|], service, ps, e, now, limit, None)
  {
    now, limit := SetStage(service, ps);
    var names := Listing(AllNames(ps));
    AllNamed(service, ps);
    KeysDistinct(service, names);
    lim := Limits(now + limit, limit, TotalLength(StoriesOf(ps, e, now, limit, names)) + 1);
    hide Story, Run, Feedable, Scoped, AllNames, DistinctKeys, Chosen, Holds, ConfiguredShape, Tells, StoriesOf, KeysFor;
    StoriesFeedable(ps, e, now, limit, names, lim);
    states, ops := Reached(lim, now + limit, KeysFor(service, names), StoriesOf(ps, e, now, limit, names));
    AllTold(states[|ops|], service, ps, e, now, limit, names);
  }

  lemma AllTold(s: State, service: string, ps: seq<Shape>, e: Option<nat>, now: int, limit: nat, names: seq<string>)
    requires Stage(ps, now, limit) && Chosen(ps, e) && forall n :: n in names <==> n in AllNames(ps)
    requires Holds(s.history, KeysFor(service, names), StoriesOf(ps, e, now, limit, names))
    requires forall k {:trigger At(s.series, k)} :: At(s.series, k) == Cap(At(s.history, k), limit)
    ensures Tells(s, service, ps, e, now, limit, None)
  {
    hide Story, AllNames, Chosen, Stage, Cap, Holds;
    forall n | n in AllNames(ps) ensures At(s.history, MetricKey(service, n)) == Story(ps, e, now, limit, n) {
      StoryTold(s.history, service, ps, e, now, limit, names, n);
    }
  }

  /** All names but the lost one, and one more. */
  function OtherNames(ps: seq<Shape>, lost: string): set<string> { AllNames(ps) - {lost} + {lost + "'"} }

  lemma LengthsAdd(hs: seq<seq<Sample>>)
    requires hs != [] && forall h :: h in hs ==> h != []
    ensures TotalLength(hs) > 0
  {
    assert hs[|hs| - 1] in hs;
  }

  lemma LostApart(service: string, ps: seq<Shape>, lost: string, names: seq<string>)
    requires forall n :: n in names <==> n in OtherNames(ps, lost)
    ensures MetricKey(service, lost) !in KeysFor(service, names) && names != []
  {
    assert lost + "'" in names;
    assert forall i :: 0 <= i < |names| ==> names[i] in names;
  }

  lemma ShortStory(ps: seq<Shape>, now: int, limit: nat, n: string)
    requires Stage(ps, now, limit)
    ensures Cap(Story(ps, None, now, limit, n), limit) == Story(ps, None, now, limit, n)
  {
    hide Story, Timely;
    StoryTellable(ps, None, now, limit, n);
  }

  /** A run that ends with every story told in full, except that of one metric, which
      is lost as it arrives: the global limit is reached, and it is the oldest. */
  lemma TellWithout(service: string, ps: seq<Shape>, lost: string)
    returns (lim: Limits, states: seq<State>, ops: seq<Op>, now: int, limit: nat)
    requires ConfiguredService(service, ps) && lost != ""
    ensures lim.Positive() && Run(lim, states, ops) && Scoped(ops) && 0 < now <= states[|ops|].clock
    ensures Stage(ps, now, limit) && Tells(states[|ops|], service, ps, None, now, limit, Some(lost))
  {
    now, limit := SetStage(service, ps);
    var names := Listing(OtherNames(ps, lost));
    AllNamed(service, ps);
    KeysDistinct(service, names);
    LostApart(service, ps, lost, names);
    lim := Limits(now + limit, limit, TotalLength(StoriesOf(ps, None, now, limit, names)));
    hide Story, Run, Feedable, Scoped, AllNames, DistinctKeys, Holds, ConfiguredShape, Cap, Tells;
    StoriesFeedable(ps, None, now, limit, names, lim);
    LengthsAdd(StoriesOf(ps, None, now, limit, names));
    states, ops := ReachedWithoutOldest(lim, now + limit, KeysFor(service, names), StoriesOf(ps, None, now, limit, names),
                                        MetricKey(service, lost), Sample(0.0, 1));
    OthersTold(states[|ops|], service, ps, now, limit, names, lost);
  }

  lemma OthersTold(s: State, service: string, ps: seq<Shape>, now: int, limit: nat, names: seq<string>, lost: string)
    requires Stage(ps, now, limit) && forall n :: n in names <==> n in OtherNames(ps, lost)
    requires Holds(s.history, KeysFor(service, names), StoriesOf(ps, None, now, limit, names))
    requires Holds(s.series, KeysFor(service, names), StoriesOf(ps, None, now, limit, names))
    requires At(s.history, MetricKey(service, lost)) != [] && At(s.series, MetricKey(service, lost)) == []
    ensures Tells(s, service, ps, None, now, limit, Some(lost))
  {
    hide Story, AllNames, Stage, Cap, Holds;
    forall n | n in AllNames(ps) && n != lost
      ensures At(s.history, MetricKey(service, n)) == Story(ps, None, now, limit, n)
      ensures At(s.series, MetricKey(service, n)) == Cap(Story(ps, None, now, limit, n), limit)
    {
      StoryTold(s.history, service, ps, None, now, limit, names, n);
      StoryTold(s.series, service, ps, None, now, limit, names, n);
      ShortStory(ps, now, limit, n);
    }
  }

  // ----------------------------------------------------- what the policies say

  const ASKS_NOTHING: Expression := (current, values) => Some(0.0)
  const ASKS_MORE: Expression := (current, values) => Some((current + 1) as real)

  /** A target policy that needs the lost metric would raise the count, any other
      lowers it. */
  function ExpressionFor(p: Shape, lost: Option<string>): Expression {
    if lost.Some? && Reads(p, lost.value) then ASKS_MORE else ASKS_NOTHING
  }

  function ExpressionsFor(ps: seq<Shape>, lost: Option<string>): seq<Expression> {
    seq(|ps|, i requires 0 <= i < |ps| => ExpressionFor(ps[i], lost))
  }

  function Zeros(n: nat): seq<int> { seq(n, i requires i >= 0 => 0) }

  /** The policies before any scale event. */
  function Cast(service: string, ps: seq<Shape>, lost: Option<string>): (states: seq<PolicyState>)
    requires ConfiguredService(service, ps)
    ensures forall p :: p in states ==> WellFormed(p) && PositiveStepsOf(p)
  {
    PoliciesOf(service, ps, Zeros(|ps|), ExpressionsFor(ps, lost))
  }

  ghost predicate Present(s: State, service: string, ps: seq<Shape>, lost: Option<string>) {
    && (forall n :: n in AllNames(ps) && lost != Some(n) ==> At(s.series, MetricKey(service, n)) != [])
    && (lost.Some? ==> Lost(s, MetricKey(service, lost.value)))
  }

  lemma ToldPresent(s: State, service: string, ps: seq<Shape>, e: Option<nat>, now: int, limit: nat, lost: Option<string>)
    requires Stage(ps, now, limit) && Chosen(ps, e) && Tells(s, service, ps, e, now, limit, lost)
    ensures Present(s, service, ps, lost)
  {
    hide Story, Chosen, Timely;
    forall n | n in AllNames(ps) && lost != Some(n) ensures At(s.series, MetricKey(service, n)) != [] {
      StoryTellable(ps, e, now, limit, n);
    }
  }

  /** For fewer if the policy can ask for that and needs nothing that is lost, and
      never for as many or more. */
  ghost predicate LowersIfAble(p: Shape, lost: Option<string>, opinion: Option<int>, current: int) {
    && (opinion.Some? ==> opinion.value < current)
    && (CanLower(p) && (lost.Some? ==> !Reads(p, lost.value)) ==> opinion.Some?)
  }

  function Less(c: WindowConfig, current: int): Option<int> {
    if c.downscale.Some? then Some(current - c.downscale.value.step) else None
  }

  lemma StoryDecides(ps: seq<Shape>, e: Option<nat>, i: nat, now: int, limit: nat, current: int)
    requires Stage(ps, now, limit) && Chosen(ps, e) && i < |ps| && ps[i].WindowShape?
    ensures var c, h := ps[i].config, StoryOf(ps, e, i, now, limit);
      && Decision(c, Cap(h, limit), now, 0, current) == Less(c, current)
      && (e == Some(i) ==> Decision(c, h, now, 0, current) == Some(current + c.upscale.value.step))
  {
    hide Decision, Kept, Cap, Misleading, Plain, Reach;
    if e == Some(i) {
      MisledDecides(ps[i].config, now, limit, current);
    } else {
      PlainFits(ps[i].config, now, limit);
      PlainDecides(ps[i].config, now, current);
    }
  }

  lemma ToldOwnStory(lim: Limits, s: State, service: string, ps: seq<Shape>, e: Option<nat>, now: int, limit: nat,
                     lost: Option<string>, i: nat)
    requires ConfiguredService(service, ps) && OwnMetrics(ps) && Stage(ps, now, limit) && Chosen(ps, e)
    requires Tells(s, service, ps, e, now, limit, lost) && NothingUnscoped(s.history) && Invariant(lim, s)
    requires i < |ps| && ps[i].WindowShape? && lost != Some(ps[i].config.metric)
    ensures Visible(s.history, ps[i].config.Key()) == StoryOf(ps, e, i, now, limit)
    ensures Visible(s.series, ps[i].config.Key()) == Cap(StoryOf(ps, e, i, now, limit), limit)
  {
    assert ConfiguredShape(service, ps[i]);
    hide Invariant, Visible, Cap, Stage, Chosen, Story, StoryOf, OwnMetrics, Configured;
    assert ps[i].config.metric in NamesOf(ps[i]) && ps[i].config.metric in AllNames(ps);
    OwnSeriesOnly(lim, s, ps[i].config.Key());
    OwnStory(ps, e, now, limit, i);
  }

  lemma WindowByStory(lim: Limits, s: State, service: string, ps: seq<Shape>, e: Option<nat>, now: int, limit: nat,
                      lost: Option<string>, i: nat, current: int)
    requires ConfiguredService(service, ps) && OwnMetrics(ps) && Stage(ps, now, limit) && Chosen(ps, e)
    requires Tells(s, service, ps, e, now, limit, lost) && NothingUnscoped(s.history) && Invariant(lim, s)
    requires i < |ps| && ps[i].WindowShape? && lost != Some(ps[i].config.metric)
    ensures var c := ps[i].config;
      && c.bucketDuration > 0
      && Decision(c, Visible(s.series, c.Key()), now, 0, current) == Less(c, current)
      && (e == Some(i) ==>
            Decision(c, Visible(s.history, c.Key()), now, 0, current) == Some(current + c.upscale.value.step))
  {
    assert ConfiguredShape(service, ps[i]);
    hide Decision, Story, StoryOf, Invariant, Visible, Cap, Tells, OwnMetrics, NothingUnscoped;
    ToldOwnStory(lim, s, service, ps, e, now, limit, lost, i);
    StoryDecides(ps, e, i, now, limit, current);
  }

  /** Without samples a window policy that cannot hold says nothing. */
  lemma SilentWithout(c: WindowConfig, now: int, current: int)
    requires c.bucketDuration != 0 && c.downscale == None
    ensures Decision(c, [], now, 0, current) == None
  {
  }

  lemma TargetByStory(lim: Limits, s: State, service: string, ps: seq<Shape>, lost: Option<string>, i: nat, current: int)
    requires ConfiguredService(service, ps) && Present(s, service, ps, lost)
    requires NothingUnscoped(s.history) && Invariant(lim, s) && i < |ps| && ps[i].TargetShape? && current > 0
    ensures var t := TargetSpec(service, ps[i].metricNames, ExpressionFor(ps[i], lost));
      && LowersIfAble(ps[i], lost, TargetDecision(t, s.series, current), current)
      && (lost.Some? && Reads(ps[i], lost.value) ==> TargetDecision(t, s.history, current) == Some(current + 1))
  {
    hide Invariant, NothingUnscoped;
    var names := ps[i].metricNames;
    AllValuesPresent(s.series, service, names);
    AllValuesPresent(s.history, service, names);
    forall n | n in names
      ensures LatestOf(s.series, MetricKey(service, n)).Some? <==> lost != Some(n)
      ensures LatestOf(s.history, MetricKey(service, n)).Some?
    {
      assert n in NamesOf(ps[i]) && n in AllNames(ps);
      PresentSeen(lim, s, service, ps, lost, n);
    }
  }

  lemma PresentSeen(lim: Limits, s: State, service: string, ps: seq<Shape>, lost: Option<string>, n: string)
    requires Present(s, service, ps, lost) && NothingUnscoped(s.history) && Invariant(lim, s) && n in AllNames(ps)
    ensures LatestOf(s.series, MetricKey(service, n)).Some? <==> lost != Some(n)
    ensures LatestOf(s.history, MetricKey(service, n)).Some?
  {
    OwnSeriesOnly(lim, s, MetricKey(service, n));
    assert IsSuffix(At(s.series, MetricKey(service, n)), At(s.history, MetricKey(service, n)));
  }

  /** What each policy says on the two stores. */
  lemma PolicyByStory(lim: Limits, s: State, service: string, ps: seq<Shape>, e: Option<nat>, now: int, limit: nat,
                      lost: Option<string>, i: nat, current: int)
    requires ConfiguredService(service, ps) && OwnMetrics(ps) && Stage(ps, now, limit) && Chosen(ps, e)
    requires Tells(s, service, ps, e, now, limit, lost) && NothingUnscoped(s.history) && Invariant(lim, s)
    requires i < |ps| && current > 0 && (lost.Some? ==> e == None && !HoldsWithout(ps[i], lost.value))
    ensures var p := Cast(service, ps, lost)[i];
      && LowersIfAble(ps[i], lost, Opinion(p, s.series, now, current), current)
      && (e == Some(i) || (ps[i].TargetShape? && lost.Some? && Reads(ps[i], lost.value)) ==>
            Opinion(p, s.history, now, current).Some? && Opinion(p, s.history, now, current).value > current)
  {
    assert ConfiguredShape(service, ps[i]);
    match ps[i]
    case WindowShape(c) =>
      hide Decision, Invariant, Visible, Chosen;
      if lost == Some(c.metric) {
        OwnSeriesOnly(lim, s, c.Key());
        SilentWithout(c, now, current);
      } else {
        WindowByStory(lim, s, service, ps, e, now, limit, lost, i, current);
      }
    case TargetShape(names) =>
      ToldPresent(s, service, ps, e, now, limit, lost);
      TargetByStory(lim, s, service, ps, lost, i, current);
  }

  /** The policies lower a count that on the whole history they would raise. */
  ghost predicate RaisedByHistory(s: State, states: seq<PolicyState>, now: int, current: int)
    requires forall p :: p in states ==> WellFormed(p)
  {
    var bounded, full := Opinions(states, s.series, now, current), Opinions(states, s.history, now, current);
    bounded != [] && full != [] && Combined(bounded) < current < Combined(full)
  }

  lemma RaisedThough(s: State, states: seq<PolicyState>, down: PolicyState, up: PolicyState, now: int, current: int)
    requires (forall p :: p in states ==> WellFormed(p)) && down in states && up in states && current > 0
    requires forall p :: p in states && Opinion(p, s.series, now, current).Some? ==>
               Opinion(p, s.series, now, current).value < current
    requires Opinion(down, s.series, now, current).Some?
    requires Opinion(up, s.history, now, current).Some? && Opinion(up, s.history, now, current).value > current
    ensures RaisedByHistory(s, states, now, current)
  {
    hide Opinion, Opinions;
    OpinionsMeaning(states, s.history, now, current);
    OpinionsMeaning(states, s.series, now, current);
  }

  lemma ServiceByStory(lim: Limits, s: State, service: string, ps: seq<Shape>, e: Option<nat>, now: int, limit: nat,
                       lost: Option<string>, down: nat, up: nat, current: int)
    requires ConfiguredService(service, ps) && OwnMetrics(ps) && Stage(ps, now, limit) && Chosen(ps, e)
    requires Tells(s, service, ps, e, now, limit, lost) && NothingUnscoped(s.history) && Invariant(lim, s)
    requires down < |ps| && up < |ps| && current > 0 && CanLower(ps[down])
    requires lost.Some? ==> !Reads(ps[down], lost.value) && e == None
    requires lost.Some? ==> forall i :: 0 <= i < |ps| ==> !HoldsWithout(ps[i], lost.value)
    requires e == Some(up) || (ps[up].TargetShape? && lost.Some? && Reads(ps[up], lost.value))
    ensures RaisedByHistory(s, Cast(service, ps, lost), now, current)
  {
    var states := Cast(service, ps, lost);
    hide Opinion, Tells, Invariant, NothingUnscoped, Stage, Chosen, ConfiguredService, Reads, HoldsWithout, CanLower;
    forall i | 0 <= i < |states|
      ensures LowersIfAble(ps[i], lost, Opinion(states[i], s.series, now, current), current)
    {
      PolicyByStory(lim, s, service, ps, e, now, limit, lost, i, current);
    }
    PolicyByStory(lim, s, service, ps, e, now, limit, lost, up, current);
    RaisedThough(s, states, states[down], states[up], now, current);
  }
}
