/** How the opinions of a service's policies become one desired count, and one
    reconciliation of a service as a function of its state and its inputs. */
module Decisions {
  import opened Samples
  import opened StoreModel
  import opened Arithmetic
  import opened WindowPolicies

  // ---------------------------------------------------------------- policies

  /** A target policy: any expression over the current count and the latest value
      of each metric, which may fail. */
  datatype TargetSpec = TargetSpec(
    service: string, metricNames: seq<string>, expression: (int, map<string, real>) -> Option<real>)

  datatype PolicyState = WindowState(config: WindowConfig, cutoff: int) | TargetState(target: TargetSpec)

  ghost predicate WellFormed(p: PolicyState) { p.WindowState? ==> p.config.bucketDuration != 0 }

  function Ceil(x: real): int { -((-x).Floor) }

  /** The latest value of each metric, or nothing if one is missing. */
  function LatestValues(m: Store, service: string, names: seq<string>): Option<map<string, real>> {
    if names == [] then Some(map[])
    else
      var name := names[|names| - 1];
      var front, x := LatestValues(m, service, names[..|names| - 1]), LatestOf(m, MetricKey(service, name));
      if front.Some? && x.Some? then Some(front.value[name := x.value.value]) else None
  }

  lemma {:induction false} AllValuesPresent(m: Store, service: string, names: seq<string>)
    ensures LatestValues(m, service, names).Some? <==>
            forall n :: n in names ==> LatestOf(m, MetricKey(service, n)).Some?
  {
    if names != [] {
      hide LatestOf;
      var front, last := names[..|names| - 1], names[|names| - 1];
      assert names == front + [last];
      AllValuesPresent(m, service, front);
    }
  }

  /** The count the expression asks for, rounded up and not negative; a missing
      metric or a failing expression is no opinion. */
  function TargetDecision(t: TargetSpec, m: Store, current: int): Option<int> {
    match LatestValues(m, t.service, t.metricNames)
    case None => None
    case Some(env) =>
      match t.expression(current, env)
      case None => None
      case Some(r) => Some(Larger(0, Ceil(r)))
  }

  /** The newest value of every metric, by name. */
  ghost predicate NewestValues(m: Store, service: string, names: seq<string>, env: map<string, real>) {
    && (forall n :: n in env <==> n in names)
    && forall n :: n in names ==> var v := Visible(m, MetricKey(service, n)); v != [] && env[n] == v[|v| - 1].value
  }

  lemma {:induction false} LatestValuesMeaning(m: Store, service: string, names: seq<string>)
    ensures LatestValues(m, service, names) == None <==>
            exists n :: n in names && Visible(m, MetricKey(service, n)) == []
    ensures LatestValues(m, service, names).Some? ==>
            NewestValues(m, service, names, LatestValues(m, service, names).value)
  {
    hide Visible, NewestValues;
    if names == [] {
      NoValues(m, service);
    } else {
      var front, last := names[..|names| - 1], names[|names| - 1];
      assert names == front + [last];
      LatestValuesMeaning(m, service, front);
      var v, values := Visible(m, MetricKey(service, last)), LatestValues(m, service, front);
      if values.Some? && v != [] { OneMoreNewest(m, service, front, last, values.value); }
    }
  }

  lemma NoValues(m: Store, service: string)
    ensures NewestValues(m, service, [], map[])
  {
  }

  lemma OneMoreNewest(m: Store, service: string, names: seq<string>, name: string, env: map<string, real>)
    requires NewestValues(m, service, names, env) && Visible(m, MetricKey(service, name)) != []
    ensures var v := Visible(m, MetricKey(service, name));
            NewestValues(m, service, names + [name], env[name := v[|v| - 1].value])
  {
    hide Visible;
  }

  /** What a target policy asks for: nothing if a metric is missing or the expression
      fails, else the least count that is not negative and not below its value. */
  lemma TargetMeaning(t: TargetSpec, m: Store, current: int) returns (env: map<string, real>)
    ensures var d := TargetDecision(t, m, current);
            if exists n :: n in t.metricNames && Visible(m, MetricKey(t.service, n)) == [] then d == None
            else
              && NewestValues(m, t.service, t.metricNames, env)
              && match t.expression(current, env)
                 case None => d == None
                 case Some(r) =>
                   d.Some? && d.value >= 0 && d.value as real >= r && (d.value == 0 || (d.value - 1) as real < r)
  {
    LatestValuesMeaning(m, t.service, t.metricNames);
    hide LatestValues, Visible;
    var values := LatestValues(m, t.service, t.metricNames);
    env := if values.Some? then values.value else map[];
  }

  ghost function Opinion(p: PolicyState, m: Store, now: int, current: int): Option<int>
    requires WellFormed(p)
  {
    match p
    case WindowState(c, cutoff) => Decision(c, Visible(m, c.Key()), now, cutoff, current)
    case TargetState(t) => TargetDecision(t, m, current)
  }

  /** The opinions there are, in policy order. */
  ghost function Opinions(ps: seq<PolicyState>, m: Store, now: int, current: int): seq<int>
    requires forall p :: p in ps ==> WellFormed(p)
  {
    if ps == [] then []
    else
      var front := Opinions(ps[..|ps| - 1], m, now, current);
      match Opinion(ps[|ps| - 1], m, now, current)
      case None => front
      case Some(d) => front + [d]
  }

  lemma {:induction false} OpinionsMeaning(ps: seq<PolicyState>, m: Store, now: int, current: int)
    requires forall p :: p in ps ==> WellFormed(p)
    ensures forall p :: p in ps && Opinion(p, m, now, current).Some? ==>
              Opinion(p, m, now, current).value in Opinions(ps, m, now, current)
    ensures forall d :: d in Opinions(ps, m, now, current) ==>
              exists p :: p in ps && Opinion(p, m, now, current) == Some(d)
  {
    if ps != [] {
      OpinionsMeaning(ps[..|ps| - 1], m, now, current);
      assert ps == ps[..|ps| - 1] + [ps[|ps| - 1]];
    }
  }

  // ---------------------------------------------------------------- combining

  function MaxOf(ds: seq<int>): (r: int)
    requires ds != []
    ensures r in ds && forall d :: d in ds ==> d <= r
  {
    if |ds| == 1 then ds[0]
    else
      assert ds == ds[..|ds| - 1] + [ds[|ds| - 1]];
      Larger(MaxOf(ds[..|ds| - 1]), ds[|ds| - 1])
  }

  function Clamp(val: int, min: int, max: int): int {
    if val < min then min else if val > max then max else val
  }

  /** What combining comes to for a count that is not negative. */
  function Combined(ds: seq<int>): int
    requires ds != []
  {
    Larger(0, MaxOf(ds))
  }

  /** Scale-up wins; else the least aggressive downscale, if all agree. */
  method ComputeDesired(current: int, decisions: seq<int>) returns (desired: int)
    ensures decisions != [] && current >= 0 ==> desired == Combined(decisions)
    ensures decisions == [] && current >= 0 ==> desired == 0
  {
    var maxDesired := current;
    for i := 0 to |decisions|
      invariant maxDesired >= current && forall j :: 0 <= j < i ==> decisions[j] <= maxDesired
      invariant maxDesired > current ==> maxDesired in decisions
    {
      if decisions[i] > maxDesired { maxDesired := decisions[i]; }
    }
    if maxDesired > current { return maxDesired; }
    var downscaleTarget := 0;
    for i := 0 to |decisions|
      invariant downscaleTarget >= 0 && forall j :: 0 <= j < i ==> decisions[j] < current && decisions[j] <= downscaleTarget
      invariant downscaleTarget > 0 ==> downscaleTarget in decisions
    {
      if decisions[i] >= current { return current; }
      if decisions[i] > downscaleTarget { downscaleTarget := decisions[i]; }
    }
    desired := downscaleTarget;
  }

  /** Policy order does not matter, only which decisions there are. */
  lemma CombinedIgnoresOrder(ds: seq<int>, ds': seq<int>)
    requires ds != [] && ds' != [] && forall d :: d in ds <==> d in ds'
    ensures Combined(ds) == Combined(ds')
  {
    assert MaxOf(ds) in ds' && MaxOf(ds') in ds;
  }

  /** Asking for more never results in less. */
  lemma CombinedMonotone(ds: seq<int>, ds': seq<int>)
    requires ds != [] && |ds| == |ds'| && forall i :: 0 <= i < |ds| ==> ds[i] <= ds'[i]
    ensures Combined(ds) <= Combined(ds')
  {
    var i :| 0 <= i < |ds| && ds[i] == MaxOf(ds);
    assert ds'[i] in ds';
  }

  // ----------------------------------------------------------- one service

  datatype Times = Times(lastUpscaleTime: int, lastDownscaleTime: int)

  datatype ServiceSpec = ServiceSpec(
    name: string, identifier: string, minCount: int, maxCount: int, upscaleCooldown: int, downscaleCooldown: int)

  /** `times` is absent until the first scale event. */
  datatype ServiceState = ServiceState(policies: seq<PolicyState>, times: Option<Times>)

  datatype Bounds = Bounds(min: int, max: int)

  /** The inputs of one reconciliation: its clock readings, the bounds of a matching
      schedule entry, the snapshot, the count found, and whether scaling succeeds. */
  datatype Tick = Tick(
    now: int, cooldownNow: int, scheduled: Option<Bounds>, m: Store, current: int, scaleSucceeds: bool)

  datatype Event = Event(at: int, direction: Direction, from: int, to: int)

  datatype Outcome = Outcome(state: ServiceState, count: int, event: Option<Event>)

  function ActiveBounds(s: ServiceSpec, scheduled: Option<Bounds>): Bounds {
    match scheduled
    case Some(b) => b
    case None => Bounds(s.minCount, s.maxCount)
  }

  /** A zero time means no event yet; scaling up from zero never waits. */
  function CanScale(s: ServiceSpec, times: Option<Times>, current: int, d: Direction, now: int): bool {
    match times
    case None => true
    case Some(t) =>
      match d
      case Upscale => current == 0 || t.lastUpscaleTime == 0 || now - t.lastUpscaleTime >= s.upscaleCooldown
      case Downscale => t.lastDownscaleTime == 0 || now - t.lastDownscaleTime >= s.downscaleCooldown
  }

  function RecordTime(times: Option<Times>, d: Direction, now: int): Times {
    var t := if times == None then Times(0, 0) else times.value;
    match d
    case Upscale => t.(lastUpscaleTime := now)
    case Downscale => t.(lastDownscaleTime := now)
  }

  function ResetAt(p: PolicyState, now: int): PolicyState {
    match p
    case WindowState(c, _) => WindowState(c, now)
    case TargetState(_) => p
  }

  function ResetAll(ps: seq<PolicyState>, now: int): seq<PolicyState> {
    seq(|ps|, i requires 0 <= i < |ps| => ResetAt(ps[i], now))
  }

  ghost predicate WellFormedState(st: ServiceState) { forall p :: p in st.policies ==> WellFormed(p) }

  /** The count wanted, if any policy has an opinion. */
  ghost function Wanted(s: ServiceSpec, st: ServiceState, t: Tick): Option<int>
    requires WellFormedState(st)
  {
    var ds := Opinions(st.policies, t.m, t.now, t.current);
    var b := ActiveBounds(s, t.scheduled);
    if ds == [] then None else Some(Clamp(Combined(ds), b.min, b.max))
  }

  function DirectionTo(current: int, desired: int): Direction { if desired < current then Downscale else Upscale }

  /** One reconciliation of one service with a count that is not negative. */
  ghost function Reconcile(s: ServiceSpec, dryRun: bool, st: ServiceState, t: Tick): Outcome
    requires WellFormedState(st)
  {
    var wanted := Wanted(s, st, t);
    if wanted == None || wanted.value == t.current then Outcome(st, t.current, None)
    else
      var d := DirectionTo(t.current, wanted.value);
      if !CanScale(s, st.times, t.current, d, t.cooldownNow) || (!dryRun && !t.scaleSucceeds) then
        Outcome(st, t.current, None)
      else
        Outcome(ServiceState(ResetAll(st.policies, t.now), Some(RecordTime(st.times, d, t.now))),
                if dryRun then t.current else wanted.value,
                Some(Event(t.now, d, t.current, wanted.value)))
  }
}
