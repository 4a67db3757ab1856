/** What holds over whole runs of one service's reconciliations: evidence is used
    once, cooldowns are kept, downscales are unanimous, and events are rate bounded. */
module Runs {
  import opened Arithmetic
  import opened Samples
  import opened StoreModel
  import opened Buckets
  import opened WindowPolicies
  import opened Decisions
  import opened BoundedDecisions

  predicate Fresh(st: ServiceState) {
    st.times == None && forall i :: 0 <= i < |st.policies| && st.policies[i].WindowState? ==> st.policies[i].cutoff == 0
  }

  /** Clock readings come after the zero time and never go back. */
  predicate Monotone(ticks: seq<Tick>) {
    && (forall i :: 0 <= i < |ticks| ==> 0 < ticks[i].now <= ticks[i].cooldownNow && ticks[i].current >= 0)
    && (forall i, j :: 0 <= i < j < |ticks| ==> ticks[i].cooldownNow <= ticks[j].now)
  }

  ghost predicate Run(s: ServiceSpec, dryRun: bool, sts: seq<ServiceState>, ticks: seq<Tick>) {
    && |sts| == |ticks| + 1 && Fresh(sts[0]) && Monotone(ticks)
    && (forall i :: 0 <= i < |sts| ==> WellFormedState(sts[i]))
    && (forall i {:trigger ticks[i]} :: 0 <= i < |ticks| ==> sts[i + 1] == Reconcile(s, dryRun, sts[i], ticks[i]).state)
  }

  ghost function EventAt(s: ServiceSpec, dryRun: bool, sts: seq<ServiceState>, ticks: seq<Tick>, i: nat): Option<Event>
    requires Run(s, dryRun, sts, ticks) && i < |ticks|
  {
    Reconcile(s, dryRun, sts[i], ticks[i]).event
  }

  // ---------------------------------------------------- evidence used once

  ghost predicate CutOffAt(st: ServiceState, at: int) {
    forall p :: p in st.policies && p.WindowState? ==> p.cutoff >= at
  }

  lemma StepCutoffs(s: ServiceSpec, dryRun: bool, st: ServiceState, t: Tick, at: int)
    requires WellFormedState(st) && at <= t.now
    ensures var out := Reconcile(s, dryRun, st, t);
      && (out.event.Some? ==> CutOffAt(out.state, t.now))
      && (CutOffAt(st, at) ==> CutOffAt(out.state, at))
  {
  }

  /** From an event on, no policy of the service looks at anything before it. */
  lemma {:induction false} CutoffsHold(s: ServiceSpec, dryRun: bool, sts: seq<ServiceState>, ticks: seq<Tick>,
                                       i: nat, j: nat)
    requires Run(s, dryRun, sts, ticks) && i < j <= |ticks| && EventAt(s, dryRun, sts, ticks, i).Some?
    ensures CutOffAt(sts[j], ticks[i].now)
  {
    if j == i + 1 {
      StepCutoffs(s, dryRun, sts[i], ticks[i], ticks[i].now);
    } else {
      CutoffsHold(s, dryRun, sts, ticks, i, j - 1);
      StepCutoffs(s, dryRun, sts[j - 1], ticks[j - 1], ticks[i].now);
    }
  }

  /** The policy breached in this state at this tick, in this direction. */
  ghost predicate BreachAt(st: ServiceState, t: Tick, p: PolicyState, d: Direction, th: Threshold) {
    && p in st.policies && p.WindowState? && p.config.bucketDuration != 0
    && Some(th) == (if d == Upscale then p.config.upscale else p.config.downscale)
    && Breach(p.config, d, th, Visible(t.m, p.config.Key()), t.now, p.cutoff)
  }

  ghost function WindowStart(t: Tick, p: PolicyState, th: Threshold): int
    requires p.WindowState? && p.config.bucketDuration > 0 && p.config.Required(th) > 0
  {
    OldestStart(t.now, p.config.bucketDuration, p.config.Required(th))
  }

  ghost function WindowEnd(t: Tick, p: PolicyState): int
    requires p.WindowState? && p.config.bucketDuration > 0
  {
    Truncate(t.now, p.config.bucketDuration)
  }

  lemma BreachedWindow(st: ServiceState, t: Tick, p: PolicyState, d: Direction, th: Threshold)
    requires BreachAt(st, t, p, d, th)
    ensures p.config.bucketDuration > 0 && p.config.Required(th) > 0
    ensures WindowStart(t, p, th) < WindowEnd(t, p) <= t.now
    ensures p.cutoff != 0 ==> p.cutoff <= WindowStart(t, p, th)
  {
    BreachWindow(p.config, d, th, Visible(t.m, p.config.Key()), t.now, p.cutoff);
    assert p.config.Required(th) * p.config.bucketDuration > 0;
  }

  /** No evidence is used twice: the window behind any breach after an event starts
      at or after the event, so it is disjoint from every window behind the event,
      whichever policies and directions of the service they belong to. */
  lemma EvidenceUsedOnce(s: ServiceSpec, dryRun: bool, sts: seq<ServiceState>, ticks: seq<Tick>, i: nat, j: nat,
                         p: PolicyState, d: Direction, th: Threshold, p': PolicyState, d': Direction, th': Threshold)
    requires Run(s, dryRun, sts, ticks) && i < j < |ticks| && EventAt(s, dryRun, sts, ticks, i).Some?
    requires BreachAt(sts[i], ticks[i], p, d, th) && BreachAt(sts[j], ticks[j], p', d', th')
    ensures p.config.bucketDuration > 0 && p'.config.bucketDuration > 0
    ensures p.config.Required(th) > 0 && p'.config.Required(th') > 0
    ensures WindowStart(ticks[i], p, th) < WindowEnd(ticks[i], p)
    ensures WindowEnd(ticks[i], p) <= ticks[i].now <= WindowStart(ticks[j], p', th') < WindowEnd(ticks[j], p')
  {
    CutoffsHold(s, dryRun, sts, ticks, i, j);
    BreachedWindow(sts[i], ticks[i], p, d, th);
    BreachedWindow(sts[j], ticks[j], p', d', th');
  }

  // --------------------------------------------------------------- cooldowns

  /** The time of the last event in a direction among the first `n` ticks. */
  ghost function LastEvent(s: ServiceSpec, dryRun: bool, sts: seq<ServiceState>, ticks: seq<Tick>, d: Direction,
                           n: nat): Option<int>
    requires Run(s, dryRun, sts, ticks) && n <= |ticks|
  {
    if n == 0 then None
    else
      var e := EventAt(s, dryRun, sts, ticks, n - 1);
      if e.Some? && e.value.direction == d then Some(e.value.at) else LastEvent(s, dryRun, sts, ticks, d, n - 1)
  }

  function TimeIn(times: Option<Times>, d: Direction): Option<int> {
    if times == None then None
    else
      var t := if d == Upscale then times.value.lastUpscaleTime else times.value.lastDownscaleTime;
      if t == 0 then None else Some(t)
  }

  lemma StepTimes(s: ServiceSpec, dryRun: bool, st: ServiceState, t: Tick, d: Direction)
    requires WellFormedState(st) && t.now > 0
    ensures var out := Reconcile(s, dryRun, st, t);
            TimeIn(out.state.times, d) ==
              if out.event.Some? && out.event.value.direction == d then Some(out.event.value.at) else TimeIn(st.times, d)
  {
  }

  /** The recorded times are exactly those of the last events, each direction on its
      own; a blocked or failed attempt leaves no trace. */
  lemma {:induction false} TimesAreLastEvents(s: ServiceSpec, dryRun: bool, sts: seq<ServiceState>,
                                              ticks: seq<Tick>, d: Direction, n: nat)
    requires Run(s, dryRun, sts, ticks) && n <= |ticks|
    ensures TimeIn(sts[n].times, d) == LastEvent(s, dryRun, sts, ticks, d, n)
  {
    if n > 0 {
      TimesAreLastEvents(s, dryRun, sts, ticks, d, n - 1);
      assert sts[n] == Reconcile(s, dryRun, sts[n - 1], ticks[n - 1]).state;
      StepTimes(s, dryRun, sts[n - 1], ticks[n - 1], d);
    }
  }

  lemma EventTime(s: ServiceSpec, dryRun: bool, sts: seq<ServiceState>, ticks: seq<Tick>, i: nat)
    requires Run(s, dryRun, sts, ticks) && i < |ticks|
    ensures var e := EventAt(s, dryRun, sts, ticks, i); e.Some? ==> e.value.at == ticks[i].now
  {
  }

  lemma LastEventNext(s: ServiceSpec, dryRun: bool, sts: seq<ServiceState>, ticks: seq<Tick>, d: Direction, n: nat)
    requires Run(s, dryRun, sts, ticks) && 0 < n <= |ticks|
    ensures var e := EventAt(s, dryRun, sts, ticks, n - 1);
            LastEvent(s, dryRun, sts, ticks, d, n) ==
              if e.Some? && e.value.direction == d then Some(e.value.at) else LastEvent(s, dryRun, sts, ticks, d, n - 1)
  {
    hide EventAt;
  }

  lemma TicksInOrder(s: ServiceSpec, dryRun: bool, sts: seq<ServiceState>, ticks: seq<Tick>, i: nat, j: nat)
    requires Run(s, dryRun, sts, ticks) && i <= j < |ticks|
    ensures ticks[i].now <= ticks[j].now
  {
  }

  lemma {:induction false} LastEventIsLatest(s: ServiceSpec, dryRun: bool, sts: seq<ServiceState>,
                                             ticks: seq<Tick>, d: Direction, i: nat, n: nat)
    requires Run(s, dryRun, sts, ticks) && i < n <= |ticks|
    requires EventAt(s, dryRun, sts, ticks, i).Some? && EventAt(s, dryRun, sts, ticks, i).value.direction == d
    ensures var last := LastEvent(s, dryRun, sts, ticks, d, n); last.Some? && last.value >= ticks[i].now
  {
    hide Run, EventAt, LastEvent;
    var e := EventAt(s, dryRun, sts, ticks, n - 1);
    LastEventNext(s, dryRun, sts, ticks, d, n);
    if e.Some? && e.value.direction == d {
      EventTime(s, dryRun, sts, ticks, n - 1);
      TicksInOrder(s, dryRun, sts, ticks, i, n - 1);
    } else {
      LastEventIsLatest(s, dryRun, sts, ticks, d, i, n - 1);
    }
  }

  function CooldownOf(s: ServiceSpec, d: Direction): int {
    match d
    case Upscale => s.upscaleCooldown
    case Downscale => s.downscaleCooldown
  }

  /** Two events in one direction, unless the later one scales up from zero: the
      later one passed a clock reading a cooldown after the earlier one's time. */
  lemma CooldownRespected(s: ServiceSpec, dryRun: bool, sts: seq<ServiceState>, ticks: seq<Tick>, i: nat, j: nat)
    requires Run(s, dryRun, sts, ticks) && i < j < |ticks|
    requires EventAt(s, dryRun, sts, ticks, i).Some? && EventAt(s, dryRun, sts, ticks, j).Some?
    requires var d := EventAt(s, dryRun, sts, ticks, i).value.direction;
             EventAt(s, dryRun, sts, ticks, j).value.direction == d && !(d == Upscale && ticks[j].current == 0)
    ensures ticks[j].cooldownNow - ticks[i].now >= CooldownOf(s, EventAt(s, dryRun, sts, ticks, i).value.direction)
  {
    var d := EventAt(s, dryRun, sts, ticks, i).value.direction;
    TimesAreLastEvents(s, dryRun, sts, ticks, d, j);
    LastEventIsLatest(s, dryRun, sts, ticks, d, i, j);
  }

  // ------------------------------------------------------- exactly which events

  /** These are the bounds in force: those of the matching schedule entry, else the
      service's own. */
  predicate InForce(s: ServiceSpec, scheduled: Option<Bounds>, min: int, max: int) {
    && min <= max
    && match scheduled
       case Some(b) => b.min == min && b.max == max
       case None => s.minCount == min && s.maxCount == max
  }

  /** The count the policies wish for together, and where the bounds leave it. */
  predicate Goal(ds: seq<int>, min: int, max: int, wish: int, goal: int) {
    && wish >= 0 && (wish == 0 || wish in ds) && (forall d :: d in ds ==> d <= wish)
    && (wish < min ==> goal == min) && (wish > max ==> goal == max) && (min <= wish <= max ==> goal == wish)
  }

  /** One direction has waited for its cooldown since the time recorded for it, if there
      is one; a wake-up from zero need not. */
  predicate Waited(s: ServiceSpec, times: Option<Times>, current: int, goal: int, cooldownNow: int) {
    if goal > current then
      current == 0 || times == None || times.value.lastUpscaleTime == 0 ||
      cooldownNow >= times.value.lastUpscaleTime + s.upscaleCooldown
    else
      times == None || times.value.lastDownscaleTime == 0 ||
      cooldownNow >= times.value.lastDownscaleTime + s.downscaleCooldown
  }

  lemma GoalExists(s: ServiceSpec, st: ServiceState, t: Tick, min: int, max: int) returns (wish: int, goal: int)
    requires WellFormedState(st) && InForce(s, t.scheduled, min, max)
    ensures Goal(Opinions(st.policies, t.m, t.now, t.current), min, max, wish, goal)
    ensures Wanted(s, st, t) == if Opinions(st.policies, t.m, t.now, t.current) == [] then None else Some(goal)
  {
    var ds := Opinions(st.policies, t.m, t.now, t.current);
    wish := if ds == [] then 0 else Combined(ds);
    goal := Clamp(wish, min, max);
  }

  /** Exactly when a reconciliation is a scale event, and which: some policy has an
      opinion, the goal is not the present count, its direction has waited, and the call
      succeeds or is only pretended. */
  lemma EventIff(s: ServiceSpec, dryRun: bool, st: ServiceState, t: Tick, min: int, max: int) returns (wish: int, goal: int)
    requires WellFormedState(st) && InForce(s, t.scheduled, min, max)
    ensures Goal(Opinions(st.policies, t.m, t.now, t.current), min, max, wish, goal)
    ensures var out := Reconcile(s, dryRun, st, t);
      && (out.event.Some? <==>
            && Opinions(st.policies, t.m, t.now, t.current) != [] && goal != t.current
            && Waited(s, st.times, t.current, goal, t.cooldownNow) && (dryRun || t.scaleSucceeds))
      && (out.event.Some? ==>
            out.event.value == Event(t.now, if goal > t.current then Upscale else Downscale, t.current, goal))
      && out.count == if out.event.Some? && !dryRun then goal else t.current
  {
    wish, goal := GoalExists(s, st, t, min, max);
    hide Opinions, Wanted, Goal;
  }

  /** What a reconciliation leaves of the service: nothing has changed, or its window
      policies are all cut off at the event, whose time is recorded in its direction. */
  lemma StateAfter(s: ServiceSpec, dryRun: bool, st: ServiceState, t: Tick)
    requires WellFormedState(st)
    ensures var out := Reconcile(s, dryRun, st, t);
      && (out.event == None ==> out.state == st)
      && (out.event.Some? ==>
            && |out.state.policies| == |st.policies|
            && (forall i :: 0 <= i < |st.policies| ==>
                  out.state.policies[i] == match st.policies[i]
                                           case WindowState(c, _) => WindowState(c, t.now)
                                           case TargetState(target) => TargetState(target))
            && out.state.times.Some?
            && var before := if st.times == None then Times(0, 0) else st.times.value;
               out.state.times.value == if out.event.value.direction == Upscale then Times(t.now, before.lastDownscaleTime)
                                        else Times(before.lastUpscaleTime, t.now))
  {
    hide Wanted, CanScale;
  }

  /** Every event of every run ends within the schedule entry matched at its tick, or
      within the service's own bounds where none is, however the entries change. */
  lemma EventsWithinEntries(s: ServiceSpec, dryRun: bool, sts: seq<ServiceState>, ticks: seq<Tick>)
    requires Run(s, dryRun, sts, ticks) && s.minCount <= s.maxCount
    requires forall i :: 0 <= i < |ticks| && ticks[i].scheduled.Some? ==>
               ticks[i].scheduled.value.min <= ticks[i].scheduled.value.max
    ensures forall i {:trigger ticks[i]} :: 0 <= i < |ticks| && EventAt(s, dryRun, sts, ticks, i).Some? ==>
              var to := EventAt(s, dryRun, sts, ticks, i).value.to;
              match ticks[i].scheduled
              case Some(b) => b.min <= to <= b.max
              case None => s.minCount <= to <= s.maxCount
  {
    forall i | 0 <= i < |ticks| && EventAt(s, dryRun, sts, ticks, i).Some?
      ensures var to := EventAt(s, dryRun, sts, ticks, i).value.to;
              match ticks[i].scheduled
              case Some(b) => b.min <= to <= b.max
              case None => s.minCount <= to <= s.maxCount
    {
      var b := match ticks[i].scheduled case Some(b) => b case None => Bounds(s.minCount, s.maxCount);
      hide Reconcile, Opinions;
      var wish, goal := EventIff(s, dryRun, sts[i], ticks[i], b.min, b.max);
    }
  }

  lemma NoEventYet(s: ServiceSpec, dryRun: bool, sts: seq<ServiceState>, ticks: seq<Tick>, d: Direction)
    requires Run(s, dryRun, sts, ticks)
    ensures LastEvent(s, dryRun, sts, ticks, d, 0) == None
  {
  }

  lemma {:induction false} LastEventOccurred(s: ServiceSpec, dryRun: bool, sts: seq<ServiceState>, ticks: seq<Tick>,
                                             d: Direction, n: nat) returns (i: nat)
    requires Run(s, dryRun, sts, ticks) && n <= |ticks| && LastEvent(s, dryRun, sts, ticks, d, n).Some?
    ensures i < n && EventAt(s, dryRun, sts, ticks, i).Some? && EventAt(s, dryRun, sts, ticks, i).value.direction == d
    ensures LastEvent(s, dryRun, sts, ticks, d, n) == Some(ticks[i].now)
  {
    hide Run, EventAt, LastEvent;
    NoEventYet(s, dryRun, sts, ticks, d);
    LastEventNext(s, dryRun, sts, ticks, d, n);
    var e := EventAt(s, dryRun, sts, ticks, n - 1);
    if e.Some? && e.value.direction == d {
      EventTime(s, dryRun, sts, ticks, n - 1);
      i := n - 1;
    } else {
      i := LastEventOccurred(s, dryRun, sts, ticks, d, n - 1);
    }
  }

  /** No earlier event of the run in this direction is less than a cooldown ago. */
  ghost predicate CooledDown(s: ServiceSpec, dryRun: bool, sts: seq<ServiceState>, ticks: seq<Tick>, d: Direction, j: nat)
    requires Run(s, dryRun, sts, ticks) && j < |ticks|
  {
    forall i {:trigger ticks[i]} :: 0 <= i < j ==>
      var e := EventAt(s, dryRun, sts, ticks, i);
      e.Some? && e.value.direction == d ==> ticks[j].cooldownNow - ticks[i].now >= CooldownOf(s, d)
  }

  lemma CooledSince(s: ServiceSpec, dryRun: bool, sts: seq<ServiceState>, ticks: seq<Tick>, d: Direction, j: nat)
    requires Run(s, dryRun, sts, ticks) && j < |ticks|
    ensures var last := LastEvent(s, dryRun, sts, ticks, d, j);
            CooledDown(s, dryRun, sts, ticks, d, j) <==>
            (last == None || ticks[j].cooldownNow - last.value >= CooldownOf(s, d))
  {
    hide Run, EventAt, LastEvent;
    var last := LastEvent(s, dryRun, sts, ticks, d, j);
    if last.Some? {
      var i := LastEventOccurred(s, dryRun, sts, ticks, d, j);
      assert ticks[i].now == last.value;
    }
    forall i | 0 <= i < j && EventAt(s, dryRun, sts, ticks, i).Some? &&
               EventAt(s, dryRun, sts, ticks, i).value.direction == d
      ensures last.Some? && last.value >= ticks[i].now
    {
      LastEventIsLatest(s, dryRun, sts, ticks, d, i, j);
    }
  }

  lemma WaitedByTime(s: ServiceSpec, times: Option<Times>, current: int, goal: int, cooldownNow: int)
    ensures var d := if goal > current then Upscale else Downscale;
            Waited(s, times, current, goal, cooldownNow) <==>
            (d == Upscale && current == 0) || TimeIn(times, d) == None ||
            cooldownNow - TimeIn(times, d).value >= CooldownOf(s, d)
  {
  }

  /** Exactly when a tick of a run is a scale event: some policy has an opinion, the goal
      is not the present count, the call succeeds or is only pretended, and the service
      wakes up from zero or no event in the same direction is less than a cooldown ago. */
  lemma EventExactly(s: ServiceSpec, dryRun: bool, sts: seq<ServiceState>, ticks: seq<Tick>, j: nat, min: int, max: int)
    returns (wish: int, goal: int)
    requires Run(s, dryRun, sts, ticks) && j < |ticks| && InForce(s, ticks[j].scheduled, min, max)
    ensures Goal(Opinions(sts[j].policies, ticks[j].m, ticks[j].now, ticks[j].current), min, max, wish, goal)
    ensures EventAt(s, dryRun, sts, ticks, j).Some? <==>
            && Opinions(sts[j].policies, ticks[j].m, ticks[j].now, ticks[j].current) != [] && goal != ticks[j].current
            && (dryRun || ticks[j].scaleSucceeds)
            && ((goal > ticks[j].current == 0) ||
                CooledDown(s, dryRun, sts, ticks, if goal > ticks[j].current then Upscale else Downscale, j))
  {
    wish, goal := EventIff(s, dryRun, sts[j], ticks[j], min, max);
    var d := if goal > ticks[j].current then Upscale else Downscale;
    TimesAreLastEvents(s, dryRun, sts, ticks, d, j);
    CooledSince(s, dryRun, sts, ticks, d, j);
    WaitedByTime(s, sts[j].times, ticks[j].current, goal, ticks[j].cooldownNow);
    hide Reconcile, Opinions, Goal, Waited, CooledDown, LastEvent, TimeIn;
  }

  // ------------------------------------------------- when the count changes

  lemma CombinedAgainst(ds: seq<int>, current: int)
    requires ds != [] && current >= 0
    ensures Combined(ds) > current <==> exists d :: d in ds && d > current
    ensures Combined(ds) < current <==> current > 0 && forall d :: d in ds ==> d < current
  {
    var most := MaxOf(ds);
    assert most in ds;
    hide MaxOf;
  }

  lemma ClampedAgainst(ds: seq<int>, current: int, min: int, max: int)
    requires ds != [] && current >= 0 && 0 <= min <= max
    ensures Clamp(Combined(ds), min, max) > current <==>
            current < min || (current < max && exists d :: d in ds && d > current)
    ensures Clamp(Combined(ds), min, max) < current <==>
            max < current || (min < current && forall d :: d in ds ==> d < current)
  {
    hide Combined;
    CombinedAgainst(ds, current);
  }

  /** Exactly when a tick wants fewer: some policy has an opinion, and either the
      count is above the upper bound or all opinions agree on fewer and the lower
      bound leaves room. */
  lemma WantsFewerIff(s: ServiceSpec, st: ServiceState, t: Tick)
    requires WellFormedState(st) && t.current >= 0
    requires var b := ActiveBounds(s, t.scheduled); 0 <= b.min <= b.max
    ensures var b, wanted := ActiveBounds(s, t.scheduled), Wanted(s, st, t);
            var ds := Opinions(st.policies, t.m, t.now, t.current);
      (wanted.Some? && wanted.value < t.current) <==>
      (ds != [] && (b.max < t.current || (b.min < t.current && forall d :: d in ds ==> d < t.current)))
  {
    hide Opinions, Combined, Clamp, ActiveBounds;
    var ds, b := Opinions(st.policies, t.m, t.now, t.current), ActiveBounds(s, t.scheduled);
    if ds != [] { ClampedAgainst(ds, t.current, b.min, b.max); }
  }

  /** Exactly when a tick wants more. */
  lemma WantsMoreIff(s: ServiceSpec, st: ServiceState, t: Tick)
    requires WellFormedState(st) && t.current >= 0
    requires var b := ActiveBounds(s, t.scheduled); 0 <= b.min <= b.max
    ensures var b, wanted := ActiveBounds(s, t.scheduled), Wanted(s, st, t);
            var ds := Opinions(st.policies, t.m, t.now, t.current);
      (wanted.Some? && wanted.value > t.current) <==>
      (ds != [] && (t.current < b.min || (t.current < b.max && exists d :: d in ds && d > t.current)))
  {
    hide Opinions, Combined, Clamp, ActiveBounds;
    var ds, b := Opinions(st.policies, t.m, t.now, t.current), ActiveBounds(s, t.scheduled);
    if ds != [] { ClampedAgainst(ds, t.current, b.min, b.max); }
  }

  ghost predicate PositiveSteps(st: ServiceState) {
    forall p :: p in st.policies ==> PositiveStepsOf(p)
  }

  lemma StepKeepsPositive(s: ServiceSpec, dryRun: bool, st: ServiceState, t: Tick)
    requires WellFormedState(st) && PositiveSteps(st)
    ensures PositiveSteps(Reconcile(s, dryRun, st, t).state)
  {
    forall p | p in ResetAll(st.policies, t.now) ensures PositiveStepsOf(p) {
      var i :| 0 <= i < |st.policies| && ResetAll(st.policies, t.now)[i] == p;
      assert st.policies[i] in st.policies;
    }
  }

  lemma {:induction false} KeepsPositive(s: ServiceSpec, dryRun: bool, sts: seq<ServiceState>, ticks: seq<Tick>, i: nat)
    requires Run(s, dryRun, sts, ticks) && PositiveSteps(sts[0]) && i < |sts|
    ensures PositiveSteps(sts[i])
  {
    if i > 0 {
      KeepsPositive(s, dryRun, sts, ticks, i - 1);
      StepKeepsPositive(s, dryRun, sts[i - 1], ticks[i - 1]);
    }
  }

  /** The samples the policy sees in the store sustain the threshold. */
  ghost predicate SustainedIn(m: Store, p: PolicyState, d: Direction, th: Threshold, now: int)
    requires p.WindowState?
  {
    Sustained(p.config.bucketDuration, d, th, Visible(m, p.config.Key()), now, p.cutoff)
  }

  /** So they do at the tick, where they are in order. */
  ghost predicate SustainedAt(t: Tick, p: PolicyState, d: Direction, th: Threshold)
    requires p.WindowState?
  {
    Sorted(Visible(t.m, p.config.Key())) ==> SustainedIn(t.m, p, d, th, t.now)
  }

  lemma BreachSustained(st: ServiceState, t: Tick, p: PolicyState, d: Direction, th: Threshold)
    requires BreachAt(st, t, p, d, th)
    ensures SustainedAt(t, p, d, th)
  {
    var seen := Visible(t.m, p.config.Key());
    hide Breach, Sustained, Visible, Sorted;
    if Sorted(seen) { BreachIff(p.config, d, th, seen, t.now, p.cutoff); }
  }

  /** Every policy that has an opinion is for fewer, and every window policy with a
      downscale direction saw a complete window, each bucket strictly below its threshold. */
  ghost predicate Unanimous(st: ServiceState, t: Tick)
    requires WellFormedState(st)
  {
    && (forall p :: p in st.policies && Opinion(p, t.m, t.now, t.current).Some? ==>
          Opinion(p, t.m, t.now, t.current).value < t.current)
    && (forall p :: p in st.policies && p.WindowState? && p.config.downscale.Some? ==>
          && BreachAt(st, t, p, Downscale, p.config.downscale.value)
          && SustainedAt(t, p, Downscale, p.config.downscale.value))
  }

  /** Every downscale of every run, from a count within the upper bound, is
      unanimous: a window policy with a downscale direction never abstains. */
  lemma DownscaleUnanimous(s: ServiceSpec, dryRun: bool, sts: seq<ServiceState>, ticks: seq<Tick>, i: nat)
    requires Run(s, dryRun, sts, ticks) && PositiveSteps(sts[0]) && i < |ticks|
    requires var b := ActiveBounds(s, ticks[i].scheduled); 0 <= b.min <= b.max && ticks[i].current <= b.max
    requires var e := EventAt(s, dryRun, sts, ticks, i); e.Some? && e.value.direction == Downscale
    ensures Unanimous(sts[i], ticks[i])
  {
    KeepsPositive(s, dryRun, sts, ticks, i);
    UnanimousStep(s, dryRun, sts[i], ticks[i]);
  }

  lemma UnanimousStep(s: ServiceSpec, dryRun: bool, st: ServiceState, t: Tick)
    requires WellFormedState(st) && PositiveSteps(st) && t.current >= 0
    requires var b := ActiveBounds(s, t.scheduled); 0 <= b.min <= b.max && t.current <= b.max
    requires var e := Reconcile(s, dryRun, st, t).event; e.Some? && e.value.direction == Downscale
    ensures Unanimous(st, t)
  {
    WantsFewerIff(s, st, t);
    OpinionsMeaning(st.policies, t.m, t.now, t.current);
    forall p | p in st.policies && p.WindowState? && p.config.downscale.Some?
      ensures BreachAt(st, t, p, Downscale, p.config.downscale.value)
      ensures SustainedAt(t, p, Downscale, p.config.downscale.value)
    {
      assert PositiveStepsOf(p) && WellFormed(p) && Opinion(p, t.m, t.now, t.current).Some?;
      assert Opinion(p, t.m, t.now, t.current).value < t.current;
      BreachSustained(st, t, p, Downscale, p.config.downscale.value);
    }
  }

  // ---------------------------------------------------------------- bounds

  /** Counts follow the events, without outside changes and with fixed bounds. */
  ghost predicate Undisturbed(s: ServiceSpec, dryRun: bool, sts: seq<ServiceState>, ticks: seq<Tick>)
    requires Run(s, dryRun, sts, ticks)
  {
    && 0 <= s.minCount <= s.maxCount
    && (forall i :: 0 <= i < |ticks| ==> ticks[i].scheduled == None)
    && (forall i {:trigger sts[i]} :: 0 <= i < |ticks| - 1 ==>
          ticks[i + 1].current == Reconcile(s, dryRun, sts[i], ticks[i]).count)
    && (|ticks| > 0 ==> s.minCount <= ticks[0].current <= s.maxCount)
  }

  /** A run that starts within bounds stays within bounds. */
  lemma {:induction false} StaysInBounds(s: ServiceSpec, dryRun: bool, sts: seq<ServiceState>, ticks: seq<Tick>, i: nat)
    requires Run(s, dryRun, sts, ticks) && Undisturbed(s, dryRun, sts, ticks) && i < |ticks|
    ensures s.minCount <= ticks[i].current <= s.maxCount
    ensures s.minCount <= Reconcile(s, dryRun, sts[i], ticks[i]).count <= s.maxCount
  {
    if i > 0 {
      StaysInBounds(s, dryRun, sts, ticks, i - 1);
      assert ticks[i - 1 + 1].current == Reconcile(s, dryRun, sts[i - 1], ticks[i - 1]).count;
    }
  }

  // ------------------------------------------------------------- rate bound

  /** Window policies only, each window exact and at least `sustained` long, each
      step positive and at most `step`. */
  ghost predicate WindowsOnly(st: ServiceState, sustained: int, step: int) {
    forall p :: p in st.policies ==>
      && p.WindowState? && p.config.bucketDuration > 0
      && (p.config.upscale.Some? ==> WindowWithin(p.config, p.config.upscale.value, sustained, step))
      && (p.config.downscale.Some? ==> WindowWithin(p.config, p.config.downscale.value, sustained, step))
  }

  ghost predicate WindowWithin(c: WindowConfig, t: Threshold, sustained: int, step: int)
    requires c.bucketDuration != 0
  {
    sustained <= t.sustainedFor == c.Required(t) * c.bucketDuration && 0 < t.step <= step
  }

  lemma StepKeepsWindows(s: ServiceSpec, dryRun: bool, st: ServiceState, t: Tick, sustained: int, step: int)
    requires WellFormedState(st) && WindowsOnly(st, sustained, step)
    ensures WindowsOnly(Reconcile(s, dryRun, st, t).state, sustained, step)
  {
    forall p | p in ResetAll(st.policies, t.now) ensures exists q :: q in st.policies && p == ResetAt(q, t.now) {
      var i :| 0 <= i < |st.policies| && ResetAll(st.policies, t.now)[i] == p;
      assert st.policies[i] in st.policies;
    }
  }

  lemma {:induction false} KeepsWindows(s: ServiceSpec, dryRun: bool, sts: seq<ServiceState>, ticks: seq<Tick>,
                                        sustained: int, step: int, i: nat)
    requires Run(s, dryRun, sts, ticks) && WindowsOnly(sts[0], sustained, step) && i < |sts|
    ensures WindowsOnly(sts[i], sustained, step)
  {
    if i > 0 {
      KeepsWindows(s, dryRun, sts, ticks, sustained, step, i - 1);
      StepKeepsWindows(s, dryRun, sts[i - 1], ticks[i - 1], sustained, step);
    }
  }

  /** In bounds, an event rests on a breach: clamping alone never causes one. */
  lemma EventHasBreach(s: ServiceSpec, dryRun: bool, st: ServiceState, t: Tick, sustained: int, step: int)
    returns (p: PolicyState, d: Direction, th: Threshold)
    requires WellFormedState(st) && WindowsOnly(st, sustained, step)
    requires var b := ActiveBounds(s, t.scheduled); 0 <= b.min <= t.current <= b.max
    requires Reconcile(s, dryRun, st, t).event.Some?
    ensures BreachAt(st, t, p, d, th) && WindowWithin(p.config, th, sustained, step)
  {
    var ds := Opinions(st.policies, t.m, t.now, t.current);
    OpinionsMeaning(st.policies, t.m, t.now, t.current);
    var wanted := MaxOf(ds);
    p :| p in st.policies && Opinion(p, t.m, t.now, t.current) == Some(wanted);
    d := if wanted > t.current then Upscale else Downscale;
    th := if d == Upscale then p.config.upscale.value else p.config.downscale.value;
  }

  /** One event moves the count by at most the largest step. */
  lemma EventWithinStep(s: ServiceSpec, dryRun: bool, st: ServiceState, t: Tick, sustained: int, step: int)
    requires WellFormedState(st) && WindowsOnly(st, sustained, step) && step >= 0
    requires t.scheduled == None && 0 <= s.minCount <= t.current <= s.maxCount
    ensures var out := Reconcile(s, dryRun, st, t);
            -step <= out.count - t.current <= step && (out.event == None ==> out.count == t.current)
  {
    var ds := Opinions(st.policies, t.m, t.now, t.current);
    OpinionsMeaning(st.policies, t.m, t.now, t.current);
    forall d | d in ds ensures t.current - step <= d <= t.current + step {
      var p :| p in st.policies && Opinion(p, t.m, t.now, t.current) == Some(d);
    }
  }

  /** Two events are at least the shortest configured window apart. */
  lemma EventsApart(s: ServiceSpec, dryRun: bool, sts: seq<ServiceState>, ticks: seq<Tick>, sustained: int,
                    step: int, i: nat, j: nat)
    requires Run(s, dryRun, sts, ticks) && Undisturbed(s, dryRun, sts, ticks) && WindowsOnly(sts[0], sustained, step)
    requires i < j < |ticks|
    requires EventAt(s, dryRun, sts, ticks, i).Some? && EventAt(s, dryRun, sts, ticks, j).Some?
    ensures ticks[j].now - ticks[i].now >= sustained
  {
    KeepsWindows(s, dryRun, sts, ticks, sustained, step, j);
    StaysInBounds(s, dryRun, sts, ticks, j);
    var p, d, th := EventHasBreach(s, dryRun, sts[j], ticks[j], sustained, step);
    CutoffsHold(s, dryRun, sts, ticks, i, j);
    BreachWindow(p.config, d, th, Visible(ticks[j].m, p.config.Key()), ticks[j].now, p.cutoff);
  }

  // Counting, apart from what is counted.

  function Count(flags: seq<bool>, n: nat): nat
    requires n <= |flags|
  {
    if n == 0 then 0 else Count(flags, n - 1) + if flags[n - 1] then 1 else 0
  }

  function Between(flags: seq<bool>, i: nat, j: nat): int
    requires i <= |flags| && j <= |flags|
  {
    Count(flags, j) - Count(flags, i)
  }

  lemma {:induction false} PreviousFlag(flags: seq<bool>, i: nat, j: nat) returns (k: nat)
    requires i < j <= |flags| && flags[i]
    ensures i <= k < j && flags[k] && Count(flags, j) == Count(flags, k) + 1
    decreases j
  {
    if flags[j - 1] {
      k := j - 1;
    } else {
      k := PreviousFlag(flags, i, j - 1);
    }
  }

  /** Flagged moments that are pairwise a gap apart are as many gaps apart as there
      are flags between them. */
  lemma {:induction false} GapsAddUp(flags: seq<bool>, times: seq<int>, gap: int, i: nat, j: nat)
    requires |times| == |flags| && i <= j < |flags| && flags[i] && flags[j]
    requires Apart(flags, times, gap)
    ensures times[j] - times[i] >= Between(flags, i, j) * gap
    decreases j
  {
    if i < j {
      var k := PreviousFlag(flags, i, j);
      GapsAddUp(flags, times, gap, i, k);
      var n := Between(flags, i, k);
      assert (n + 1) * gap == n * gap + gap;
      assert Between(flags, i, j) == n + 1;
    }
  }

  /** Counts that move by at most a step at each flag, and not otherwise, are at most
      as many steps off as there are flags. */
  lemma {:induction false} StepsAddUp(flags: seq<bool>, counts: seq<int>, step: int, n: nat)
    requires |counts| == |flags| + 1 && n <= |flags|
    requires forall i :: 0 <= i < |flags| ==>
               if flags[i] then -step <= counts[i + 1] - counts[i] <= step else counts[i + 1] == counts[i]
    ensures -(Count(flags, n) * step) <= counts[n] - counts[0] <= Count(flags, n) * step
  {
    if n > 0 {
      StepsAddUp(flags, counts, step, n - 1);
      var k := Count(flags, n - 1);
      assert (k + 1) * step == k * step + step;
    }
  }

  /** Which ticks of a run were scale events. */
  ghost function EventFlags(s: ServiceSpec, dryRun: bool, sts: seq<ServiceState>, ticks: seq<Tick>): seq<bool>
    requires Run(s, dryRun, sts, ticks)
  {
    seq(|ticks|, i requires 0 <= i < |ticks| => EventAt(s, dryRun, sts, ticks, i).Some?)
  }

  /** The count after tick `i`. */
  ghost function CountAfter(s: ServiceSpec, dryRun: bool, sts: seq<ServiceState>, ticks: seq<Tick>, i: nat): int
    requires Run(s, dryRun, sts, ticks) && i < |ticks|
  {
    Reconcile(s, dryRun, sts[i], ticks[i]).count
  }

  /** Rate bound, in time: k events of a service with window policies only take at
      least k - 1 times the shortest configured window. */
  lemma EventsTakeTime(s: ServiceSpec, dryRun: bool, sts: seq<ServiceState>, ticks: seq<Tick>, sustained: int,
                       step: int, i: nat, j: nat)
    requires Run(s, dryRun, sts, ticks) && Undisturbed(s, dryRun, sts, ticks) && WindowsOnly(sts[0], sustained, step)
    requires i <= j < |ticks|
    requires EventAt(s, dryRun, sts, ticks, i).Some? && EventAt(s, dryRun, sts, ticks, j).Some?
    ensures var flags := EventFlags(s, dryRun, sts, ticks);
            ticks[j].now - ticks[i].now >= Between(flags, i, j) * sustained
  {
    hide Run, Undisturbed, WindowsOnly, Reconcile;
    var flags := EventFlags(s, dryRun, sts, ticks);
    var times := TickTimes(ticks);
    FlagsApart(s, dryRun, sts, ticks, sustained, step);
    assert times[i] == ticks[i].now && times[j] == ticks[j].now;
    GapsAddUp(flags, times, sustained, i, j);
  }

  function TickTimes(ticks: seq<Tick>): seq<int> { seq(|ticks|, k requires 0 <= k < |ticks| => ticks[k].now) }

  ghost predicate Apart(flags: seq<bool>, times: seq<int>, gap: int)
    requires |times| == |flags|
  {
    forall a, b :: 0 <= a < b < |flags| && flags[a] && flags[b] ==> times[b] - times[a] >= gap
  }

  lemma FlagsApart(s: ServiceSpec, dryRun: bool, sts: seq<ServiceState>, ticks: seq<Tick>, sustained: int, step: int)
    requires Run(s, dryRun, sts, ticks) && Undisturbed(s, dryRun, sts, ticks) && WindowsOnly(sts[0], sustained, step)
    ensures Apart(EventFlags(s, dryRun, sts, ticks), TickTimes(ticks), sustained)
  {
    var flags, times := EventFlags(s, dryRun, sts, ticks), TickTimes(ticks);
    forall a, b | 0 <= a < b < |flags| && flags[a] && flags[b] ensures times[b] - times[a] >= sustained {
      EventsApart(s, dryRun, sts, ticks, sustained, step, a, b);
    }
  }

  lemma OneTickMoves(s: ServiceSpec, dryRun: bool, sts: seq<ServiceState>, ticks: seq<Tick>, sustained: int,
                     step: int, i: nat)
    requires Run(s, dryRun, sts, ticks) && Undisturbed(s, dryRun, sts, ticks) && WindowsOnly(sts[0], sustained, step)
    requires i < |ticks| && step >= 0
    ensures var moved := CountAfter(s, dryRun, sts, ticks, i) - ticks[i].current;
            if EventAt(s, dryRun, sts, ticks, i).Some? then -step <= moved <= step else moved == 0
  {
    KeepsWindows(s, dryRun, sts, ticks, sustained, step, i);
    StaysInBounds(s, dryRun, sts, ticks, i);
    EventWithinStep(s, dryRun, sts[i], ticks[i], sustained, step);
  }

  lemma CurrentFollows(s: ServiceSpec, dryRun: bool, sts: seq<ServiceState>, ticks: seq<Tick>, i: nat)
    requires Run(s, dryRun, sts, ticks) && Undisturbed(s, dryRun, sts, ticks) && i + 1 < |ticks|
    ensures ticks[i + 1].current == CountAfter(s, dryRun, sts, ticks, i)
  {
    assert ticks[i + 1].current == Reconcile(s, dryRun, sts[i], ticks[i]).count;
  }

  /** Rate bound, in instances: k events move the count by at most k largest steps. */
  lemma DriftBounded(s: ServiceSpec, dryRun: bool, sts: seq<ServiceState>, ticks: seq<Tick>, sustained: int, step: int)
    requires Run(s, dryRun, sts, ticks) && Undisturbed(s, dryRun, sts, ticks) && WindowsOnly(sts[0], sustained, step)
    requires ticks != [] && step >= 0
    ensures var flags, n := EventFlags(s, dryRun, sts, ticks), |ticks|;
            var drift := CountAfter(s, dryRun, sts, ticks, n - 1) - ticks[0].current;
            -(Count(flags, n) * step) <= drift <= Count(flags, n) * step
  {
    var flags, n := EventFlags(s, dryRun, sts, ticks), |ticks|;
    var counts := seq(n + 1, k requires 0 <= k <= n =>
      if k < n then ticks[k].current else CountAfter(s, dryRun, sts, ticks, n - 1));
    forall i | 0 <= i < n
      ensures if flags[i] then -step <= counts[i + 1] - counts[i] <= step else counts[i + 1] == counts[i]
    {
      OneTickMoves(s, dryRun, sts, ticks, sustained, step, i);
      if i + 1 < n { CurrentFollows(s, dryRun, sts, ticks, i); }
      assert counts[i + 1] == CountAfter(s, dryRun, sts, ticks, i);
    }
    StepsAddUp(flags, counts, step, n);
  }

  // ------------------------------------------------- the bounds are attained

  function ThresholdFor(c: WindowConfig, d: Direction): Option<Threshold> {
    match d
    case Upscale => c.upscale
    case Downscale => c.downscale
  }

  function CountTo(current: int, d: Direction, step: int): int { if d == Upscale then current + step else current - step }

  /** A single policy's decision within bounds, with no cooldown, is the event. */
  lemma DecisionIsEvent(s: ServiceSpec, c: WindowConfig, d: Direction, step: int, cutoff: int,
                        times: Option<Times>, t: Tick)
    requires c.bucketDuration > 0 && step > 0
    requires Decision(c, Visible(t.m, c.Key()), t.now, cutoff, t.current) == Some(CountTo(t.current, d, step))
    requires t.scheduled == None && t.scaleSucceeds && CanScale(s, times, t.current, d, t.cooldownNow)
    requires 0 <= s.minCount <= CountTo(t.current, d, step) <= s.maxCount
    ensures Reconcile(s, false, ServiceState([WindowState(c, cutoff)], times), t) ==
            Outcome(ServiceState([WindowState(c, t.now)], Some(RecordTime(times, d, t.now))), CountTo(t.current, d, step),
                    Some(Event(t.now, d, t.current, CountTo(t.current, d, step))))
  {
    var ps, to := [WindowState(c, cutoff)], CountTo(t.current, d, step);
    hide Decision, CanScale;
    assert ps[..0] == [];
    assert Opinion(ps[0], t.m, t.now, t.current) == Some(to);
    assert Opinions(ps, t.m, t.now, t.current) == [to];
    assert ResetAll(ps, t.now) == [WindowState(c, t.now)];
  }

  /** A value for which the policy decides in this direction. */
  function Extreme(c: WindowConfig, d: Direction): real
    requires ThresholdFor(c, d).Some?
  {
    match d
    case Upscale => c.upscale.value.threshold + 1.0
    case Downscale => Low(c)
  }

  /** Every bucket of the direction's window shows the extreme value. */
  function FullWindow(c: WindowConfig, d: Direction, now: int): seq<Sample>
    requires c.bucketDuration > 0 && ThresholdFor(c, d).Some? && c.Required(ThresholdFor(c, d).value) > 0
  {
    var n := c.Required(ThresholdFor(c, d).value);
    Ramp(Extreme(c, d), OldestStart(now, c.bucketDuration, n), c.bucketDuration, n)
  }

  lemma FullWindowDecides(c: WindowConfig, d: Direction, now: int, current: int, cutoff: int)
    requires c.bucketDuration > 0 && ThresholdFor(c, d).Some? && c.Required(ThresholdFor(c, d).value) > 0
    requires cutoff == 0 || cutoff <= OldestStart(now, c.bucketDuration, c.Required(ThresholdFor(c, d).value))
    requires c.upscale.Some? ==> c.Required(c.upscale.value) > 0
    ensures Decision(c, FullWindow(c, d, now), now, cutoff, current) ==
            Some(CountTo(current, d, ThresholdFor(c, d).value.step))
  {
    var th := ThresholdFor(c, d).value;
    RampBreaches(c, d, th, Extreme(c, d), now, cutoff);
    hide Query;
    if d == Downscale && c.upscale.Some? && Breach(c, Upscale, c.upscale.value, FullWindow(c, d, now), now, cutoff) {
      UniformBreach(c, Upscale, c.upscale.value, FullWindow(c, d, now), Low(c), now, cutoff);
    }
  }

  ghost predicate AsksForChange(c: WindowConfig, values: seq<Sample>, now: int, cutoff: int, current: int)
    requires c.bucketDuration != 0
  {
    var d := Decision(c, values, now, cutoff, current);
    d.Some? && d.value != current
  }

  ghost predicate EverAsksForChange(c: WindowConfig)
    requires c.bucketDuration != 0
  {
    exists values, now, cutoff, current :: AsksForChange(c, values, now, cutoff, current)
  }

  /** Of policies whose windows are exact, those with a direction, and no others, can
      ever ask for a change. */
  lemma DirectionNeeded(c: WindowConfig)
    requires c.bucketDuration > 0
    requires c.upscale.Some? ==> c.Required(c.upscale.value) > 0 && c.upscale.value.step > 0
    requires c.downscale.Some? ==> c.Required(c.downscale.value) > 0 && c.downscale.value.step > 0
    ensures EverAsksForChange(c) <==> c.upscale.Some? || c.downscale.Some?
  {
    if c.upscale.Some? || c.downscale.Some? {
      var d := if c.upscale.Some? then Upscale else Downscale;
      FullWindowDecides(c, d, 0, 0, 0);
      assert AsksForChange(c, FullWindow(c, d, 0), 0, 0, 0);
    }
  }

  function TickAt(c: WindowConfig, d: Direction, now: int, current: int): Tick
    requires c.bucketDuration > 0 && ThresholdFor(c, d).Some? && c.Required(ThresholdFor(c, d).value) > 0
  {
    Tick(now, now, None, map[c.Key() := FullWindow(c, d, now)], current, true)
  }

  lemma FullWindowVisible(c: WindowConfig, d: Direction, now: int, current: int)
    requires c.bucketDuration > 0 && ThresholdFor(c, d).Some? && c.Required(ThresholdFor(c, d).value) > 0
    ensures Visible(TickAt(c, d, now, current).m, c.Key()) == FullWindow(c, d, now)
  {
  }

  lemma WholeWindows(width: int, n: nat, k: int)
    requires width > 0
    ensures OldestStart(k * (n * width), width, n) == (k - 1) * (n * width)
  {
    assert k * (n * width) == (k * n) * width;
    RestOfMultiple(k * n, width, 0);
  }

  /** The direction is configured, and the policy's windows are exact, at least
      `sustained` long, with steps of at most `step`. */
  ghost predicate Attains(c: WindowConfig, d: Direction, sustained: int, step: int) {
    && c.bucketDuration > 0 && ThresholdFor(c, d).Some?
    && (c.upscale.Some? ==> WindowWithin(c, c.upscale.value, sustained, step) && c.Required(c.upscale.value) > 0)
    && (c.downscale.Some? ==> WindowWithin(c, c.downscale.value, sustained, step) && c.Required(c.downscale.value) > 0)
  }

  ghost predicate MovesBy(s: ServiceSpec, st: ServiceState, t: Tick, d: Direction, step: int) {
    && WellFormedState(st)
    && var out := Reconcile(s, false, st, t);
       out.event.Some? && out.count == CountTo(t.current, d, step)
  }

  lemma TwoEvents(s: ServiceSpec, c: WindowConfig, d: Direction, start: int) returns (sts: seq<ServiceState>,
                  ticks: seq<Tick>)
    requires c.bucketDuration > 0 && ThresholdFor(c, d).Some? && (c.upscale.Some? ==> c.Required(c.upscale.value) > 0)
    requires var th := ThresholdFor(c, d).value;
      && c.Required(th) > 0 && th.step > 0 && start == (if d == Upscale then 0 else 2 * th.step)
      && s == ServiceSpec("service", "service", 0, 2 * th.step, 0, 0)
    ensures Run(s, false, sts, ticks) && |ticks| == 2 && sts[0] == ServiceState([WindowState(c, 0)], None)
    ensures ticks[0].scheduled == None && ticks[1].scheduled == None && ticks[0].current == start
    ensures ticks[1].now - ticks[0].now == c.Required(ThresholdFor(c, d).value) * c.bucketDuration
    ensures var step := ThresholdFor(c, d).value.step;
      && MovesBy(s, sts[0], ticks[0], d, step) && MovesBy(s, sts[1], ticks[1], d, step)
      && ticks[1].current == CountTo(start, d, step)
  {
    var th := ThresholdFor(c, d).value;
    var window := c.Required(th) * c.bucketDuration;
    assert window > 0;
    WholeWindows(c.bucketDuration, c.Required(th), 2);
    var mid := CountTo(start, d, th.step);
    var times := Some(RecordTime(None, d, window));
    assert CanScale(s, None, start, d, window) && CanScale(s, times, mid, d, 2 * window);
    hide CanScale, RecordTime, MovesBy, Reconcile, OldestStart;
    TickMoves(s, c, d, 0, None, window, start);
    TickMoves(s, c, d, window, times, 2 * window, mid);
    var t0, t1 := TickAt(c, d, window, start), TickAt(c, d, 2 * window, mid);
    var st0, st1 := ServiceState([WindowState(c, 0)], None), ServiceState([WindowState(c, window)], times);
    var st2 := ServiceState([WindowState(c, 2 * window)], Some(RecordTime(times, d, 2 * window)));
    ticks, sts := [t0, t1], [st0, st1, st2];
    RunOfTwoTicks(s, st0, t0, st1, t1, st2);
  }

  /** A full window moves the count by one step of its direction. */
  lemma TickMoves(s: ServiceSpec, c: WindowConfig, d: Direction, cutoff: int, times: Option<Times>, now: int, current: int)
    requires c.bucketDuration > 0 && ThresholdFor(c, d).Some? && (c.upscale.Some? ==> c.Required(c.upscale.value) > 0)
    requires c.Required(ThresholdFor(c, d).value) > 0 && ThresholdFor(c, d).value.step > 0
    requires cutoff == 0 || cutoff <= OldestStart(now, c.bucketDuration, c.Required(ThresholdFor(c, d).value))
    requires CanScale(s, times, current, d, now)
    requires 0 <= s.minCount <= CountTo(current, d, ThresholdFor(c, d).value.step) <= s.maxCount
    ensures var st, t := ServiceState([WindowState(c, cutoff)], times), TickAt(c, d, now, current);
      && MovesBy(s, st, t, d, ThresholdFor(c, d).value.step)
      && Reconcile(s, false, st, t).state == ServiceState([WindowState(c, now)], Some(RecordTime(times, d, now)))
  {
    FullWindowDecides(c, d, now, current, cutoff);
    FullWindowVisible(c, d, now, current);
    hide Decision, FullWindow, OldestStart, Visible, CanScale, RecordTime;
    DecisionIsEvent(s, c, d, ThresholdFor(c, d).value.step, cutoff, times, TickAt(c, d, now, current));
    hide Reconcile;
  }

  /** Both rate bounds are attained: for either direction of any policy there is a run
      whose two events are exactly that direction's window apart and move the count by
      two of its steps, so that no bound beyond the shortest window and the largest
      step can be better. */
  lemma RateBoundAttained(c: WindowConfig, d: Direction, sustained: int, step: int)
    returns (s: ServiceSpec, sts: seq<ServiceState>, ticks: seq<Tick>)
    requires Attains(c, d, sustained, step)
    ensures Run(s, false, sts, ticks) && Undisturbed(s, false, sts, ticks)
    ensures WindowsOnly(sts[0], sustained, step) && |ticks| == 2
    ensures EventAt(s, false, sts, ticks, 0).Some? && EventAt(s, false, sts, ticks, 1).Some?
    ensures ticks[1].now - ticks[0].now == ThresholdFor(c, d).value.sustainedFor
    ensures CountAfter(s, false, sts, ticks, 1) - ticks[0].current == CountTo(0, d, 2 * ThresholdFor(c, d).value.step)
  {
    var th := ThresholdFor(c, d).value;
    s := ServiceSpec("service", "service", 0, 2 * th.step, 0, 0);
    sts, ticks := TwoEvents(s, c, d, if d == Upscale then 0 else 2 * th.step);
    hide Run, Reconcile;
    TwoUndisturbed(s, sts, ticks);
    OneWindowPolicy(c, sustained, step);
  }

  lemma TwoUndisturbed(s: ServiceSpec, sts: seq<ServiceState>, ticks: seq<Tick>)
    requires Run(s, false, sts, ticks) && |ticks| == 2 && 0 <= s.minCount <= ticks[0].current <= s.maxCount
    requires ticks[0].scheduled == None && ticks[1].scheduled == None
    requires ticks[1].current == CountAfter(s, false, sts, ticks, 0)
    ensures Undisturbed(s, false, sts, ticks)
  {
    hide Reconcile;
  }

  lemma OneWindowPolicy(c: WindowConfig, sustained: int, step: int)
    requires c.bucketDuration > 0
    requires c.upscale.Some? ==> WindowWithin(c, c.upscale.value, sustained, step)
    requires c.downscale.Some? ==> WindowWithin(c, c.downscale.value, sustained, step)
    ensures WindowsOnly(ServiceState([WindowState(c, 0)], None), sustained, step)
  {
  }

  lemma RunOfTwoTicks(s: ServiceSpec, st0: ServiceState, t0: Tick, st1: ServiceState, t1: Tick, st2: ServiceState)
    requires Fresh(st0) && Monotone([t0, t1])
    requires WellFormedState(st0) && WellFormedState(st1) && WellFormedState(st2)
    requires Reconcile(s, false, st0, t0).state == st1 && Reconcile(s, false, st1, t1).state == st2
    ensures Run(s, false, [st0, st1, st2], [t0, t1])
  {
  }
}
