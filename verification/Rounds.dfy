/** Successive ticks of the reconciler, service by service: what each service goes
    through is a run of Runs, in which the counts follow the events. */
module Rounds {
  import opened Samples
  import opened StoreModel
  import opened StoreRuns
  import opened Decisions
  import opened Reconciler
  import R = Runs

  predicate DistinctIdentifiers(services: seq<Service>) {
    forall i, j :: 0 <= i < |services| && 0 <= j < |services| && i != j ==>
      services[i].spec.identifier != services[j].spec.identifier
  }

  /** The event of a service, and nothing else, moves the count of its identifier. */
  lemma {:induction false} CountsAfterEvents(counts: map<string, int>, services: seq<Service>, events: seq<Option<Event>>,
                                             dryRun: bool, k: nat)
    requires DistinctIdentifiers(services) && |events| <= |services| && k < |services|
    ensures CountOf(CountsAfter(counts, services, events, dryRun), services[k].spec.identifier) ==
            if k < |events| && events[k].Some? && !dryRun then events[k].value.to
            else CountOf(counts, services[k].spec.identifier)
  {
    if events != [] { CountsAfterEvents(counts, services, events[..|events| - 1], dryRun, k); }
  }

  lemma TurnOf(lim: Limits, services: seq<Service>, inputs: seq<ServiceInput>, dryRun: bool,
               first: World, p: Progress, last: World, k: nat)
    requires Progressed(lim, services, inputs, dryRun, first, p, last) && k < |p.ticks|
    ensures |p.events| == |p.ticks| <= |services| == |first.services| == |last.services| == |inputs|
    ensures SteppedAlone(services[k].spec, dryRun, first.services[k], p.ticks[k], last.services[k], p.events[k])
    ensures p.ticks[k].current == CountOf(first.counts, services[k].spec.identifier)
    ensures p.ticks[k].now == inputs[k].now && p.ticks[k].cooldownNow == inputs[k].cooldownNow
    ensures last.counts == CountsAfter(first.counts, services, p.events, dryRun)
  {
    hide Trace, CountsAfter, FromTo, SteppedAlone;
    assert TickTaken(p.stores, inputs, k, p.ticks[k], CountOf(first.counts, services[k].spec.identifier));
  }

  lemma OutcomeCount(s: ServiceSpec, dryRun: bool, st: ServiceState, t: Tick)
    requires WellFormedState(st)
    ensures var out := Reconcile(s, dryRun, st, t);
            out.count == if out.event.Some? && !dryRun then out.event.value.to else t.current
  {
    hide Wanted, CanScale;
  }

  /** After its turn a service's count is what its event left, other services' events
      notwithstanding. */
  lemma CountAfterTurn(lim: Limits, services: seq<Service>, inputs: seq<ServiceInput>, dryRun: bool,
                       first: World, p: Progress, last: World, k: nat)
    requires Progressed(lim, services, inputs, dryRun, first, p, last) && k < |p.ticks| && DistinctIdentifiers(services)
    ensures |p.events| == |p.ticks| <= |services| == |first.services| && WellFormedState(first.services[k])
    ensures CountOf(last.counts, services[k].spec.identifier) ==
            if p.events[k].Some? && !dryRun then p.events[k].value.to else p.ticks[k].current
    ensures CountOf(last.counts, services[k].spec.identifier) ==
            Reconcile(services[k].spec, dryRun, first.services[k], p.ticks[k]).count
  {
    TurnOf(lim, services, inputs, dryRun, first, p, last, k);
    CountsAfterEvents(first.counts, services, p.events, dryRun, k);
    hide Progressed, CountsAfter, CountOf, DistinctIdentifiers, Reconcile;
    OutcomeCount(services[k].spec, dryRun, first.services[k], p.ticks[k]);
  }

  /** Two successive ticks without outside changes: the second turn of a service starts
      from where its first one ended. */
  lemma NextTickStarts(lim: Limits, services: seq<Service>, inputs: seq<ServiceInput>, inputs': seq<ServiceInput>,
                       dryRun: bool, first: World, p: Progress, mid: World, mid': World, p': Progress, last: World, k: nat)
    requires Progressed(lim, services, inputs, dryRun, first, p, mid) && k < |p.ticks|
    requires Progressed(lim, services, inputs', dryRun, mid', p', last) && k < |p'.ticks|
    requires DistinctIdentifiers(services) && mid'.counts == mid.counts
    ensures |p.events| == |p.ticks| &&
            p'.ticks[k].current == if p.events[k].Some? && !dryRun then p.events[k].value.to else p.ticks[k].current
  {
    CountAfterTurn(lim, services, inputs, dryRun, first, p, mid, k);
    TurnOf(lim, services, inputs', dryRun, mid', p', last, k);
  }

  /** A tick whose counts could not be fetched changes nothing. */
  lemma FailedFetch(lim: Limits, services: seq<Service>, inputs: seq<ServiceInput>, dryRun: bool,
                    first: World, p: Progress, last: World)
    requires Progressed(lim, services, inputs, dryRun, first, p, last) && p.ticks == []
    ensures last == first
  {
    assert inputs[..0] == [] && p.events == [];
  }

  // ---------------------------------------------------------------- many ticks

  datatype Round = Round(inputs: seq<ServiceInput>, progress: Progress)

  /** One tick that could fetch its counts. */
  ghost predicate RoundTaken(lim: Limits, services: seq<Service>, dryRun: bool, x: World, r: Round, x': World) {
    && Progressed(lim, services, r.inputs, dryRun, x, r.progress, x') && InputsInOrder(r.inputs, x.store.clock)
    && |r.progress.ticks| == |services| && (forall k :: 0 <= k < |r.inputs| ==> r.inputs[k].now > 0)
    && forall id :: id in x.counts ==> x.counts[id] >= 0
  }

  ghost predicate RoundBefore(r: Round, r': Round) {
    forall k, l :: 0 <= k < |r.inputs| && 0 <= l < |r'.inputs| ==> r.inputs[k].cooldownNow <= r'.inputs[l].now
  }

  /** Ticks that follow one another, each from the world the one before it left. */
  ghost predicate RoundsTaken(lim: Limits, services: seq<Service>, dryRun: bool, worlds: seq<World>, rounds: seq<Round>) {
    && |worlds| == |rounds| + 1 && (forall i :: 0 <= i < |worlds| ==> |worlds[i].services| == |services|)
    && (forall i {:trigger rounds[i]} :: 0 <= i < |rounds| ==>
          RoundTaken(lim, services, dryRun, worlds[i], rounds[i], worlds[i + 1]))
    && forall i, j :: 0 <= i < j < |rounds| ==> RoundBefore(rounds[i], rounds[j])
  }

  lemma RoundOf(lim: Limits, services: seq<Service>, dryRun: bool, worlds: seq<World>, rounds: seq<Round>, k: nat, i: nat)
    requires RoundsTaken(lim, services, dryRun, worlds, rounds) && i < |rounds| && k < |services|
    ensures |rounds[i].progress.events| == |rounds[i].progress.ticks| == |services| == |rounds[i].inputs|
    ensures |worlds[i].services| == |worlds[i + 1].services| == |services|
    ensures SteppedAlone(services[k].spec, dryRun, worlds[i].services[k], rounds[i].progress.ticks[k],
                         worlds[i + 1].services[k], rounds[i].progress.events[k])
    ensures var t := rounds[i].progress.ticks[k];
      && t.current == CountOf(worlds[i].counts, services[k].spec.identifier) && t.current >= 0
      && t.now == rounds[i].inputs[k].now && t.cooldownNow == rounds[i].inputs[k].cooldownNow
      && 0 < t.now <= t.cooldownNow
  {
    var r := rounds[i];
    assert RoundTaken(lim, services, dryRun, worlds[i], r, worlds[i + 1]);
    hide Progressed, SteppedAlone;
    TurnOf(lim, services, r.inputs, dryRun, worlds[i], r.progress, worlds[i + 1], k);
    assert InputInOrder(r.inputs[k], ClockBefore(r.inputs, k, worlds[i].store.clock));
  }

  /** What service `k` read, and its states before, between and after the ticks. */
  ghost predicate Along(services: seq<Service>, worlds: seq<World>, rounds: seq<Round>, k: nat,
                        sts: seq<ServiceState>, ticks: seq<Tick>)
    requires k < |services|
  {
    && |sts| == |worlds| && |ticks| == |rounds|
    && (forall i :: 0 <= i < |sts| ==> |worlds[i].services| == |services| && sts[i] == worlds[i].services[k])
    && (forall i :: 0 <= i < |ticks| ==>
          |rounds[i].progress.ticks| == |services| && ticks[i] == rounds[i].progress.ticks[k])
  }

  lemma Followed(lim: Limits, services: seq<Service>, dryRun: bool, worlds: seq<World>, rounds: seq<Round>, k: nat)
    returns (sts: seq<ServiceState>, ticks: seq<Tick>)
    requires RoundsTaken(lim, services, dryRun, worlds, rounds) && k < |services|
    ensures Along(services, worlds, rounds, k, sts, ticks)
  {
    hide Progressed, RoundBefore, InputsInOrder;
    forall i | 0 <= i < |rounds| ensures |rounds[i].progress.ticks| == |services| {
      assert RoundTaken(lim, services, dryRun, worlds[i], rounds[i], worlds[i + 1]);
    }
    sts := seq(|worlds|, i requires 0 <= i < |worlds| => worlds[i].services[k]);
    ticks := seq(|rounds|, i requires 0 <= i < |rounds| => rounds[i].progress.ticks[k]);
  }

  lemma StaysWellFormed(s: ServiceSpec, dryRun: bool, st: ServiceState, t: Tick)
    requires WellFormedState(st)
    ensures WellFormedState(Reconcile(s, dryRun, st, t).state)
  {
    hide Wanted, CanScale;
    forall p | p in ResetAll(st.policies, t.now) ensures WellFormed(p) {
      var i :| 0 <= i < |st.policies| && ResetAll(st.policies, t.now)[i] == p;
      assert st.policies[i] in st.policies;
    }
  }

  lemma InOrderAlong(lim: Limits, services: seq<Service>, dryRun: bool, worlds: seq<World>, rounds: seq<Round>, k: nat,
                     sts: seq<ServiceState>, ticks: seq<Tick>)
    requires RoundsTaken(lim, services, dryRun, worlds, rounds)
    requires k < |services| && Along(services, worlds, rounds, k, sts, ticks)
    ensures R.Monotone(ticks)
  {
    hide RoundTaken, SteppedAlone, CountOf;
    forall i | 0 <= i < |ticks| ensures 0 < ticks[i].now <= ticks[i].cooldownNow && ticks[i].current >= 0 {
      RoundOf(lim, services, dryRun, worlds, rounds, k, i);
    }
    forall i, j | 0 <= i < j < |ticks| ensures ticks[i].cooldownNow <= ticks[j].now {
      RoundOf(lim, services, dryRun, worlds, rounds, k, i);
      RoundOf(lim, services, dryRun, worlds, rounds, k, j);
      assert RoundBefore(rounds[i], rounds[j]);
    }
  }

  lemma StepAlong(lim: Limits, services: seq<Service>, dryRun: bool, worlds: seq<World>, rounds: seq<Round>, k: nat,
                  sts: seq<ServiceState>, ticks: seq<Tick>, i: nat)
    requires RoundsTaken(lim, services, dryRun, worlds, rounds) && i < |rounds|
    requires k < |services| && Along(services, worlds, rounds, k, sts, ticks)
    ensures |sts| == |ticks| + 1 && i < |ticks| && WellFormedState(sts[i]) && WellFormedState(sts[i + 1])
    ensures sts[i + 1] == Reconcile(services[k].spec, dryRun, sts[i], ticks[i]).state
  {
    assert |worlds| == |rounds| + 1;
    hide RoundsTaken, Reconcile, CountOf;
    RoundOf(lim, services, dryRun, worlds, rounds, k, i);
    StaysWellFormed(services[k].spec, dryRun, sts[i], ticks[i]);
  }

  /** Each service of the reconciler goes through a run of Runs. */
  lemma ServiceRun(lim: Limits, services: seq<Service>, dryRun: bool, worlds: seq<World>, rounds: seq<Round>, k: nat)
    returns (sts: seq<ServiceState>, ticks: seq<Tick>)
    requires RoundsTaken(lim, services, dryRun, worlds, rounds) && k < |services|
    requires R.Fresh(worlds[0].services[k]) && WellFormedState(worlds[0].services[k])
    ensures Along(services, worlds, rounds, k, sts, ticks) && R.Run(services[k].spec, dryRun, sts, ticks)
  {
    assert |worlds| == |rounds| + 1;
    sts, ticks := Followed(lim, services, dryRun, worlds, rounds, k);
    InOrderAlong(lim, services, dryRun, worlds, rounds, k, sts, ticks);
    assert sts[0] == worlds[0].services[k];
    hide RoundsTaken, R.Fresh, R.Monotone, Reconcile, WellFormedState;
    forall i | 0 <= i < |sts| ensures WellFormedState(sts[i]) {
      if i > 0 { StepAlong(lim, services, dryRun, worlds, rounds, k, sts, ticks, i - 1); }
    }
    forall i | 0 <= i < |ticks| ensures sts[i + 1] == Reconcile(services[k].spec, dryRun, sts[i], ticks[i]).state {
      StepAlong(lim, services, dryRun, worlds, rounds, k, sts, ticks, i);
    }
  }

  /** With an identifier of its own each, no schedule and a start within its bounds, the
      run is undisturbed, so that the bounds on rate and drift are about the reconciler. */
  lemma ServiceUndisturbed(lim: Limits, services: seq<Service>, dryRun: bool, worlds: seq<World>, rounds: seq<Round>,
                           k: nat, sts: seq<ServiceState>, ticks: seq<Tick>)
    requires RoundsTaken(lim, services, dryRun, worlds, rounds) && k < |services| && DistinctIdentifiers(services)
    requires Along(services, worlds, rounds, k, sts, ticks) && R.Run(services[k].spec, dryRun, sts, ticks)
    requires forall i :: 0 <= i < |ticks| ==> ticks[i].scheduled == None
    requires var s := services[k].spec;
             0 <= s.minCount <= CountOf(worlds[0].counts, s.identifier) <= s.maxCount
    ensures R.Undisturbed(services[k].spec, dryRun, sts, ticks)
  {
    hide RoundsTaken, Along, DistinctIdentifiers, CountOf, Reconcile, WellFormedState;
    var s := services[k].spec;
    if |ticks| > 0 { StartsAlong(lim, services, dryRun, worlds, rounds, k, sts, ticks); }
    forall i | 0 <= i < |ticks| - 1 ensures ticks[i + 1].current == Reconcile(s, dryRun, sts[i], ticks[i]).count {
      ChainAlong(lim, services, dryRun, worlds, rounds, k, sts, ticks, i);
    }
  }

  lemma StartsAlong(lim: Limits, services: seq<Service>, dryRun: bool, worlds: seq<World>, rounds: seq<Round>, k: nat,
                    sts: seq<ServiceState>, ticks: seq<Tick>)
    requires RoundsTaken(lim, services, dryRun, worlds, rounds) && |ticks| > 0
    requires k < |services| && Along(services, worlds, rounds, k, sts, ticks)
    ensures |worlds| > 0 && ticks[0].current == CountOf(worlds[0].counts, services[k].spec.identifier)
  {
    RoundOf(lim, services, dryRun, worlds, rounds, k, 0);
  }

  lemma ChainAlong(lim: Limits, services: seq<Service>, dryRun: bool, worlds: seq<World>, rounds: seq<Round>, k: nat,
                   sts: seq<ServiceState>, ticks: seq<Tick>, i: nat)
    requires RoundsTaken(lim, services, dryRun, worlds, rounds) && DistinctIdentifiers(services)
    requires k < |services| && Along(services, worlds, rounds, k, sts, ticks) && i + 1 < |ticks|
    ensures i < |sts| && WellFormedState(sts[i])
    ensures ticks[i + 1].current == Reconcile(services[k].spec, dryRun, sts[i], ticks[i]).count
  {
    assert |worlds| == |rounds| + 1;
    hide RoundsTaken, DistinctIdentifiers, WellFormedState;
    FollowsOn(lim, services, dryRun, worlds, rounds, k, i);
  }

  /** Over any number of ticks the platform's count of a service with window policies
      only moves by at most its largest step for each event. */
  lemma PlatformDrift(lim: Limits, services: seq<Service>, dryRun: bool, worlds: seq<World>, rounds: seq<Round>,
                      k: nat, sts: seq<ServiceState>, ticks: seq<Tick>, sustained: int, step: int)
    requires RoundsTaken(lim, services, dryRun, worlds, rounds) && k < |services| && DistinctIdentifiers(services)
    requires Along(services, worlds, rounds, k, sts, ticks) && R.Run(services[k].spec, dryRun, sts, ticks)
    requires R.Undisturbed(services[k].spec, dryRun, sts, ticks) && R.WindowsOnly(sts[0], sustained, step) && step >= 0
    ensures |worlds| == |rounds| + 1
    ensures var n, id := |rounds|, services[k].spec.identifier;
            var events := R.Count(R.EventFlags(services[k].spec, dryRun, sts, ticks), n);
            -(events * step) <= CountOf(worlds[n].counts, id) - CountOf(worlds[0].counts, id) <= events * step
  {
    hide RoundTaken, R.Run, R.Undisturbed, R.WindowsOnly, DistinctIdentifiers, CountOf;
    if ticks != [] {
      R.DriftBounded(services[k].spec, dryRun, sts, ticks, sustained, step);
      StartsAlong(lim, services, dryRun, worlds, rounds, k, sts, ticks);
      EndsAlong(lim, services, dryRun, worlds, rounds, k, sts, ticks);
    }
  }

  lemma EndsAlong(lim: Limits, services: seq<Service>, dryRun: bool, worlds: seq<World>, rounds: seq<Round>, k: nat,
                  sts: seq<ServiceState>, ticks: seq<Tick>)
    requires RoundsTaken(lim, services, dryRun, worlds, rounds) && DistinctIdentifiers(services) && ticks != []
    requires k < |services| && Along(services, worlds, rounds, k, sts, ticks)
    requires R.Run(services[k].spec, dryRun, sts, ticks)
    ensures |ticks| == |rounds| < |worlds|
    ensures CountOf(worlds[|ticks|].counts, services[k].spec.identifier) ==
            R.CountAfter(services[k].spec, dryRun, sts, ticks, |ticks| - 1)
  {
    var i := |rounds| - 1;
    assert RoundTaken(lim, services, dryRun, worlds[i], rounds[i], worlds[i + 1]);
    hide RoundsTaken, Progressed, InputsInOrder, DistinctIdentifiers, CountOf, Reconcile, R.Run;
    CountAfterTurn(lim, services, rounds[i].inputs, dryRun, worlds[i], rounds[i].progress, worlds[i + 1], k);
  }

  lemma FollowsOn(lim: Limits, services: seq<Service>, dryRun: bool, worlds: seq<World>, rounds: seq<Round>, k: nat, i: nat)
    requires RoundsTaken(lim, services, dryRun, worlds, rounds) && k < |services| && DistinctIdentifiers(services)
    requires i + 1 < |rounds|
    ensures |rounds[i].progress.ticks| == |services| == |rounds[i + 1].progress.ticks| == |worlds[i].services|
    ensures WellFormedState(worlds[i].services[k])
    ensures rounds[i + 1].progress.ticks[k].current ==
            Reconcile(services[k].spec, dryRun, worlds[i].services[k], rounds[i].progress.ticks[k]).count
  {
    assert RoundTaken(lim, services, dryRun, worlds[i], rounds[i], worlds[i + 1]);
    RoundOf(lim, services, dryRun, worlds, rounds, k, i);
    RoundOf(lim, services, dryRun, worlds, rounds, k, i + 1);
    hide RoundsTaken, Progressed, CountOf, Reconcile, DistinctIdentifiers, InputsInOrder;
    CountAfterTurn(lim, services, rounds[i].inputs, dryRun, worlds[i], rounds[i].progress, worlds[i + 1], k);
  }
}
