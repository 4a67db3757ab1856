/** The reconciler's ticks are runs of the system: what `ReconcileAll` does between two
    worlds is a stretch of arrivals and reconciliations, in the order of the turns. So
    what System proves of its runs holds of any number of ticks. */
module Ticks {
  import opened Samples
  import opened StoreModel
  import opened StoreRuns
  import opened Decisions
  import opened Reconciler
  import opened System
  import R = Runs

  predicate DistinctNames(services: seq<Service>) {
    forall i, j :: 0 <= i < |services| && 0 <= j < |services| && i != j ==> services[i].spec.name != services[j].spec.name
  }

  function Names(services: seq<Service>): set<string> { set i | 0 <= i < |services| :: services[i].spec.name }

  ghost function IndexOf(services: seq<Service>, name: string): nat
    requires name in Names(services)
    ensures IndexOf(services, name) < |services| && services[IndexOf(services, name)].spec.name == name
  {
    var i :| 0 <= i < |services| && services[i].spec.name == name; i
  }

  ghost function Specs(services: seq<Service>): map<string, ServiceSpec> {
    map name | name in Names(services) :: services[IndexOf(services, name)].spec
  }

  ghost function ByName(services: seq<Service>, sts: seq<ServiceState>): map<string, ServiceState>
    requires |sts| == |services|
  {
    map name | name in Names(services) :: sts[IndexOf(services, name)]
  }

  ghost function SysOf(services: seq<Service>, x: World): Sys
    requires |x.services| == |services|
  {
    Sys(x.store, ByName(services, x.services))
  }

  lemma Named(services: seq<Service>, sts: seq<ServiceState>, i: nat)
    requires DistinctNames(services) && |sts| == |services| && i < |services|
    ensures services[i].spec.name in Specs(services) && Specs(services)[services[i].spec.name] == services[i].spec
    ensures services[i].spec.name in ByName(services, sts) && ByName(services, sts)[services[i].spec.name] == sts[i]
  {
  }

  lemma Renamed(services: seq<Service>, sts: seq<ServiceState>, i: nat, st: ServiceState)
    requires DistinctNames(services) && |sts| == |services| && i < |services|
    ensures ByName(services, sts[i := st]) == ByName(services, sts)[services[i].spec.name := st]
  {
  }

  // --------------------------------------------------------------- stretches

  /** A stretch of a run, from any state. */
  ghost predicate Stretch(lim: Limits, specs: map<string, ServiceSpec>, dryRun: bool, xs: seq<Sys>, labels: seq<Label>)
    requires lim.Positive()
  {
    && |xs| == |labels| + 1
    && forall i {:trigger labels[i]} :: 0 <= i < |labels| ==> SysStep(lim, specs, dryRun, xs[i], labels[i], xs[i + 1])
  }

  lemma StretchesJoin(lim: Limits, specs: map<string, ServiceSpec>, dryRun: bool, xs: seq<Sys>, labels: seq<Label>,
                      ys: seq<Sys>, more: seq<Label>)
    requires lim.Positive() && Stretch(lim, specs, dryRun, xs, labels) && Stretch(lim, specs, dryRun, ys, more)
    requires xs[|labels|] == ys[0]
    ensures Stretch(lim, specs, dryRun, xs + ys[1..], labels + more)
    ensures (xs + ys[1..])[0] == xs[0] && (xs + ys[1..])[|labels + more|] == ys[|more|]
  {
    hide SysStep;
    var zs, all := xs + ys[1..], labels + more;
    forall i | 0 <= i < |all| ensures SysStep(lim, specs, dryRun, zs[i], all[i], zs[i + 1]) {
      if i < |labels| { assert labels[i] == all[i]; } else { assert more[i - |labels|] == all[i]; }
    }
  }

  /** Reconciliations follow one another, and their readings come after the zero time. */
  ghost predicate Orderly(labels: seq<Label>) {
    && (forall i :: 0 <= i < |labels| && labels[i].Reconciled? ==> labels[i].start > 0)
    && (forall i, j :: 0 <= i < j < |labels| && labels[i].Reconciled? && labels[j].Reconciled? ==>
          labels[i].cooldownNow <= labels[j].start)
  }

  /** All readings of one part come before those of the next. */
  ghost predicate Before(labels: seq<Label>, more: seq<Label>) {
    forall i, j :: 0 <= i < |labels| && 0 <= j < |more| && labels[i].Reconciled? && more[j].Reconciled? ==>
      labels[i].cooldownNow <= more[j].start
  }

  lemma OrderlyJoin(labels: seq<Label>, more: seq<Label>)
    requires Orderly(labels) && Orderly(more) && Before(labels, more)
    ensures Orderly(labels + more)
  {
  }

  // ----------------------------------------------------------------- one turn

  function Arrivals(arrivals: seq<Op>): seq<Label>
    requires forall i :: 0 <= i < |arrivals| ==> arrivals[i].Arrive?
  {
    seq(|arrivals|, i requires 0 <= i < |arrivals| =>
      Ingest(arrivals[i].now, arrivals[i].key, arrivals[i].value, arrivals[i].observedAt))
  }

  function Turn(svc: Service, input: ServiceInput, current: int): Label {
    Reconciled(svc.spec.name, input.now, input.snapshotNow, input.cooldownNow, input.scheduled, current,
               input.scaleSucceeds)
  }

  function TurnLabels(svc: Service, input: ServiceInput, current: int): seq<Label>
    requires forall i :: 0 <= i < |input.arrivals| ==> input.arrivals[i].Arrive?
  {
    Arrivals(input.arrivals) + [Turn(svc, input, current)]
  }

  lemma ArrivalsStretch(lim: Limits, specs: map<string, ServiceSpec>, dryRun: bool, trace: seq<State>, arrivals: seq<Op>,
                        states: map<string, ServiceState>) returns (xs: seq<Sys>)
    requires lim.Positive() && Trace(lim, trace, arrivals) && forall i :: 0 <= i < |arrivals| ==> arrivals[i].Arrive?
    ensures Stretch(lim, specs, dryRun, xs, Arrivals(arrivals))
    ensures |xs| == |arrivals| + 1 && xs[0] == Sys(trace[0], states) && xs[|arrivals|] == Sys(trace[|arrivals|], states)
  {
    xs := seq(|trace|, i requires 0 <= i < |trace| => Sys(trace[i], states));
    hide AddStep;
    forall i | 0 <= i < |arrivals| ensures SysStep(lim, specs, dryRun, xs[i], Arrivals(arrivals)[i], xs[i + 1]) {
      assert Step(lim, trace[i], arrivals[i], trace[i + 1]);
    }
  }

  lemma TurnStep(lim: Limits, services: seq<Service>, i: nat, dryRun: bool, s: State, sts: seq<ServiceState>,
                 input: ServiceInput, t: Tick, event: Option<Event>, s': State, st': ServiceState)
    requires lim.Positive() && DistinctNames(services) && |sts| == |services| && i < |services|
    requires Step(lim, s, View(input.snapshotNow), s') && input.now <= input.snapshotNow <= input.cooldownNow
    requires Reads(t, input, t.current) && t.current >= 0 && t.m == s'.series
    requires SteppedAlone(services[i].spec, dryRun, sts[i], t, st', event)
    ensures SysStep(lim, Specs(services), dryRun, Sys(s, ByName(services, sts)), Turn(services[i], input, t.current),
                    Sys(s', ByName(services, sts[i := st'])))
    ensures TickOf(Turn(services[i], input, t.current), Sys(s', ByName(services, sts[i := st']))) == t
  {
    hide Reconcile, Enforced, Specs, ByName, DistinctNames, AddStep, StatesOf, Windows;
    Named(services, sts, i);
    Renamed(services, sts, i, st');
  }

  lemma PartOfTrace(lim: Limits, states: seq<State>, a: seq<Op>, b: seq<Op>, c: seq<Op>)
    requires lim.Positive() && Trace(lim, states, a + b + c)
    ensures Trace(lim, states[|a|..|a| + |b| + 1], b)
  {
    hide Step;
    var ops, part := a + b + c, states[|a|..|a| + |b| + 1];
    forall i | 0 <= i < |b| ensures Step(lim, part[i], b[i], part[i + 1]) {
      assert ops[|a| + i] == b[i];
    }
  }

  /** From `x` to `x'` by arrivals and then one reconciliation of what `t` read. */
  ghost predicate TurnFrom(lim: Limits, specs: map<string, ServiceSpec>, dryRun: bool, xs: seq<Sys>, labels: seq<Label>,
                           x: Sys, x': Sys, t: Tick)
    requires lim.Positive()
  {
    && labels != [] && |xs| == |labels| + 1 && Stretch(lim, specs, dryRun, xs, labels)
    && xs[0] == x && xs[|labels| - 1].services == x.services && xs[|labels|] == x'
    && labels[|labels| - 1].Reconciled? && TickOf(labels[|labels| - 1], x') == t
  }

  /** One turn: what has arrived by then, and the service's own step. */
  lemma TurnStretch(lim: Limits, services: seq<Service>, i: nat, dryRun: bool, trace: seq<State>, sts: seq<ServiceState>,
                    input: ServiceInput, t: Tick, event: Option<Event>, st': ServiceState) returns (xs: seq<Sys>)
    requires lim.Positive() && DistinctNames(services) && |sts| == |services| && i < |services|
    requires Trace(lim, trace, StoreOps(input)) && input.now <= input.snapshotNow <= input.cooldownNow
    requires forall i :: 0 <= i < |input.arrivals| ==> input.arrivals[i].Arrive?
    requires Reads(t, input, t.current) && t.current >= 0 && t.m == trace[|input.arrivals| + 1].series
    requires SteppedAlone(services[i].spec, dryRun, sts[i], t, st', event)
    ensures TurnFrom(lim, Specs(services), dryRun, xs, TurnLabels(services[i], input, t.current),
                     Sys(trace[0], ByName(services, sts)),
                     Sys(trace[|input.arrivals| + 1], ByName(services, sts[i := st'])), t)
  {
    hide Step, Trace, Specs, ByName, DistinctNames, SteppedAlone, Reads, TickOf, SysStep, Stretch;
    var n := |input.arrivals|;
    TraceOfTurn(lim, trace, input);
    xs := ArrivalsStretch(lim, Specs(services), dryRun, trace[..n + 1], input.arrivals, ByName(services, sts));
    TurnStep(lim, services, i, dryRun, trace[n], sts, input, t, event, trace[n + 1], st');
    var after := Sys(trace[n + 1], ByName(services, sts[i := st']));
    OneMoreStep(lim, Specs(services), dryRun, xs, Arrivals(input.arrivals), Turn(services[i], input, t.current), after);
    xs := xs + [after];
  }

  lemma TraceOfTurn(lim: Limits, trace: seq<State>, input: ServiceInput)
    requires lim.Positive() && Trace(lim, trace, StoreOps(input))
    ensures var n := |input.arrivals|;
      && |trace| == n + 2 && Trace(lim, trace[..n + 1], input.arrivals)
      && Step(lim, trace[n], View(input.snapshotNow), trace[n + 1])
  {
    var n, ops := |input.arrivals|, StoreOps(input);
    assert [] + input.arrivals + [View(input.snapshotNow)] == ops;
    PartOfTrace(lim, trace, [], input.arrivals, [View(input.snapshotNow)]);
    assert trace[0..n + 1] == trace[..n + 1];
    assert ops[n] == View(input.snapshotNow);
  }

  lemma OneMoreStep(lim: Limits, specs: map<string, ServiceSpec>, dryRun: bool, xs: seq<Sys>, labels: seq<Label>,
                    l: Label, x: Sys)
    requires lim.Positive() && Stretch(lim, specs, dryRun, xs, labels) && SysStep(lim, specs, dryRun, xs[|labels|], l, x)
    ensures Stretch(lim, specs, dryRun, xs + [x], labels + [l])
  {
    hide SysStep;
    StretchesJoin(lim, specs, dryRun, xs, labels, [xs[|labels|], x], [l]);
    assert xs + [xs[|labels|], x][1..] == xs + [x];
  }

  // ----------------------------------------------------------------- one tick

  ghost predicate AllArrive(inputs: seq<ServiceInput>) {
    forall k, i :: 0 <= k < |inputs| && 0 <= i < |inputs[k].arrivals| ==> inputs[k].arrivals[i].Arrive?
  }

  lemma ArrivalsOnly(inputs: seq<ServiceInput>, n: nat)
    requires AllArrive(inputs) && n < |inputs|
    ensures forall i :: 0 <= i < |inputs[n].arrivals| ==> inputs[n].arrivals[i].Arrive?
  {
  }

  /** The steps of the first `n` turns. */
  ghost function LabelsOf(services: seq<Service>, inputs: seq<ServiceInput>, counts: map<string, int>, n: nat): seq<Label>
    requires n <= |inputs| == |services| && AllArrive(inputs)
  {
    if n == 0 then []
    else
      LabelsOf(services, inputs, counts, n - 1) +
      TurnLabels(services[n - 1], inputs[n - 1], CountOf(counts, services[n - 1].spec.identifier))
  }

  lemma {:induction false} LabelsAreOps(services: seq<Service>, inputs: seq<ServiceInput>, counts: map<string, int>, n: nat)
    requires n <= |inputs| == |services| && AllArrive(inputs)
    ensures |LabelsOf(services, inputs, counts, n)| == |AllStoreOps(inputs[..n])|
  {
    if n > 0 {
      LabelsAreOps(services, inputs, counts, n - 1);
      OneMoreInput(inputs, n - 1);
    }
  }

  lemma {:induction false} OpsOfTurn(inputs: seq<ServiceInput>, n: nat, m: nat) returns (rest: seq<Op>)
    requires n < m <= |inputs|
    ensures AllStoreOps(inputs[..m]) == AllStoreOps(inputs[..n]) + StoreOps(inputs[n]) + rest
    decreases m
  {
    hide *;
    OneMoreInput(inputs, m - 1);
    rest := [];
    if n < m - 1 {
      rest := OpsOfTurn(inputs, n, m - 1);
      rest := rest + StoreOps(inputs[m - 1]);
    }
  }

  /** The services after the first `n` turns. */
  function Mixed(first: seq<ServiceState>, last: seq<ServiceState>, n: nat): seq<ServiceState>
    requires n <= |first| == |last|
  {
    last[..n] + first[n..]
  }

  lemma MixedNext(first: seq<ServiceState>, last: seq<ServiceState>, n: nat)
    requires n < |first| == |last|
    ensures |Mixed(first, last, n)| == |first| && Mixed(first, last, n)[n] == first[n]
    ensures Mixed(first, last, n)[n := last[n]] == Mixed(first, last, n + 1)
  {
  }

  lemma ReadsCount(t: Tick, input: ServiceInput, current: int)
    requires Reads(t, input, current)
    ensures t.current == current
  {
  }

  /** Step `j` was the turn of service `k`: its state before, and what it read. */
  ghost predicate TurnAt(services: seq<Service>, first: World, p: Progress, xs: seq<Sys>, labels: seq<Label>,
                         k: nat, j: int)
    requires k < |services| == |first.services| && k < |p.ticks| && |xs| == |labels| + 1
  {
    && 0 <= j < |labels| && labels[j].Reconciled? && labels[j].name == services[k].spec.name
    && labels[j].name in xs[j].services && xs[j].services[labels[j].name] == first.services[k]
    && TickOf(labels[j], xs[j + 1]) == p.ticks[k]
  }

  lemma StoresOfTurn(lim: Limits, inputs: seq<ServiceInput>, stores: seq<State>, n: nat, m: nat)
    requires lim.Positive() && n < m <= |inputs| && Trace(lim, stores, AllStoreOps(inputs[..m]))
    ensures var a := |AllStoreOps(inputs[..n])|; var b := a + |inputs[n].arrivals| + 1;
      b == |AllStoreOps(inputs[..n + 1])| < |stores| && Trace(lim, stores[a..b + 1], StoreOps(inputs[n]))
  {
    hide Step;
    var rest := OpsOfTurn(inputs, n, m);
    OneMoreInput(inputs, n);
    PartOfTrace(lim, stores, AllStoreOps(inputs[..n]), StoreOps(inputs[n]), rest);
  }

  lemma TickOfTurn(lim: Limits, services: seq<Service>, inputs: seq<ServiceInput>, dryRun: bool,
                   first: World, p: Progress, last: World, n: nat)
    requires Progressed(lim, services, inputs, dryRun, first, p, last) && InputsInOrder(inputs, first.store.clock)
    requires n < |p.ticks| && forall id :: id in first.counts ==> first.counts[id] >= 0
    ensures lim.Positive() && |p.ticks| <= |inputs| == |services| == |first.services| == |last.services|
    ensures |p.events| == |p.ticks| && Trace(lim, p.stores, AllStoreOps(inputs[..|p.ticks|]))
    ensures inputs[n].now <= inputs[n].snapshotNow <= inputs[n].cooldownNow
    ensures var current, b := CountOf(first.counts, services[n].spec.identifier), |AllStoreOps(inputs[..n + 1])|;
            current >= 0 && Reads(p.ticks[n], inputs[n], current) && b < |p.stores| && p.ticks[n].m == p.stores[b].series
    ensures SteppedAlone(services[n].spec, dryRun, first.services[n], p.ticks[n], last.services[n], p.events[n])
  {
    hide Reads, SteppedAlone, Trace, CountsAfter;
    assert TickTaken(p.stores, inputs, n, p.ticks[n], CountOf(first.counts, services[n].spec.identifier));
    assert InputInOrder(inputs[n], ClockBefore(inputs, n, first.store.clock));
  }

  /** Turn `n` of a tick, on its own. */
  lemma TurnOfTick(lim: Limits, services: seq<Service>, inputs: seq<ServiceInput>, dryRun: bool,
                   first: World, p: Progress, last: World, n: nat, a: nat, b: nat) returns (xs: seq<Sys>)
    requires Progressed(lim, services, inputs, dryRun, first, p, last) && InputsInOrder(inputs, first.store.clock)
    requires DistinctNames(services) && AllArrive(inputs) && n < |p.ticks| <= |inputs|
    requires forall id :: id in first.counts ==> first.counts[id] >= 0
    requires |inputs| == |services| == |first.services| == |last.services| && lim.Positive()
    requires a == |AllStoreOps(inputs[..n])| && b == |AllStoreOps(inputs[..n + 1])| < |p.stores|
    ensures a < |p.stores|
    ensures TurnFrom(lim, Specs(services), dryRun, xs,
                     TurnLabels(services[n], inputs[n], CountOf(first.counts, services[n].spec.identifier)),
                     Sys(p.stores[a], ByName(services, Mixed(first.services, last.services, n))),
                     Sys(p.stores[b], ByName(services, Mixed(first.services, last.services, n + 1))), p.ticks[n])
  {
    hide *;
    ArrivalsOnly(inputs, n);
    TickOfTurn(lim, services, inputs, dryRun, first, p, last, n);
    StoresOfTurn(lim, inputs, p.stores, n, |p.ticks|);
    MixedNext(first.services, last.services, n);
    ReadsCount(p.ticks[n], inputs[n], CountOf(first.counts, services[n].spec.identifier));
    xs := TurnStretch(lim, services, n, dryRun, p.stores[a..b + 1], Mixed(first.services, last.services, n), inputs[n],
                      p.ticks[n], p.events[n], last.services[n]);
  }

  /** Service `k` had its turn, from where it started the tick. */
  ghost predicate HadTurn(services: seq<Service>, first: World, p: Progress, xs: seq<Sys>, labels: seq<Label>, k: nat)
    requires k < |services| == |first.services| && k < |p.ticks| && |xs| == |labels| + 1
  {
    exists j :: TurnAt(services, first, p, xs, labels, k, j)
  }

  /** What the first `n` turns of a tick come to. */
  ghost predicate TurnsDone(lim: Limits, services: seq<Service>, dryRun: bool, first: World, p: Progress, last: World,
                            n: nat, b: nat, xs: seq<Sys>, labels: seq<Label>)
    requires lim.Positive() && |services| == |first.services| == |last.services| && n <= |p.ticks| <= |services|
  {
    && |xs| == |labels| + 1 && b < |p.stores| && Stretch(lim, Specs(services), dryRun, xs, labels)
    && xs[0] == Sys(first.store, ByName(services, first.services))
    && xs[|labels|] == Sys(p.stores[b], ByName(services, Mixed(first.services, last.services, n)))
    && forall k :: 0 <= k < n ==> HadTurn(services, first, p, xs, labels, k)
  }

  lemma OneMoreTurn(lim: Limits, services: seq<Service>, dryRun: bool, first: World, p: Progress, last: World,
                    n: nat, a: nat, b: nat, xs: seq<Sys>, labels: seq<Label>, ys: seq<Sys>, more: seq<Label>)
    requires lim.Positive() && |services| == |first.services| == |last.services| && n < |p.ticks| <= |services|
    requires TurnsDone(lim, services, dryRun, first, p, last, n, a, xs, labels) && DistinctNames(services) && b < |p.stores|
    requires TurnFrom(lim, Specs(services), dryRun, ys, more, xs[|labels|],
                      Sys(p.stores[b], ByName(services, Mixed(first.services, last.services, n + 1))), p.ticks[n])
    requires more[|more| - 1].name == services[n].spec.name
    ensures ys != [] && TurnsDone(lim, services, dryRun, first, p, last, n + 1, b, xs + ys[1..], labels + more)
  {
    hide Stretch, Specs, ByName, SysStep, DistinctNames, TickOf, Mixed;
    StretchesJoin(lim, Specs(services), dryRun, xs, labels, ys, more);
    var xs', labels' := xs + ys[1..], labels + more;
    forall k | 0 <= k < n + 1 ensures HadTurn(services, first, p, xs', labels', k) {
      if k < n {
        assert HadTurn(services, first, p, xs, labels, k);
        var j :| TurnAt(services, first, p, xs, labels, k, j);
        assert TurnAt(services, first, p, xs', labels', k, j);
      } else {
        MixedNext(first.services, last.services, n);
        Named(services, Mixed(first.services, last.services, n), n);
        assert TurnAt(services, first, p, xs', labels', n, |labels'| - 1);
      }
    }
  }

  lemma ProgressShape(lim: Limits, services: seq<Service>, inputs: seq<ServiceInput>, dryRun: bool,
                      first: World, p: Progress, last: World)
    requires Progressed(lim, services, inputs, dryRun, first, p, last)
    ensures lim.Positive() && |p.ticks| <= |inputs| == |services| == |first.services| == |last.services|
    ensures Trace(lim, p.stores, AllStoreOps(inputs[..|p.ticks|])) && FromTo(p.stores, first.store, last.store)
    ensures |p.stores| == |AllStoreOps(inputs[..|p.ticks|])| + 1
    ensures Mixed(first.services, last.services, |p.ticks|) == last.services
  {
    hide Step, SteppedAlone, AllStoreOps, CountsAfter;
  }

  lemma AllInOrder(inputs: seq<ServiceInput>, clock: int)
    requires InputsInOrder(inputs, clock)
    ensures AllArrive(inputs) && forall k :: 0 <= k < |inputs| ==> inputs[k].now <= inputs[k].cooldownNow
  {
    assert forall k :: 0 <= k < |inputs| ==> InputInOrder(inputs[k], ClockBefore(inputs, k, clock));
  }

  lemma NoTurns(lim: Limits, services: seq<Service>, dryRun: bool, first: World, p: Progress, last: World)
    requires lim.Positive() && |services| == |first.services| == |last.services| && |p.ticks| <= |services|
    requires FromTo(p.stores, first.store, last.store)
    ensures TurnsDone(lim, services, dryRun, first, p, last, 0, 0, [SysOf(services, first)], [])
  {
    assert Mixed(first.services, last.services, 0) == first.services;
  }

  lemma {:induction false} TurnsStretch(lim: Limits, services: seq<Service>, inputs: seq<ServiceInput>, dryRun: bool,
                                        first: World, p: Progress, last: World, n: nat) returns (xs: seq<Sys>)
    requires Progressed(lim, services, inputs, dryRun, first, p, last) && InputsInOrder(inputs, first.store.clock)
    requires DistinctNames(services) && forall id :: id in first.counts ==> first.counts[id] >= 0
    requires lim.Positive() && n <= |p.ticks| <= |inputs| == |services| == |first.services| == |last.services|
    requires AllArrive(inputs)
    ensures TurnsDone(lim, services, dryRun, first, p, last, n, |AllStoreOps(inputs[..n])|, xs,
                      LabelsOf(services, inputs, first.counts, n))
  {
    hide Progressed, InputsInOrder, AllArrive, Stretch, HadTurn;
    ProgressShape(lim, services, inputs, dryRun, first, p, last);
    if n == 0 {
      assert inputs[..0] == [];
      xs := [SysOf(services, first)];
      NoTurns(lim, services, dryRun, first, p, last);
    } else {
      hide *;
      var m := n - 1;
      xs := TurnsStretch(lim, services, inputs, dryRun, first, p, last, m);
      xs := NextTurn(lim, services, inputs, dryRun, first, p, last, m, xs);
    }
  }

  lemma LabelsNext(services: seq<Service>, inputs: seq<ServiceInput>, counts: map<string, int>, n: nat)
    requires n < |inputs| == |services| && AllArrive(inputs)
    ensures var current := CountOf(counts, services[n].spec.identifier);
            var turn, more := Turn(services[n], inputs[n], current), TurnLabels(services[n], inputs[n], current);
      && LabelsOf(services, inputs, counts, n + 1) == LabelsOf(services, inputs, counts, n) + more
      && more == Arrivals(inputs[n].arrivals) + [turn]
      && more[|more| - 1].name == services[n].spec.name
  {
  }

  lemma NextTurn(lim: Limits, services: seq<Service>, inputs: seq<ServiceInput>, dryRun: bool,
                 first: World, p: Progress, last: World, n: nat, xs: seq<Sys>) returns (zs: seq<Sys>)
    requires Progressed(lim, services, inputs, dryRun, first, p, last) && InputsInOrder(inputs, first.store.clock)
    requires DistinctNames(services) && forall id :: id in first.counts ==> first.counts[id] >= 0
    requires lim.Positive() && n < |p.ticks| <= |inputs| == |services| == |first.services| == |last.services|
    requires AllArrive(inputs) && Trace(lim, p.stores, AllStoreOps(inputs[..|p.ticks|]))
    requires TurnsDone(lim, services, dryRun, first, p, last, n, |AllStoreOps(inputs[..n])|, xs,
                       LabelsOf(services, inputs, first.counts, n))
    ensures TurnsDone(lim, services, dryRun, first, p, last, n + 1, |AllStoreOps(inputs[..n + 1])|, zs,
                      LabelsOf(services, inputs, first.counts, n + 1))
  {
    hide *;
    var a, b := |AllStoreOps(inputs[..n])|, |AllStoreOps(inputs[..n + 1])|;
    var labels := LabelsOf(services, inputs, first.counts, n);
    ArrivalsOnly(inputs, n);
    var more := TurnLabels(services[n], inputs[n], CountOf(first.counts, services[n].spec.identifier));
    StoresOfTurn(lim, inputs, p.stores, n, |p.ticks|);
    var ys := TurnOfTick(lim, services, inputs, dryRun, first, p, last, n, a, b);
    LabelsNext(services, inputs, first.counts, n);
    StateAfter(lim, services, dryRun, first, p, last, n, a, xs, labels);
    OneMoreTurn(lim, services, dryRun, first, p, last, n, a, b, xs, labels, ys, more);
    zs := xs + ys[1..];
  }

  lemma StateAfter(lim: Limits, services: seq<Service>, dryRun: bool, first: World, p: Progress, last: World,
                   n: nat, a: nat, xs: seq<Sys>, labels: seq<Label>)
    requires lim.Positive() && |services| == |first.services| == |last.services| && n <= |p.ticks| <= |services|
    requires TurnsDone(lim, services, dryRun, first, p, last, n, a, xs, labels)
    ensures |xs| == |labels| + 1 && a < |p.stores|
    ensures xs[|labels|] == Sys(p.stores[a], ByName(services, Mixed(first.services, last.services, n)))
  {
  }

  /** A tick is a stretch of arrivals and reconciliations, in the order of its turns,
      that leads from one world to the other. */
  lemma TickIsStretch(lim: Limits, services: seq<Service>, inputs: seq<ServiceInput>, dryRun: bool,
                      first: World, p: Progress, last: World) returns (xs: seq<Sys>)
    requires Progressed(lim, services, inputs, dryRun, first, p, last) && InputsInOrder(inputs, first.store.clock)
    requires DistinctNames(services) && forall id :: id in first.counts ==> first.counts[id] >= 0
    ensures lim.Positive() && |p.ticks| <= |inputs| == |services| == |first.services| == |last.services|
    ensures AllArrive(inputs)
    ensures var labels := LabelsOf(services, inputs, first.counts, |p.ticks|);
      && Stretch(lim, Specs(services), dryRun, xs, labels)
      && xs[0] == SysOf(services, first) && xs[|labels|] == SysOf(services, last)
      && forall k :: 0 <= k < |p.ticks| ==> HadTurn(services, first, p, xs, labels, k)
  {
    ProgressShape(lim, services, inputs, dryRun, first, p, last);
    AllInOrder(inputs, first.store.clock);
    hide Progressed, InputsInOrder, Specs, ByName, DistinctNames, SysStep, Stretch, LabelsOf, Mixed, AllStoreOps, HadTurn,
      Trace;
    xs := TurnsStretch(lim, services, inputs, dryRun, first, p, last, |p.ticks|);
  }

  // ----------------------------------------------------------------- many ticks

  ghost predicate FromInput(l: Label, inputs: seq<ServiceInput>, n: nat)
    requires n <= |inputs| && l.Reconciled?
  {
    exists k :: 0 <= k < n && l.start == inputs[k].now && l.cooldownNow == inputs[k].cooldownNow
  }

  lemma {:induction false} LabelsOrderly(services: seq<Service>, inputs: seq<ServiceInput>, counts: map<string, int>,
                                         clock: int, n: nat)
    requires n <= |inputs| == |services| && AllArrive(inputs) && InputsInOrder(inputs, clock)
    requires forall k :: 0 <= k < |inputs| ==> inputs[k].now > 0
    ensures var labels := LabelsOf(services, inputs, counts, n);
            Orderly(labels) && forall l :: l in labels && l.Reconciled? ==> FromInput(l, inputs, n)
  {
    hide InputsInOrder, AllArrive, InputInOrder;
    if n > 0 {
      hide *;
      LabelsOrderly(services, inputs, counts, clock, n - 1);
      LabelsNext(services, inputs, counts, n - 1);
      ArrivalsOnly(inputs, n - 1);
      OneMoreOrderly(inputs, clock, n - 1, LabelsOf(services, inputs, counts, n - 1), Arrivals(inputs[n - 1].arrivals),
                     Turn(services[n - 1], inputs[n - 1], CountOf(counts, services[n - 1].spec.identifier)));
    }
  }

  lemma OneMoreOrderly(inputs: seq<ServiceInput>, clock: int, n: nat, labels: seq<Label>, arriving: seq<Label>, turn: Label)
    requires n < |inputs| && InputsInOrder(inputs, clock) && inputs[n].now > 0
    requires Orderly(labels) && forall l :: l in labels && l.Reconciled? ==> FromInput(l, inputs, n)
    requires forall l :: l in arriving ==> l.Ingest?
    requires turn.Reconciled? && turn.start == inputs[n].now && turn.cooldownNow == inputs[n].cooldownNow
    ensures Orderly(labels + (arriving + [turn]))
    ensures forall l :: l in labels + (arriving + [turn]) && l.Reconciled? ==> FromInput(l, inputs, n + 1)
  {
    hide Orderly, Before, InputInOrder, FromInput;
    OneReconciled(arriving, turn);
    TurnAfter(inputs, clock, n, labels, arriving, turn);
    OrderlyJoin(labels, arriving + [turn]);
    forall l | l in labels + (arriving + [turn]) && l.Reconciled? ensures FromInput(l, inputs, n + 1) {
      if l in labels { EarlierInput(l, inputs, n); } else { LastInput(l, inputs, n); }
    }
  }

  lemma EarlierInput(l: Label, inputs: seq<ServiceInput>, n: nat)
    requires n < |inputs| && l.Reconciled? && FromInput(l, inputs, n)
    ensures FromInput(l, inputs, n + 1)
  {
  }

  lemma LastInput(l: Label, inputs: seq<ServiceInput>, n: nat)
    requires n < |inputs| && l.Reconciled? && l.start == inputs[n].now && l.cooldownNow == inputs[n].cooldownNow
    ensures FromInput(l, inputs, n + 1)
  {
  }

  lemma OneReconciled(arriving: seq<Label>, turn: Label)
    requires (forall l :: l in arriving ==> l.Ingest?) && turn.Reconciled? && turn.start > 0
    ensures Orderly(arriving + [turn])
  {
    var more := arriving + [turn];
    assert forall i :: 0 <= i < |arriving| ==> arriving[i] in arriving && more[i] == arriving[i];
  }

  lemma TurnAfter(inputs: seq<ServiceInput>, clock: int, n: nat, labels: seq<Label>, arriving: seq<Label>, turn: Label)
    requires n < |inputs| && InputsInOrder(inputs, clock)
    requires forall l :: l in labels && l.Reconciled? ==> FromInput(l, inputs, n)
    requires (forall l :: l in arriving ==> l.Ingest?) && turn.Reconciled? && turn.start == inputs[n].now
    ensures Before(labels, arriving + [turn])
  {
    hide InputInOrder;
    var more := arriving + [turn];
    assert forall j :: 0 <= j < |arriving| ==> arriving[j] in arriving && more[j] == arriving[j];
    forall i, j | 0 <= i < |labels| && 0 <= j < |more| && labels[i].Reconciled? && more[j].Reconciled?
      ensures labels[i].cooldownNow <= more[j].start
    {
      assert labels[i] in labels && FromInput(labels[i], inputs, n);
    }
  }

  /** A run of the system that is followed by a tick goes on with it, so the theorems on
      runs are about any number of ticks. */
  lemma RunThenTick(lim: Limits, services: seq<Service>, inputs: seq<ServiceInput>, dryRun: bool, first: World,
                    p: Progress, last: World, xs: seq<Sys>, labels: seq<Label>) returns (ys: seq<Sys>, more: seq<Label>)
    requires Progressed(lim, services, inputs, dryRun, first, p, last) && InputsInOrder(inputs, first.store.clock)
    requires DistinctNames(services) && forall id :: id in first.counts ==> first.counts[id] >= 0
    requires |first.services| == |services| && forall k :: 0 <= k < |inputs| ==> inputs[k].now > 0
    requires lim.Positive() && SysRun(lim, Specs(services), dryRun, xs, labels) && xs[|labels|] == SysOf(services, first)
    requires forall i, k :: 0 <= i < |labels| && labels[i].Reconciled? && 0 <= k < |inputs| ==>
               labels[i].cooldownNow <= inputs[k].now
    ensures |last.services| == |services| && SysRun(lim, Specs(services), dryRun, ys, more)
    ensures labels <= more && xs <= ys && ys[|more|] == SysOf(services, last)
    ensures forall k :: 0 <= k < |p.ticks| ==> k < |services| && HadTurn(services, first, p, ys, more, k)
  {
    var tick := TickIsStretch(lim, services, inputs, dryRun, first, p, last);
    var turns := LabelsOf(services, inputs, first.counts, |p.ticks|);
    LabelsOrderly(services, inputs, first.counts, first.store.clock, |p.ticks|);
    hide Progressed, InputsInOrder, Specs, ByName, SysStep, LabelsOf, HadTurn, DistinctNames, AllArrive;
    RunIsStretch(lim, Specs(services), dryRun, xs, labels);
    hide SysRun, Stretch, Orderly;
    ys, more := xs + tick[1..], labels + turns;
    TurnsFollow(inputs, |p.ticks|, labels, turns);
    OrderlyJoin(labels, turns);
    StretchesJoin(lim, Specs(services), dryRun, xs, labels, tick, turns);
    forall k | 0 <= k < |p.ticks| ensures HadTurn(services, first, p, ys, more, k) {
      assert HadTurn(services, first, p, tick, turns, k);
      TurnLater(services, first, p, xs, labels, tick, turns, k);
    }
    RunIsStretch(lim, Specs(services), dryRun, ys, more);
  }

  lemma RunIsStretch(lim: Limits, specs: map<string, ServiceSpec>, dryRun: bool, xs: seq<Sys>, labels: seq<Label>)
    requires lim.Positive()
    ensures SysRun(lim, specs, dryRun, xs, labels) <==>
            && Stretch(lim, specs, dryRun, xs, labels) && Orderly(labels) && Initial(xs[0].store)
            && forall name :: name in xs[0].services ==> R.Fresh(xs[0].services[name])
  {
    hide SysStep, R.Fresh;
  }

  lemma TurnsFollow(inputs: seq<ServiceInput>, n: nat, labels: seq<Label>, turns: seq<Label>)
    requires n <= |inputs| && forall l :: l in turns && l.Reconciled? ==> FromInput(l, inputs, n)
    requires forall i, k :: 0 <= i < |labels| && labels[i].Reconciled? && 0 <= k < |inputs| ==>
               labels[i].cooldownNow <= inputs[k].now
    ensures Before(labels, turns)
  {
    forall i, j | 0 <= i < |labels| && 0 <= j < |turns| && labels[i].Reconciled? && turns[j].Reconciled?
      ensures labels[i].cooldownNow <= turns[j].start
    {
      assert turns[j] in turns;
    }
  }

  lemma TurnLater(services: seq<Service>, first: World, p: Progress, xs: seq<Sys>, labels: seq<Label>,
                  ys: seq<Sys>, more: seq<Label>, k: nat)
    requires k < |services| == |first.services| && k < |p.ticks| && |xs| == |labels| + 1 && |ys| == |more| + 1
    requires HadTurn(services, first, p, ys, more, k) && xs[|labels|] == ys[0]
    ensures HadTurn(services, first, p, xs + ys[1..], labels + more, k)
  {
    var j :| TurnAt(services, first, p, ys, more, k, j);
    assert TurnAt(services, first, p, xs + ys[1..], labels + more, k, |labels| + j);
  }

  /** Before the first tick there is a run without steps. */
  lemma StartIsRun(lim: Limits, services: seq<Service>, dryRun: bool, first: World)
    requires lim.Positive() && |first.services| == |services| && Initial(first.store)
    requires forall k :: 0 <= k < |services| ==> R.Fresh(first.services[k])
    ensures SysRun(lim, Specs(services), dryRun, [SysOf(services, first)], [])
  {
  }
}
