/** Eviction fails closed: a complete window on the bounded store is the same
    window on the whole accepted history, exactly unless the store has silently
    fallen back to an unscoped series. */
module Eviction {
  import opened Samples
  import opened StoreModel
  import opened StoreRuns
  import opened StoreTheorems
  import opened Buckets

  /** The key's own series was evicted whole and an unscoped one answers for it. */
  ghost predicate Shadowed(s: State, key: MetricKey) {
    key.service != "" && At(s.series, key) == [] && At(s.history, key) != [] && Visible(s.series, key) != []
  }

  /** No query of the state falls back from an evicted series to an unscoped one. */
  ghost predicate NoShadowing(s: State) { forall key :: !Shadowed(s, key) }

  ghost predicate NothingUnscoped(history: Store) { forall k: MetricKey :: k.service == "" ==> At(history, k) == [] }

  lemma StepStaysScoped(lim: Limits, s: State, op: Op, s': State)
    requires lim.Positive() && Step(lim, s, op, s') && NothingUnscoped(s.history)
    requires op.Arrive? ==> op.key.service != ""
    ensures NothingUnscoped(s'.history)
  {
    hide Enforced;
  }

  lemma {:induction false} ScopedHistory(lim: Limits, states: seq<State>, ops: seq<Op>, i: nat)
    requires lim.Positive() && Run(lim, states, ops) && Scoped(ops) && i < |states|
    ensures NothingUnscoped(states[i].history)
  {
    if i > 0 {
      hide Step, NothingUnscoped;
      ScopedHistory(lim, states, ops, i - 1);
      assert Step(lim, states[i - 1], ops[i - 1], states[i - 1 + 1]) && ops[i - 1] in ops;
      StepStaysScoped(lim, states[i - 1], ops[i - 1], states[i]);
    } else {
      assert Initial(states[0]);
    }
  }

  lemma OwnSeriesOnly(lim: Limits, s: State, key: MetricKey)
    requires Invariant(lim, s) && At(s.history, MetricKey("", key.name)) == []
    ensures Visible(s.series, key) == At(s.series, key) && Visible(s.history, key) == At(s.history, key)
  {
    var unscoped := MetricKey("", key.name);
    assert IsSuffix(At(s.series, unscoped), At(s.history, unscoped));
  }

  lemma NothingToShadow(lim: Limits, s: State)
    requires Invariant(lim, s) && NothingUnscoped(s.history)
    ensures NoShadowing(s)
  {
    forall key ensures !Shadowed(s, key) {
      var unscoped := MetricKey("", key.name);
      assert IsSuffix(At(s.series, unscoped), At(s.history, unscoped));
    }
  }

  /** A run whose arrivals all name a service never falls back to an unscoped series. */
  lemma ScopedNeverShadowed(lim: Limits, states: seq<State>, ops: seq<Op>, i: nat)
    requires lim.Positive() && Run(lim, states, ops) && Scoped(ops) && i < |states|
    ensures NoShadowing(states[i])
  {
    RunKeepsInvariant(lim, states, ops, i);
    ScopedHistory(lim, states, ops, i);
    NothingToShadow(lim, states[i]);
  }

  lemma VisibleSuffix(lim: Limits, s: State, key: MetricKey)
    requires Invariant(lim, s) && !Shadowed(s, key)
    ensures IsSuffix(Visible(s.series, key), Visible(s.history, key))
  {
    var unscoped := MetricKey("", key.name);
    assert IsSuffix(At(s.series, key), At(s.history, key));
    assert IsSuffix(At(s.series, unscoped), At(s.history, unscoped));
  }

  /** In every state of every run, for every query: complete on the bounded store
      means complete on the whole history with identical buckets. */
  lemma EvictionFailsClosed(lim: Limits, states: seq<State>, ops: seq<Op>, i: nat,
                            key: MetricKey, now: int, width: int, count: int, after: int)
    requires lim.Positive() && Run(lim, states, ops) && i < |states|
    requires !Shadowed(states[i], key)
    requires Query(Visible(states[i].series, key), now, width, count, after).status == Complete
    ensures Query(Visible(states[i].history, key), now, width, count, after) ==
            Query(Visible(states[i].series, key), now, width, count, after)
  {
    RunKeepsInvariant(lim, states, ops, i);
    VisibleSuffix(lim, states[i], key);
    FailsClosed(Visible(states[i].series, key), Visible(states[i].history, key), now, width, count, after);
  }

  ghost predicate Agrees(s: State, key: MetricKey, now: int, width: int, count: int, after: int) {
    Query(Visible(s.series, key), now, width, count, after).status == Complete ==>
      Query(Visible(s.history, key), now, width, count, after) == Query(Visible(s.series, key), now, width, count, after)
  }

  ghost predicate AlwaysAgrees(s: State, key: MetricKey) {
    forall now, width, count, after :: Agrees(s, key, now, width, count, after)
  }

  /** The one-tick bucket at `t` holds exactly the sample at `t`. */
  lemma TickQuery(values: seq<Sample>, t: int)
    requires Sorted(values) && values != []
    ensures var a := Query(values, t + 1, 1, 1, 0);
      && (forall x :: x in values && x.observedAt == t ==> a == Answer([Bucket(t, t + 1, x)], Complete))
      && ((forall x :: x in values ==> x.observedAt != t) ==> a.status != Complete)
  {
    var oldest := OldestStart(t + 1, 1, 1);
    assert oldest == t && BucketStart(oldest, 1, 0) == t;
    var r := InBucket(values, oldest, 1, 0);
    assert PresentBuckets(values, oldest, 1, 0) == [];
    assert PresentBuckets(values, oldest, 1, 1) == if r.Some? then [Bucket(t, t + 1, r.value)] else [];
  }

  /** The newest sample of the shadowing series tells the difference, unless it is
      all there is and equals the newest sample the key ever had. */
  lemma ShadowedDisagrees(lim: Limits, s: State, key: MetricKey)
    requires Invariant(lim, s) && Shadowed(s, key)
    ensures var u, h := Visible(s.series, key), At(s.history, key);
            !Agrees(s, key, u[|u| - 1].observedAt + 1, 1, 1, 0) || u == [h[|h| - 1]]
  {
    var unscoped := MetricKey("", key.name);
    var u, h := At(s.series, unscoped), At(s.history, key);
    assert Visible(s.series, key) == u && Visible(s.history, key) == h;
    SuffixSortedAt(lim, s, unscoped);
    SuffixSortedAt(lim, s, key);
    assert VanishedIsOldest(s.series, h, At(s.series, key));
    assert u[0] in u;
    NewerSeriesDiffers(u, h);
  }

  /** Of two series, one of which begins no earlier than the other ends, only equal
      samples in the one instant they share answer alike there. */
  lemma NewerSeriesDiffers(u: seq<Sample>, h: seq<Sample>)
    requires Sorted(u) && Sorted(h) && u != [] && h != [] && h[|h| - 1].observedAt <= u[0].observedAt
    ensures var t := u[|u| - 1].observedAt + 1;
      Query(u, t, 1, 1, 0).status == Complete && (Query(h, t, 1, 1, 0) == Query(u, t, 1, 1, 0) ==> u == [h[|h| - 1]])
  {
    var x, y := u[|u| - 1], h[|h| - 1];
    assert x in u && y in h;
    TickQuery(u, x.observedAt);
    TickQuery(h, x.observedAt);
    if x.observedAt == y.observedAt {
      assert |u| == 1;
    } else {
      assert forall z :: z in h ==> z.observedAt <= y.observedAt;
    }
  }

  lemma SuffixSortedAt(lim: Limits, s: State, k: MetricKey)
    requires Invariant(lim, s)
    ensures Sorted(At(s.series, k)) && Sorted(At(s.history, k))
  {
    assert IsSuffix(At(s.series, k), At(s.history, k));
    SuffixSorted(At(s.series, k), At(s.history, k));
  }

  /** Exactly when eviction fails closed for every query on a key. */
  lemma FailsClosedIff(lim: Limits, s: State, key: MetricKey)
    requires Invariant(lim, s)
    ensures AlwaysAgrees(s, key) <==>
            (!Shadowed(s, key) || Visible(s.series, key) == [At(s.history, key)[|At(s.history, key)| - 1]])
  {
    var u, h := Visible(s.series, key), Visible(s.history, key);
    if Shadowed(s, key) && u != [h[|h| - 1]] {
      ShadowedDisagrees(lim, s, key);
    } else {
      if Shadowed(s, key) {
        assert h[|h| - 1..] == u;
      } else {
        VisibleSuffix(lim, s, key);
      }
      forall now, width, count, after ensures Agrees(s, key, now, width, count, after) {
        if Query(u, now, width, count, after).status == Complete {
          FailsClosed(u, h, now, width, count, after);
        }
      }
    }
  }

  const TINY := Limits(10, 5, 1)

  lemma OneSample(m: Store, key: MetricKey, x: Sample)
    requires m == map[key := [x]]
    ensures Total(m) == 1
  {
    TotalUpdate(map[], m, key);
  }

  lemma AllTrimmed(m: Store)
    requires forall k :: k in m ==> |m[k]| == 1
    ensures CapAll(PruneAll(m, Cutoff(TINY, 2)), 5) == m
  {
  }

  /** A sample that arrives alone is stored. */
  lemma FirstArrival(key: MetricKey, x: Sample)
    requires key.name != "" && x.observedAt == 1
    ensures AddStep(TINY, State(map[], map[], 0), State(map[key := [x]], map[key := [x]], 2), 2, key, Finite(x.value), 1)
  {
    var empty: Store, m := map[], map[key := [x]];
    assert Insert([], x) == [x] && Record(empty, key, x) == m;
    AllTrimmed(m);
    OneSample(m, key, x);
    forall k ensures OldestDropped(m, m, 1, k) {}
    EvictedFrom(m, m, 1);
  }

  /** A newer sample of another series takes its place. */
  lemma SecondArrival(a: MetricKey, b: MetricKey, x: Sample, y: Sample)
    requires a != b && b.name != "" && x.observedAt == 1 && y.observedAt == 2
    ensures AddStep(TINY, State(map[a := [x]], map[a := [x]], 2),
              State(map[b := [y]], map[a := [x], b := [y]], 2), 2, b, Finite(y.value), 2)
  {
    var m, after := map[a := [x], b := [y]], map[b := [y]];
    assert Insert([], y) == [y] && Record(map[a := [x]], b, y) == m;
    AllTrimmed(m);
    OneSample(after, b, y);
    forall k ensures OldestDropped(m, after, 1, k) {
      assert AllAtLeast(after, 1);
    }
    EvictedFrom(m, after, 1);
  }

  lemma TwoArrivals(a: MetricKey, b: MetricKey, x: Sample, y: Sample) returns (states: seq<State>, ops: seq<Op>)
    requires a != b && a.name != "" && b.name != "" && x.observedAt == 1 && y.observedAt == 2
    ensures Run(TINY, states, ops) && ops == [Arrive(2, a, Finite(x.value), 1), Arrive(2, b, Finite(y.value), 2)]
    ensures states[|ops|] == State(map[b := [y]], map[a := [x], b := [y]], 2)
  {
    FirstArrival(a, x);
    SecondArrival(a, b, x, y);
    var s0, s1 := State(map[], map[], 0), State(map[a := [x]], map[a := [x]], 2);
    var s2 := State(map[b := [y]], map[a := [x], b := [y]], 2);
    var o0, o1 := Arrive(2, a, Finite(x.value), 1), Arrive(2, b, Finite(y.value), 2);
    states, ops := [s0, s1, s2], [o0, o1];
    RunOfTwo(TINY, s0, o0, s1, o1, s2);
  }

  lemma RunOfTwo(lim: Limits, s0: State, o0: Op, s1: State, o1: Op, s2: State)
    requires lim.Positive() && Initial(s0) && Step(lim, s0, o0, s1) && Step(lim, s1, o1, s2)
    ensures Run(lim, [s0, s1, s2], [o0, o1])
  {
  }

  function Unscoped(key: MetricKey): MetricKey { MetricKey("", key.name) }

  /** The exception is reachable for every scoped key: in a store with room for one
      sample, an unscoped sample displaces the scoped one of its name and then answers
      for it. */
  lemma ShadowingHappens(key: MetricKey) returns (states: seq<State>, ops: seq<Op>)
    requires key.service != "" && key.name != ""
    ensures Run(TINY, states, ops) && !AlwaysAgrees(states[|ops|], key)
    ensures ArriveIn(ops, iset{key, Unscoped(key)})
  {
    var x, y := Sample(1.0, 1), Sample(2.0, 2);
    states, ops := TwoArrivals(key, Unscoped(key), x, y);
    RunKeepsInvariant(TINY, states, ops, |ops|);
    FailsClosedIff(TINY, states[|ops|], key);
  }

  // ------------------------------------------------------- which keys arrive

  ghost predicate ArriveIn(ops: seq<Op>, keys: iset<MetricKey>) {
    forall op :: op in ops && op.Arrive? ==> op.key in keys
  }

  lemma StepOfOthers(lim: Limits, s: State, op: Op, s': State, key: MetricKey)
    requires lim.Positive() && Step(lim, s, op, s') && At(s.history, key) == []
    requires op.Arrive? && op.key == key ==> key.name == ""
    ensures At(s'.history, key) == []
  {
    hide Enforced;
  }

  /** A key that never arrives, or cannot be accepted, has no history. */
  lemma {:induction false} NeverArrived(lim: Limits, states: seq<State>, ops: seq<Op>, i: nat, keys: iset<MetricKey>,
                                        key: MetricKey)
    requires lim.Positive() && Run(lim, states, ops) && ArriveIn(ops, keys) && i < |states|
    requires key !in keys || key.name == ""
    ensures At(states[i].history, key) == []
  {
    if i > 0 {
      hide Step;
      NeverArrived(lim, states, ops, i - 1, keys, key);
      assert Step(lim, states[i - 1], ops[i - 1], states[i - 1 + 1]) && ops[i - 1] in ops;
      StepOfOthers(lim, states[i - 1], ops[i - 1], states[i], key);
    } else {
      assert Initial(states[0]);
    }
  }

  ghost predicate AgreesAfter(lim: Limits, states: seq<State>, ops: seq<Op>, keys: iset<MetricKey>, key: MetricKey) {
    lim.Positive() && Run(lim, states, ops) && ArriveIn(ops, keys) ==> AlwaysAgrees(states[|ops|], key)
  }

  /** A complete answer about the key is always that of the whole history, after any
      arrivals of these keys. */
  ghost predicate AgreesInRuns(keys: iset<MetricKey>, key: MetricKey) {
    forall lim, states, ops :: AgreesAfter(lim, states, ops, keys, key)
  }

  predicate BothArrive(keys: iset<MetricKey>, key: MetricKey) {
    key.service != "" && key.name != "" && key in keys && Unscoped(key) in keys
  }

  lemma NotShadowed(lim: Limits, s: State, key: MetricKey)
    requires Invariant(lim, s)
    requires key.service == "" || At(s.history, key) == [] || At(s.history, Unscoped(key)) == []
    ensures !Shadowed(s, key)
  {
    assert IsSuffix(At(s.series, Unscoped(key)), At(s.history, Unscoped(key)));
  }

  lemma AgreesUnlessBoth(lim: Limits, states: seq<State>, ops: seq<Op>, keys: iset<MetricKey>, key: MetricKey)
    requires !BothArrive(keys, key)
    ensures AgreesAfter(lim, states, ops, keys, key)
  {
    if lim.Positive() && Run(lim, states, ops) && ArriveIn(ops, keys) {
      hide Step, Shadowed, AlwaysAgrees, Invariant;
      RunKeepsInvariant(lim, states, ops, |ops|);
      if key !in keys || key.name == "" { NeverArrived(lim, states, ops, |ops|, keys, key); }
      if Unscoped(key) !in keys { NeverArrived(lim, states, ops, |ops|, keys, Unscoped(key)); }
      NotShadowed(lim, states[|ops|], key);
      FailsClosedIff(lim, states[|ops|], key);
    }
  }

  /** Exactly when eviction can only make a window incomplete: for every key, unless it
      names a service and both it and the unscoped key of its name arrive. */
  lemma FailsClosedUnlessBoth(keys: iset<MetricKey>, key: MetricKey)
    ensures AgreesInRuns(keys, key) <==> !BothArrive(keys, key)
  {
    if BothArrive(keys, key) {
      var states, ops := ShadowingHappens(key);
      assert !AgreesAfter(TINY, states, ops, keys, key);
    } else {
      forall lim, states, ops ensures AgreesAfter(lim, states, ops, keys, key) {
        AgreesUnlessBoth(lim, states, ops, keys, key);
      }
    }
  }
}
