/** Runs that reach a given history: series fed in order into a store whose global
    limit leaves room, so that only the per-series limit drops anything. */
module Feeds {
  import opened Samples
  import opened StoreModel
  import opened StoreInvariant
  import opened StoreRuns
  import opened StoreTheorems

  lemma RunAndStep(lim: Limits, states: seq<State>, ops: seq<Op>, op: Op, s: State)
    requires lim.Positive() && Run(lim, states, ops) && Step(lim, states[|ops|], op, s)
    ensures Run(lim, states + [s], ops + [op])
  {
    hide Step, Initial;
    var states', ops' := states + [s], ops + [op];
    forall i | 0 <= i < |ops'| ensures Step(lim, states'[i], ops'[i], states'[i + 1]) {
      if i < |ops| { assert Step(lim, states[i], ops[i], states[i + 1]); }
    }
  }

  lemma {:induction false} InsertLength(s: seq<Sample>, x: Sample)
    ensures |Insert(s, x)| <= |s| + 1
  {
    if s != [] && x.observedAt > s[0].observedAt { InsertLength(s[1..], x); }
  }

  lemma RecordTotal(m: Store, key: MetricKey, x: Sample)
    ensures Total(Record(m, key, x)) <= Total(m) + 1
  {
    RecordAt(m, key, x);
    InsertLength(At(m, key), x);
    TotalUpdate(m, Record(m, key, x), key);
  }

  lemma TrimmedTotal(lim: Limits, m: Store, cutoff: int)
    requires lim.Positive() && forall k :: Sorted(At(m, k))
    ensures Total(Trimmed(lim, m, cutoff)) <= Total(m)
  {
    forall k ensures |At(Trimmed(lim, m, cutoff), k)| <= |At(m, k)| { TrimmedAt(lim, m, cutoff, k); }
    TotalMonotone(Trimmed(lim, m, cutoff), m);
  }

  lemma NoneEvicted(m: Store, limit: int)
    requires Total(m) <= limit
    ensures Evicted(m, m, limit)
  {
  }

  lemma RecordSorted(lim: Limits, s: State, key: MetricKey, x: Sample)
    requires Invariant(lim, s)
    ensures forall k :: Sorted(At(Record(s.series, key, x), k))
  {
    SortedStore(lim, s);
    hide Invariant, Sorted;
    InsertMeaning(At(s.series, key), x);
    RecordAt(s.series, key, x);
  }

  /** A sample that arrives while the global limit has room is stored. */
  lemma Feed(lim: Limits, s: State, now: int, key: MetricKey, x: Sample) returns (s': State, op: Op)
    requires lim.Positive() && Invariant(lim, s) && s.clock <= now && Total(s.series) < lim.total
    requires key.name != "" && x.observedAt != 0 && Cutoff(lim, now) <= x.observedAt <= now
    ensures Step(lim, s, op, s') && op == Arrive(now, key, Finite(x.value), x.observedAt)
    ensures s'.history == Record(s.history, key, x) && s'.clock == now && Total(s'.series) <= Total(s.series) + 1
  {
    hide Invariant, Evicted, Sorted, Total, PruneAll, CapAll;
    var m := Record(s.series, key, x);
    RecordSorted(lim, s, key, x);
    RecordTotal(s.series, key, x);
    TrimmedTotal(lim, m, Cutoff(lim, now));
    NoneEvicted(Trimmed(lim, m, Cutoff(lim, now)), lim.total);
    s' := State(Trimmed(lim, m, Cutoff(lim, now)), Record(s.history, key, x), now);
    op := Arrive(now, key, Finite(x.value), x.observedAt);
  }

  /** The snapshot of a store within its global limit. */
  lemma Observed(lim: Limits, s: State, now: int) returns (s': State)
    requires lim.Positive() && Invariant(lim, s) && s.clock <= now
    ensures Step(lim, s, View(now), s') && s'.history == s.history && s'.clock == now
    ensures Total(s'.series) <= Total(s.series)
  {
    SortedStore(lim, s);
    var m := Trimmed(lim, s.series, Cutoff(lim, now));
    TrimmedTotal(lim, s.series, Cutoff(lim, now));
    NoneEvicted(m, lim.total);
    s' := State(m, s.history, now);
  }

  /** What all samples of a feed at `now` must be. */
  ghost predicate Feedable(lim: Limits, now: int, h: seq<Sample>) {
    Sorted(h) && forall x :: x in h ==> 0 < x.observedAt <= now && Cutoff(lim, now) <= x.observedAt
  }

  lemma FeedableFront(lim: Limits, now: int, h: seq<Sample>)
    requires Feedable(lim, now, h) && h != []
    ensures Feedable(lim, now, h[..|h| - 1]) && h == h[..|h| - 1] + [h[|h| - 1]]
    ensures Insert(h[..|h| - 1], h[|h| - 1]) == h && h[|h| - 1] in h
  {
    var front, last := h[..|h| - 1], h[|h| - 1];
    InsertAppend(front, [], last);
    hide Insert;
    assert front + [] == front && h == front + [last];
  }

  /** A run that has recorded `history` and holds at most as many samples as it has
      had steps, all at clock readings up to `now`. */
  ghost predicate Recorded(lim: Limits, states: seq<State>, ops: seq<Op>, history: Store, now: int, n: nat)
    requires lim.Positive()
  {
    && Run(lim, states, ops) && Scoped(ops)
    && states[|ops|].history == history && states[|ops|].clock <= now && Total(states[|ops|].series) <= n
  }

  lemma FeedOne(lim: Limits, states: seq<State>, ops: seq<Op>, history: Store, now: int, n: nat, key: MetricKey, x: Sample)
    returns (states': seq<State>, ops': seq<Op>)
    requires lim.Positive() && Recorded(lim, states, ops, history, now, n) && n < lim.total
    requires key.name != "" && key.service != "" && 0 < x.observedAt <= now && Cutoff(lim, now) <= x.observedAt
    ensures Recorded(lim, states', ops', Record(history, key, x), now, n + 1)
  {
    RunKeepsInvariant(lim, states, ops, |ops|);
    var s, op := Feed(lim, states[|ops|], now, key, x);
    RunAndStep(lim, states, ops, op, s);
    states', ops' := states + [s], ops + [op];
  }

  /** Feeds a series in order, so that its history becomes `h`. */
  lemma {:induction false} FeedSeries(lim: Limits, states: seq<State>, ops: seq<Op>, history: Store, now: int, n: nat,
                                      key: MetricKey, h: seq<Sample>)
    returns (states': seq<State>, ops': seq<Op>, history': Store)
    requires lim.Positive() && Recorded(lim, states, ops, history, now, n) && n + |h| <= lim.total
    requires key.name != "" && key.service != "" && Feedable(lim, now, h) && At(history, key) == []
    ensures Recorded(lim, states', ops', history', now, n + |h|)
    ensures At(history', key) == h && forall k :: k != key ==> At(history', k) == At(history, k)
    decreases |h|
  {
    if h == [] {
      states', ops', history' := states, ops, history;
    } else {
      var front, last := h[..|h| - 1], h[|h| - 1];
      FeedableFront(lim, now, h);
      states', ops', history' := FeedSeries(lim, states, ops, history, now, n, key, front);
      ghost var before := history';
      states', ops' := FeedOne(lim, states', ops', before, now, n + |front|, key, last);
      history' := Record(before, key, last);
      RecordAt(before, key, last);
    }
  }

  function TotalLength(hs: seq<seq<Sample>>): nat {
    if hs == [] then 0 else TotalLength(hs[..|hs| - 1]) + |hs[|hs| - 1]|
  }

  ghost predicate Holds(m: Store, keys: seq<MetricKey>, hs: seq<seq<Sample>>)
    requires |keys| == |hs|
  {
    forall i :: 0 <= i < |keys| ==> At(m, keys[i]) == hs[i]
  }

  /** The history holds exactly these series. */
  ghost predicate HistoryIs(history: Store, keys: seq<MetricKey>, hs: seq<seq<Sample>>)
    requires |keys| == |hs|
  {
    Holds(history, keys, hs) && forall k :: k !in keys ==> At(history, k) == []
  }

  ghost predicate DistinctKeys(keys: seq<MetricKey>) {
    && (forall i :: 0 <= i < |keys| ==> keys[i].name != "" && keys[i].service != "")
    && (forall i, j :: 0 <= i < j < |keys| ==> keys[i] != keys[j])
  }

  lemma DistinctFront(keys: seq<MetricKey>)
    requires DistinctKeys(keys) && keys != []
    ensures DistinctKeys(keys[..|keys| - 1])
    ensures var last := keys[|keys| - 1]; last.name != "" && last.service != "" && last !in keys[..|keys| - 1]
  {
  }

  lemma NotYetFed(before: Store, keys: seq<MetricKey>, hs: seq<seq<Sample>>)
    requires DistinctKeys(keys) && |keys| == |hs| + 1 && HistoryIs(before, keys[..|hs|], hs)
    ensures At(before, keys[|hs|]) == []
  {
    DistinctFront(keys);
  }

  lemma HistoryGrows(before: Store, after: Store, keys: seq<MetricKey>, hs: seq<seq<Sample>>)
    requires DistinctKeys(keys) && |keys| == |hs| > 0
    requires HistoryIs(before, keys[..|keys| - 1], hs[..|keys| - 1])
    requires At(after, keys[|keys| - 1]) == hs[|keys| - 1]
    requires forall k :: k != keys[|keys| - 1] ==> At(after, k) == At(before, k)
    ensures HistoryIs(after, keys, hs)
  {
    var n := |keys| - 1;
    forall i | 0 <= i < n ensures At(after, keys[i]) == hs[i] {
      assert keys[..n][i] == keys[i];
    }
    assert keys == keys[..n] + [keys[n]];
  }

  lemma {:induction false} FeedAll(lim: Limits, now: int, keys: seq<MetricKey>, hs: seq<seq<Sample>>)
    returns (states: seq<State>, ops: seq<Op>, history: Store)
    requires lim.Positive() && |keys| == |hs| && DistinctKeys(keys) && TotalLength(hs) <= lim.total && 0 <= now
    requires forall h :: h in hs ==> Feedable(lim, now, h)
    ensures Recorded(lim, states, ops, history, now, TotalLength(hs)) && HistoryIs(history, keys, hs)
    decreases |keys|
  {
    if keys == [] {
      assert Total(map[]) == 0;
      states, ops, history := [State(map[], map[], 0)], [], map[];
    } else {
      hide Recorded, Feedable, DistinctKeys, HistoryIs;
      DistinctFront(keys);
      var n := |keys| - 1;
      states, ops, history := FeedAll(lim, now, keys[..n], hs[..n]);
      ghost var before := history;
      NotYetFed(before, keys, hs[..n]);
      states, ops, history := FeedSeries(lim, states, ops, before, now, TotalLength(hs[..n]), keys[n], hs[n]);
      HistoryGrows(before, history, keys, hs);
    }
  }

  lemma {:induction false} HistoryTotal(history: Store, keys: seq<MetricKey>, hs: seq<seq<Sample>>)
    requires |keys| == |hs| && DistinctKeys(keys) && HistoryIs(history, keys, hs)
    ensures Total(history) == TotalLength(hs)
    decreases |keys|
  {
    if keys == [] {
      assert Total(map[]) == 0;
      forall k ensures |At(history, k)| <= |At(map[], k)| { assert k !in keys; }
      TotalMonotone(history, map[]);
    } else {
      var n := |keys| - 1;
      DistinctFront(keys);
      var before := history - {keys[n]};
      OneFewer(history, keys, hs);
      hide HistoryIs, DistinctKeys;
      HistoryTotal(before, keys[..n], hs[..n]);
      TotalUpdate(before, history, keys[n]);
    }
  }

  lemma OneFewer(history: Store, keys: seq<MetricKey>, hs: seq<seq<Sample>>)
    requires |keys| == |hs| > 0 && DistinctKeys(keys) && HistoryIs(history, keys, hs)
    ensures HistoryIs(history - {keys[|keys| - 1]}, keys[..|keys| - 1], hs[..|hs| - 1])
    ensures At(history, keys[|keys| - 1]) == hs[|hs| - 1] && At(history - {keys[|keys| - 1]}, keys[|keys| - 1]) == []
    ensures forall k :: k != keys[|keys| - 1] ==> At(history - {keys[|keys| - 1]}, k) == At(history, k)
  {
    var n, before := |keys| - 1, history - {keys[|keys| - 1]};
    forall k | k != keys[n] ensures At(before, k) == At(history, k) {}
    forall k | k !in keys[..n] ensures At(before, k) == [] {
      assert keys == keys[..n] + [keys[n]];
    }
  }

  /** With all of the history unexpired and within the global limit, a store holds of
      each series what the per-series limit leaves. */
  lemma OnlyCapped(lim: Limits, s: State, k: MetricKey)
    requires lim.Positive() && Invariant(lim, s) && Total(s.history) <= lim.total
    requires AllAtLeast(s.history, Cutoff(lim, s.clock))
    ensures At(s.series, k) == Cap(At(s.history, k), lim.perSeries)
  {
    var h, v := At(s.history, k), At(s.series, k);
    assert IsSuffix(v, h);
    CapSuffix(v, h, lim.perSeries);
    if |v| < |h| {
      FewerInTotal(lim, s, k);
      assert Excused(lim, Total(s.series), s.series, h, v, Cutoff(lim, s.clock));
      assert h[|h| - |v| - 1] in h;
    }
  }

  lemma FewerInTotal(lim: Limits, s: State, k: MetricKey)
    requires Invariant(lim, s) && |At(s.series, k)| < |At(s.history, k)|
    ensures Total(s.series) < Total(s.history)
  {
    forall k ensures |At(s.series, k)| <= |At(s.history, k)| { assert IsSuffix(At(s.series, k), At(s.history, k)); }
    TotalMonotone(s.series, s.history);
  }

  /** A run that has told these histories, as far as the per-series limit lets it. */
  ghost predicate Reaches(lim: Limits, states: seq<State>, ops: seq<Op>, now: int, keys: seq<MetricKey>,
                          hs: seq<seq<Sample>>)
    requires |keys| == |hs|
  {
    && lim.Positive() && Run(lim, states, ops) && Scoped(ops) && states[|ops|].clock == now
    && HistoryIs(states[|ops|].history, keys, hs)
    && forall k {:trigger At(states[|ops|].series, k)} ::
         At(states[|ops|].series, k) == Cap(At(states[|ops|].history, k), lim.perSeries)
  }

  /** Any series can be the accepted history of a run that ends in a snapshot at `now`
      and has dropped nothing but what the per-series limit drops. */
  lemma Reached(lim: Limits, now: int, keys: seq<MetricKey>, hs: seq<seq<Sample>>)
    returns (states: seq<State>, ops: seq<Op>)
    requires lim.Positive() && |keys| == |hs| && DistinctKeys(keys) && TotalLength(hs) <= lim.total && 0 <= now
    requires forall h :: h in hs ==> Feedable(lim, now, h)
    ensures Reaches(lim, states, ops, now, keys, hs)
  {
    var history;
    states, ops, history := FeedAll(lim, now, keys, hs);
    RunKeepsInvariant(lim, states, ops, |ops|);
    var s := Observed(lim, states[|ops|], now);
    RunAndStep(lim, states, ops, View(now), s);
    states, ops := states + [s], ops + [View(now)];
    RunKeepsInvariant(lim, states, ops, |ops|);
    NothingExpires(lim, now, keys, hs, history);
    HistoryTotal(history, keys, hs);
    forall k ensures At(s.series, k) == Cap(At(s.history, k), lim.perSeries) { OnlyCapped(lim, s, k); }
  }

  // ------------------------------------------------------------ a late arrival

  lemma OnlyNewGone(m: Store, key: MetricKey, x: Sample, limit: int)
    requires At(m, key) == [] && Total(m) == limit && AllAtLeast(m, x.observedAt) && forall k :: k in m ==> m[k] != []
    ensures Evicted(Record(m, key, x), m, limit)
  {
    RecordAt(m, key, x);
    assert Insert([], x) == [x];
    hide AllAtLeast, Total, Insert;
    forall k ensures OldestDropped(Record(m, key, x), m, limit, k) {
      assert k == key ==> NewestMissing([x], []) == x.observedAt;
    }
    EvictedFrom(Record(m, key, x), m, limit);
  }

  lemma WeakerBound(m: Store, t: int, t': int)
    requires AllAtLeast(m, t) && t' <= t
    ensures AllAtLeast(m, t')
  {
  }

  lemma EnforcedLate(lim: Limits, m: Store, key: MetricKey, x: Sample, cutoff: int)
    requires lim.Positive() && WithinLimits(lim, m) && Total(m) == lim.total && forall k :: k in m ==> m[k] != []
    requires At(m, key) == [] && AllAtLeast(m, x.observedAt) && cutoff <= x.observedAt
    ensures Enforced(lim, Record(m, key, x), cutoff, m)
  {
    hide Evicted, Total, AllAtLeast, Sorted, Insert;
    WeakerBound(m, x.observedAt, cutoff);
    NothingTrimmed(lim, m, key, x, cutoff);
    OnlyNewGone(m, key, x, lim.total);
  }

  /** A sample older than everything in a full store is accepted and evicted in the
      same call: it is in the history, and the store is as before. */
  lemma LateArrival(lim: Limits, s: State, now: int, key: MetricKey, x: Sample) returns (op: Op, s': State)
    requires lim.Positive() && Invariant(lim, s) && s.clock <= now && Total(s.series) == lim.total
    requires At(s.series, key) == [] && AllAtLeast(s.series, x.observedAt)
    requires key.name != "" && key.service != "" && x.observedAt != 0 && Cutoff(lim, now) <= x.observedAt <= now
    ensures Step(lim, s, op, s') && op.Arrive? && op.key == key
    ensures s' == State(s.series, Record(s.history, key, x), now)
  {
    op, s' := Arrive(now, key, Finite(x.value), x.observedAt), State(s.series, Record(s.history, key, x), now);
    hide Step, Enforced;
    StoredWithin(lim, s);
    hide Invariant, WithinLimits, AllAtLeast;
    EnforcedLate(lim, s.series, key, x, Cutoff(lim, now));
    ArrivalStep(lim, s, s.series, now, key, x);
  }

  lemma StoredWithin(lim: Limits, s: State)
    requires lim.Positive() && Invariant(lim, s)
    ensures WithinLimits(lim, s.series) && forall k :: k in s.series ==> s.series[k] != []
  {
    InvariantReady(lim, s, Cutoff(lim, s.clock));
  }

  lemma ArrivalStep(lim: Limits, s: State, after: Store, now: int, key: MetricKey, x: Sample)
    requires lim.Positive() && s.clock <= now && Enforced(lim, Record(s.series, key, x), Cutoff(lim, now), after)
    requires key.name != "" && x.observedAt != 0 && Cutoff(lim, now) <= x.observedAt <= now
    ensures Step(lim, s, Arrive(now, key, Finite(x.value), x.observedAt), State(after, Record(s.history, key, x), now))
  {
    hide Enforced, Record;
  }

  /** The run that has told these histories in full, and then loses a sample of another
      key on arrival. */
  lemma ReachedWithoutOldest(lim: Limits, now: int, keys: seq<MetricKey>, hs: seq<seq<Sample>>, key: MetricKey, x: Sample)
    returns (states: seq<State>, ops: seq<Op>)
    requires lim.Positive() && |keys| == |hs| && DistinctKeys(keys) && TotalLength(hs) == lim.total && 0 <= now
    requires forall h :: h in hs ==> Feedable(lim, now, h) && |h| <= lim.perSeries
    requires forall h, y :: h in hs && y in h ==> x.observedAt <= y.observedAt
    requires key !in keys && key.name != "" && key.service != "" && Cutoff(lim, now) <= x.observedAt <= now
    requires 0 < x.observedAt
    ensures Run(lim, states, ops) && Scoped(ops) && states[|ops|].clock == now
    ensures At(states[|ops|].history, key) == [x] && At(states[|ops|].series, key) == []
    ensures Holds(states[|ops|].history, keys, hs) && Holds(states[|ops|].series, keys, hs)
  {
    hide HistoryIs, Holds, Step, AllAtLeast, Total, Feedable, DistinctKeys, Invariant, Reaches, Record;
    states, ops := Reached(lim, now, keys, hs);
    RanTo(lim, states, ops, now, keys, hs);
    var s := states[|ops|];
    ToldInFull(lim, states, ops, now, keys, hs, key, x);
    RunKeepsInvariant(lim, states, ops, |ops|);
    var op, s' := LateArrival(lim, s, now, key, x);
    RunAndStep(lim, states, ops, op, s');
    OneMoreHistory(s.history, keys, hs, key, x);
    states, ops := states + [s'], ops + [op];
  }

  lemma RanTo(lim: Limits, states: seq<State>, ops: seq<Op>, now: int, keys: seq<MetricKey>, hs: seq<seq<Sample>>)
    requires |keys| == |hs| && Reaches(lim, states, ops, now, keys, hs)
    ensures lim.Positive() && Run(lim, states, ops) && Scoped(ops) && states[|ops|].clock == now
    ensures HistoryIs(states[|ops|].history, keys, hs)
  {
  }

  lemma SameSeries(s: State, keys: seq<MetricKey>, hs: seq<seq<Sample>>, limit: nat)
    requires |keys| == |hs| && HistoryIs(s.history, keys, hs) && forall h :: h in hs ==> |h| <= limit
    requires forall k {:trigger At(s.series, k)} :: At(s.series, k) == Cap(At(s.history, k), limit)
    ensures forall k :: At(s.series, k) == At(s.history, k)
  {
    forall k ensures At(s.series, k) == At(s.history, k) {
      if k in keys {
        var i :| 0 <= i < |keys| && keys[i] == k;
        assert hs[i] in hs;
      }
    }
  }

  lemma ToldInFull(lim: Limits, states: seq<State>, ops: seq<Op>, now: int, keys: seq<MetricKey>, hs: seq<seq<Sample>>,
                   key: MetricKey, x: Sample)
    requires |keys| == |hs| && Reaches(lim, states, ops, now, keys, hs) && DistinctKeys(keys)
    requires TotalLength(hs) == lim.total && forall h :: h in hs ==> |h| <= lim.perSeries
    requires key !in keys && forall h, y :: h in hs && y in h ==> x.observedAt <= y.observedAt
    ensures var s := states[|ops|];
      && Total(s.series) == lim.total && AllAtLeast(s.series, x.observedAt) && At(s.series, key) == []
      && Holds(s.series, keys, hs)
  {
    var s := states[|ops|];
    hide Run, Scoped;
    SameSeries(s, keys, hs, lim.perSeries);
    forall k, y | y in At(s.series, k) ensures x.observedAt <= y.observedAt {
      assert k in keys;
      var i :| 0 <= i < |keys| && keys[i] == k;
      assert hs[i] in hs;
    }
    assert At(s.series, key) == At(s.history, key);
    forall i | 0 <= i < |keys| ensures At(s.series, keys[i]) == hs[i] {
      assert At(s.series, keys[i]) == At(s.history, keys[i]);
    }
    HistoryTotal(s.history, keys, hs);
    hide Cap, HistoryIs;
    TotalMonotone(s.series, s.history);
    TotalMonotone(s.history, s.series);
  }

  lemma OneMoreHistory(history: Store, keys: seq<MetricKey>, hs: seq<seq<Sample>>, key: MetricKey, x: Sample)
    requires |keys| == |hs| && HistoryIs(history, keys, hs) && key !in keys
    ensures Holds(Record(history, key, x), keys, hs) && At(Record(history, key, x), key) == [x]
  {
    RecordAt(history, key, x);
    assert Insert([], x) == [x] && At(history, key) == [];
    assert forall i :: 0 <= i < |keys| ==> keys[i] in keys;
  }

  lemma NothingExpires(lim: Limits, now: int, keys: seq<MetricKey>, hs: seq<seq<Sample>>, history: Store)
    requires |keys| == |hs| && HistoryIs(history, keys, hs) && forall h :: h in hs ==> Feedable(lim, now, h)
    ensures AllAtLeast(history, Cutoff(lim, now))
  {
    forall k, x | x in At(history, k) ensures Cutoff(lim, now) <= x.observedAt {
      var i :| 0 <= i < |keys| && keys[i] == k;
      assert Feedable(lim, now, hs[i]);
    }
  }
}
