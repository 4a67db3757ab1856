/** Runs of the store: any number of arrivals and snapshots in any order, with a
    clock that never goes back. */
module StoreRuns {
  import opened Samples
  import opened StoreModel
  import opened StoreInvariant

  datatype Op =
    | Arrive(now: int, key: MetricKey, value: Reading, observedAt: int)
    | View(now: int)

  ghost predicate Step(lim: Limits, s: State, op: Op, s': State)
    requires lim.Positive()
  {
    && s.clock <= op.now
    && match op
       case Arrive(now, key, value, observedAt) => AddStep(lim, s, s', now, key, value, observedAt)
       case View(now) => SnapshotStep(lim, s, s', now)
  }

  ghost predicate Run(lim: Limits, states: seq<State>, ops: seq<Op>)
    requires lim.Positive()
  {
    && |states| == |ops| + 1
    && Initial(states[0])
    && forall i :: 0 <= i < |ops| ==> Step(lim, states[i], ops[i], states[i + 1])
  }

  /** Part of a run, from any state. */
  ghost predicate Trace(lim: Limits, states: seq<State>, ops: seq<Op>)
    requires lim.Positive()
  {
    |states| == |ops| + 1 && forall i {:trigger ops[i]} :: 0 <= i < |ops| ==> Step(lim, states[i], ops[i], states[i + 1])
  }

  lemma TracesJoin(lim: Limits, a: seq<State>, opsA: seq<Op>, b: seq<State>, opsB: seq<Op>)
    requires lim.Positive() && Trace(lim, a, opsA) && Trace(lim, b, opsB) && a[|opsA|] == b[0]
    ensures Trace(lim, a + b[1..], opsA + opsB)
  {
    hide Step;
    var states, ops := a + b[1..], opsA + opsB;
    forall i | 0 <= i < |ops| ensures Step(lim, states[i], ops[i], states[i + 1]) {
      if i < |opsA| { assert opsA[i] == ops[i]; } else { assert opsB[i - |opsA|] == ops[i]; }
    }
  }

  /** Every arrival names a service, as those of configured ingestion do. */
  ghost predicate Scoped(ops: seq<Op>) { forall op :: op in ops && op.Arrive? ==> op.key.service != "" }

  // ------------------------------------------------------------- one step

  lemma InvariantReady(lim: Limits, s: State, cutoff: int)
    requires lim.Positive() && Invariant(lim, s) && Cutoff(lim, s.clock) <= cutoff
    ensures Ready(lim, s.series, s.history, cutoff)
    ensures WithinLimits(lim, s.series)
    ensures CapAll(s.series, lim.perSeries) == s.series
  {
    forall k ensures Sorted(At(s.series, k)) { SuffixSorted(At(s.series, k), At(s.history, k)); }
    forall k | k in s.series ensures Cap(s.series[k], lim.perSeries) == s.series[k] {
      assert At(s.series, k) == s.series[k];
    }
    assert CapAll(s.series, lim.perSeries) == s.series;
    forall k ensures ReadyAt(lim, s.series, s.history, cutoff, k) {
      assert IsSuffix(At(s.series, k), At(s.history, k));
      if |At(s.series, k)| < |At(s.history, k)| {
        assert Excused(lim, Total(s.series), s.series, At(s.history, k), At(s.series, k), Cutoff(lim, s.clock));
      }
    }
  }

  /** A snapshot keeps the invariant. */
  lemma SnapshotKeepsInvariant(lim: Limits, s: State, s': State, now: int)
    requires lim.Positive() && Invariant(lim, s) && s.clock <= now
    requires SnapshotStep(lim, s, s', now)
    ensures Invariant(lim, s')
  {
    var cutoff := Cutoff(lim, now);
    InvariantReady(lim, s, cutoff);
    EnforcedInvariant(lim, s.series, cutoff, s');
  }

  /** The history grows by the sample and stays sorted and in the past. */
  lemma RecordedHistory(lim: Limits, s: State, now: int, key: MetricKey, x: Sample)
    requires Invariant(lim, s) && s.clock <= now && x.observedAt <= now
    ensures var h := Record(s.history, key, x);
      && (forall k :: Sorted(At(h, k)))
      && (forall k, y :: y in At(h, k) ==> y.observedAt <= now)
  {
    InsertMeaning(At(s.history, key), x);
    RecordAt(s.history, key, x);
  }

  lemma PrefixShrinks(p: seq<Sample>, s: seq<Sample>, p': seq<Sample>, s': seq<Sample>)
    requires Sorted(p + s)
    requires p' == p || (p != [] && p' == p[..|p| - 1])
    ensures SuffixAndNoNewer(p + s, s, p' + s', s')
  {
    assert p' != [] ==> p'[|p'| - 1] == (p + s)[|p'| - 1];
    assert p != [] ==> p[|p| - 1] == (p + s)[|p| - 1];
  }

  /** In a series that can take the sample, its suffix stays a suffix and what is
      missing gets no newer. */
  lemma RecordedSeries(full: seq<Sample>, s: seq<Sample>, x: Sample)
    requires Sorted(full) && IsSuffix(s, full)
    requires |s| < |full| ==> NewestMissing(full, s) <= x.observedAt
    ensures SuffixAndNoNewer(full, s, Insert(full, x), Insert(s, x))
  {
    var p := full[..|full| - |s|];
    assert full == p + s;
    var p' := InsertIntoSuffix(p, s, x);
    PrefixShrinks(p, s, p', Insert(s, x));
  }

  ghost predicate SuffixAndNoNewer(full: seq<Sample>, s: seq<Sample>, full': seq<Sample>, s': seq<Sample>) {
    && IsSuffix(s', full')
    && (|s'| < |full'| ==> |s| < |full| && NewestMissing(full', s') <= NewestMissing(full, s))
  }

  lemma {:induction false} InsertGrows(s: seq<Sample>, x: Sample)
    ensures |Insert(s, x)| >= |s| && Insert(s, x) != []
  {
    if s != [] && x.observedAt > s[0].observedAt { InsertGrows(s[1..], x); }
  }

  lemma MissingIsOlder(full: seq<Sample>, s: seq<Sample>)
    requires Sorted(full) && IsSuffix(s, full) && |s| < |full|
    ensures forall y :: y in s ==> NewestMissing(full, s) < y.observedAt
  {
    forall y | y in s ensures NewestMissing(full, s) < y.observedAt {
      var i :| 0 <= i < |s| && s[i] == y;
      assert y == full[|full| - |s| + i];
    }
  }

  /** Where the sample is not too late, nothing missing is newer than it: neither
      in its own series nor, in a full store, in any other. */
  lemma NotTooLate(lim: Limits, s: State, now: int, key: MetricKey, x: Sample, k: MetricKey)
    requires lim.Positive() && Invariant(lim, s) && s.clock <= now
    requires Cutoff(lim, now) <= x.observedAt && |At(s.series, k)| < |At(s.history, k)|
    ensures var t := NewestMissing(At(s.history, k), At(s.series, k));
      !TooLate(lim, s.series, key, x) ==>
      && (k == key ==> t <= x.observedAt)
      && (t < Cutoff(lim, now) || |At(s.series, k)| >= lim.perSeries ||
          (Total(s.series) >= lim.total && AllAtLeast(s.series, t) && t <= x.observedAt))
  {
    var h, b := At(s.history, k), At(s.series, k);
    var t := NewestMissing(h, b);
    assert Excused(lim, Total(s.series), s.series, h, b, Cutoff(lim, s.clock));
    if x.observedAt < t { MissingIsOlder(h, b); }
  }

  /** Capping never brings a store below what it held within its limits. */
  lemma RecordedHeld(lim: Limits, m: Store, key: MetricKey, x: Sample)
    requires lim.Positive() && WithinLimits(lim, m)
    ensures Total(m) <= Total(CapAll(Record(m, key, x), lim.perSeries))
  {
    InsertGrows(At(m, key), x);
    var capped := CapAll(Record(m, key, x), lim.perSeries);
    forall k ensures |At(m, k)| <= |At(capped, k)| {
      RecordAt(m, key, x);
      assert At(capped, k) == Cap(At(Record(m, key, x), k), lim.perSeries);
      CapMeaning(At(Record(m, key, x), k), lim.perSeries);
    }
    TotalMonotone(m, capped);
  }

  lemma RecordedBound(m: Store, key: MetricKey, x: Sample, t: int)
    requires forall k :: Sorted(At(m, k))
    requires AllAtLeast(m, t) && t <= x.observedAt
    ensures AllAtLeast(Record(m, key, x), t)
  {
    InsertMeaning(At(m, key), x);
    RecordAt(m, key, x);
  }

  lemma ExcuseCarriesOver(lim: Limits, held: nat, m: Store, full: seq<Sample>, s: seq<Sample>,
                          held': nat, m': Store, full': seq<Sample>, s': seq<Sample>, cutoff: int)
    requires |s| < |full| && |s| <= |s'| < |full'| && NewestMissing(full', s') <= NewestMissing(full, s)
    requires Excused(lim, held, m, full, s, cutoff) && held <= held'
    requires held >= lim.total && AllAtLeast(m, NewestMissing(full, s)) ==> AllAtLeast(m', NewestMissing(full, s))
    ensures Excused(lim, held', m', full', s', cutoff)
  {
  }

  lemma RecordedExcuse(lim: Limits, s: State, now: int, key: MetricKey, x: Sample, k: MetricKey)
    requires lim.Positive() && Invariant(lim, s) && s.clock <= now
    requires Cutoff(lim, now) <= x.observedAt && !TooLate(lim, s.series, key, x)
    ensures var m, h := Record(s.series, key, x), Record(s.history, key, x);
      && IsSuffix(At(m, k), At(h, k))
      && (|At(m, k)| < |At(h, k)| ==>
            Excused(lim, Total(CapAll(m, lim.perSeries)), m, At(h, k), At(m, k), Cutoff(lim, now)))
  {
    var h, b := At(s.history, k), At(s.series, k);
    var m, cutoff := Record(s.series, key, x), Cutoff(lim, now);
    InvariantReady(lim, s, cutoff);
    assert IsSuffix(b, h);
    hide Invariant, Insert, Total;
    if |b| < |h| {
      NotTooLate(lim, s, now, key, x, k);
      var t := NewestMissing(h, b);
      if AllAtLeast(s.series, t) && t <= x.observedAt { RecordedBound(s.series, key, x, t); }
    }
    RecordAt(s.series, key, x);
    RecordAt(s.history, key, x);
    if k == key { RecordedSeries(h, b, x); InsertGrows(b, x); }
    var h', b' := At(Record(s.history, key, x), k), At(m, k);
    if |b'| < |h'| {
      RecordedHeld(lim, s.series, key, x);
      ExcuseCarriesOver(lim, Total(s.series), s.series, h, b, Total(CapAll(m, lim.perSeries)), m, h', b', cutoff);
    }
  }

  lemma RecordedReady(lim: Limits, s: State, now: int, key: MetricKey, x: Sample)
    requires lim.Positive() && Invariant(lim, s) && s.clock <= now
    requires Cutoff(lim, now) <= x.observedAt <= now && !TooLate(lim, s.series, key, x)
    ensures Ready(lim, Record(s.series, key, x), Record(s.history, key, x), Cutoff(lim, now))
  {
    RecordedHistory(lim, s, now, key, x);
    RecordedNonEmpty(s.series, key, x);
    RecordedReadyEverywhere(lim, s, now, key, x);
    ReadyEverywhere(lim, Record(s.series, key, x), Record(s.history, key, x), Cutoff(lim, now));
  }

  lemma RecordedNonEmpty(m: Store, key: MetricKey, x: Sample)
    requires forall k :: k in m ==> m[k] != []
    ensures forall k :: k in Record(m, key, x) ==> Record(m, key, x)[k] != []
  {
    InsertGrows(At(m, key), x);
  }

  lemma ReadyEverywhere(lim: Limits, m: Store, history: Store, cutoff: int)
    requires lim.Positive() && (forall k :: k in m ==> m[k] != []) && (forall k :: Sorted(At(history, k)))
    requires forall k :: ReadyAt(lim, m, history, cutoff, k)
    ensures Ready(lim, m, history, cutoff)
  {
  }

  lemma RecordedReadyEverywhere(lim: Limits, s: State, now: int, key: MetricKey, x: Sample)
    requires lim.Positive() && Invariant(lim, s) && s.clock <= now
    requires Cutoff(lim, now) <= x.observedAt && !TooLate(lim, s.series, key, x)
    ensures forall k :: ReadyAt(lim, Record(s.series, key, x), Record(s.history, key, x), Cutoff(lim, now), k)
  {
    forall k ensures ReadyAt(lim, Record(s.series, key, x), Record(s.history, key, x), Cutoff(lim, now), k) {
      RecordedReadyAt(lim, s, now, key, x, k);
    }
  }

  lemma RecordedReadyAt(lim: Limits, s: State, now: int, key: MetricKey, x: Sample, k: MetricKey)
    requires lim.Positive() && Invariant(lim, s) && s.clock <= now
    requires Cutoff(lim, now) <= x.observedAt && !TooLate(lim, s.series, key, x)
    ensures ReadyAt(lim, Record(s.series, key, x), Record(s.history, key, x), Cutoff(lim, now), k)
  {
    RecordedExcuse(lim, s, now, key, x, k);
    RecordedVanished(lim, s, now, key, x, k);
  }

  lemma VanishedBound(lim: Limits, s: State, k: MetricKey)
    requires Invariant(lim, s) && At(s.series, k) == [] && At(s.history, k) != []
    ensures var h := At(s.history, k);
      NewestMissing(h, At(s.series, k)) == h[|h| - 1].observedAt && AllAtLeast(s.series, h[|h| - 1].observedAt)
  {
    assert VanishedIsOldest(s.series, At(s.history, k), At(s.series, k));
  }

  lemma RecordedVanished(lim: Limits, s: State, now: int, key: MetricKey, x: Sample, k: MetricKey)
    requires lim.Positive() && Invariant(lim, s) && s.clock <= now
    requires Cutoff(lim, now) <= x.observedAt && !TooLate(lim, s.series, key, x)
    ensures VanishedIsOldest(Record(s.series, key, x), At(Record(s.history, key, x), k), At(Record(s.series, key, x), k))
  {
    RecordAt(s.series, key, x);
    RecordAt(s.history, key, x);
    InsertGrows(At(s.series, key), x);
    var h := At(s.history, k);
    if k != key && At(s.series, k) == [] && h != [] {
      VanishedBound(lim, s, k);
      NotTooLate(lim, s, now, key, x, k);
      InvariantReady(lim, s, Cutoff(lim, now));
      hide Invariant, Excused, Sorted, AllAtLeast, Insert, TooLate;
      RecordedBound(s.series, key, x, h[|h| - 1].observedAt);
    }
  }

  /** A too-late sample enters the history below everything stored. */
  lemma TooLateReady(lim: Limits, s: State, now: int, key: MetricKey, x: Sample)
    requires lim.Positive() && Invariant(lim, s) && s.clock <= now
    requires x.observedAt <= now && TooLate(lim, s.series, key, x)
    ensures Ready(lim, s.series, Record(s.history, key, x), Cutoff(lim, now))
  {
    var m, h, cutoff := s.series, Record(s.history, key, x), Cutoff(lim, now);
    RecordedHistory(lim, s, now, key, x);
    InvariantReady(lim, s, cutoff);
    RecordAt(s.history, key, x);
    forall k ensures ReadyAt(lim, m, h, cutoff, k) {
      assert ReadyAt(lim, m, s.history, cutoff, k);
      if k == key { TooLateSeries(lim, s, now, key, x); }
    }
  }

  ghost predicate SuffixBelow(full: seq<Sample>, full': seq<Sample>, s: seq<Sample>, x: Sample) {
    && IsSuffix(s, full') && |s| < |full'|
    && var t := NewestMissing(full', s);
       t == x.observedAt || (|s| < |full| && t == NewestMissing(full, s))
  }

  lemma PrefixGrows(p: seq<Sample>, p': seq<Sample>, s: seq<Sample>, x: Sample)
    requires p' != [] && (p'[|p'| - 1] == x || (p != [] && p'[|p'| - 1] == p[|p| - 1]))
    ensures SuffixBelow(p + s, p' + s, s, x)
  {
  }

  lemma InsertBelow(p: seq<Sample>, s: seq<Sample>, x: Sample)
    requires Sorted(p)
    requires s != [] ==> x.observedAt < s[0].observedAt
    ensures SuffixBelow(p + s, Insert(p + s, x), s, x)
  {
    InsertPrepend(p, s, x);
    InsertLast(p, x);
    PrefixGrows(p, Insert(p, x), s, x);
  }

  lemma TooLateExcuse(lim: Limits, m: Store, key: MetricKey, x: Sample, full: seq<Sample>, full': seq<Sample>, cutoff: int)
    requires lim.Positive() && TooLate(lim, m, key, x)
    requires SuffixBelow(full, full', At(m, key), x)
    requires |At(m, key)| < |full| ==> Excused(lim, Total(m), m, full, At(m, key), cutoff)
    requires VanishedIsOldest(m, full, At(m, key))
    ensures Excused(lim, Total(m), m, full', At(m, key), cutoff)
    ensures VanishedIsOldest(m, full', At(m, key))
  {
  }

  lemma TooLateSeries(lim: Limits, s: State, now: int, key: MetricKey, x: Sample)
    requires lim.Positive() && Invariant(lim, s) && s.clock <= now
    requires TooLate(lim, s.series, key, x)
    ensures var m, h, b := s.series, Insert(At(s.history, key), x), At(s.series, key);
      && IsSuffix(b, h) && |b| < |h|
      && Excused(lim, Total(m), m, h, b, Cutoff(lim, now))
      && VanishedIsOldest(m, h, b)
  {
    var full, b := At(s.history, key), At(s.series, key);
    assert IsSuffix(b, full);
    var p := full[..|full| - |b|];
    assert full == p + b;
    hide Insert, AllAtLeast, Total;
    InsertBelow(p, b, x);
    assert |b| < |full| ==> Excused(lim, Total(s.series), s.series, full, b, Cutoff(lim, s.clock));
    TooLateExcuse(lim, s.series, key, x, full, Insert(full, x), Cutoff(lim, now));
  }

  /** An arriving sample keeps the invariant, whether it is rejected, stored, or
      accepted and evicted in the same call. */
  lemma AddKeepsInvariant(lim: Limits, s: State, s': State, now: int, key: MetricKey, value: Reading, observedAt: int)
    requires lim.Positive() && Invariant(lim, s) && s.clock <= now
    requires AddStep(lim, s, s', now, key, value, observedAt)
    ensures Invariant(lim, s')
  {
    var cutoff := Cutoff(lim, now);
    if Accepts(lim, now, key, value, observedAt) {
      var x := Sample(value.value, observedAt);
      RecordedHistory(lim, s, now, key, x);
      if TooLate(lim, s.series, key, x) {
        InvariantReady(lim, s, cutoff);
        TooLateIsNoOp(lim, s.series, key, x, cutoff, s'.series);
        TooLateReady(lim, s, now, key, x);
        EnforcedInvariant(lim, s.series, cutoff, s');
      } else {
        RecordedReady(lim, s, now, key, x);
        EnforcedInvariant(lim, Record(s.series, key, x), cutoff, s');
      }
    } else {
      forall k | |At(s'.series, k)| < |At(s'.history, k)|
        ensures Excused(lim, Total(s'.series), s'.series, At(s'.history, k), At(s'.series, k), Cutoff(lim, s'.clock))
      {
        assert Excused(lim, Total(s.series), s.series, At(s.history, k), At(s.series, k), Cutoff(lim, s.clock));
      }
    }
  }

  lemma StepKeepsInvariant(lim: Limits, s: State, op: Op, s': State)
    requires lim.Positive() && Invariant(lim, s) && Step(lim, s, op, s')
    ensures Invariant(lim, s')
  {
    match op
    case Arrive(now, key, value, observedAt) => AddKeepsInvariant(lim, s, s', now, key, value, observedAt);
    case View(now) => SnapshotKeepsInvariant(lim, s, s', now);
  }

  // ----------------------------------------------------------- whole runs

  /** Every state of every run satisfies the invariant. */
  lemma {:induction false} RunKeepsInvariant(lim: Limits, states: seq<State>, ops: seq<Op>, i: nat)
    requires lim.Positive() && Run(lim, states, ops) && i < |states|
    ensures Invariant(lim, states[i])
  {
    if i > 0 {
      RunKeepsInvariant(lim, states, ops, i - 1);
      StepKeepsInvariant(lim, states[i - 1], ops[i - 1], states[i]);
    }
  }
}
