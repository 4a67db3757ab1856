/** The bounded metric store over in-place slices. Every operation is proved
    against the state machine of StoreModel, and the invariant of its runs is the
    object invariant. Clock readings are parameters: an operation and its reading
    are one atomic step. */
module MetricStore {
  import opened Arithmetic
  import opened Samples
  import opened StoreModel
  import opened StoreInvariant
  import opened StoreRuns
  import opened Slices
  import opened Snapshots

  const DEFAULT_RETENTION := 30 * SECOND
  const DEFAULT_MAX_SAMPLES_PER_SERIES := 10_000
  const DEFAULT_MAX_SAMPLES_TOTAL := 100_000

  ghost predicate OrderedAt(m: Store, k: MetricKey)
    requires k in m
  {
    Sorted(m[k]) && m[k] != []
  }

  ghost predicate Ordered(m: Store) {
    forall k :: k in m ==> OrderedAt(m, k)
  }

  /** Part of `m`, in arrays outside `foreign`. */
  ghost predicate CopyOf(copy: map<MetricKey, Slice>, m: Store, foreign: set<array<Sample>>)
    reads ArraysOf(copy)
  {
    AllValid(copy) && ArraysOf(copy) !! foreign && forall k :: k in copy ==> k in m && copy[k].View() == m[k]
  }

  class MetricStore {
    const retention: int
    const maxSamplesPerSeries: int
    const maxSamplesTotal: int
    var series: map<MetricKey, Slice>

    /** The stored series as values, next to the whole accepted history and the
        last clock reading. */
    ghost var model: State

    function Lim(): Limits { Limits(retention, maxSamplesPerSeries, maxSamplesTotal) }

    ghost function Bufs(): set<array<Sample>>
      reads this`series
    {
      set k | k in series :: series[k].buf
    }

    /** No two series share a backing array. */
    ghost predicate Separate()
      reads this`series
    {
      && (forall k :: k in series ==> series[k].Valid())
      && (forall k, k' :: k in series && k' in series && k != k' ==> series[k].buf != series[k'].buf)
    }

    ghost function Contents(): Store
      requires Separate()
      reads this`series, Bufs()
    {
      map k | k in series :: series[k].View()
    }

    /** The slices hold `m`, and no array of `foreign` is behind any of them. */
    ghost predicate Holds(m: Store, foreign: set<array<Sample>>)
      reads this`series, Bufs()
    {
      Separate() && Contents() == m && Bufs() !! foreign
    }

    ghost predicate Valid()
      reads this, Bufs()
    {
      Lim().Positive() && Separate() && Contents() == model.series && Invariant(Lim(), model)
    }

    /** Options that are not positive leave the default. */
    constructor (retention: int, perSeries: int, total: int)
      ensures Valid() && Initial(model) && Bufs() == {}
      ensures this.retention == if retention > 0 then retention else 30_000_000_000
      ensures maxSamplesPerSeries == if perSeries > 0 then perSeries else 10_000
      ensures maxSamplesTotal == if total > 0 then total else 100_000
    {
      this.retention := if retention > 0 then retention else DEFAULT_RETENTION;
      maxSamplesPerSeries := if perSeries > 0 then perSeries else DEFAULT_MAX_SAMPLES_PER_SERIES;
      maxSamplesTotal := if total > 0 then total else DEFAULT_MAX_SAMPLES_TOTAL;
      series := map[];
      model := State(map[], map[], 0);
    }

    /** One assignment to the series map, of a slice whose array nothing else uses. */
    method Assign(key: MetricKey, values: Slice, ghost m: Store, ghost foreign: set<array<Sample>>)
      requires Holds(m, foreign) && values.Valid() && values.buf !in foreign
      requires forall k :: k in series && k != key ==> series[k].buf != values.buf
      modifies this`series
      ensures Holds(m[key := values.View()], foreign)
    {
      series := series[key := values];
    }

    method PruneOne(key: MetricKey, cutoff: int, ghost m: Store, ghost foreign: set<array<Sample>>)
      requires Holds(m, foreign) && key in m && Sorted(m[key])
      modifies this`series
      ensures Holds(m[key := Prune(m[key], cutoff)], foreign)
    {
      assert Contents()[key] == series[key].View();
      var values := PruneSamples(series[key], cutoff);
      Assign(key, values, m, foreign);
    }

    method CapOne(key: MetricKey, ghost m: Store, ghost foreign: set<array<Sample>>)
      requires Holds(m, foreign) && key in m && maxSamplesPerSeries > 0
      modifies this`series
      ensures Holds(m[key := Cap(m[key], maxSamplesPerSeries)], foreign)
    {
      assert Contents()[key] == series[key].View();
      var values := CapSamples(series[key], maxSamplesPerSeries);
      Assign(key, values, m, foreign);
    }

    method PruneLocked(cutoff: int, ghost before: Store, ghost foreign: set<array<Sample>>)
      requires Holds(before, foreign) && Ordered(before)
      modifies this`series
      ensures Holds(PruneAll(before, cutoff), foreign)
    {
      var todo := series.Keys;
      PrunedEnds(before, cutoff);
      assert todo == before.Keys;
      while todo != {}
        invariant todo <= before.Keys && Holds(PrunedExcept(before, todo, cutoff), foreign)
      {
        var key :| key in todo;
        assert OrderedAt(before, key);
        PruneOne(key, cutoff, PrunedExcept(before, todo, cutoff), foreign);
        PrunedStep(before, todo, key, cutoff);
        todo := todo - {key};
      }
    }

    method CapSeries(ghost before: Store, ghost foreign: set<array<Sample>>)
      requires Holds(before, foreign) && maxSamplesPerSeries > 0
      modifies this`series
      ensures Holds(CapAll(before, maxSamplesPerSeries), foreign)
    {
      var todo := series.Keys;
      CappedEnds(before, maxSamplesPerSeries);
      assert todo == before.Keys;
      while todo != {}
        invariant todo <= before.Keys && Holds(CappedExcept(before, todo, maxSamplesPerSeries), foreign)
      {
        var key :| key in todo;
        CapOne(key, CappedExcept(before, todo, maxSamplesPerSeries), foreign);
        CappedStep(before, todo, key, maxSamplesPerSeries);
        todo := todo - {key};
      }
    }

    method CountSamples(ghost m: Store, ghost foreign: set<array<Sample>>) returns (total: nat)
      requires Holds(m, foreign)
      ensures total == Total(m)
    {
      total := 0;
      var todo := series.Keys;
      assert todo == m.Keys;
      while todo != {}
        invariant todo <= m.Keys
        invariant total + SumLengths(m, todo) == Total(m)
      {
        var key :| key in todo;
        SumRemove(m, todo, key);
        assert At(m, key) == series[key].View();
        todo := todo - {key};
        total := total + series[key].Len();
      }
      assert SumLengths(m, {}) == 0;
    }

    /** The series with the oldest head, found by scanning them in any order. */
    method OldestSeries(ghost m: Store, ghost foreign: set<array<Sample>>) returns (found: bool, oldestKey: MetricKey)
      requires Holds(m, foreign)
      ensures found ==> IsOldest(m, oldestKey)
      ensures !found ==> Total(m) == 0
    {
      found, oldestKey := false, MetricKey("", "");
      var oldest := 0;
      var todo := series.Keys;
      assert todo == m.Keys;
      ScanStarts(m, oldestKey, oldest);
      hide OldestOutside;
      while todo != {}
        invariant todo <= m.Keys && OldestOutside(m, todo, found, oldestKey, oldest)
      {
        var key :| key in todo;
        var values := series[key];
        assert At(m, key) == values.View();
        ScanStep(m, todo, key, found, oldestKey, oldest);
        if values.Len() > 0 && (!found || values.Get(0).observedAt < oldest) {
          oldestKey, oldest, found := key, values.Get(0).observedAt, true;
        }
        todo := todo - {key};
      }
      ScanEnds(m, found, oldestKey, oldest);
    }

    /** Drops the head of a series, and the series with its last sample. */
    method DropHead(key: MetricKey, ghost m: Store, ghost foreign: set<array<Sample>>)
      requires Holds(m, foreign) && At(m, key) != []
      modifies this`series
      ensures Holds(WithoutHead(m, key), foreign)
    {
      var values := series[key];
      assert Contents()[key] == values.View();
      if values.Len() == 1 {
        series := series - {key};
        assert Contents() == m - {key};
      } else {
        PartView(values, 1, values.Len());
        Assign(key, Slice(values.buf, values.lo + 1, values.hi), m, foreign);
      }
    }

    /** Evicts the oldest head of all series until the store is within its global
        limit. The scan always finds one: more samples than a positive limit cannot
        be in empty series. */
    method EvictOldest(ghost before: Store, ghost foreign: set<array<Sample>>) returns (ghost after: Store)
      requires Holds(before, foreign) && Ordered(before) && maxSamplesTotal > 0
      modifies this`series
      ensures Holds(after, foreign) && Evicted(before, after, maxSamplesTotal)
    {
      var total := CountSamples(before, foreign);
      after := before;
      EvictedNothing(before, maxSamplesTotal);
      hide Ordered, Evicted;
      while total > maxSamplesTotal
        invariant Holds(after, foreign) && Ordered(after)
        invariant total == Total(after) && EvictedSoFar(before, after, maxSamplesTotal)
      {
        after := EvictOne(before, after, foreign);
        total := total - 1;
      }
      EvictionEnds(before, after, maxSamplesTotal);
    }

    method EvictOne(ghost before: Store, ghost m: Store, ghost foreign: set<array<Sample>>) returns (ghost m': Store)
      requires Holds(m, foreign) && Ordered(m) && EvictedSoFar(before, m, maxSamplesTotal)
      requires Total(m) > maxSamplesTotal > 0
      modifies this`series
      ensures Holds(m', foreign) && Ordered(m') && EvictedSoFar(before, m', maxSamplesTotal)
      ensures Total(m') == Total(m) - 1
    {
      hide Ordered, Total, Evicted;
      var found, oldestKey := OldestSeries(m, foreign);
      assert found;
      DroppedOldest(before, m, oldestKey, maxSamplesTotal);
      HasHead(m, oldestKey);
      DropHead(oldestKey, m, foreign);
      m' := WithoutHead(m, oldestKey);
    }

    method EnforceSampleLimits(ghost before: Store, ghost foreign: set<array<Sample>>) returns (ghost after: Store)
      requires Holds(before, foreign) && Ordered(before) && Lim().Positive()
      modifies this`series
      ensures Holds(after, foreign)
      ensures Evicted(CapAll(before, maxSamplesPerSeries), after, maxSamplesTotal)
    {
      CapAllOrdered(before, maxSamplesPerSeries);
      CapSeries(before, foreign);
      after := EvictOldest(CapAll(before, maxSamplesPerSeries), foreign);
    }

    /** Pruning and both limits, as after every write and before every snapshot. */
    method Enforce(cutoff: int, ghost before: Store, ghost foreign: set<array<Sample>>) returns (ghost after: Store)
      requires Holds(before, foreign) && Ordered(before) && Lim().Positive()
      modifies this`series
      ensures Holds(after, foreign) && Enforced(Lim(), before, cutoff, after)
    {
      PruneAllOrdered(before, cutoff);
      PruneLocked(cutoff, before, foreign);
      after := EnforceSampleLimits(PruneAll(before, cutoff), foreign);
    }

    method SeriesOf(key: MetricKey, ghost m: Store, ghost foreign: set<array<Sample>>) returns (values: Slice)
      requires Holds(m, foreign)
      ensures values.Valid() && values.View() == At(m, key)
      ensures values.buf !in foreign && (values.buf in Bufs() || fresh(values.buf))
      ensures forall k :: k in series && k != key ==> series[k].buf != values.buf
    {
      if key in series {
        assert Contents()[key] == series[key].View();
        values := series[key];
      } else {
        values := Empty();
      }
    }

    /** Puts the sample into its series, in place where the array has room. */
    method InsertSample(key: MetricKey, x: Sample, ghost m: Store, ghost foreign: set<array<Sample>>)
      requires Holds(m, foreign) && Sorted(At(m, key))
      modifies this`series, Bufs()
      ensures Holds(Record(m, key, x), foreign)
    {
      hide Sorted, Insert;
      var values := SeriesOf(key, m, foreign);
      var inserted := InsertInPlace(values, x);
      ghost var others := Contents();
      assert others - {key} == m - {key};
      SameButOne(others, m, key, inserted.View());
      Assign(key, inserted, others, foreign);
    }

    ghost method SetModel(s: State, foreign: set<array<Sample>>)
      requires Holds(s.series, foreign) && Lim().Positive() && Invariant(Lim(), s)
      modifies this`model
      ensures model == s && Valid() && Bufs() !! foreign
    {
      model := s;
    }

    /** Stores a sample unless it is unnamed, untimed, not finite, from the future
        or older than the retained interval, then enforces the bounds. */
    method Add(now: int, key: MetricKey, value: Reading, observedAt: int) returns (accepted: bool)
      requires Valid() && model.clock <= now
      modifies this, Bufs()
      ensures Valid() && fresh(Bufs() - old(Bufs()))
      ensures accepted <==> key.name != "" && observedAt != 0 && value.Finite? && now - retention <= observedAt <= now
      ensures AddStep(Lim(), old(model), model, now, key, value, observedAt)
    {
      hide Enforced, Evicted;
      ghost var foreign := set b: array<Sample> | b !in Bufs();
      if key.name == "" || observedAt == 0 || !value.Finite? || observedAt > now || observedAt < now - retention {
        RejectedStep(Lim(), model, now, key, value, observedAt);
        SetModel(State(model.series, model.history, now), foreign);
        return false;
      }
      var x := Sample(value.value, observedAt);
      InvariantOrdered(Lim(), model);
      RecordOrdered(model.series, key, x);
      InsertSample(key, x, model.series, foreign);
      ghost var after := Enforce(Cutoff(Lim(), now), Record(model.series, key, x), foreign);
      AcceptedStep(Lim(), model, after, now, key, value, observedAt);
      SetModel(State(after, Record(model.history, key, x), now), foreign);
      accepted := true;
    }

    method CopyAll(ghost m: Store) returns (copy: map<MetricKey, Slice>)
      requires Separate() && Contents() == m
      ensures AllValid(copy) && fresh(ArraysOf(copy)) && ViewsOf(copy) == m
    {
      ghost var foreign := set b: array<Sample> | b.Length >= 0;
      copy := map[];
      var todo := series.Keys;
      while todo != {}
        invariant todo <= m.Keys && copy.Keys == m.Keys - todo && CopyOf(copy, m, foreign)
      {
        var key :| key in todo;
        assert Contents()[key] == series[key].View();
        copy := CopyOne(key, copy, m, foreign);
        todo := todo - {key};
      }
    }

    method CopyOne(key: MetricKey, copy: map<MetricKey, Slice>, ghost m: Store, ghost foreign: set<array<Sample>>)
      returns (copy': map<MetricKey, Slice>)
      requires key in series && series[key].Valid() && key in m && series[key].View() == m[key]
      requires CopyOf(copy, m, foreign)
      ensures CopyOf(copy', m, foreign) && copy'.Keys == copy.Keys + {key}
    {
      var values := Copy(series[key]);
      copy' := copy[key := values];
    }

    method BoundForView(now: int)
      requires Valid() && model.clock <= now
      modifies this
      ensures Valid() && fresh(Bufs() - old(Bufs()))
      ensures SnapshotStep(Lim(), old(model), model, now) && Ordered(model.series)
    {
      ghost var foreign := set b: array<Sample> | b !in Bufs();
      InvariantOrdered(Lim(), model);
      ghost var after := Enforce(Cutoff(Lim(), now), model.series, foreign);
      ViewStep(Lim(), model, after, now);
      InvariantOrdered(Lim(), State(after, model.history, now));
      SetModel(State(after, model.history, now), foreign);
    }

    method CopyStore() returns (snapshot: MetricSnapshot)
      requires Separate()
      ensures fresh(snapshot) && fresh(snapshot.Bufs()) && snapshot.Bufs() !! Bufs()
      ensures snapshot.Valid() && snapshot.Contents() == Contents()
    {
      var copy := CopyAll(Contents());
      snapshot := new MetricSnapshot(copy);
    }

    /** One consistent view of the pruned and bounded store, in arrays of its own. */
    method Snapshot(now: int) returns (snapshot: MetricSnapshot)
      requires Valid() && model.clock <= now
      modifies this
      ensures Valid() && fresh(Bufs() - old(Bufs()))
      ensures SnapshotStep(Lim(), old(model), model, now) && Ordered(model.series)
      ensures fresh(snapshot) && fresh(snapshot.Bufs()) && snapshot.Bufs() !! Bufs()
      ensures snapshot.Valid() && snapshot.Contents() == model.series
    {
      hide Invariant, Enforced, Ordered;
      BoundForView(now);
      ghost var bufs := Bufs();
      assert fresh(bufs - old(Bufs()));
      snapshot := CopyStore();
      assert Bufs() == bufs;
    }
  }

  // ----------------------------------------------------------- many arrivals

  /** Arrivals at clock readings from `clock` to `end` that never go back. */
  ghost predicate InOrder(arrivals: seq<Op>, clock: int, end: int) {
    && clock <= end
    && (forall i :: 0 <= i < |arrivals| ==> arrivals[i].Arrive? && clock <= arrivals[i].now <= end)
    && (forall i, j :: 0 <= i < j < |arrivals| ==> arrivals[i].now <= arrivals[j].now)
  }

  lemma OneByOne(lim: Limits, s: State, op: Op, s': State, states: seq<State>, ops: seq<Op>)
    requires lim.Positive() && Step(lim, s, op, s') && Trace(lim, states, ops) && states[0] == s'
    ensures Trace(lim, [s] + states, [op] + ops)
  {
    hide Step;
    TracesJoin(lim, [s, s'], [op], states, ops);
    assert [s] + states == [s, s'] + states[1..];
  }

  /** Arrivals, one after the other, are a trace of the store. */
  method IngestAll(store: MetricStore, arrivals: seq<Op>, ghost end: int) returns (ghost states: seq<State>)
    requires store.Valid() && InOrder(arrivals, store.model.clock, end)
    modifies store, store.Bufs()
    ensures store.Valid() && fresh(store.Bufs() - old(store.Bufs())) && store.model.clock <= end
    ensures Trace(store.Lim(), states, arrivals) && states[0] == old(store.model) && states[|arrivals|] == store.model
    decreases |arrivals|
  {
    hide Invariant, Enforced;
    states := [store.model];
    if arrivals != [] {
      var a := arrivals[0];
      ghost var before := store.model;
      var _ := store.Add(a.now, a.key, a.value, a.observedAt);
      assert forall i :: 0 <= i < |arrivals[1..]| ==> arrivals[1..][i] == arrivals[i + 1];
      ghost var after := store.model;
      states := IngestAll(store, arrivals[1..], end);
      OneByOne(store.Lim(), before, a, after, states, arrivals[1..]);
      states := [before] + states;
      assert [a] + arrivals[1..] == arrivals;
    }
  }

  lemma SameButOne(a: Store, b: Store, key: MetricKey, v: seq<Sample>)
    requires a - {key} == b - {key}
    ensures a[key := v] == b[key := v]
  {
    forall k | k != key ensures k in a <==> k in b {
      assert k in a <==> k in a - {key};
      assert k in b <==> k in b - {key};
    }
    forall k | k in a && k != key ensures a[k] == b[k] {
      assert a[k] == (a - {key})[k] && b[k] == (b - {key})[k];
    }
  }

  // ----------------------------------------------------- the scan for a head

  /** Of the series outside `todo`, `key` has the oldest head, if any has one. */
  ghost predicate OldestOutside(m: Store, todo: set<MetricKey>, found: bool, key: MetricKey, oldest: int) {
    && (found ==> At(m, key) != [] && At(m, key)[0].observedAt == oldest)
    && (forall k :: k !in todo && At(m, k) != [] ==> found && oldest <= At(m, k)[0].observedAt)
  }

  lemma ScanStarts(m: Store, key: MetricKey, oldest: int)
    ensures OldestOutside(m, m.Keys, false, key, oldest)
  {
  }

  lemma ScanStep(m: Store, todo: set<MetricKey>, key: MetricKey, found: bool, oldestKey: MetricKey, oldest: int)
    requires OldestOutside(m, todo, found, oldestKey, oldest)
    ensures var v := At(m, key);
            if v != [] && (!found || v[0].observedAt < oldest)
            then OldestOutside(m, todo - {key}, true, key, v[0].observedAt)
            else OldestOutside(m, todo - {key}, found, oldestKey, oldest)
  {
    var v := At(m, key);
    var better := v != [] && (!found || v[0].observedAt < oldest);
    forall k | k !in todo - {key} && At(m, k) != []
      ensures (better || found) && (if better then v[0].observedAt else oldest) <= At(m, k)[0].observedAt
    {
      if k != key { assert k !in todo; }
    }
  }

  lemma ScanEnds(m: Store, found: bool, key: MetricKey, oldest: int)
    requires OldestOutside(m, {}, found, key, oldest)
    ensures found ==> IsOldest(m, key)
    ensures !found ==> Total(m) == 0
  {
    if !found {
      forall k ensures |At(m, k)| <= |At(map[], k)| { assert k !in {}; }
      assert Total(map[]) == 0;
      TotalMonotone(m, map[]);
    }
  }

  // ------------------------------------------------------- snapshot isolation

  /** A snapshot is unaffected by any later arrivals, although they write into and
      reslice the arrays the store held when it was taken. */
  method ArrivalsLeaveSnapshot(store: MetricStore, snapshot: MetricSnapshot, arrivals: seq<Op>, ghost end: int)
    requires store.Valid() && snapshot.Valid() && snapshot.Bufs() !! store.Bufs()
    requires InOrder(arrivals, store.model.clock, end)
    modifies store, store.Bufs()
    ensures store.Valid() && snapshot.Bufs() !! store.Bufs()
    ensures snapshot.Contents() == old(snapshot.Contents())
  {
    hide Invariant, InOrder;
    ghost var _ := IngestAll(store, arrivals, end);
  }

  // ------------------------------------------------- steps and their invariant

  lemma RejectedStep(lim: Limits, s: State, now: int, key: MetricKey, value: Reading, observedAt: int)
    requires lim.Positive() && Invariant(lim, s) && s.clock <= now
    requires !Accepts(lim, now, key, value, observedAt)
    ensures var s' := State(s.series, s.history, now);
      AddStep(lim, s, s', now, key, value, observedAt) && Invariant(lim, s')
  {
    AddKeepsInvariant(lim, s, s.(clock := now), now, key, value, observedAt);
  }

  lemma AcceptedStep(lim: Limits, s: State, after: Store, now: int, key: MetricKey, value: Reading, observedAt: int)
    requires lim.Positive() && Invariant(lim, s) && s.clock <= now
    requires Accepts(lim, now, key, value, observedAt)
    requires Enforced(lim, Record(s.series, key, Sample(value.value, observedAt)), Cutoff(lim, now), after)
    ensures var s' := State(after, Record(s.history, key, Sample(value.value, observedAt)), now);
      AddStep(lim, s, s', now, key, value, observedAt) && Invariant(lim, s')
  {
    var s' := State(after, Record(s.history, key, Sample(value.value, observedAt)), now);
    AddKeepsInvariant(lim, s, s', now, key, value, observedAt);
  }

  lemma ViewStep(lim: Limits, s: State, after: Store, now: int)
    requires lim.Positive() && Invariant(lim, s) && s.clock <= now
    requires Enforced(lim, s.series, Cutoff(lim, now), after)
    ensures SnapshotStep(lim, s, State(after, s.history, now), now) && Invariant(lim, State(after, s.history, now))
  {
    SnapshotKeepsInvariant(lim, s, State(after, s.history, now), now);
  }

  // -------------------------------------------------------------- order kept

  lemma InvariantOrdered(lim: Limits, s: State)
    requires Invariant(lim, s)
    ensures Ordered(s.series)
  {
    forall k | k in s.series ensures OrderedAt(s.series, k) {
      assert IsSuffix(At(s.series, k), At(s.history, k));
      SuffixSorted(At(s.series, k), At(s.history, k));
    }
  }

  lemma RecordOrdered(m: Store, key: MetricKey, x: Sample)
    requires Ordered(m)
    ensures Sorted(At(m, key)) && Ordered(Record(m, key, x))
  {
    assert Sorted(At(m, key)) by { if key in m { assert OrderedAt(m, key); } }
    InsertMeaning(At(m, key), x);
    InsertGrows(At(m, key), x);
    forall k | k in Record(m, key, x) ensures OrderedAt(Record(m, key, x), k) {
      if k != key { assert OrderedAt(m, k); }
    }
  }

  lemma PruneAllOrdered(m: Store, cutoff: int)
    requires Ordered(m)
    ensures Ordered(PruneAll(m, cutoff))
  {
    forall k | k in m ensures OrderedAt(PruneAll(m, cutoff), k) {
      assert OrderedAt(m, k);
      PruneMeaning(m[k], cutoff);
      SuffixSorted(Prune(m[k], cutoff), m[k]);
    }
  }

  // ------------------------------------------------------- loops over the map

  ghost function PrunedExcept(m: Store, todo: set<MetricKey>, cutoff: int): Store {
    map k | k in m :: if k in todo then m[k] else Prune(m[k], cutoff)
  }

  ghost function CappedExcept(m: Store, todo: set<MetricKey>, limit: nat): Store {
    map k | k in m :: if k in todo then m[k] else Cap(m[k], limit)
  }

  lemma PrunedEnds(m: Store, cutoff: int)
    ensures PrunedExcept(m, m.Keys, cutoff) == m
    ensures PrunedExcept(m, {}, cutoff) == PruneAll(m, cutoff)
  {
  }

  lemma PrunedStep(m: Store, todo: set<MetricKey>, key: MetricKey, cutoff: int)
    requires key in todo && todo <= m.Keys
    ensures PrunedExcept(m, todo, cutoff)[key := Prune(m[key], cutoff)] == PrunedExcept(m, todo - {key}, cutoff)
  {
  }

  lemma CappedEnds(m: Store, limit: nat)
    ensures CappedExcept(m, m.Keys, limit) == m
    ensures CappedExcept(m, {}, limit) == CapAll(m, limit)
  {
  }

  lemma CappedStep(m: Store, todo: set<MetricKey>, key: MetricKey, limit: nat)
    requires key in todo && todo <= m.Keys
    ensures CappedExcept(m, todo, limit)[key := Cap(m[key], limit)] == CappedExcept(m, todo - {key}, limit)
  {
  }

  // ----------------------------------------------------- eviction, one by one

  ghost predicate IsOldest(m: Store, key: MetricKey) {
    At(m, key) != [] && forall k :: At(m, k) != [] ==> At(m, key)[0].observedAt <= At(m, k)[0].observedAt
  }

  function WithoutHead(m: Store, key: MetricKey): Store
    requires At(m, key) != []
  {
    if |At(m, key)| == 1 then m - {key} else m[key := At(m, key)[1..]]
  }

  /** What holds while the eviction loop runs; at its end it is `Evicted`. */
  ghost predicate EvictedSoFar(before: Store, m: Store, limit: int) {
    && (forall k :: k in m ==> k in before && m[k] != [])
    && (forall k {:trigger At(before, k)} :: IsSuffix(At(m, k), At(before, k)))
    && Total(m) <= Total(before) && (Total(m) >= limit || Total(m) == Total(before))
    && (forall k {:trigger At(before, k)} :: |At(m, k)| < |At(before, k)| ==>
          AllAtLeast(m, NewestMissing(At(before, k), At(m, k))))
  }

  lemma HasHead(m: Store, key: MetricKey)
    requires IsOldest(m, key)
    ensures At(m, key) != []
  {
  }

  lemma EvictionEnds(before: Store, m: Store, limit: int)
    requires EvictedSoFar(before, m, limit) && Total(m) <= limit
    ensures Evicted(before, m, limit)
  {
  }

  lemma EvictedNothing(m: Store, limit: int)
    requires Ordered(m)
    ensures EvictedSoFar(m, m, limit)
  {
  }

  lemma CapAllOrdered(m: Store, limit: nat)
    requires Ordered(m) && limit > 0
    ensures Ordered(CapAll(m, limit))
  {
    forall k | k in m ensures OrderedAt(CapAll(m, limit), k) {
      assert OrderedAt(m, k);
      CapMeaning(m[k], limit);
      SuffixSorted(Cap(m[k], limit), m[k]);
    }
  }

  lemma DroppedHead(m: Store, key: MetricKey)
    requires Ordered(m) && At(m, key) != []
    ensures var m' := WithoutHead(m, key);
      && Ordered(m')
      && At(m', key) == At(m, key)[1..]
      && (forall k :: k != key ==> At(m', k) == At(m, k))
      && Total(m') == Total(m) - 1
  {
    TotalUpdate(m, WithoutHead(m, key), key);
  }

  lemma DroppedBound(m: Store, key: MetricKey)
    requires Ordered(m) && IsOldest(m, key)
    ensures AllAtLeast(m, At(m, key)[0].observedAt)
  {
    forall k, x | x in At(m, k) ensures At(m, key)[0].observedAt <= x.observedAt {
      assert At(m, k)[0].observedAt <= x.observedAt;
    }
  }

  lemma FewerStillBounded(m: Store, m': Store, t: int)
    requires AllAtLeast(m, t) && forall k, x :: x in At(m', k) ==> x in At(m, k)
    ensures AllAtLeast(m', t)
  {
  }

  /** Dropping the oldest head of all leaves nothing older than what was dropped. */
  lemma DroppedOldest(before: Store, m: Store, key: MetricKey, limit: int)
    requires EvictedSoFar(before, m, limit) && Ordered(m) && IsOldest(m, key) && Total(m) > limit
    ensures Ordered(WithoutHead(m, key)) && Total(WithoutHead(m, key)) == Total(m) - 1
    ensures EvictedSoFar(before, WithoutHead(m, key), limit)
  {
    var m' := WithoutHead(m, key);
    DroppedHead(m, key);
    forall k
      ensures IsSuffix(At(m', k), At(before, k))
      ensures |At(m', k)| < |At(before, k)| ==> AllAtLeast(m', NewestMissing(At(before, k), At(m', k)))
    {
      assert IsSuffix(At(m, k), At(before, k));
      DroppedFrom(m, key, k, At(before, k));
    }
  }

  lemma DroppedFrom(m: Store, key: MetricKey, k: MetricKey, full: seq<Sample>)
    requires Ordered(m) && IsOldest(m, key) && IsSuffix(At(m, k), full)
    requires |At(m, k)| < |full| ==> AllAtLeast(m, NewestMissing(full, At(m, k)))
    ensures var s := At(WithoutHead(m, key), k);
            IsSuffix(s, full) && (|s| < |full| ==> AllAtLeast(WithoutHead(m, key), NewestMissing(full, s)))
  {
    var m' := WithoutHead(m, key);
    DroppedHead(m, key);
    FewerSamples(m, key);
    if k == key {
      DroppedBound(m, key);
      assert NewestMissing(full, At(m', k)) == At(m, key)[0].observedAt;
      FewerStillBounded(m, m', At(m, key)[0].observedAt);
    } else if |At(m, k)| < |full| {
      FewerStillBounded(m, m', NewestMissing(full, At(m, k)));
    }
  }

  lemma FewerSamples(m: Store, key: MetricKey)
    requires At(m, key) != []
    ensures forall k, x :: x in At(WithoutHead(m, key), k) ==> x in At(m, k)
  {
  }
}
