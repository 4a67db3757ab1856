/** The metric store as a state machine: what one accepted or rejected sample
    and one snapshot do to the stored series, next to the whole accepted history
    that a store without bounds would hold. */
module StoreModel {
  import opened Samples

  datatype MetricKey = MetricKey(service: string, name: string)

  /** A reading before validation; only a finite one can become a sample. */
  datatype Reading = NaN | PositiveInfinity | NegativeInfinity | Finite(value: real)

  type Store = map<MetricKey, seq<Sample>>

  datatype Limits = Limits(retention: int, perSeries: int, total: int) {
    predicate Positive() { retention > 0 && perSeries > 0 && total > 0 }
  }

  /** `history` is never pruned or capped; `clock` is the last reading used. */
  datatype State = State(series: Store, history: Store, clock: int)

  predicate Initial(s: State) { s.series == map[] && s.history == map[] }

  function At(m: Store, k: MetricKey): seq<Sample> { if k in m then m[k] else [] }

  /** The series a query for `key` reads: its own, or where that is empty the
      unscoped series of the same name. */
  function Visible(m: Store, key: MetricKey): seq<Sample> {
    if At(m, key) == [] && key.service != "" then At(m, MetricKey("", key.name)) else At(m, key)
  }

  function LatestOf(m: Store, key: MetricKey): Option<Sample> {
    var v := Visible(m, key);
    if v == [] then None else Some(v[|v| - 1])
  }

  // ---------------------------------------------------------------- totals

  ghost function SumLengths(m: Store, keys: set<MetricKey>): nat {
    if keys == {} then 0
    else var k :| k in keys; |At(m, k)| + SumLengths(m, keys - {k})
  }

  /** The number of samples in all series together. */
  ghost function Total(m: Store): nat { SumLengths(m, m.Keys) }

  lemma {:induction false} SumRemove(m: Store, keys: set<MetricKey>, k: MetricKey)
    requires k in keys
    ensures SumLengths(m, keys) == |At(m, k)| + SumLengths(m, keys - {k})
    decreases |keys|
  {
    var c :| c in keys && SumLengths(m, keys) == |At(m, c)| + SumLengths(m, keys - {c});
    if c != k {
      SumRemove(m, keys - {c}, k);
      SumRemove(m, keys - {k}, c);
      assert keys - {c} - {k} == keys - {k} - {c};
    }
  }

  lemma {:induction false} SumMonotone(a: Store, b: Store, keys: set<MetricKey>)
    requires forall k :: k in keys ==> |At(a, k)| <= |At(b, k)|
    ensures SumLengths(a, keys) <= SumLengths(b, keys)
    ensures SumLengths(a, keys) == SumLengths(b, keys) ==> forall k :: k in keys ==> |At(a, k)| == |At(b, k)|
    decreases |keys|
  {
    if keys != {} {
      var k :| k in keys;
      SumRemove(a, keys, k);
      SumRemove(b, keys, k);
      SumMonotone(a, b, keys - {k});
    }
  }

  lemma {:induction false} SumOverMore(m: Store, keys: set<MetricKey>)
    requires m.Keys <= keys
    ensures SumLengths(m, keys) == Total(m)
    decreases |keys|
  {
    if keys == m.Keys {
    } else {
      assert exists k :: k in keys && k !in m by { assert !(keys <= m.Keys); }
      var k :| k in keys && k !in m;
      SumRemove(m, keys, k);
      SumOverMore(m, keys - {k});
    }
  }

  /** Series by series no longer means no more in total, and equal in total
      means equally long series by series. */
  lemma TotalMonotone(a: Store, b: Store)
    requires forall k :: |At(a, k)| <= |At(b, k)|
    ensures Total(a) <= Total(b)
    ensures Total(a) == Total(b) ==> forall k :: |At(a, k)| == |At(b, k)|
  {
    var keys := a.Keys + b.Keys;
    SumOverMore(a, keys);
    SumOverMore(b, keys);
    SumMonotone(a, b, keys);
  }

  /** Changing one series changes the total by the change in its length. */
  lemma TotalUpdate(a: Store, b: Store, k: MetricKey)
    requires forall k' :: k' != k ==> |At(a, k')| == |At(b, k')|
    ensures Total(b) - |At(b, k)| == Total(a) - |At(a, k)|
  {
    var keys := a.Keys + b.Keys + {k};
    SumOverMore(a, keys);
    SumOverMore(b, keys);
    SumRemove(a, keys, k);
    SumRemove(b, keys, k);
    SumMonotone(a, b, keys - {k});
    SumMonotone(b, a, keys - {k});
  }

  // ---------------------------------------------------------------- bounds

  /** Drops samples before the cutoff, but never the newest sample. */
  function Prune(values: seq<Sample>, cutoff: int): seq<Sample> {
    var first := FirstAtOrAfter(values, cutoff);
    if |values| <= 1 || first == 0 then values
    else if first == |values| then values[|values| - 1..]
    else values[first..]
  }

  function Cap(values: seq<Sample>, limit: nat): seq<Sample> {
    if |values| > limit then values[|values| - limit..] else values
  }

  function PruneAll(m: Store, cutoff: int): Store { map k | k in m :: Prune(m[k], cutoff) }

  function CapAll(m: Store, limit: nat): Store { map k | k in m :: Cap(m[k], limit) }

  ghost predicate AllAtLeast(m: Store, t: int) {
    forall k, x :: x in At(m, k) ==> t <= x.observedAt
  }

  /** The event time of the newest sample of `full` that its suffix `s` lacks. */
  function NewestMissing(full: seq<Sample>, s: seq<Sample>): int
    requires |s| < |full|
  {
    full[|full| - |s| - 1].observedAt
  }

  /** `after` is `before` cut down to `limit` samples by dropping the oldest,
      wherever they are. Ties between series may be broken either way. */
  ghost predicate Evicted(before: Store, after: Store, limit: int) {
    && (forall k :: k in after ==> k in before && (before[k] != [] ==> after[k] != []))
    && (forall k {:trigger At(before, k)} :: IsSuffix(At(after, k), At(before, k)))
    && Total(after) == (if Total(before) <= limit then Total(before) else limit)
    && (forall k {:trigger At(before, k)} :: |At(after, k)| < |At(before, k)| ==>
          AllAtLeast(after, NewestMissing(At(before, k), At(after, k))))
  }

  /** Pruning, then the per-series limit, then the global limit. */
  ghost predicate Enforced(lim: Limits, before: Store, cutoff: int, after: Store)
    requires lim.Positive()
  {
    Evicted(CapAll(PruneAll(before, cutoff), lim.perSeries), after, lim.total)
  }

  // ----------------------------------------------------------------- steps

  predicate Accepts(lim: Limits, now: int, key: MetricKey, value: Reading, observedAt: int) {
    key.name != "" && observedAt != 0 && value.Finite? && Cutoff(lim, now) <= observedAt <= now
  }

  /** The oldest event time still retained at `now`. */
  function Cutoff(lim: Limits, now: int): int { now - lim.retention }

  function Record(m: Store, key: MetricKey, x: Sample): Store { m[key := Insert(At(m, key), x)] }

  ghost predicate AddStep(lim: Limits, s: State, s': State, now: int, key: MetricKey, value: Reading, observedAt: int)
    requires lim.Positive()
  {
    if Accepts(lim, now, key, value, observedAt) then
      var x := Sample(value.value, observedAt);
      && s'.clock == now
      && s'.history == Record(s.history, key, x)
      && Enforced(lim, Record(s.series, key, x), Cutoff(lim, now), s'.series)
    else s' == s.(clock := now)
  }

  ghost predicate SnapshotStep(lim: Limits, s: State, s': State, now: int)
    requires lim.Positive()
  {
    && s'.clock == now
    && s'.history == s.history
    && Enforced(lim, s.series, Cutoff(lim, now), s'.series)
  }

  // ------------------------------------------------------------- invariant

  /** Why the samples of `full` that its suffix `s` lacks may be missing: they
      have expired, or a full series of newer ones displaced them, or a full
      store of samples no older did (`m` holds `held` of them within the
      per-series limit). */
  ghost predicate Excused(lim: Limits, held: nat, m: Store, full: seq<Sample>, s: seq<Sample>, cutoff: int)
    requires |s| < |full|
  {
    var t := NewestMissing(full, s);
    t < cutoff || |s| >= lim.perSeries || (held >= lim.total && AllAtLeast(m, t))
  }

  /** A series that vanished altogether was no newer than anything still stored. */
  ghost predicate VanishedIsOldest(m: Store, full: seq<Sample>, s: seq<Sample>) {
    s == [] && full != [] ==> AllAtLeast(m, full[|full| - 1].observedAt)
  }

  ghost predicate Invariant(lim: Limits, s: State) {
    var cutoff := Cutoff(lim, s.clock);
    && Total(s.series) <= lim.total
    && (forall k :: k in s.series ==> s.series[k] != [])
    && (forall k :: |At(s.series, k)| <= lim.perSeries)
    && (forall k :: Sorted(At(s.history, k)))
    && (forall k {:trigger At(s.history, k)} :: IsSuffix(At(s.series, k), At(s.history, k)))
    && (forall k {:trigger At(s.history, k)} :: |At(s.series, k)| < |At(s.history, k)| ==>
          Excused(lim, Total(s.series), s.series, At(s.history, k), At(s.series, k), cutoff))
    && (forall k {:trigger At(s.history, k)} :: VanishedIsOldest(s.series, At(s.history, k), At(s.series, k)))
    && (forall k, x :: x in At(s.history, k) ==> x.observedAt <= s.clock)
  }
}
