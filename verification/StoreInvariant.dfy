/** Every step of the store keeps the invariant: each stored series is a suffix
    of its key's whole accepted history, and what is missing is excused. */
module StoreInvariant {
  import opened Samples
  import opened StoreModel

  // ------------------------------------------------------------ the bounds

  lemma PruneMeaning(values: seq<Sample>, cutoff: int)
    requires Sorted(values)
    ensures var r := Prune(values, cutoff);
      && IsSuffix(r, values)
      && (values != [] ==> r != [])
      && (|r| < |values| ==> NewestMissing(values, r) < cutoff)
      && (|r| > 1 ==> r[0].observedAt >= cutoff)
      && ((forall x :: x in values ==> x.observedAt >= cutoff) ==> r == values)
  {
    var first := FirstAtOrAfter(values, cutoff);
    assert first == 0 || values[first - 1] in values;
  }

  lemma CapMeaning(values: seq<Sample>, limit: nat)
    ensures var r := Cap(values, limit);
      IsSuffix(r, values) && |r| == if |values| > limit then limit else |values|
  {
  }

  lemma NewestMissingChain(s: seq<Sample>, q: seq<Sample>, full: seq<Sample>)
    requires IsSuffix(s, q) && IsSuffix(q, full) && |s| < |q|
    ensures NewestMissing(full, s) == NewestMissing(q, s)
  {
  }

  /** The samples of each series after pruning and capping. */
  function Trimmed(lim: Limits, m: Store, cutoff: int): Store
    requires lim.Positive()
  {
    CapAll(PruneAll(m, cutoff), lim.perSeries)
  }

  lemma TrimmedAt(lim: Limits, m: Store, cutoff: int, k: MetricKey)
    requires lim.Positive() && Sorted(At(m, k))
    ensures At(Trimmed(lim, m, cutoff), k) == Cap(Prune(At(m, k), cutoff), lim.perSeries)
    ensures IsSuffix(At(Trimmed(lim, m, cutoff), k), At(m, k))
    ensures At(m, k) != [] ==> At(Trimmed(lim, m, cutoff), k) != []
  {
    PruneMeaning(At(m, k), cutoff);
    CapMeaning(Prune(At(m, k), cutoff), lim.perSeries);
    SuffixTransitive(Cap(Prune(At(m, k), cutoff), lim.perSeries), Prune(At(m, k), cutoff), At(m, k));
  }

  lemma TrimmedSuffix(lim: Limits, m: Store, full: seq<Sample>, cutoff: int, k: MetricKey)
    requires lim.Positive() && Sorted(At(m, k)) && IsSuffix(At(m, k), full)
    ensures IsSuffix(At(Trimmed(lim, m, cutoff), k), full)
    ensures At(m, k) != [] ==> At(Trimmed(lim, m, cutoff), k) != []
  {
    TrimmedAt(lim, m, cutoff, k);
    SuffixTransitive(At(Trimmed(lim, m, cutoff), k), At(m, k), full);
  }

  /** Eviction that loses a sample fills the store exactly. */
  lemma EvictionFills(before: Store, after: Store, limit: int, k: MetricKey)
    requires Evicted(before, after, limit) && |At(after, k)| < |At(before, k)|
    ensures Total(after) == limit
  {
    TotalMonotone(after, before);
  }

  // ---------------------------------------------------- enforcing the bounds

  /** What enforcement needs to know of the store it starts from. */
  ghost predicate Ready(lim: Limits, m: Store, history: Store, cutoff: int)
    requires lim.Positive()
  {
    && (forall k :: k in m ==> m[k] != [])
    && (forall k :: Sorted(At(history, k)))
    && (forall k {:trigger At(history, k)} {:trigger ReadyAt(lim, m, history, cutoff, k)} ::
          ReadyAt(lim, m, history, cutoff, k))
  }

  ghost predicate ReadyAt(lim: Limits, m: Store, history: Store, cutoff: int, k: MetricKey)
    requires lim.Positive()
  {
    && IsSuffix(At(m, k), At(history, k))
    && (|At(m, k)| < |At(history, k)| ==>
          Excused(lim, Total(CapAll(m, lim.perSeries)), m, At(history, k), At(m, k), cutoff))
    && VanishedIsOldest(m, At(history, k), At(m, k))
  }

  /** Nothing stored gets older by enforcement. */
  lemma EnforcedKeepsBound(lim: Limits, m: Store, cutoff: int, after: Store, t: int)
    requires lim.Positive() && Enforced(lim, m, cutoff, after)
    requires forall k :: Sorted(At(m, k))
    requires AllAtLeast(m, t)
    ensures AllAtLeast(after, t)
  {
    forall k, x | x in At(after, k) ensures t <= x.observedAt {
      TrimmedAt(lim, m, cutoff, k);
      assert IsSuffix(At(after, k), At(Trimmed(lim, m, cutoff), k));
      assert x in At(m, k);
    }
  }

  /** A store that loses nothing to its cutoff and holds `total` samples after
      capping still holds `total` samples once the bounds are enforced. */
  lemma EnforcedStaysFull(lim: Limits, m: Store, cutoff: int, after: Store)
    requires lim.Positive() && Enforced(lim, m, cutoff, after)
    requires forall k :: Sorted(At(m, k))
    requires AllAtLeast(m, cutoff)
    requires Total(CapAll(m, lim.perSeries)) >= lim.total
    ensures Total(after) == lim.total
  {
    forall k ensures At(PruneAll(m, cutoff), k) == At(m, k) { PruneMeaning(At(m, k), cutoff); }
    assert PruneAll(m, cutoff) == m by {
      forall k | k in m ensures PruneAll(m, cutoff)[k] == m[k] {
        assert At(PruneAll(m, cutoff), k) == At(m, k);
      }
    }
  }

  lemma ReadySorted(lim: Limits, m: Store, history: Store, cutoff: int)
    requires lim.Positive() && Ready(lim, m, history, cutoff)
    ensures forall k :: Sorted(At(m, k))
  {
    forall k ensures Sorted(At(m, k)) { SuffixSorted(At(m, k), At(history, k)); }
  }

  /** A sample lost to the global limit is excused by the full store it leaves. */
  lemma EvictedExcuse(lim: Limits, before: Store, after: Store, full: seq<Sample>, cutoff: int, k: MetricKey)
    requires Evicted(before, after, lim.total) && |At(after, k)| < |At(before, k)|
    requires IsSuffix(At(before, k), full)
    ensures IsSuffix(At(after, k), full) && Excused(lim, Total(after), after, full, At(after, k), cutoff)
  {
    assert IsSuffix(At(after, k), At(before, k));
    NewestMissingChain(At(after, k), At(before, k), full);
    SuffixTransitive(At(after, k), At(before, k), full);
    EvictionFills(before, after, lim.total, k);
  }

  /** A sample lost to trimming has expired or lies below a full series. */
  lemma TrimmedExcuse(lim: Limits, held: nat, m: Store, full: seq<Sample>, b: seq<Sample>, s: seq<Sample>, cutoff: int)
    requires lim.Positive() && Sorted(b) && IsSuffix(b, full)
    requires s == Cap(Prune(b, cutoff), lim.perSeries) && |s| < |b|
    ensures IsSuffix(s, full) && |s| < |full| && Excused(lim, held, m, full, s, cutoff)
  {
    var p := Prune(b, cutoff);
    PruneMeaning(b, cutoff);
    CapMeaning(p, lim.perSeries);
    SuffixTransitive(p, b, full);
    SuffixTransitive(s, p, full);
    if |s| == |p| {
      NewestMissingChain(p, b, full);
    }
  }

  /** An excuse outlives enforcement where the series itself loses nothing. */
  lemma StillExcused(lim: Limits, m: Store, cutoff: int, after: Store, full: seq<Sample>, s: seq<Sample>)
    requires lim.Positive() && Enforced(lim, m, cutoff, after)
    requires forall k :: Sorted(At(m, k))
    requires |s| < |full|
    requires Excused(lim, Total(CapAll(m, lim.perSeries)), m, full, s, cutoff)
    ensures Excused(lim, Total(after), after, full, s, cutoff)
  {
    var t := NewestMissing(full, s);
    if t >= cutoff && |s| < lim.perSeries {
      EnforcedKeepsBound(lim, m, cutoff, after, t);
      EnforcedStaysFull(lim, m, cutoff, after);
    }
  }

  lemma EnforcedExcuses(lim: Limits, m: Store, history: Store, cutoff: int, after: Store, k: MetricKey)
    requires lim.Positive() && Ready(lim, m, history, cutoff) && Enforced(lim, m, cutoff, after)
    requires |At(after, k)| < |At(history, k)|
    ensures IsSuffix(At(after, k), At(history, k))
    ensures Excused(lim, Total(after), after, At(history, k), At(after, k), cutoff)
  {
    var trimmed := Trimmed(lim, m, cutoff);
    ReadySorted(lim, m, history, cutoff);
    TrimmedAt(lim, m, cutoff, k);
    SuffixTransitive(At(trimmed, k), At(m, k), At(history, k));
    assert IsSuffix(At(after, k), At(trimmed, k));
    if |At(after, k)| < |At(trimmed, k)| {
      EvictedExcuse(lim, trimmed, after, At(history, k), cutoff, k);
    } else if |At(trimmed, k)| < |At(m, k)| {
      TrimmedExcuse(lim, Total(after), after, At(history, k), At(m, k), At(after, k), cutoff);
    } else {
      assert At(after, k) == At(m, k);
      StillExcused(lim, m, cutoff, after, At(history, k), At(m, k));
    }
  }

  lemma EvictedVanished(before: Store, after: Store, limit: int, full: seq<Sample>, k: MetricKey)
    requires Evicted(before, after, limit)
    requires At(before, k) != [] && At(after, k) == [] && IsSuffix(At(before, k), full)
    ensures AllAtLeast(after, full[|full| - 1].observedAt)
  {
    var b := At(before, k);
    assert b[|b| - 1] == full[|full| - 1];
    assert NewestMissing(b, At(after, k)) == full[|full| - 1].observedAt;
  }

  lemma EnforcedVanished(lim: Limits, m: Store, cutoff: int, after: Store, full: seq<Sample>, k: MetricKey)
    requires lim.Positive() && Enforced(lim, m, cutoff, after)
    requires forall k' :: Sorted(At(m, k'))
    requires IsSuffix(At(m, k), full) && VanishedIsOldest(m, full, At(m, k))
    ensures VanishedIsOldest(after, full, At(after, k))
  {
    if At(after, k) == [] && full != [] {
      if At(m, k) == [] {
        EnforcedKeepsBound(lim, m, cutoff, after, full[|full| - 1].observedAt);
      } else {
        TrimmedSuffix(lim, m, full, cutoff, k);
        EvictedVanished(Trimmed(lim, m, cutoff), after, lim.total, full, k);
      }
    }
  }

  lemma EnforcedSuffix(lim: Limits, m: Store, cutoff: int, after: Store, full: seq<Sample>, k: MetricKey)
    requires lim.Positive() && Enforced(lim, m, cutoff, after)
    requires Sorted(At(m, k)) && IsSuffix(At(m, k), full)
    requires k in m ==> m[k] != []
    ensures IsSuffix(At(after, k), full)
    ensures |At(after, k)| <= lim.perSeries
    ensures k in after ==> after[k] != []
  {
    var trimmed := Trimmed(lim, m, cutoff);
    TrimmedAt(lim, m, cutoff, k);
    CapMeaning(Prune(At(m, k), cutoff), lim.perSeries);
    TrimmedSuffix(lim, m, full, cutoff, k);
    assert IsSuffix(At(after, k), At(trimmed, k));
    SuffixTransitive(At(after, k), At(trimmed, k), full);
  }

  /** Enforcing the bounds on a ready store establishes the invariant. */
  lemma EnforcedInvariant(lim: Limits, m: Store, cutoff: int, s': State)
    requires lim.Positive() && Ready(lim, m, s'.history, cutoff) && Enforced(lim, m, cutoff, s'.series)
    requires cutoff == Cutoff(lim, s'.clock)
    requires forall k, x :: x in At(s'.history, k) ==> x.observedAt <= s'.clock
    ensures Invariant(lim, s')
  {
    ReadySorted(lim, m, s'.history, cutoff);
    forall k
      ensures IsSuffix(At(s'.series, k), At(s'.history, k))
      ensures |At(s'.series, k)| <= lim.perSeries
      ensures k in s'.series ==> s'.series[k] != []
      ensures VanishedIsOldest(s'.series, At(s'.history, k), At(s'.series, k))
    {
      EnforcedSuffix(lim, m, cutoff, s'.series, At(s'.history, k), k);
      EnforcedVanished(lim, m, cutoff, s'.series, At(s'.history, k), k);
    }
    forall k | |At(s'.series, k)| < |At(s'.history, k)|
      ensures Excused(lim, Total(s'.series), s'.series, At(s'.history, k), At(s'.series, k), cutoff)
    {
      EnforcedExcuses(lim, m, s'.history, cutoff, s'.series, k);
    }
  }

  // -------------------------------------------------- late samples, full store

  /** Older than everything in its own full series, or in a full store. */
  ghost predicate TooLate(lim: Limits, m: Store, key: MetricKey, x: Sample) {
    && (forall y :: y in At(m, key) ==> x.observedAt < y.observedAt)
    && (|At(m, key)| >= lim.perSeries || (Total(m) >= lim.total && AllAtLeast(m, x.observedAt + 1)))
  }

  ghost predicate WithinLimits(lim: Limits, m: Store) {
    && Total(m) <= lim.total
    && forall k :: Sorted(At(m, k)) && |At(m, k)| <= lim.perSeries
  }

  lemma RecordAt(m: Store, key: MetricKey, x: Sample)
    ensures At(Record(m, key, x), key) == Insert(At(m, key), x)
    ensures forall k :: k != key ==> At(Record(m, key, x), k) == At(m, k)
  {
  }

  lemma RecordOldest(m: Store, key: MetricKey, x: Sample)
    requires forall y :: y in At(m, key) ==> x.observedAt < y.observedAt
    ensures At(Record(m, key, x), key) == [x] + At(m, key)
    ensures Total(Record(m, key, x)) == Total(m) + 1
  {
    assert [] + At(m, key) == At(m, key);
    InsertPrepend([], At(m, key), x);
    TotalUpdate(m, Record(m, key, x), key);
  }

  lemma OlderDropped(s: seq<Sample>, x: Sample, cutoff: int, limit: nat)
    requires Sorted(s) && |s| == limit && cutoff <= x.observedAt
    requires forall y :: y in s ==> x.observedAt < y.observedAt
    ensures Cap(Prune([x] + s, cutoff), limit) == s && Cap(Prune(s, cutoff), limit) == s
  {
    hide Prune, Cap;
    OldestInFront(s, x, cutoff);
    NothingPruned([x] + s, cutoff);
    NothingPruned(s, cutoff);
    CapBehind([x], s);
    CapBehind([], s);
    assert [] + s == s;
  }

  lemma NothingPruned(values: seq<Sample>, cutoff: int)
    requires Sorted(values) && forall y :: y in values ==> cutoff <= y.observedAt
    ensures Prune(values, cutoff) == values
  {
    PruneMeaning(values, cutoff);
  }

  lemma CapBehind(q: seq<Sample>, s: seq<Sample>)
    ensures Cap(q + s, |s|) == s
  {
  }

  lemma OldestInFront(s: seq<Sample>, x: Sample, cutoff: int)
    requires Sorted(s) && cutoff <= x.observedAt
    requires forall y :: y in s ==> x.observedAt < y.observedAt
    ensures Sorted([x] + s) && forall y :: y in [x] + s ==> cutoff <= y.observedAt
  {
    assert forall i :: 0 <= i < |s| ==> s[i] in s;
  }

  /** The per-series limit throws a too-late sample out of its full series. */
  lemma FullSeriesRejects(lim: Limits, m: Store, key: MetricKey, x: Sample, cutoff: int)
    requires lim.Positive() && Sorted(At(m, key)) && |At(m, key)| == lim.perSeries
    requires forall y :: y in At(m, key) ==> x.observedAt < y.observedAt
    requires x.observedAt >= cutoff
    ensures Trimmed(lim, Record(m, key, x), cutoff) == Trimmed(lim, m, cutoff)
  {
    RecordOldest(m, key, x);
    OlderDropped(At(m, key), x, cutoff, lim.perSeries);
    TrimmedChangingOne(lim, m, Record(m, key, x), cutoff, key);
  }

  lemma TrimmedChangingOne(lim: Limits, m: Store, b: Store, cutoff: int, key: MetricKey)
    requires lim.Positive() && key in m && b == m[key := At(b, key)]
    requires Cap(Prune(At(b, key), cutoff), lim.perSeries) == Cap(Prune(At(m, key), cutoff), lim.perSeries)
    ensures Trimmed(lim, b, cutoff) == Trimmed(lim, m, cutoff)
  {
    assert b.Keys == m.Keys;
    assert PruneAll(b, cutoff).Keys == PruneAll(m, cutoff).Keys;
    forall k | k in m
      ensures Cap(PruneAll(b, cutoff)[k], lim.perSeries) == Cap(PruneAll(m, cutoff)[k], lim.perSeries)
    {
    }
  }

  /** Nothing has expired and no series is over its limit: trimming changes nothing. */
  lemma TrimmedUnchanged(lim: Limits, m: Store, cutoff: int)
    requires lim.Positive() && AllAtLeast(m, cutoff)
    requires forall k :: Sorted(At(m, k)) && |At(m, k)| <= lim.perSeries
    ensures Trimmed(lim, m, cutoff) == m
  {
    forall k | k in m ensures Cap(Prune(m[k], cutoff), lim.perSeries) == m[k] {
      assert At(m, k) == m[k];
      PruneMeaning(At(m, k), cutoff);
    }
  }

  lemma NewerMissing(before: Store, after: Store, key: MetricKey, x: Sample, k: MetricKey)
    requires x in At(after, key) && k != key && |At(after, k)| < |At(before, k)|
    requires forall k, y :: y in At(before, k) && k != key ==> y.observedAt > x.observedAt
    ensures !AllAtLeast(after, NewestMissing(At(before, k), At(after, k)))
  {
    assert At(before, k)[|At(before, k)| - |At(after, k)| - 1] in At(before, k);
  }

  /** If a store's strictly oldest sample survives eviction, every sample does. */
  lemma OldestStays(before: Store, after: Store, limit: int, key: MetricKey, x: Sample)
    requires Evicted(before, after, limit)
    requires x in At(after, key)
    requires forall k, y :: y in At(before, k) && k != key ==> y.observedAt > x.observedAt
    requires At(after, key) == At(before, key)
    ensures Total(after) == Total(before)
  {
    forall k ensures |At(after, k)| >= |At(before, k)| {
      if k != key && |At(after, k)| < |At(before, k)| { NewerMissing(before, after, key, x, k); }
    }
    TotalMonotone(before, after);
    TotalMonotone(after, before);
  }

  lemma OldestGoes(before: Store, after: Store, limit: int, key: MetricKey, x: Sample)
    requires Evicted(before, after, limit) && Total(after) < Total(before)
    requires At(before, key) != [] && At(before, key)[0] == x
    requires forall k, y :: y in At(before, k) && k != key ==> y.observedAt > x.observedAt
    ensures |At(after, key)| < |At(before, key)|
  {
    assert IsSuffix(At(after, key), At(before, key));
    if |At(after, key)| == |At(before, key)| {
      assert At(after, key)[0] == x;
      OldestStays(before, after, limit, key, x);
    }
  }

  lemma SuffixOfRest(a: seq<Sample>, s: seq<Sample>, x: Sample)
    requires IsSuffix(a, [x] + s) && |a| <= |s|
    ensures IsSuffix(a, s)
  {
    assert ([x] + s)[1 + |s| - |a|..] == s[|s| - |a|..];
  }

  /** Eviction from a full store that took one too-late sample returns that sample. */
  lemma FullStoreEvicts(m: Store, b: Store, key: MetricKey, x: Sample, after: Store, limit: int)
    requires At(b, key) == [x] + At(m, key)
    requires forall k :: k != key ==> At(b, k) == At(m, k)
    requires Total(b) == Total(m) + 1 && Total(m) >= limit && AllAtLeast(m, x.observedAt + 1)
    requires Evicted(b, after, limit)
    ensures forall k :: IsSuffix(At(after, k), At(m, k))
  {
    OldestGoes(b, after, limit, key, x);
    forall k ensures IsSuffix(At(after, k), At(m, k)) {
      assert IsSuffix(At(after, k), At(b, k));
      if k == key { SuffixOfRest(At(after, k), At(m, k), x); }
    }
  }

  /** Keeping as much as before means keeping the same, so nothing was evicted. */
  lemma NothingEvicted(m: Store, b: Store, after: Store, limit: int)
    requires forall k :: IsSuffix(At(after, k), At(m, k))
    requires Total(m) == limit == Total(after)
    requires Evicted(b, after, limit) && (forall k :: k in m ==> m[k] != []) && (forall k :: k in b ==> b[k] != [])
    ensures Evicted(m, after, limit)
  {
    TotalMonotone(after, m);
    forall k ensures At(after, k) == At(m, k) {
      assert IsSuffix(At(after, k), At(m, k));
    }
    forall k | k in after ensures k in m && after[k] != [] {
      assert At(after, k) == At(m, k);
    }
  }

  lemma NothingTrimmed(lim: Limits, m: Store, key: MetricKey, x: Sample, cutoff: int)
    requires lim.Positive() && WithinLimits(lim, m)
    requires forall y :: y in At(m, key) ==> x.observedAt < y.observedAt
    requires AllAtLeast(m, cutoff) && x.observedAt >= cutoff && |At(m, key)| < lim.perSeries
    ensures Trimmed(lim, m, cutoff) == m
    ensures Trimmed(lim, Record(m, key, x), cutoff) == Record(m, key, x)
  {
    var b := Record(m, key, x);
    RecordOldest(m, key, x);
    RecordAt(m, key, x);
    TrimmedUnchanged(lim, m, cutoff);
    OldestInFront(At(m, key), x, cutoff);
    forall k ensures Sorted(At(b, k)) && |At(b, k)| <= lim.perSeries {
      assert Sorted(At(m, k));
    }
    assert AllAtLeast(b, cutoff);
    TrimmedUnchanged(lim, b, cutoff);
  }

  lemma FullStoreRejects(lim: Limits, m: Store, key: MetricKey, x: Sample, cutoff: int, after: Store)
    requires lim.Positive() && WithinLimits(lim, m) && TooLate(lim, m, key, x)
    requires |At(m, key)| < lim.perSeries && x.observedAt >= cutoff
    requires forall k :: k in m ==> m[k] != []
    requires Enforced(lim, Record(m, key, x), cutoff, after)
    ensures Enforced(lim, m, cutoff, after)
  {
    RecordOldest(m, key, x);
    RecordAt(m, key, x);
    NothingTrimmed(lim, m, key, x, cutoff);
    var b := Record(m, key, x);
    assert Evicted(b, after, lim.total);
    FullStoreEvicts(m, b, key, x, after, lim.total);
    assert Total(after) == lim.total;
    NothingEvicted(m, b, after, lim.total);
  }

  /** A too-late sample leaves the store as if it had not arrived. */
  lemma TooLateIsNoOp(lim: Limits, m: Store, key: MetricKey, x: Sample, cutoff: int, after: Store)
    requires lim.Positive() && WithinLimits(lim, m) && TooLate(lim, m, key, x)
    requires forall k :: k in m ==> m[k] != []
    requires x.observedAt >= cutoff
    requires Enforced(lim, Record(m, key, x), cutoff, after)
    ensures Enforced(lim, m, cutoff, after)
  {
    if |At(m, key)| >= lim.perSeries {
      FullSeriesRejects(lim, m, key, x, cutoff);
    } else {
      FullStoreRejects(lim, m, key, x, cutoff, after);
    }
  }
}
