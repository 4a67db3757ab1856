/** What every run of the bounded store guarantees about the accepted history. */
module StoreTheorems {
  import opened Samples
  import opened StoreModel
  import opened StoreInvariant
  import opened StoreRuns

  // ------------------------------------------------ the history, independently

  ghost predicate Writes(lim: Limits, op: Op, key: MetricKey, t: int) {
    && op.Arrive? && op.key == key && op.observedAt == t
    && key.name != "" && t != 0 && op.value.Finite? && op.now - lim.retention <= t <= op.now
  }

  /** The value of the last accepted write to a timestamp of a series. */
  ghost function LastWrite(lim: Limits, ops: seq<Op>, key: MetricKey, t: int): Option<real> {
    if ops == [] then None
    else if Writes(lim, ops[|ops| - 1], key, t) then Some(ops[|ops| - 1].value.value)
    else LastWrite(lim, ops[..|ops| - 1], key, t)
  }

  lemma RunPrefix(lim: Limits, states: seq<State>, ops: seq<Op>)
    requires lim.Positive() && Run(lim, states, ops) && ops != []
    ensures Run(lim, states[..|ops|], ops[..|ops| - 1])
    ensures Step(lim, states[|ops| - 1], ops[|ops| - 1], states[|ops|])
  {
  }

  /** The history holds a sample exactly if it is the last accepted write to its
      timestamp: the sorted insertions implement last write wins. */
  lemma {:induction false} HistoryIsLastWrites(lim: Limits, states: seq<State>, ops: seq<Op>, key: MetricKey, x: Sample)
    requires lim.Positive() && Run(lim, states, ops)
    ensures x in At(states[|ops|].history, key) <==> LastWrite(lim, ops, key, x.observedAt) == Some(x.value)
  {
    if ops != [] {
      RunPrefix(lim, states, ops);
      HistoryIsLastWrites(lim, states[..|ops|], ops[..|ops| - 1], key, x);
      RunKeepsInvariant(lim, states, ops, |ops| - 1);
      var s, op := states[|ops| - 1], ops[|ops| - 1];
      if op.Arrive? && op.value.Finite? {
        var y := Sample(op.value.value, op.observedAt);
        InsertMeaning(At(s.history, op.key), y);
        RecordAt(s.history, op.key, y);
      }
    }
  }

  // ------------------------------------------------------ suffix and latest

  /** In every state of every run each stored series is strictly sorted, within
      its limit, and a suffix of the whole accepted history of its key. */
  lemma SuffixPreserved(lim: Limits, states: seq<State>, ops: seq<Op>, i: nat, key: MetricKey)
    requires lim.Positive() && Run(lim, states, ops) && i < |states|
    ensures Sorted(At(states[i].series, key)) && Sorted(At(states[i].history, key))
    ensures IsSuffix(At(states[i].series, key), At(states[i].history, key))
    ensures |At(states[i].series, key)| <= lim.perSeries && Total(states[i].series) <= lim.total
  {
    RunKeepsInvariant(lim, states, ops, i);
    assert IsSuffix(At(states[i].series, key), At(states[i].history, key));
    SuffixSorted(At(states[i].series, key), At(states[i].history, key));
  }

  /** The latest stored sample is the newest sample ever accepted for its key. */
  lemma LatestPreserved(lim: Limits, states: seq<State>, ops: seq<Op>, i: nat, key: MetricKey, y: Sample)
    requires lim.Positive() && Run(lim, states, ops) && i < |states|
    requires At(states[i].series, key) != [] && y in At(states[i].history, key)
    ensures var v := At(states[i].series, key);
            v[|v| - 1] in At(states[i].history, key) && y.observedAt <= v[|v| - 1].observedAt
  {
    SuffixPreserved(lim, states, ops, i, key);
    var v, h := At(states[i].series, key), At(states[i].history, key);
    assert v[|v| - 1] == h[|h| - 1];
  }

  /** Without the caps a snapshot changes no latest sample, however late it comes. */
  lemma PruningKeepsLatest(m: Store, cutoff: int, key: MetricKey)
    requires Sorted(At(m, key)) && At(m, key) != []
    ensures var v, p := At(m, key), At(PruneAll(m, cutoff), key);
            p != [] && p[|p| - 1] == v[|v| - 1]
  {
    PruneMeaning(At(m, key), cutoff);
  }

  // ------------------------------------------------ canonical form, confluence

  /** The samples that a cutoff leaves. */
  function LivePart(s: seq<Sample>, cutoff: int): seq<Sample> { s[FirstAtOrAfter(s, cutoff)..] }

  function Live(m: Store, cutoff: int): Store {
    map k | k in m && LivePart(m[k], cutoff) != [] :: LivePart(m[k], cutoff)
  }

  lemma LiveAt(m: Store, cutoff: int, k: MetricKey)
    ensures At(Live(m, cutoff), k) == LivePart(At(m, k), cutoff)
  {
  }

  lemma LiveMembers(s: seq<Sample>, cutoff: int)
    requires Sorted(s)
    ensures IsSuffix(LivePart(s, cutoff), s) && Sorted(LivePart(s, cutoff))
    ensures forall y :: y in LivePart(s, cutoff) <==> y in s && y.observedAt >= cutoff
  {
    var first := FirstAtOrAfter(s, cutoff);
    assert s == s[..first] + LivePart(s, cutoff);
    forall y | y in LivePart(s, cutoff) ensures y.observedAt >= cutoff {
      var i :| 0 <= i < |s| - first && LivePart(s, cutoff)[i] == y;
      assert y == s[first + i];
    }
  }

  lemma {:induction false} FirstOfAppend(p: seq<Sample>, v: seq<Sample>, cutoff: int)
    ensures FirstAtOrAfter(p + v, cutoff) ==
              if FirstAtOrAfter(p, cutoff) < |p| then FirstAtOrAfter(p, cutoff) else |p| + FirstAtOrAfter(v, cutoff)
  {
    if p == [] {
      assert p + v == v;
    } else {
      assert (p + v)[0] == p[0] && (p + v)[1..] == p[1..] + v;
      FirstOfAppend(p[1..], v, cutoff);
    }
  }

  lemma LiveAppend(p: seq<Sample>, v: seq<Sample>, cutoff: int)
    ensures LivePart(p + v, cutoff) ==
              if LivePart(p, cutoff) != [] then LivePart(p, cutoff) + v else LivePart(v, cutoff)
  {
    FirstOfAppend(p, v, cutoff);
  }

  lemma NothingBeforeLive(v: seq<Sample>, cutoff: int)
    requires v != [] ==> v[0].observedAt >= cutoff
    ensures LivePart(v, cutoff) == v
  {
    assert v[0..] == v;
  }

  lemma NewestOfPrefix(p: seq<Sample>, cutoff: int)
    requires Sorted(p) && LivePart(p, cutoff) != []
    ensures p[|p| - 1].observedAt >= cutoff && LivePart(p, cutoff)[|LivePart(p, cutoff)| - 1] == p[|p| - 1]
  {
    LiveMembers(p, cutoff);
    var live := LivePart(p, cutoff);
    assert live[|live| - 1] == p[|p| - 1] && live[|live| - 1] in live;
  }

  lemma LastOfPrefix(a: seq<Sample>, v: seq<Sample>)
    ensures IsSuffix(v, a + v)
    ensures a != [] ==> |v| < |a + v| && NewestMissing(a + v, v) == a[|a| - 1].observedAt
  {
  }

  lemma SuffixAfterPrefix(p: seq<Sample>, v: seq<Sample>)
    requires Sorted(p + v)
    ensures Sorted(p) && Sorted(v) && (p != [] && v != [] ==> p[|p| - 1].observedAt < v[0].observedAt)
  {
    assert forall i :: 0 <= i < |p| ==> (p + v)[i] == p[i];
    assert forall i :: 0 <= i < |v| ==> (p + v)[|p| + i] == v[i];
  }

  /** Where some of a prefix is live, all that follows it is. */
  lemma LivePrefix(p: seq<Sample>, v: seq<Sample>, cutoff: int)
    requires Sorted(p) && p != [] && LivePart(p, cutoff) != []
    requires v != [] ==> p[|p| - 1].observedAt < v[0].observedAt
    ensures LivePart(v, cutoff) == v && p[|p| - 1].observedAt >= cutoff
    ensures LivePart(p, cutoff)[|LivePart(p, cutoff)| - 1] == p[|p| - 1]
  {
    NewestOfPrefix(p, cutoff);
    NothingBeforeLive(v, cutoff);
  }

  /** A suffix lacks something of the live part only if it is live as a whole; what it
      lacks is then what it lacks of everything. */
  lemma LiveSuffix(p: seq<Sample>, v: seq<Sample>, cutoff: int)
    requires Sorted(p + v)
    ensures IsSuffix(LivePart(v, cutoff), LivePart(p + v, cutoff))
    ensures LivePart(v, cutoff) == LivePart(p + v, cutoff) ||
            (LivePart(v, cutoff) == v && p != [] && p[|p| - 1].observedAt >= cutoff &&
             NewestMissing(LivePart(p + v, cutoff), v) == p[|p| - 1].observedAt)
  {
    hide Sorted, LivePart;
    LiveAppend(p, v, cutoff);
    SuffixAfterPrefix(p, v);
    var live := LivePart(p, cutoff);
    LastOfPrefix([], LivePart(v, cutoff));
    assert [] + LivePart(v, cutoff) == LivePart(v, cutoff);
    if live != [] {
      LiveShorter(p, cutoff);
      LivePrefix(p, v, cutoff);
      LastOfPrefix(live, v);
    }
  }

  lemma CapSuffix(v: seq<Sample>, h: seq<Sample>, limit: nat)
    requires IsSuffix(v, h) && |v| <= limit
    ensures var c := Cap(h, limit);
      && IsSuffix(v, c)
      && (|v| < |c| ==> |v| < limit && |v| < |h| && NewestMissing(c, v) == NewestMissing(h, v))
  {
    CapMeaning(h, limit);
    var c := Cap(h, limit);
    assert v == c[|c| - |v|..];
  }

  /** A store that holds nothing before the cutoff is live as a whole. */
  lemma AllLive(m: Store, cutoff: int)
    requires AllAtLeast(m, cutoff) && forall k :: k in m ==> m[k] != []
    ensures Live(m, cutoff) == m
  {
    forall k | k in m ensures LivePart(m[k], cutoff) == m[k] {
      assert At(m, k) == m[k] && m[k][0] in At(m, k);
      assert m[k][0..] == m[k];
    }
  }

  /** Why a live sample may be missing: its series is full, or the store is full and
      holds nothing older, hence nothing expired. */
  lemma LiveExcuse(lim: Limits, s: State, cutoff: int, k: MetricKey)
    requires lim.Positive() && Invariant(lim, s) && Cutoff(lim, s.clock) <= cutoff
    requires |At(s.series, k)| < |At(s.history, k)| && |At(s.series, k)| < lim.perSeries
    requires NewestMissing(At(s.history, k), At(s.series, k)) >= cutoff
    ensures Total(s.series) == lim.total && Live(s.series, cutoff) == s.series
    ensures AllAtLeast(s.series, NewestMissing(At(s.history, k), At(s.series, k)))
  {
    var h, v := At(s.history, k), At(s.series, k);
    assert Excused(lim, Total(s.series), s.series, h, v, Cutoff(lim, s.clock));
    AllLive(s.series, cutoff);
  }

  /** What `s` lacks of `full` was dropped to fill `after` with nothing older. */
  ghost predicate DroppedToFill(after: Store, limit: int, full: seq<Sample>, s: seq<Sample>) {
    IsSuffix(s, full) && (|s| < |full| ==> Total(after) == limit && AllAtLeast(after, NewestMissing(full, s)))
  }

  ghost predicate OldestDropped(before: Store, after: Store, limit: int, k: MetricKey) {
    DroppedToFill(after, limit, At(before, k), At(after, k))
  }

  /** What a stored series lacks of its live history, if it is not full. */
  lemma LiveLost(lim: Limits, s: State, cutoff: int, k: MetricKey)
    requires lim.Positive() && Invariant(lim, s) && Cutoff(lim, s.clock) <= cutoff
    ensures var kept, live := LivePart(At(s.series, k), cutoff), LivePart(At(s.history, k), cutoff);
      && |kept| <= |At(s.series, k)| <= lim.perSeries && IsSuffix(kept, live)
      && (|kept| < lim.perSeries ==> DroppedToFill(Live(s.series, cutoff), lim.total, live, kept))
  {
    var h, v := At(s.history, k), At(s.series, k);
    assert IsSuffix(v, h);
    var p := h[..|h| - |v|];
    assert h == p + v;
    LiveSuffix(p, v, cutoff);
    LastOfPrefix(p, v);
    LiveShorter(v, cutoff);
    if |v| < lim.perSeries && LivePart(v, cutoff) != LivePart(h, cutoff) { LiveExcuse(lim, s, cutoff, k); }
  }

  lemma LiveShorter(v: seq<Sample>, cutoff: int)
    ensures |LivePart(v, cutoff)| <= |v|
  {
  }

  lemma CappedLost(after: Store, total: int, full: seq<Sample>, s: seq<Sample>, limit: nat)
    requires |s| <= limit && IsSuffix(s, full)
    requires |s| < limit ==> DroppedToFill(after, total, full, s)
    ensures DroppedToFill(after, total, Cap(full, limit), s)
  {
    CapSuffix(s, full, limit);
  }

  lemma CanonicalSeries(lim: Limits, s: State, cutoff: int, k: MetricKey)
    requires lim.Positive() && Invariant(lim, s) && Cutoff(lim, s.clock) <= cutoff
    ensures OldestDropped(CapAll(Live(s.history, cutoff), lim.perSeries), Live(s.series, cutoff), lim.total, k)
  {
    hide Sorted, LivePart, Live, Cap, CapAll, DroppedToFill;
    LiveLost(lim, s, cutoff, k);
    CappedLost(Live(s.series, cutoff), lim.total, LivePart(At(s.history, k), cutoff), LivePart(At(s.series, k), cutoff),
               lim.perSeries);
    CanonicalAt(lim, s, cutoff, k);
  }

  lemma CanonicalAt(lim: Limits, s: State, cutoff: int, k: MetricKey)
    requires lim.Positive()
    ensures At(Live(s.series, cutoff), k) == LivePart(At(s.series, k), cutoff)
    ensures At(CapAll(Live(s.history, cutoff), lim.perSeries), k) ==
            Cap(LivePart(At(s.history, k), cutoff), lim.perSeries)
  {
    LiveAt(s.history, cutoff, k);
    LiveAt(s.series, cutoff, k);
    CappedAt(Live(s.history, cutoff), lim.perSeries, k);
  }

  lemma CappedAt(m: Store, limit: nat, k: MetricKey)
    ensures At(CapAll(m, limit), k) == Cap(At(m, k), limit)
  {
  }

  lemma EvictedFrom(before: Store, after: Store, limit: int)
    requires forall k :: OldestDropped(before, after, limit, k)
    requires Total(after) <= limit && forall k :: k in after ==> after[k] != []
    ensures Evicted(before, after, limit)
  {
    forall k ensures |At(after, k)| <= |At(before, k)| { assert OldestDropped(before, after, limit, k); }
    TotalMonotone(after, before);
    if Total(after) < Total(before) && Total(after) != limit {
      forall k ensures |At(before, k)| <= |At(after, k)| { assert OldestDropped(before, after, limit, k); }
      TotalMonotone(before, after);
    }
    forall k | k in after ensures k in before {
      assert OldestDropped(before, after, limit, k) && At(after, k) != [];
    }
    forall k ensures IsSuffix(At(after, k), At(before, k)) { assert OldestDropped(before, after, limit, k); }
    forall k | |At(after, k)| < |At(before, k)|
      ensures AllAtLeast(after, NewestMissing(At(before, k), At(after, k)))
    {
      assert OldestDropped(before, after, limit, k);
    }
  }

  lemma LiveTotal(m: Store, cutoff: int)
    ensures Total(Live(m, cutoff)) <= Total(m)
  {
    forall k ensures |At(Live(m, cutoff), k)| <= |At(m, k)| { LiveAt(m, cutoff, k); }
    TotalMonotone(Live(m, cutoff), m);
  }

  /** In every state of every run, what the store holds from any unexpired time on is
      exactly what the two limits leave of the accepted history from then on: of each
      series its `perSeries` newest samples, and of those together the `total` newest. */
  lemma Canonical(lim: Limits, states: seq<State>, ops: seq<Op>, i: nat, cutoff: int)
    requires lim.Positive() && Run(lim, states, ops) && i < |states| && Cutoff(lim, states[i].clock) <= cutoff
    ensures Evicted(CapAll(Live(states[i].history, cutoff), lim.perSeries), Live(states[i].series, cutoff), lim.total)
  {
    RunKeepsInvariant(lim, states, ops, i);
    CanonicalState(lim, states[i], cutoff);
  }

  lemma CanonicalState(lim: Limits, s: State, cutoff: int)
    requires lim.Positive() && Invariant(lim, s) && Cutoff(lim, s.clock) <= cutoff
    ensures Evicted(CapAll(Live(s.history, cutoff), lim.perSeries), Live(s.series, cutoff), lim.total)
  {
    forall k
      ensures OldestDropped(CapAll(Live(s.history, cutoff), lim.perSeries), Live(s.series, cutoff), lim.total, k)
    {
      CanonicalSeries(lim, s, cutoff, k);
    }
    LiveTotal(s.series, cutoff);
    EvictedFrom(CapAll(Live(s.history, cutoff), lim.perSeries), Live(s.series, cutoff), lim.total);
  }

  ghost predicate NoTies(m: Store) {
    forall k, k', x, y :: k != k' && x in At(m, k) && y in At(m, k') ==> x.observedAt != y.observedAt
  }

  lemma NewestMissingMember(full: seq<Sample>, a: seq<Sample>, b: seq<Sample>) returns (x: Sample)
    requires IsSuffix(a, full) && IsSuffix(b, full) && |b| < |a|
    ensures |b| < |full| && x in a && x in full && x.observedAt == NewestMissing(full, b)
  {
    x := full[|full| - |b| - 1];
    assert x == a[|a| - |b| - 1];
  }

  lemma EvictedBelow(before: Store, after: Store, limit: int, k: MetricKey, k': MetricKey, y: Sample)
    requires Evicted(before, after, limit) && |At(after, k)| < |At(before, k)| && y in At(after, k')
    ensures NewestMissing(At(before, k), At(after, k)) <= y.observedAt
  {
    assert AllAtLeast(after, NewestMissing(At(before, k), At(after, k)));
  }

  lemma EvictedNoLonger(before: Store, a: Store, b: Store, limit: int, k: MetricKey)
    requires Evicted(before, a, limit) && Evicted(before, b, limit) && NoTies(before)
    ensures |At(a, k)| <= |At(b, k)|
  {
    if |At(b, k)| < |At(a, k)| {
      var x := NewestMissingMember(At(before, k), At(a, k), At(b, k));
      if forall k' :: |At(b, k')| <= |At(a, k')| {
        TotalMonotone(b, a);
      } else {
        var k' :| |At(a, k')| < |At(b, k')|;
        var y := NewestMissingMember(At(before, k'), At(b, k'), At(a, k'));
        EvictedBelow(before, b, limit, k, k', y);
        EvictedBelow(before, a, limit, k', k, x);
      }
    }
  }

  /** Without ties across series there is only one way to evict. */
  lemma EvictedUnique(before: Store, a: Store, b: Store, limit: int)
    requires Evicted(before, a, limit) && Evicted(before, b, limit) && NoTies(before)
    requires (forall k :: k in a ==> a[k] != []) && (forall k :: k in b ==> b[k] != [])
    ensures a == b
  {
    forall k ensures At(a, k) == At(b, k) {
      EvictedNoLonger(before, a, b, limit, k);
      EvictedNoLonger(before, b, a, limit, k);
      assert IsSuffix(At(a, k), At(before, k)) && IsSuffix(At(b, k), At(before, k));
    }
    forall k ensures k in a <==> k in b {
      assert At(a, k) == At(b, k);
    }
    assert forall k :: k in a ==> a[k] == At(a, k) && b[k] == At(b, k);
  }

  // ------------------------------------------------------ order of arrival

  ghost predicate SameWrites(lim: Limits, ops: seq<Op>, ops': seq<Op>, cutoff: int) {
    forall key, t :: t >= cutoff ==> LastWrite(lim, ops, key, t) == LastWrite(lim, ops', key, t)
  }

  /** While neither cap is reached, no unexpired sample is missing, whatever was
      evicted earlier. */
  lemma UnexpiredKept(lim: Limits, s: State, key: MetricKey, y: Sample)
    requires lim.Positive() && Invariant(lim, s)
    requires |At(s.series, key)| < lim.perSeries && Total(s.series) < lim.total
    requires y in At(s.history, key) && y.observedAt >= s.clock - lim.retention
    ensures y in At(s.series, key)
  {
    var h, v, cutoff := At(s.history, key), At(s.series, key), Cutoff(lim, s.clock);
    SameWhileBelowCaps(lim, s, cutoff, key);
    assert IsSuffix(v, h);
    SuffixSorted(v, h);
    LiveMembers(h, cutoff);
    LiveMembers(v, cutoff);
  }

  /** Of two samples or more none is older than the cutoff. */
  ghost predicate Retained(values: seq<Sample>, cutoff: int) {
    |values| <= 1 || forall x :: x in values ==> cutoff <= x.observedAt
  }

  lemma RetainedSuffix(v: seq<Sample>, w: seq<Sample>, cutoff: int)
    requires IsSuffix(v, w) && Retained(w, cutoff)
    ensures Retained(v, cutoff)
  {
    assert forall x :: x in v ==> x in w;
  }

  lemma PrunedRetained(values: seq<Sample>, cutoff: int)
    requires Sorted(values)
    ensures Retained(Prune(values, cutoff), cutoff)
  {
    PruneMeaning(values, cutoff);
    SuffixSorted(Prune(values, cutoff), values);
  }

  lemma EnforcedRetained(lim: Limits, m: Store, cutoff: int, after: Store, k: MetricKey)
    requires lim.Positive() && Enforced(lim, m, cutoff, after) && Sorted(At(m, k))
    ensures Retained(At(after, k), cutoff)
  {
    TrimmedAt(lim, m, cutoff, k);
    assert IsSuffix(At(after, k), At(Trimmed(lim, m, cutoff), k));
    hide Retained, Prune, Cap, Enforced, Trimmed;
    PrunedRetained(At(m, k), cutoff);
    CapMeaning(Prune(At(m, k), cutoff), lim.perSeries);
    RetainedSuffix(At(Trimmed(lim, m, cutoff), k), Prune(At(m, k), cutoff), cutoff);
    RetainedSuffix(At(after, k), At(Trimmed(lim, m, cutoff), k), cutoff);
  }

  /** After every accepted arrival and every snapshot of every run, a series holds a
      single sample or nothing older than the retention. */
  lemma RetentionKept(lim: Limits, states: seq<State>, ops: seq<Op>, i: nat, k: MetricKey)
    requires lim.Positive() && Run(lim, states, ops) && i < |ops|
    requires ops[i].View? || Writes(lim, ops[i], ops[i].key, ops[i].observedAt)
    ensures |At(states[i + 1].series, k)| <= 1 ||
            forall x :: x in At(states[i + 1].series, k) ==> ops[i].now - lim.retention <= x.observedAt
  {
    RunKeepsInvariant(lim, states, ops, i);
    SortedStore(lim, states[i]);
    assert Step(lim, states[i], ops[i], states[i + 1]);
    hide Run, Invariant, Enforced;
    match ops[i]
    case Arrive(now, key, value, observedAt) =>
      InsertMeaning(At(states[i].series, key), Sample(value.value, observedAt));
      RecordAt(states[i].series, key, Sample(value.value, observedAt));
      EnforcedRetained(lim, Record(states[i].series, key, Sample(value.value, observedAt)), Cutoff(lim, now),
                       states[i + 1].series, k);
    case View(now) =>
      EnforcedRetained(lim, states[i].series, Cutoff(lim, now), states[i + 1].series, k);
  }

  lemma SortedStore(lim: Limits, s: State)
    requires Invariant(lim, s)
    ensures forall k :: Sorted(At(s.series, k))
  {
    forall k ensures Sorted(At(s.series, k)) {
      assert IsSuffix(At(s.series, k), At(s.history, k));
      SuffixSorted(At(s.series, k), At(s.history, k));
    }
  }

  lemma SameWhileBelowCaps(lim: Limits, s: State, cutoff: int, key: MetricKey)
    requires lim.Positive() && Invariant(lim, s) && Cutoff(lim, s.clock) <= cutoff
    requires |At(s.series, key)| < lim.perSeries && Total(s.series) < lim.total
    ensures LivePart(At(s.series, key), cutoff) == LivePart(At(s.history, key), cutoff)
  {
    hide Sorted, LivePart, Live, Invariant;
    LiveLost(lim, s, cutoff, key);
    LiveTotal(s.series, cutoff);
  }

  lemma SameLivePart(lim: Limits, states: seq<State>, ops: seq<Op>, states': seq<State>, ops': seq<Op>,
                     key: MetricKey, cutoff: int)
    requires lim.Positive() && Run(lim, states, ops) && Run(lim, states', ops') && SameWrites(lim, ops, ops', cutoff)
    ensures LivePart(At(states[|ops|].history, key), cutoff) == LivePart(At(states'[|ops'|].history, key), cutoff)
  {
    SuffixPreserved(lim, states, ops, |ops|, key);
    SuffixPreserved(lim, states', ops', |ops'|, key);
    var h, h' := At(states[|ops|].history, key), At(states'[|ops'|].history, key);
    LiveMembers(h, cutoff);
    LiveMembers(h', cutoff);
    forall x ensures x in LivePart(h, cutoff) <==> x in LivePart(h', cutoff) {
      HistoryIsLastWrites(lim, states, ops, key, x);
      HistoryIsLastWrites(lim, states', ops', key, x);
      assert x.observedAt >= cutoff ==>
          LastWrite(lim, ops, key, x.observedAt) == LastWrite(lim, ops', key, x.observedAt);
    }
    SortedExtensional(LivePart(h, cutoff), LivePart(h', cutoff));
  }

  lemma SameLive(m: Store, m': Store, cutoff: int)
    requires forall k :: LivePart(At(m, k), cutoff) == LivePart(At(m', k), cutoff)
    ensures Live(m, cutoff) == Live(m', cutoff)
  {
    forall k ensures k in Live(m, cutoff) <==> k in Live(m', cutoff)
      ensures At(Live(m, cutoff), k) == At(Live(m', cutoff), k)
    {
      LiveAt(m, cutoff, k);
      LiveAt(m', cutoff, k);
    }
    forall k | k in Live(m, cutoff) ensures Live(m, cutoff)[k] == Live(m', cutoff)[k] {
      assert At(Live(m, cutoff), k) == At(Live(m', cutoff), k);
    }
  }

  /** The unexpired history determines the unexpired part of the store, if no two
      series share an event time in it. */
  lemma SameHistorySameStore(lim: Limits, s: State, s': State, cutoff: int)
    requires lim.Positive() && Invariant(lim, s) && Invariant(lim, s')
    requires Cutoff(lim, s.clock) <= cutoff && Cutoff(lim, s'.clock) <= cutoff
    requires Live(s.history, cutoff) == Live(s'.history, cutoff) && NoTies(Live(s.history, cutoff))
    ensures Live(s.series, cutoff) == Live(s'.series, cutoff)
  {
    CanonicalState(lim, s, cutoff);
    CanonicalState(lim, s', cutoff);
    CappedTies(lim, Live(s.history, cutoff));
    EvictedUnique(CapAll(Live(s.history, cutoff), lim.perSeries), Live(s.series, cutoff), Live(s'.series, cutoff),
                  lim.total);
  }

  /** Two runs whose last accepted writes agree from some time on that has expired in
      neither end with the same samples from that time on, whatever the order of
      arrival, whatever came and expired before, and however often the limits evicted
      in between, as long as no two series share an event time there. If the stores
      hold nothing older, they are the same store. */
  lemma Confluence(lim: Limits, states: seq<State>, ops: seq<Op>, states': seq<State>, ops': seq<Op>, cutoff: int)
    requires lim.Positive() && Run(lim, states, ops) && Run(lim, states', ops') && SameWrites(lim, ops, ops', cutoff)
    requires Cutoff(lim, states[|ops|].clock) <= cutoff && Cutoff(lim, states'[|ops'|].clock) <= cutoff
    requires NoTies(Live(states[|ops|].history, cutoff))
    ensures Live(states[|ops|].series, cutoff) == Live(states'[|ops'|].series, cutoff)
    ensures AllAtLeast(states[|ops|].series, cutoff) && AllAtLeast(states'[|ops'|].series, cutoff) ==>
              states[|ops|].series == states'[|ops'|].series
  {
    var s, s' := states[|ops|], states'[|ops'|];
    RunKeepsInvariant(lim, states, ops, |ops|);
    RunKeepsInvariant(lim, states', ops', |ops'|);
    forall k ensures LivePart(At(s.history, k), cutoff) == LivePart(At(s'.history, k), cutoff) {
      SameLivePart(lim, states, ops, states', ops', k, cutoff);
    }
    SameLive(s.history, s'.history, cutoff);
    SameHistorySameStore(lim, s, s', cutoff);
    if AllAtLeast(s.series, cutoff) && AllAtLeast(s'.series, cutoff) {
      AllLive(s.series, cutoff);
      AllLive(s'.series, cutoff);
    }
  }

  lemma CappedTies(lim: Limits, m: Store)
    requires lim.Positive() && NoTies(m)
    ensures NoTies(CapAll(m, lim.perSeries))
  {
    forall k, x | x in At(CapAll(m, lim.perSeries), k) ensures x in At(m, k) {
    }
  }

  /** With a tie across series either sample may be the one that is evicted. */
  lemma TiesBreakEitherWay(a: MetricKey, b: MetricKey, x: Sample, y: Sample)
    requires a != b && x.observedAt == y.observedAt
    ensures Evicted(map[a := [x], b := [y]], map[a := [x]], 1) && Evicted(map[a := [x], b := [y]], map[b := [y]], 1)
  {
    KeepsOne(a, b, x, y);
    KeepsOne(b, a, y, x);
    assert map[b := [y], a := [x]] == map[a := [x], b := [y]];
  }

  lemma KeepsOne(a: MetricKey, b: MetricKey, x: Sample, y: Sample)
    requires a != b && y.observedAt <= x.observedAt
    ensures Evicted(map[a := [x], b := [y]], map[a := [x]], 1)
  {
    var before, after := map[a := [x], b := [y]], map[a := [x]];
    TotalUpdate(map[], after, a);
    forall k ensures OldestDropped(before, after, 1, k) {}
    EvictedFrom(before, after, 1);
  }

  // Distinct timestamps make the last write the only one, so that a mere
  // reordering of the same arrivals cannot change it.

  ghost predicate DistinctWrites(lim: Limits, ops: seq<Op>, cutoff: int) {
    forall i, j, key, t :: 0 <= i < j < |ops| && t >= cutoff && Writes(lim, ops[i], key, t) ==> !Writes(lim, ops[j], key, t)
  }

  lemma {:induction false} LastWriteIsOnly(lim: Limits, ops: seq<Op>, key: MetricKey, t: int, cutoff: int)
    requires DistinctWrites(lim, ops, cutoff) && t >= cutoff
    ensures LastWrite(lim, ops, key, t) == None ==> forall op :: op in ops ==> !Writes(lim, op, key, t)
    ensures forall op :: op in ops && Writes(lim, op, key, t) ==> LastWrite(lim, ops, key, t) == Some(op.value.value)
  {
    if ops != [] {
      var front, last := ops[..|ops| - 1], ops[|ops| - 1];
      assert ops == front + [last];
      LastWriteIsOnly(lim, front, key, t, cutoff);
      forall op | op in front && Writes(lim, op, key, t) ensures !Writes(lim, last, key, t) {
        var i :| 0 <= i < |front| && front[i] == op;
        assert ops[i] == op;
      }
    }
  }

  /** The run accepted this value for this timestamp, at whatever clock reading. */
  ghost predicate Accepted(lim: Limits, ops: seq<Op>, key: MetricKey, t: int, v: real) {
    exists op :: op in ops && Writes(lim, op, key, t) && op.value.value == v
  }

  lemma {:induction false} LastWriteExists(lim: Limits, ops: seq<Op>, key: MetricKey, t: int)
    requires LastWrite(lim, ops, key, t).Some?
    ensures Accepted(lim, ops, key, t, LastWrite(lim, ops, key, t).value)
  {
    var front, last := ops[..|ops| - 1], ops[|ops| - 1];
    if !Writes(lim, last, key, t) { LastWriteExists(lim, front, key, t); }
    assert ops == front + [last];
  }

  /** Arrival order does not matter: the same unexpired arrivals at distinct event
      times, in any order, with anything older and any snapshots in between, end with
      the same unexpired samples. */
  lemma ArrivalOrderIrrelevant(lim: Limits, states: seq<State>, ops: seq<Op>, states': seq<State>, ops': seq<Op>,
                               cutoff: int)
    requires lim.Positive() && Run(lim, states, ops) && Run(lim, states', ops')
    requires Cutoff(lim, states[|ops|].clock) <= cutoff && Cutoff(lim, states'[|ops'|].clock) <= cutoff
    requires DistinctWrites(lim, ops, cutoff) && DistinctWrites(lim, ops', cutoff)
    requires forall key, t, v :: t >= cutoff ==> (Accepted(lim, ops, key, t, v) <==> Accepted(lim, ops', key, t, v))
    requires NoTies(Live(states[|ops|].history, cutoff))
    ensures Live(states[|ops|].series, cutoff) == Live(states'[|ops'|].series, cutoff)
    ensures AllAtLeast(states[|ops|].series, cutoff) && AllAtLeast(states'[|ops'|].series, cutoff) ==>
              states[|ops|].series == states'[|ops'|].series
  {
    forall key, t | t >= cutoff ensures LastWrite(lim, ops, key, t) == LastWrite(lim, ops', key, t) {
      LastWriteIsOnly(lim, ops, key, t, cutoff);
      LastWriteIsOnly(lim, ops', key, t, cutoff);
      if LastWrite(lim, ops, key, t).Some? { LastWriteExists(lim, ops, key, t); }
      if LastWrite(lim, ops', key, t).Some? { LastWriteExists(lim, ops', key, t); }
    }
    Confluence(lim, states, ops, states', ops', cutoff);
  }
}
