/** How much history a window needs: the retained interval refines the full
    history exactly when it exceeds the window by two buckets less one tick. */
module Retention {
  import opened Samples
  import opened StoreModel
  import opened StoreInvariant
  import opened Arithmetic
  import opened Buckets

  lemma MissingBefore(full: seq<Sample>, s: seq<Sample>, bound: int) returns (p: seq<Sample>)
    requires Sorted(full) && IsSuffix(s, full)
    requires |s| < |full| ==> NewestMissing(full, s) < bound
    ensures full == p + s && |p| == |full| - |s|
    ensures forall x :: x in p ==> x.observedAt < bound
  {
    p := full[..|full| - |s|];
  }

  /** A cutoff that is at least two buckets before the window, measured from a
      reading at most one bucket later, stays before the window. */
  lemma CutoffBeforeWindow(retention: int, now: int, pruned: int, width: int, count: nat)
    requires width > 0 && pruned <= now + width
    requires retention >= count * width + 2 * width - 1
    ensures pruned - retention <= OldestStart(now, width, count)
  {
  }

  /** With the configured retention and no limit reached, every window query on a
      snapshot pruned up to one bucket after `now` gives the answer of the whole
      accepted history, status included. The one exception is a series that an earlier
      eviction emptied: it is missing where the history is stale. */
  lemma RetentionRefinesHistory(lim: Limits, s: State, key: MetricKey, now: int, width: int, count: int, after: int)
    requires lim.Positive() && Invariant(lim, s)
    requires |At(s.series, key)| < lim.perSeries && Total(s.series) < lim.total
    requires width > 0 && count > 0 ==> now <= s.clock <= now + width
    requires width > 0 && count > 0 ==> lim.retention >= count * width + 2 * width
    ensures var v, h := At(s.series, key), At(s.history, key);
            var bounded, full := Query(v, now, width, count, after), Query(h, now, width, count, after);
            bounded == full ||
            (v == [] && h != [] && bounded == Answer([], Missing) && full == Answer([], Stale))
  {
    var v, h := At(s.series, key), At(s.history, key);
    assert IsSuffix(v, h);
    assert |v| < |h| ==> Excused(lim, Total(s.series), s.series, h, v, Cutoff(lim, s.clock));
    var p := MissingBefore(h, v, Cutoff(lim, s.clock));
    if width > 0 && count > 0 {
      CutoffBeforeWindow(lim.retention, now, s.clock, width, count);
      MissingOrSame(p, v, now, width, count, after);
    }
  }

  /** Losing what precedes the window changes an answer only by losing everything. */
  lemma MissingOrSame(p: seq<Sample>, v: seq<Sample>, now: int, width: int, count: int, after: int)
    requires width > 0 && count > 0 && forall x :: x in p ==> x.observedAt < OldestStart(now, width, count)
    ensures var bounded, full := Query(v, now, width, count, after), Query(p + v, now, width, count, after);
            bounded == full ||
            (v == [] && p + v != [] && bounded == Answer([], Missing) && full == Answer([], Stale))
  {
    if v == [] && p != [] {
      assert p + v == p;
      ExpiredIsStale(p, now, width, count, after);
    } else {
      NothingMissingSameAnswer(p, v, now, width, count, after);
    }
  }

  lemma ExpiredIsStale(p: seq<Sample>, now: int, width: int, count: int, after: int)
    requires width > 0 && count > 0 && p != []
    requires forall x :: x in p ==> x.observedAt < OldestStart(now, width, count)
    ensures Query(p, now, width, count, after) ==
            if after != 0 && OldestStart(now, width, count) < after then Answer([], PreReset) else Answer([], Stale)
  {
    var oldest := OldestStart(now, width, count);
    forall i: nat | i < count ensures InBucket(p, oldest, width, i) == InBucket([], oldest, width, i) {
      BeforeWindow(p, [], oldest, width, i);
      assert p + [] == p;
    }
    SamePresent(p, [], oldest, width, count);
    NonePresent([], oldest, width, count, BucketStart(oldest, width, count));
  }

  /** A snapshot pruned up to one bucket after the evaluation time answers like
      the unpruned series. */
  ghost predicate SameAnswer(retention: int, width: int, count: int, full: seq<Sample>, now: int, pruned: int, after: int) {
    Sorted(full) && (forall x :: x in full ==> 0 < x.observedAt <= pruned) && 0 < now <= pruned <= now + width ==>
      Query(Prune(full, pruned - retention), now, width, count, after) == Query(full, now, width, count, after)
  }

  ghost predicate Sufficient(retention: int, width: int, count: int) {
    forall full, now, pruned, after :: SameAnswer(retention, width, count, full, now, pruned, after)
  }

  lemma EnoughIsSufficient(retention: int, width: int, count: int)
    requires width > 0 && count > 0 && retention >= count * width + 2 * width - 1
    ensures Sufficient(retention, width, count)
  {
    forall full, now, pruned, after ensures SameAnswer(retention, width, count, full, now, pruned, after) {
      EnoughGivesSameAnswer(retention, width, count, full, now, pruned, after);
    }
  }

  lemma EnoughGivesSameAnswer(retention: int, width: int, count: int, full: seq<Sample>, now: int, pruned: int, after: int)
    requires width > 0 && count > 0 && retention >= count * width + 2 * width - 1
    ensures SameAnswer(retention, width, count, full, now, pruned, after)
  {
    hide Sorted, Query, Prune, OldestStart;
    if Sorted(full) && now <= pruned <= now + width {
      CutoffBeforeWindow(retention, now, pruned, width, count);
      PrunedBeforeWindow(full, pruned - retention, now, width, count, after);
    }
  }

  lemma PrunedBeforeWindow(full: seq<Sample>, cutoff: int, now: int, width: int, count: int, after: int)
    requires Sorted(full) && width > 0 && count > 0 && cutoff <= OldestStart(now, width, count)
    ensures Query(Prune(full, cutoff), now, width, count, after) == Query(full, now, width, count, after)
  {
    var s := Prune(full, cutoff);
    PruneMeaning(full, cutoff);
    var p := MissingBefore(full, s, cutoff);
    NothingMissingSameAnswer(p, s, now, width, count, after);
  }

  lemma {:induction false} NonePresent(values: seq<Sample>, oldest: int, width: int, n: nat, end: int)
    requires width > 0 && forall x :: x in values ==> x.observedAt >= end
    requires BucketStart(oldest, width, n) <= end
    ensures PresentBuckets(values, oldest, width, n) == []
  {
    if n > 0 {
      BucketStartStep(oldest, width, n - 1);
      NonePresent(values, oldest, width, n - 1, end);
    }
  }

  lemma {:induction false} SomePresent(values: seq<Sample>, oldest: int, width: int, n: nat)
    requires n > 0 && InBucket(values, oldest, width, 0).Some?
    ensures PresentBuckets(values, oldest, width, n) != []
  {
    if n > 1 { SomePresent(values, oldest, width, n - 1); }
  }

  lemma PrunedToLast(x: Sample, y: Sample, cutoff: int)
    requires x.observedAt < cutoff && x.observedAt < y.observedAt
    ensures Prune([x, y], cutoff) == [y]
  {
    assert FirstAtOrAfter([x, y], cutoff) >= 1;
  }

  /** The last tick of the bucket that begins at a multiple of the width. */
  lemma LastBucketTick(start: int, k: int, width: int, count: int)
    requires width > 0 && count > 0 && start == k * width
    ensures Truncate(start + width - 1, width) == start
    ensures OldestStart(start + width - 1, width, count) == start - count * width
  {
    RestOfMultiple(k, width, width - 1);
  }

  lemma LosesFirstBucket(x: Sample, y: Sample, now: int, width: int, count: int)
    requires width > 0 && count > 0
    requires x.observedAt == OldestStart(now, width, count) && y.observedAt >= Truncate(now, width)
    ensures Query([y], now, width, count, 0) != Query([x, y], now, width, count, 0)
  {
    var oldest := OldestStart(now, width, count);
    WindowEnds(now, width, count);
    NonePresent([y], oldest, width, count, Truncate(now, width));
    assert BucketStart(oldest, width, 0) == oldest;
    assert x in [x, y];
    SomePresent([x, y], oldest, width, count);
  }

  /** One tick less than two buckets and one tick of slack can lose a sample that
      the window still needs: it sits at the start of the window, the evaluation
      falls just before a bucket boundary, and the snapshot is one bucket late. */
  lemma ShortLosesSample(retention: int, width: int, count: int) returns (full: seq<Sample>, now: int)
    requires width > 0 && count > 0 && retention < count * width + 2 * width - 1
    ensures !SameAnswer(retention, width, count, full, now, now + width, 0)
  {
    var start := (count + 1) * width;
    now := start + width - 1;
    LastBucketTick(start, count + 1, width, count);
    assert start - count * width == width;
    var x, y := Sample(0.0, width), Sample(0.0, now);
    full := [x, y];
    assert width < now;
    PrunedToLast(x, y, now + width - retention);
    LosesFirstBucket(x, y, now, width, count);
  }

  /** The two-bucket slack is exact up to a single clock tick: more than the
      window and two buckets less one tick is never needed, less never enough. */
  lemma SlackIsExact(retention: int, width: int, count: int)
    requires width > 0 && count > 0
    ensures Sufficient(retention, width, count) <==> retention >= count * width + 2 * width - 1
  {
    if retention >= count * width + 2 * width - 1 {
      EnoughIsSufficient(retention, width, count);
    } else {
      var full, now := ShortLosesSample(retention, width, count);
    }
  }
}
