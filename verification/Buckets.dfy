/** The completed-window query: which epoch-aligned buckets it looks at, what it
    answers, and what bounding the history can do to the answer. */
module Buckets {
  import opened Arithmetic
  import opened Samples

  datatype Status = Complete | Missing | Stale | Gap | Incomplete | PreReset

  datatype Bucket = Bucket(start: int, end: int, sample: Sample)

  datatype Answer = Answer(buckets: seq<Bucket>, status: Status)

  /** Rounds down to a multiple of the width, counted from the zero time. */
  function Truncate(t: int, width: int): (r: int)
    requires width > 0
    ensures t - width < r <= t
  {
    t - t % width
  }

  function BucketStart(oldest: int, width: int, i: nat): int { oldest + i * width }

  lemma BucketStartStep(oldest: int, width: int, i: nat)
    ensures BucketStart(oldest, width, i + 1) == BucketStart(oldest, width, i) + width
  {
  }

  lemma {:induction false} BucketStartMonotone(oldest: int, width: int, i: nat, j: nat)
    requires width >= 0 && i <= j
    ensures BucketStart(oldest, width, i) <= BucketStart(oldest, width, j)
    decreases j
  {
    if i < j {
      BucketStartMonotone(oldest, width, i, j - 1);
      BucketStartStep(oldest, width, j - 1);
    }
  }

  /** The start of the oldest of `count` completed buckets, the newest of which
      ends at the last bucket boundary not after `now`. */
  function OldestStart(now: int, width: int, count: nat): int
    requires width > 0
  {
    Truncate(now, width) - count * width
  }

  lemma WindowEnds(now: int, width: int, count: nat)
    requires width > 0
    ensures BucketStart(OldestStart(now, width, count), width, count) == Truncate(now, width)
  {
  }

  /** The sample with the greatest event time in the half-open interval. */
  function LatestIn(values: seq<Sample>, start: int, end: int): (r: Option<Sample>)
    ensures r == None ==> forall x :: x in values ==> !(start <= x.observedAt < end)
    ensures r.Some? ==> r.value in values && start <= r.value.observedAt < end
    ensures r.Some? && Sorted(values) ==>
              forall x :: x in values && start <= x.observedAt < end ==> x.observedAt <= r.value.observedAt
  {
    if values == [] then None
    else
      var front, last := values[..|values| - 1], values[|values| - 1];
      assert values == front + [last];
      if start <= last.observedAt < end then Some(last) else LatestIn(front, start, end)
  }

  function InBucket(values: seq<Sample>, oldest: int, width: int, i: nat): Option<Sample> {
    LatestIn(values, BucketStart(oldest, width, i), BucketStart(oldest, width, i) + width)
  }

  /** The nonempty ones of the first `n` buckets, oldest first. */
  function PresentBuckets(values: seq<Sample>, oldest: int, width: int, n: nat): seq<Bucket> {
    if n == 0 then []
    else
      var start := BucketStart(oldest, width, n - 1);
      PresentBuckets(values, oldest, width, n - 1) +
      match InBucket(values, oldest, width, n - 1)
      case None => []
      case Some(x) => [Bucket(start, start + width, x)]
  }

  /** What a window query answers, bucket by bucket and cause by cause. */
  ghost function Query(values: seq<Sample>, now: int, width: int, count: int, after: int): Answer {
    if width <= 0 || count <= 0 then Answer([], Incomplete)
    else
      var oldest := OldestStart(now, width, count);
      if after != 0 && oldest < after then Answer([], PreReset)
      else if values == [] then Answer([], Missing)
      else
        var present := PresentBuckets(values, oldest, width, count);
        if forall i: nat :: i < count ==> InBucket(values, oldest, width, i).Some? then Answer(present, Complete)
        else if InBucket(values, oldest, width, count - 1) == None then Answer(present, Stale)
        else if exists i: nat :: 0 < i < count && InBucket(values, oldest, width, i) == None then Answer(present, Gap)
        else Answer(present, Incomplete)
  }

  /** A complete answer lists every bucket of the window in order, contiguous up
      to the last completed boundary and none before the cutoff, each with the
      newest of its samples. */
  lemma CompleteMeaning(values: seq<Sample>, now: int, width: int, count: int, after: int)
    requires Sorted(values) && Query(values, now, width, count, after).status == Complete
    ensures var bs := Query(values, now, width, count, after).buckets;
      && width > 0 && 0 < count == |bs|
      && bs[count - 1].end == Truncate(now, width)
      && bs[0].start == Truncate(now, width) - count * width
      && (after != 0 ==> after <= bs[0].start)
      && (forall i :: 0 <= i < count ==>
            && bs[i].start == BucketStart(OldestStart(now, width, count), width, i)
            && bs[i].end == bs[i].start + width && bs[i].start <= bs[i].sample.observedAt < bs[i].end
            && bs[i].sample in values
            && forall x :: x in values && bs[i].start <= x.observedAt < bs[i].end ==>
                 x.observedAt <= bs[i].sample.observedAt)
  {
    var oldest := OldestStart(now, width, count);
    AllPresent(values, oldest, width, count);
    WindowEnds(now, width, count);
    BucketStartStep(oldest, width, count - 1);
    assert BucketStart(oldest, width, 0) == oldest;
  }

  lemma {:induction false} AllPresent(values: seq<Sample>, oldest: int, width: int, n: nat)
    requires forall i: nat :: i < n ==> InBucket(values, oldest, width, i).Some?
    ensures |PresentBuckets(values, oldest, width, n)| == n
    ensures forall i :: 0 <= i < n ==>
              var start := BucketStart(oldest, width, i);
              PresentBuckets(values, oldest, width, n)[i] ==
                Bucket(start, start + width, InBucket(values, oldest, width, i).value)
  {
    if n > 0 { AllPresent(values, oldest, width, n - 1); }
  }

  /** A window short only of its oldest bucket still has its newest one, so its
      answer is never without buckets. */
  lemma IncompleteHasNewest(values: seq<Sample>, now: int, width: int, count: int, after: int)
    requires width > 0 && count > 0 && Query(values, now, width, count, after).status == Incomplete
    ensures var bs := Query(values, now, width, count, after).buckets;
            bs != [] && bs[|bs| - 1].end == Truncate(now, width)
    ensures InBucket(values, OldestStart(now, width, count), width, 0) == None && count > 1
  {
    WindowEnds(now, width, count);
    BucketStartStep(OldestStart(now, width, count), width, count - 1);
  }

  // -------------------------------------------------- the answer, by samples

  /** Some sample lies in the half-open interval number `i` after `start`. */
  ghost predicate Filled(values: seq<Sample>, start: int, width: int, i: int) {
    exists x :: x in values && start + i * width <= x.observedAt < start + (i + 1) * width
  }

  /** The boundary of the buckets: the last multiple of the width not after `now`. */
  predicate LastBoundary(now: int, width: int, end: int)
    requires width > 0
  {
    end % width == 0 && end <= now < end + width
  }

  lemma BoundaryUnique(now: int, width: int, end: int)
    requires width > 0 && LastBoundary(now, width, end)
    ensures Truncate(now, width) == end
  {
    RestOfMultiple(end / width, width, now - end);
  }

  lemma WindowStart(now: int, width: int, count: nat, end: int)
    requires width > 0 && LastBoundary(now, width, end)
    ensures OldestStart(now, width, count) == end - count * width
  {
    BoundaryUnique(now, width, end);
  }

  lemma FilledIff(values: seq<Sample>, now: int, width: int, count: nat, end: int, i: nat)
    requires width > 0 && LastBoundary(now, width, end)
    ensures InBucket(values, OldestStart(now, width, count), width, i).Some? <==>
            Filled(values, end - count * width, width, i)
  {
    WindowStart(now, width, count, end);
    assert (i + 1) * width == i * width + width;
  }

  /** The cutoff lies within or after the window. */
  predicate CutOff(start: int, after: int) { after != 0 && start < after }

  /** Exactly when a query has which status. */
  lemma StatusIff(values: seq<Sample>, now: int, width: int, count: nat, after: int, end: int)
    requires width > 0 && count > 0 && LastBoundary(now, width, end)
    ensures var start, status := end - count * width, Query(values, now, width, count, after).status;
      && (status == PreReset <==> CutOff(start, after))
      && (status == Missing <==> !CutOff(start, after) && values == [])
      && (status == Stale <==> !CutOff(start, after) && values != [] && !Filled(values, start, width, count - 1))
      && (status == Gap <==> !CutOff(start, after) && Filled(values, start, width, count - 1) &&
                             exists i :: 0 < i < count && !Filled(values, start, width, i))
      && (status == Incomplete <==> !CutOff(start, after) && values != [] && count > 1 &&
                                    !Filled(values, start, width, 0) &&
                                    forall i :: 0 < i < count ==> Filled(values, start, width, i))
      && (status == Complete <==> !CutOff(start, after) && forall i :: 0 <= i < count ==> Filled(values, start, width, i))
  {
    var start := end - count * width;
    WindowStart(now, width, count, end);
    hide InBucket, PresentBuckets, OldestStart, Filled, LastBoundary;
    forall i: nat ensures InBucket(values, start, width, i).Some? <==> Filled(values, start, width, i) {
      FilledIff(values, now, width, count, end, i);
    }
    if values == [] { NoneFilled(start, width); }
  }

  lemma NoneFilled(start: int, width: int)
    ensures forall i :: !Filled([], start, width, i)
  {
  }

  /** A window that cannot be is incomplete, whatever there is. */
  lemma NoWindow(values: seq<Sample>, now: int, width: int, count: int, after: int)
    requires width <= 0 || count <= 0
    ensures Query(values, now, width, count, after) == Answer([], Incomplete)
  {
  }

  /** The bucket for interval `i`: its bounds, and its sample of greatest event time. */
  ghost predicate BucketOf(values: seq<Sample>, start: int, width: int, b: Bucket, i: int) {
    && b.start == start + i * width && b.end == start + (i + 1) * width
    && b.sample in values && b.start <= b.sample.observedAt < b.end
    && forall x :: x in values && b.start <= x.observedAt < b.end ==> x.observedAt <= b.sample.observedAt
  }

  /** The buckets of the filled ones of the first `n` intervals, each once, in order. */
  ghost predicate ListsFilled(values: seq<Sample>, start: int, width: int, bs: seq<Bucket>, n: int) {
    && (forall b :: b in bs ==> exists i :: 0 <= i < n && BucketOf(values, start, width, b, i))
    && (forall i :: 0 <= i < n && Filled(values, start, width, i) ==>
          exists b :: b in bs && BucketOf(values, start, width, b, i))
    && (forall j, k :: 0 <= j < k < |bs| ==> bs[j].end <= bs[k].start)
  }

  /** The buckets of an answer, of whatever status. */
  lemma AnswerBuckets(values: seq<Sample>, now: int, width: int, count: nat, after: int, end: int)
    requires width > 0 && count > 0 && LastBoundary(now, width, end) && Sorted(values)
    ensures var a := Query(values, now, width, count, after);
            if a.status == PreReset || a.status == Missing then a.buckets == []
            else ListsFilled(values, end - count * width, width, a.buckets, count)
  {
    WindowStart(now, width, count, end);
    hide *;
    PresentListed(values, now, width, count, after);
    PresentFilled(values, end - count * width, width, count);
  }

  lemma PresentListed(values: seq<Sample>, now: int, width: int, count: nat, after: int)
    requires width > 0 && count > 0
    ensures var a := Query(values, now, width, count, after);
            a.buckets == if a.status == PreReset || a.status == Missing then []
                         else PresentBuckets(values, OldestStart(now, width, count), width, count)
  {
    hide InBucket, PresentBuckets, OldestStart;
  }

  lemma {:induction false} PresentFilled(values: seq<Sample>, start: int, width: int, n: nat)
    requires width > 0 && Sorted(values)
    ensures ListsFilled(values, start, width, PresentBuckets(values, start, width, n), n)
  {
    hide *;
    if n == 0 {
      NoneListed(values, start, width);
    } else {
      PresentFilled(values, start, width, n - 1);
      NewestOfBucket(values, start, width, n - 1);
      PresentNext(values, start, width, n - 1);
      var bs, at, x := PresentBuckets(values, start, width, n - 1), BucketStart(start, width, n - 1),
                       InBucket(values, start, width, n - 1);
      if x == None {
        NoneMore(values, start, width, bs, n - 1);
      } else {
        OneMore(values, start, width, bs, n - 1, Bucket(at, at + width, x.value));
      }
    }
  }

  lemma NoneListed(values: seq<Sample>, start: int, width: int)
    ensures ListsFilled(values, start, width, PresentBuckets(values, start, width, 0), 0)
  {
  }

  lemma PresentNext(values: seq<Sample>, oldest: int, width: int, n: nat)
    ensures var start, x := BucketStart(oldest, width, n), InBucket(values, oldest, width, n);
            PresentBuckets(values, oldest, width, n + 1) ==
              if x == None then PresentBuckets(values, oldest, width, n)
              else PresentBuckets(values, oldest, width, n) + [Bucket(start, start + width, x.value)]
  {
  }

  lemma NewestOfBucket(values: seq<Sample>, start: int, width: int, i: nat)
    requires Sorted(values)
    ensures var at, x := BucketStart(start, width, i), InBucket(values, start, width, i);
            if x == None then !Filled(values, start, width, i)
            else BucketOf(values, start, width, Bucket(at, at + width, x.value), i)
  {
    assert (i + 1) * width == i * width + width;
    hide Sorted;
  }

  lemma NoneMore(values: seq<Sample>, start: int, width: int, bs: seq<Bucket>, n: nat)
    requires ListsFilled(values, start, width, bs, n) && !Filled(values, start, width, n)
    ensures ListsFilled(values, start, width, bs, n + 1)
  {
    hide Filled, BucketOf;
  }

  lemma OneMore(values: seq<Sample>, start: int, width: int, bs: seq<Bucket>, n: nat, b: Bucket)
    requires width > 0 && ListsFilled(values, start, width, bs, n) && BucketOf(values, start, width, b, n)
    ensures ListsFilled(values, start, width, bs + [b], n + 1)
  {
    forall c | c in bs ensures c.end <= b.start {
      var i :| 0 <= i < n && BucketOf(values, start, width, c, i);
      if i + 1 < n { MultiplesInOrder(i + 1, n, width); }
    }
    assert forall j :: 0 <= j < |bs| ==> bs[j] in bs;
    hide Filled, BucketOf;
    assert forall c :: c in bs ==> c in bs + [b];
  }

  // ------------------------------------------------- bounding the history

  lemma {:induction false} LatestInAppend(p: seq<Sample>, s: seq<Sample>, start: int, end: int)
    ensures LatestIn(p + s, start, end) ==
              if LatestIn(s, start, end).Some? then LatestIn(s, start, end) else LatestIn(p, start, end)
  {
    if s == [] {
      assert p + s == p;
    } else {
      var front := s[..|s| - 1];
      LatestInAppend(p, front, start, end);
      assert (p + s)[..|p + s| - 1] == p + front;
    }
  }

  lemma {:induction false} SamePresent(a: seq<Sample>, b: seq<Sample>, oldest: int, width: int, n: nat)
    requires forall i: nat :: i < n ==> InBucket(a, oldest, width, i) == InBucket(b, oldest, width, i)
    ensures PresentBuckets(a, oldest, width, n) == PresentBuckets(b, oldest, width, n)
  {
    if n > 0 { SamePresent(a, b, oldest, width, n - 1); }
  }

  lemma SameBucketsSameAnswer(a: seq<Sample>, b: seq<Sample>, now: int, width: int, count: int, after: int)
    requires a == [] <==> b == []
    requires width > 0 && count > 0 ==>
               forall i: nat :: i < count ==>
                 InBucket(a, OldestStart(now, width, count), width, i) ==
                 InBucket(b, OldestStart(now, width, count), width, i)
    ensures Query(a, now, width, count, after) == Query(b, now, width, count, after)
  {
    if width > 0 && count > 0 {
      SamePresent(a, b, OldestStart(now, width, count), width, count);
    }
  }

  lemma BucketOfSuffix(p: seq<Sample>, s: seq<Sample>, oldest: int, width: int, i: nat)
    requires InBucket(s, oldest, width, i).Some?
    ensures InBucket(p + s, oldest, width, i) == InBucket(s, oldest, width, i)
  {
    hide LatestIn, BucketStart;
    LatestInAppend(p, s, BucketStart(oldest, width, i), BucketStart(oldest, width, i) + width);
  }

  lemma CompleteHasAll(s: seq<Sample>, now: int, width: int, count: int, after: int)
    requires Query(s, now, width, count, after).status == Complete
    ensures width > 0 && count > 0 && s != []
    ensures forall i: nat :: i < count ==> InBucket(s, OldestStart(now, width, count), width, i).Some?
  {
  }

  /** Losing oldest samples can make a window incomplete but never change it: a
      query that is complete on a suffix has the same answer on the whole. */
  lemma FailsClosed(s: seq<Sample>, full: seq<Sample>, now: int, width: int, count: int, after: int)
    requires IsSuffix(s, full)
    requires Query(s, now, width, count, after).status == Complete
    ensures Query(full, now, width, count, after) == Query(s, now, width, count, after)
  {
    CompleteHasAll(s, now, width, count, after);
    hide Query;
    var p := full[..|full| - |s|];
    assert full == p + s;
    var oldest := OldestStart(now, width, count);
    hide OldestStart, InBucket;
    forall i: nat | i < count ensures InBucket(full, oldest, width, i) == InBucket(s, oldest, width, i) {
      BucketOfSuffix(p, s, oldest, width, i);
    }
    SameBucketsSameAnswer(s, full, now, width, count, after);
  }

  lemma BeforeWindow(p: seq<Sample>, s: seq<Sample>, oldest: int, width: int, i: nat)
    requires width > 0 && forall x :: x in p ==> x.observedAt < oldest
    ensures InBucket(p + s, oldest, width, i) == InBucket(s, oldest, width, i)
  {
    BucketStartMonotone(oldest, width, 0, i);
    assert BucketStart(oldest, width, 0) == oldest;
    LatestInAppend(p, s, BucketStart(oldest, width, i), BucketStart(oldest, width, i) + width);
  }

  /** Where nothing from the window on is missing, every answer is the same,
      whatever its status. */
  lemma NothingMissingSameAnswer(p: seq<Sample>, s: seq<Sample>, now: int, width: int, count: int, after: int)
    requires s == [] ==> p == []
    requires width > 0 && count > 0 ==> forall x :: x in p ==> x.observedAt < OldestStart(now, width, count)
    ensures Query(s, now, width, count, after) == Query(p + s, now, width, count, after)
  {
    if width > 0 && count > 0 {
      var oldest := OldestStart(now, width, count);
      forall i: nat | i < count ensures InBucket(p + s, oldest, width, i) == InBucket(s, oldest, width, i) {
        BeforeWindow(p, s, oldest, width, i);
      }
    }
    SameBucketsSameAnswer(s, p + s, now, width, count, after);
  }
}
