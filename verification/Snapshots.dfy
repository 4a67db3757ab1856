/** Immutable views of the store and the queries policies make on them. */
module Snapshots {
  import opened Samples
  import opened StoreModel
  import opened Slices
  import opened Buckets

  ghost predicate AllValid(m: map<MetricKey, Slice>) {
    forall k :: k in m ==> m[k].Valid()
  }

  ghost function ArraysOf(m: map<MetricKey, Slice>): set<array<Sample>> {
    set k | k in m :: m[k].buf
  }

  ghost function ViewsOf(m: map<MetricKey, Slice>): Store
    requires AllValid(m)
    reads ArraysOf(m)
  {
    map k | k in m :: m[k].View()
  }

  class MetricSnapshot {
    const series: map<MetricKey, Slice>

    ghost function Bufs(): set<array<Sample>> { ArraysOf(series) }

    ghost predicate Valid() { AllValid(series) }

    ghost function Contents(): Store
      requires Valid()
      reads Bufs()
    {
      ViewsOf(series)
    }

    constructor (series: map<MetricKey, Slice>)
      ensures this.series == series
    {
      this.series := series;
    }

    method SamplesFor(key: MetricKey) returns (values: Slice)
      requires Valid()
      ensures values.Valid() && values.View() == Visible(Contents(), key)
    {
      var own := key in series && series[key].Len() > 0;
      var unscoped := MetricKey("", key.name);
      if own {
        values := series[key];
      } else if key.service != "" && unscoped in series {
        values := series[unscoped];
      } else {
        values := Empty();
      }
    }

    method Latest(key: MetricKey) returns (r: Option<Sample>)
      requires Valid()
      ensures r == LatestOf(Contents(), key)
    {
      var values := SamplesFor(key);
      if values.Len() == 0 {
        r := None;
      } else {
        r := Some(values.buf[values.hi - 1]);
      }
    }

    /** The completed buckets of the window that ends at the last bucket boundary
        not after `now`, and whether the window is usable. */
    method CompleteBuckets(key: MetricKey, now: int, width: int, count: int, after: int)
      returns (buckets: seq<Bucket>, status: Status)
      requires Valid() && Sorted(Visible(Contents(), key))
      ensures Answer(buckets, status) == Query(Visible(Contents(), key), now, width, count, after)
    {
      hide PresentBuckets, InBucket;
      if width <= 0 || count <= 0 {
        return [], Incomplete;
      }
      var oldestStart := OldestStart(now, width, count);
      if after != 0 {
        var preReset := BeginsBefore(oldestStart, width, count, after);
        if preReset { return [], PreReset; }
      }
      var values := SamplesFor(key);
      ghost var v := values.View();
      if values.Len() == 0 {
        return [], Missing;
      }
      var missing;
      buckets, missing := CollectBuckets(values, oldestStart, width, count);
      status := Classify(v, now, width, count, after, missing);
    }
  }

  /** Whether any bucket starts before the cutoff; the first one decides. */
  method BeginsBefore(oldest: int, width: int, count: int, after: int) returns (b: bool)
    requires width > 0 && count > 0
    ensures b <==> oldest < after
  {
    for i := 0 to count
      invariant i > 0 ==> after <= oldest
    {
      BucketStartMonotone(oldest, width, 0, i);
      assert BucketStart(oldest, width, 0) == oldest;
      if BucketStart(oldest, width, i) < after { return true; }
    }
    b := false;
  }

  /** The empty ones of the first `n` buckets, oldest first. */
  function MissingIndices(values: seq<Sample>, oldest: int, width: int, n: nat): seq<int> {
    if n == 0 then []
    else MissingIndices(values, oldest, width, n - 1) +
         if InBucket(values, oldest, width, n - 1) == None then [n - 1] else []
  }

  lemma {:induction false} MissingMeaning(values: seq<Sample>, oldest: int, width: int, n: nat)
    ensures forall i :: i in MissingIndices(values, oldest, width, n) ==>
              0 <= i < n && InBucket(values, oldest, width, i) == None
  {
    if n > 0 { MissingMeaning(values, oldest, width, n - 1); }
  }

  lemma LastMissing(values: seq<Sample>, oldest: int, width: int, n: nat)
    requires n > 0
    ensures var missing := MissingIndices(values, oldest, width, n);
            InBucket(values, oldest, width, n - 1) == None <==> (missing != [] && missing[|missing| - 1] == n - 1)
  {
    var fewer := MissingIndices(values, oldest, width, n - 1);
    MissingMeaning(values, oldest, width, n - 1);
    assert fewer != [] ==> fewer[|fewer| - 1] in fewer;
  }

  lemma {:induction false} EmptyIsMissing(values: seq<Sample>, oldest: int, width: int, n: nat, i: nat)
    requires i < n && InBucket(values, oldest, width, i) == None
    ensures i in MissingIndices(values, oldest, width, n)
    decreases n
  {
    if i < n - 1 {
      EmptyIsMissing(values, oldest, width, n - 1, i);
    }
  }

  lemma NoneBetween(values: seq<Sample>, start: int, end: int)
    requires Sorted(values) && start <= end && LatestIn(values, start, end) == None
    ensures FirstAtOrAfter(values, start) == FirstAtOrAfter(values, end)
  {
    var first := FirstAtOrAfter(values, start);
    assert first < |values| ==> values[first] in values;
    FirstAtOrAfterUnique(values, end, first);
  }

  lemma BeforeFirst(values: seq<Sample>, t: int, j: nat)
    requires Sorted(values) && j < |values|
    ensures j < FirstAtOrAfter(values, t) <==> values[j].observedAt < t
  {
  }

  lemma NotBefore(values: seq<Sample>, i: nat, j: nat)
    requires Sorted(values) && i <= j < |values| && values[j].observedAt <= values[i].observedAt
    ensures i == j
  {
  }

  lemma LatestBeforeEnd(values: seq<Sample>, start: int, end: int, x: Sample)
    requires Sorted(values) && LatestIn(values, start, end) == Some(x)
    ensures var first, last := FirstAtOrAfter(values, start), FirstAtOrAfter(values, end);
            first < last && values[last - 1] == x
  {
    hide FirstAtOrAfter, LatestIn;
    var last := FirstAtOrAfter(values, end);
    var j :| 0 <= j < |values| && values[j] == x;
    BeforeFirst(values, start, j);
    BeforeFirst(values, end, j);
    var y := values[last - 1];
    assert y in values && start <= y.observedAt < end;
    NotBefore(values, j, last - 1);
  }

  /** The sample before the second of the two indices, unless they coincide. */
  function BySearch(values: seq<Sample>, start: int, end: int): Option<Sample> {
    var first, last := FirstAtOrAfter(values, start), FirstAtOrAfter(values, end);
    if first == last || last == 0 then None else Some(values[last - 1])
  }

  lemma SearchesInOrder(values: seq<Sample>, start: int, end: int)
    requires start <= end
    ensures FirstAtOrAfter(values, start) <= FirstAtOrAfter(values, end)
  {
  }

  lemma LatestBySearch(values: seq<Sample>, start: int, end: int)
    requires Sorted(values) && start <= end
    ensures LatestIn(values, start, end) == BySearch(values, start, end)
  {
    hide LatestIn, FirstAtOrAfter, Sorted;
    var latest := LatestIn(values, start, end);
    if latest == None {
      NoneBetween(values, start, end);
    } else {
      LatestBeforeEnd(values, start, end, latest.value);
    }
  }

  /** Two binary searches find the newest sample of an interval. */
  method FindLatest(values: Slice, ghost v: seq<Sample>, start: int, end: int) returns (r: Option<Sample>)
    requires values.Valid() && values.View() == v && Sorted(v) && start <= end
    ensures r == BySearch(v, start, end)
  {
    var first := Search(values, start);
    var last := Search(values, end);
    SearchesInOrder(v, start, end);
    if first == last {
      r := None;
    } else {
      r := Some(values.Get(last - 1));
    }
  }

  method FindInBucket(values: Slice, ghost v: seq<Sample>, oldest: int, width: int, i: nat) returns (r: Option<Sample>)
    requires values.Valid() && values.View() == v && Sorted(v) && width > 0
    ensures r == InBucket(v, oldest, width, i)
  {
    hide LatestIn, BySearch, Sorted;
    var start := BucketStart(oldest, width, i);
    r := FindLatest(values, v, start, start + width);
    LatestBySearch(v, start, start + width);
  }

  lemma OneMoreBucket(values: seq<Sample>, oldest: int, width: int, i: nat, found: Option<Sample>)
    requires found == InBucket(values, oldest, width, i)
    ensures PresentBuckets(values, oldest, width, i + 1) ==
              PresentBuckets(values, oldest, width, i) + BucketOf(oldest, width, i, found)
    ensures MissingIndices(values, oldest, width, i + 1) ==
              MissingIndices(values, oldest, width, i) + if found == None then [i as int] else []
  {
  }

  function BucketOf(oldest: int, width: int, i: nat, found: Option<Sample>): seq<Bucket> {
    var start := BucketStart(oldest, width, i);
    match found
    case None => []
    case Some(x) => [Bucket(start, start + width, x)]
  }

  method CollectBuckets(values: Slice, oldest: int, width: int, count: int)
    returns (buckets: seq<Bucket>, missing: seq<int>)
    requires values.Valid() && Sorted(values.View()) && width > 0 && count > 0
    ensures buckets == PresentBuckets(values.View(), oldest, width, count)
    ensures missing == MissingIndices(values.View(), oldest, width, count)
  {
    ghost var v := values.View();
    buckets, missing := [], [];
    for i := 0 to count
      invariant buckets == PresentBuckets(v, oldest, width, i)
      invariant missing == MissingIndices(v, oldest, width, i)
    {
      var found := FindInBucket(values, v, oldest, width, i);
      OneMoreBucket(v, oldest, width, i, found);
      buckets := buckets + BucketOf(oldest, width, i, found);
      if found == None { missing := missing + [i]; }
    }
  }

  /** Names the defect of a window from its empty buckets. A window whose newest
      bucket is there has a bucket, so it is never called missing here. */
  method Classify(ghost values: seq<Sample>, now: int, width: int, count: int, ghost after: int, missing: seq<int>)
    returns (status: Status)
    requires width > 0 && count > 0 && values != []
    requires after != 0 ==> after <= OldestStart(now, width, count)
    requires missing == MissingIndices(values, OldestStart(now, width, count), width, count)
    ensures Answer(PresentBuckets(values, OldestStart(now, width, count), width, count), status) ==
            Query(values, now, width, count, after)
  {
    hide LatestIn, BucketStart;
    ghost var oldest := OldestStart(now, width, count);
    MissingMeaning(values, oldest, width, count);
    forall i: nat | i < count && InBucket(values, oldest, width, i) == None ensures i in missing {
      EmptyIsMissing(values, oldest, width, count, i);
    }
    if |missing| == 0 { return Complete; }
    assert missing[0] in missing;
    LastMissing(values, oldest, width, count);
    if missing[|missing| - 1] == count - 1 { return Stale; }
    var gap := AnyPositive(missing);
    assert forall j :: 0 <= j < |missing| ==> missing[j] in missing;
    status := if gap then Gap else Incomplete;
  }

  method AnyPositive(missing: seq<int>) returns (found: bool)
    ensures found <==> exists i :: 0 <= i < |missing| && missing[i] > 0
  {
    for j := 0 to |missing|
      invariant forall i :: 0 <= i < j ==> missing[i] <= 0
    {
      if missing[j] > 0 { return true; }
    }
    found := false;
  }
}
