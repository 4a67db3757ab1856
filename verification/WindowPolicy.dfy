/** Window policies: a threshold that every bucket of a completed window must
    breach, in either direction, and the cutoff that forbids reusing old buckets. */
module WindowPolicies {
  import opened Arithmetic
  import opened Samples
  import opened StoreModel
  import opened Buckets
  import opened Snapshots

  datatype Direction = Upscale | Downscale

  datatype Threshold = Threshold(threshold: real, sustainedFor: int, step: int)

  datatype WindowConfig = WindowConfig(
    service: string, metric: string, bucketDuration: int, upscale: Option<Threshold>, downscale: Option<Threshold>)
  {
    function Key(): MetricKey { MetricKey(service, metric) }

    /** Division truncates toward zero; a zero divisor panics. */
    function Required(t: Threshold): int
      requires bucketDuration != 0
    {
      QuotientTowardZero(t.sustainedFor, bucketDuration)
    }
  }

  function QuotientTowardZero(a: int, b: int): int
    requires b != 0
  {
    if a >= 0 then a / b else -((-a) / b)
  }

  /** Strict in both directions. */
  predicate Beyond(d: Direction, value: real, threshold: real) {
    match d
    case Upscale => value > threshold
    case Downscale => value < threshold
  }

  /** The window is complete and each of its buckets is beyond the threshold. */
  ghost predicate Breach(c: WindowConfig, d: Direction, t: Threshold, values: seq<Sample>, now: int, cutoff: int)
    requires c.bucketDuration != 0
  {
    var a := Query(values, now, c.bucketDuration, c.Required(t), cutoff);
    a.status == Complete && forall i :: 0 <= i < |a.buckets| ==> Beyond(d, a.buckets[i].sample.value, t.threshold)
  }

  /** The count the policy asks for. A breached upscale wins; without one, a policy
      with a downscale direction asks for fewer or explicitly for what there is, and
      any other policy has no opinion. */
  ghost function Decision(c: WindowConfig, values: seq<Sample>, now: int, cutoff: int, current: int): Option<int>
    requires c.bucketDuration != 0
  {
    if c.upscale.Some? && Breach(c, Upscale, c.upscale.value, values, now, cutoff) then
      Some(current + c.upscale.value.step)
    else if c.downscale.Some? then
      var down := c.downscale.value;
      Some(if Breach(c, Downscale, down, values, now, cutoff) then current - down.step else current)
    else None
  }

  class WindowPolicy {
    const config: WindowConfig
    var resetCutoff: int

    constructor (config: WindowConfig)
      ensures this.config == config && resetCutoff == 0
    {
      this.config := config;
      resetCutoff := 0;
    }

    /** Checks completed buckets, never the open one. */
    method Evaluate(current: int, snapshot: MetricSnapshot, ghost values: seq<Sample>, now: int)
      returns (decision: Option<int>)
      requires config.bucketDuration != 0
      requires snapshot.Valid() && values == Visible(snapshot.Contents(), config.Key()) && Sorted(values)
      ensures decision == Decision(config, values, now, resetCutoff, current)
    {
      decision := None;
      if config.upscale.Some? {
        var up, breached := EvaluateDirection(snapshot, values, now, resetCutoff, current, Upscale, config.upscale.value);
        if breached { return up; }
      }
      decision := EvaluateDownscale(current, snapshot, values, now);
    }

    /** Once upscale has not breached: an explicit hold where downscale cannot
        safely proceed. */
    method EvaluateDownscale(current: int, snapshot: MetricSnapshot, ghost values: seq<Sample>, now: int)
      returns (decision: Option<int>)
      requires config.bucketDuration != 0
      requires snapshot.Valid() && values == Visible(snapshot.Contents(), config.Key()) && Sorted(values)
      requires config.upscale.Some? ==> !Breach(config, Upscale, config.upscale.value, values, now, resetCutoff)
      ensures decision == Decision(config, values, now, resetCutoff, current)
    {
      decision := None;
      if config.downscale.Some? {
        var down, _ := EvaluateDirection(snapshot, values, now, resetCutoff, current, Downscale, config.downscale.value);
        decision := down;
      }
    }

    method EvaluateDirection(snapshot: MetricSnapshot, ghost values: seq<Sample>, now: int, cutoff: int, current: int,
                             d: Direction, t: Threshold)
      returns (decision: Option<int>, breached: bool)
      requires config.bucketDuration != 0
      requires snapshot.Valid() && values == Visible(snapshot.Contents(), config.Key()) && Sorted(values)
      ensures breached <==> Breach(config, d, t, values, now, cutoff)
      ensures decision ==
        if breached then Some(if d == Upscale then current + t.step else current - t.step)
        else if d == Downscale then Some(current) else None
    {
      var hold := if d == Downscale then Some(current) else None;
      var required := config.Required(t);
      var buckets, status := snapshot.CompleteBuckets(config.Key(), now, config.bucketDuration, required, cutoff);
      if status != Complete { return hold, false; }
      for i := 0 to |buckets|
        invariant forall j :: 0 <= j < i ==> Beyond(d, buckets[j].sample.value, t.threshold)
      {
        if !Beyond(d, buckets[i].sample.value, t.threshold) { return hold, false; }
      }
      decision, breached := Some(if d == Upscale then current + t.step else current - t.step), true;
    }

    /** Records a cutoff; the shared history stays. */
    method Reset(at: int)
      modifies this
      ensures resetCutoff == at
    {
      resetCutoff := at;
    }
  }

  // ------------------------------------------------------------- one window

  /** What a breach rests on: a window of whole buckets that begins no earlier than
      the cutoff and ends no later than now. */
  lemma BreachWindow(c: WindowConfig, d: Direction, t: Threshold, values: seq<Sample>, now: int, cutoff: int)
    requires c.bucketDuration != 0 && Breach(c, d, t, values, now, cutoff)
    ensures c.bucketDuration > 0 && c.Required(t) > 0
    ensures var start := OldestStart(now, c.bucketDuration, c.Required(t));
      && (cutoff != 0 ==> cutoff <= start)
      && start + c.Required(t) * c.bucketDuration == Truncate(now, c.bucketDuration) <= now
  {
  }

  /** Both directions of one policy look at the newest bucket of their windows, and
      it is the same one. */
  lemma SharedNewest(values: seq<Sample>, now: int, width: int, n: int, m: int, after: int)
    requires Query(values, now, width, n, after).status == Complete
    requires Query(values, now, width, m, after).status == Complete
    ensures width > 0 && n > 0 && m > 0
    ensures var a, b := Query(values, now, width, n, after).buckets, Query(values, now, width, m, after).buckets;
            |a| == n && |b| == m && a[n - 1] == b[m - 1]
  {
    NewestBucket(values, now, width, n, after);
    NewestBucket(values, now, width, m, after);
  }

  lemma NewestBucket(values: seq<Sample>, now: int, width: int, n: int, after: int)
    requires Query(values, now, width, n, after).status == Complete
    ensures width > 0 && n > 0
    ensures var bs, end := Query(values, now, width, n, after).buckets, Truncate(now, width);
            var newest := LatestIn(values, end - width, end);
            |bs| == n && newest.Some? && bs[n - 1] == Bucket(end - width, end, newest.value)
  {
    AllPresent(values, OldestStart(now, width, n), width, n);
    WindowEnds(now, width, n);
    BucketStartStep(OldestStart(now, width, n), width, n - 1);
  }

  /** No data breaches both directions when the thresholds are in order. */
  lemma DirectionsExclusive(c: WindowConfig, values: seq<Sample>, now: int, cutoff: int)
    requires c.bucketDuration != 0 && c.upscale.Some? && c.downscale.Some?
    requires c.downscale.value.threshold <= c.upscale.value.threshold
    ensures !(Breach(c, Upscale, c.upscale.value, values, now, cutoff) &&
              Breach(c, Downscale, c.downscale.value, values, now, cutoff))
  {
    var u, d := c.upscale.value, c.downscale.value;
    if Breach(c, Upscale, u, values, now, cutoff) && Breach(c, Downscale, d, values, now, cutoff) {
      SharedNewest(values, now, c.bucketDuration, c.Required(u), c.Required(d), cutoff);
    }
  }

  // --------------------------------------------------- a breach, by samples

  /** The sample of greatest event time in the half-open interval number `i` after
      `start` is strictly above the threshold, or below it for a downscale. */
  ghost predicate NewestBreaches(values: seq<Sample>, d: Direction, threshold: real, start: int, width: int, i: int) {
    exists x ::
      && x in values && start + i * width <= x.observedAt < start + (i + 1) * width
      && (forall y :: y in values && start + i * width <= y.observedAt < start + (i + 1) * width ==>
            y.observedAt <= x.observedAt)
      && (if d == Upscale then x.value > threshold else x.value < threshold)
  }

  ghost predicate AllBreach(values: seq<Sample>, d: Direction, threshold: real, start: int, width: int, count: int) {
    forall i :: 0 <= i < count ==> NewestBreaches(values, d, threshold, start, width, i)
  }

  /** As many whole buckets as the threshold is to be sustained for. */
  predicate WholeBuckets(sustainedFor: int, width: int, count: int) {
    count > 0 && count * width <= sustainedFor < (count + 1) * width
  }

  /** The threshold is sustained: in each of the last whole buckets that end by `now`,
      none of which begins before the cutoff. */
  ghost predicate Sustained(width: int, d: Direction, t: Threshold, values: seq<Sample>, now: int, cutoff: int) {
    && width > 0
    && exists count, end ::
         && WholeBuckets(t.sustainedFor, width, count) && LastBoundary(now, width, end)
         && (cutoff != 0 ==> cutoff <= end - count * width)
         && AllBreach(values, d, t.threshold, end - count * width, width, count)
  }

  lemma RequiredWhole(c: WindowConfig, t: Threshold, count: int)
    requires c.bucketDuration > 0
    ensures WholeBuckets(t.sustainedFor, c.bucketDuration, count) <==> count > 0 && count == c.Required(t)
  {
    var w := c.bucketDuration;
    if t.sustainedFor >= 0 {
      var q := t.sustainedFor / w;
      assert (q + 1) * w == q * w + w;
      if WholeBuckets(t.sustainedFor, w, count) {
        MultiplesInOrder(count, q + 1, w);
        MultiplesInOrder(q, count + 1, w);
      }
    }
  }

  lemma BoundaryExists(now: int, width: int)
    requires width > 0
    ensures LastBoundary(now, width, Truncate(now, width))
  {
    RestOfMultiple(now / width, width, 0);
    assert now - now % width == now / width * width + 0;
  }

  lemma BucketBreaches(values: seq<Sample>, d: Direction, threshold: real, start: int, width: int, i: nat)
    requires Sorted(values)
    ensures NewestBreaches(values, d, threshold, start, width, i) <==>
            InBucket(values, start, width, i).Some? && Beyond(d, InBucket(values, start, width, i).value.value, threshold)
  {
    NewestOfBucket(values, start, width, i);
    var x := InBucket(values, start, width, i);
    if x.Some? && NewestBreaches(values, d, threshold, start, width, i) {
      var y :| && y in values && start + i * width <= y.observedAt < start + (i + 1) * width
               && (forall z :: z in values && start + i * width <= z.observedAt < start + (i + 1) * width ==>
                     z.observedAt <= y.observedAt)
               && (if d == Upscale then y.value > threshold else y.value < threshold);
      assert y.observedAt == x.value.observedAt;
    }
  }

  lemma BreachByBucket(c: WindowConfig, d: Direction, t: Threshold, values: seq<Sample>, now: int, cutoff: int)
    requires c.bucketDuration > 0 && c.Required(t) > 0
    ensures var w, n := c.bucketDuration, c.Required(t);
            var start := OldestStart(now, w, n);
      Breach(c, d, t, values, now, cutoff) <==>
        && (cutoff != 0 ==> cutoff <= start)
        && forall i: nat :: i < n ==>
             InBucket(values, start, w, i).Some? && Beyond(d, InBucket(values, start, w, i).value.value, t.threshold)
  {
    var w, n := c.bucketDuration, c.Required(t);
    var start := OldestStart(now, w, n);
    hide InBucket, OldestStart;
    if forall i: nat :: i < n ==> InBucket(values, start, w, i).Some? {
      AllPresent(values, start, w, n);
      assert InBucket(values, start, w, 0).Some?;
    }
  }

  lemma BreachBySamples(c: WindowConfig, d: Direction, t: Threshold, values: seq<Sample>, now: int, cutoff: int)
    requires c.bucketDuration > 0 && c.Required(t) > 0 && Sorted(values)
    ensures var w, n := c.bucketDuration, c.Required(t);
            var start := Truncate(now, w) - n * w;
      Breach(c, d, t, values, now, cutoff) <==>
        (cutoff != 0 ==> cutoff <= start) && AllBreach(values, d, t.threshold, start, w, n)
  {
    var w, n := c.bucketDuration, c.Required(t);
    BreachByBucket(c, d, t, values, now, cutoff);
    BoundaryExists(now, w);
    WindowStart(now, w, n, Truncate(now, w));
    hide *;
    AllBreachByBucket(values, d, t.threshold, OldestStart(now, w, n), w, n);
  }

  lemma AllBreachByBucket(values: seq<Sample>, d: Direction, threshold: real, start: int, width: int, count: nat)
    requires Sorted(values)
    ensures AllBreach(values, d, threshold, start, width, count) <==>
            forall i: nat :: i < count ==>
              InBucket(values, start, width, i).Some? && Beyond(d, InBucket(values, start, width, i).value.value, threshold)
  {
    hide Sorted, NewestBreaches, InBucket, Beyond;
    forall i: nat ensures NewestBreaches(values, d, threshold, start, width, i) <==>
        InBucket(values, start, width, i).Some? && Beyond(d, InBucket(values, start, width, i).value.value, threshold)
    {
      BucketBreaches(values, d, threshold, start, width, i);
    }
  }

  lemma NothingRequired(c: WindowConfig, d: Direction, t: Threshold, values: seq<Sample>, now: int, cutoff: int)
    requires c.bucketDuration != 0 && (c.bucketDuration < 0 || c.Required(t) <= 0)
    ensures !Breach(c, d, t, values, now, cutoff) && !Sustained(c.bucketDuration, d, t, values, now, cutoff)
  {
    hide AllBreach, WholeBuckets, LastBoundary, Truncate, WindowConfig.Required;
    if c.bucketDuration > 0 {
      forall count ensures !WholeBuckets(t.sustainedFor, c.bucketDuration, count) { RequiredWhole(c, t, count); }
    }
  }

  /** Exactly when a policy breaches: in each bucket of the window there is a sample,
      and the newest one is strictly beyond the threshold. */
  lemma BreachIff(c: WindowConfig, d: Direction, t: Threshold, values: seq<Sample>, now: int, cutoff: int)
    requires c.bucketDuration != 0 && Sorted(values)
    ensures Breach(c, d, t, values, now, cutoff) <==> Sustained(c.bucketDuration, d, t, values, now, cutoff)
  {
    hide Breach, AllBreach, WholeBuckets, LastBoundary, Truncate, WindowConfig.Required, Sorted;
    if c.bucketDuration < 0 || c.Required(t) <= 0 {
      NothingRequired(c, d, t, values, now, cutoff);
    } else {
      BreachBySamples(c, d, t, values, now, cutoff);
      RequiredWhole(c, t, c.Required(t));
      BoundaryExists(now, c.bucketDuration);
      if Sustained(c.bucketDuration, d, t, values, now, cutoff) {
        var count, end :| && WholeBuckets(t.sustainedFor, c.bucketDuration, count)
                          && LastBoundary(now, c.bucketDuration, end)
                          && (cutoff != 0 ==> cutoff <= end - count * c.bucketDuration)
                          && AllBreach(values, d, t.threshold, end - count * c.bucketDuration, c.bucketDuration, count);
        RequiredWhole(c, t, count);
        BoundaryUnique(now, c.bucketDuration, end);
      }
    }
  }

  /** What a policy decides, by the samples alone. */
  lemma DecisionMeaning(c: WindowConfig, values: seq<Sample>, now: int, cutoff: int, current: int)
    requires c.bucketDuration != 0 && Sorted(values)
    ensures var decision := Decision(c, values, now, cutoff, current);
            var up := c.upscale.Some? && Sustained(c.bucketDuration, Upscale, c.upscale.value, values, now, cutoff);
            var down := c.downscale.Some? && Sustained(c.bucketDuration, Downscale, c.downscale.value, values, now, cutoff);
      && (up ==> decision == Some(current + c.upscale.value.step))
      && (!up && down ==> decision == Some(current - c.downscale.value.step))
      && (!up && !down ==> decision == if c.downscale.Some? then Some(current) else None)
  {
    hide Breach, Sustained, Sorted, WindowConfig.Required;
    if c.upscale.Some? { BreachIff(c, Upscale, c.upscale.value, values, now, cutoff); }
    if c.downscale.Some? { BreachIff(c, Downscale, c.downscale.value, values, now, cutoff); }
  }

  // ------------------------------------------------ bounded and full history

  /** A breach on a suffix of the history is a breach on the whole. */
  lemma BreachOnSuffix(c: WindowConfig, d: Direction, t: Threshold, s: seq<Sample>, full: seq<Sample>, now: int,
                       cutoff: int)
    requires c.bucketDuration != 0 && IsSuffix(s, full) && Breach(c, d, t, s, now, cutoff)
    ensures Breach(c, d, t, full, now, cutoff)
  {
    FailsClosed(s, full, now, c.bucketDuration, c.Required(t), cutoff);
  }

  /** The bounded store decides as the whole history would, or holds. */
  ghost predicate DecidesSafely(c: WindowConfig, s: seq<Sample>, full: seq<Sample>, now: int, cutoff: int, current: int)
    requires c.bucketDuration != 0
  {
    var bounded := Decision(c, s, now, cutoff, current);
    bounded == Decision(c, full, now, cutoff, current) ||
    bounded == if c.downscale.Some? then Some(current) else None
  }

  /** The only way out: an upscale window that is longer than the downscale window
      and a downscale threshold above the upscale threshold. */
  predicate Inverted(c: WindowConfig)
    requires c.bucketDuration != 0
  {
    && c.upscale.Some? && c.downscale.Some?
    && c.upscale.value.threshold < c.downscale.value.threshold
    && c.Required(c.downscale.value) < c.Required(c.upscale.value)
  }

  lemma LongerWindowHasShorter(values: seq<Sample>, now: int, width: int, n: int, m: int, after: int)
    requires 0 < n <= m && Query(values, now, width, m, after).status == Complete
    ensures Query(values, now, width, n, after).status == Complete
  {
    var long, short := OldestStart(now, width, m), OldestStart(now, width, n);
    assert long <= short;
    forall i: nat | i < n ensures InBucket(values, short, width, i).Some? {
      SameBucket(now, width, n, m, i);
      assert InBucket(values, long, width, m - n + i).Some?;
    }
  }

  /** Windows that end together have their newest buckets in common. */
  lemma SameBucket(now: int, width: int, n: nat, m: nat, i: nat)
    requires width > 0 && i < n <= m
    ensures BucketStart(OldestStart(now, width, n), width, i) == BucketStart(OldestStart(now, width, m), width, m - n + i)
  {
  }

  /** Unless it is inverted, a policy on the bounded store decides as on the whole
      history, or holds. */
  lemma OrderedDecidesSafely(c: WindowConfig, s: seq<Sample>, full: seq<Sample>, now: int, cutoff: int, current: int)
    requires c.bucketDuration != 0 && IsSuffix(s, full) && !Inverted(c)
    ensures DecidesSafely(c, s, full, now, cutoff, current)
  {
    if c.upscale.Some? && Breach(c, Upscale, c.upscale.value, s, now, cutoff) {
      BreachOnSuffix(c, Upscale, c.upscale.value, s, full, now, cutoff);
    } else if c.downscale.Some? && Breach(c, Downscale, c.downscale.value, s, now, cutoff) {
      BreachOnSuffix(c, Downscale, c.downscale.value, s, full, now, cutoff);
      if c.upscale.Some? && Breach(c, Upscale, c.upscale.value, full, now, cutoff) {
        DownOnlyOnSuffix(c, s, full, now, cutoff);
      }
    }
  }

  /** Bounded data that breaches downscale where the whole breaches upscale. */
  lemma DownOnlyOnSuffix(c: WindowConfig, s: seq<Sample>, full: seq<Sample>, now: int, cutoff: int)
    requires c.bucketDuration != 0 && c.upscale.Some? && c.downscale.Some? && IsSuffix(s, full)
    requires Breach(c, Downscale, c.downscale.value, s, now, cutoff)
    requires Breach(c, Upscale, c.upscale.value, full, now, cutoff)
    ensures Breach(c, Upscale, c.upscale.value, s, now, cutoff) || Inverted(c)
  {
    var u, d := c.upscale.value, c.downscale.value;
    BreachOnSuffix(c, Downscale, d, s, full, now, cutoff);
    if d.threshold <= u.threshold {
      DirectionsExclusive(c, full, now, cutoff);
    } else if c.Required(u) <= c.Required(d) {
      BreachWindow(c, Upscale, u, full, now, cutoff);
      LongerWindowHasShorter(s, now, c.bucketDuration, c.Required(u), c.Required(d), cutoff);
      FailsClosed(s, full, now, c.bucketDuration, c.Required(u), cutoff);
    }
  }

  /** One sample at the start of each of `n` buckets. */
  function Ramp(v: real, oldest: int, width: int, n: nat): seq<Sample> {
    seq(n, i requires i >= 0 => Sample(v, BucketStart(oldest, width, i)))
  }

  lemma RampSorted(v: real, oldest: int, width: int, n: nat)
    requires width > 0
    ensures Sorted(Ramp(v, oldest, width, n))
  {
    forall i, j | 0 <= i < j < n ensures BucketStart(oldest, width, i) < BucketStart(oldest, width, j) {
      BucketStartStep(oldest, width, i);
      BucketStartMonotone(oldest, width, i + 1, j);
    }
  }

  /** A ramp over the last `n` buckets breaches every threshold its value is beyond,
      in a window of exactly these buckets. */
  lemma RampBreaches(c: WindowConfig, d: Direction, t: Threshold, v: real, now: int, cutoff: int)
    requires c.bucketDuration > 0 && c.Required(t) > 0 && Beyond(d, v, t.threshold)
    requires cutoff <= OldestStart(now, c.bucketDuration, c.Required(t)) || cutoff == 0
    ensures var oldest := OldestStart(now, c.bucketDuration, c.Required(t));
            Breach(c, d, t, Ramp(v, oldest, c.bucketDuration, c.Required(t)), now, cutoff)
  {
    var width, n := c.bucketDuration, c.Required(t);
    var oldest := OldestStart(now, width, n);
    var r := Ramp(v, oldest, width, n);
    forall i: nat | i < n ensures InBucket(r, oldest, width, i).Some? {
      assert r[i] in r;
    }
    AllPresent(r, oldest, width, n);
    forall i: nat | i < n ensures InBucket(r, oldest, width, i).value.value == v {
      assert InBucket(r, oldest, width, i).value in r;
    }
  }

  /** If all samples are equal, a breach says that they are beyond the threshold. */
  lemma UniformBreach(c: WindowConfig, d: Direction, t: Threshold, values: seq<Sample>, v: real, now: int, cutoff: int)
    requires c.bucketDuration > 0 && Breach(c, d, t, values, now, cutoff) && forall x :: x in values ==> x.value == v
    ensures Beyond(d, v, t.threshold)
  {
    var width, n := c.bucketDuration, c.Required(t);
    var oldest := OldestStart(now, width, n);
    AllPresent(values, oldest, width, n);
    assert InBucket(values, oldest, width, 0).value in values;
  }

  /** Below both thresholds. */
  function Low(c: WindowConfig): real
    requires c.downscale.Some?
  {
    var d := c.downscale.value.threshold;
    if c.upscale.Some? && c.upscale.value.threshold < d then c.upscale.value.threshold - 1.0 else d - 1.0
  }

  lemma ShortRampIsSuffix(v: real, now: int, width: int, n: nat, m: nat)
    requires width > 0 && n <= m
    ensures IsSuffix(Ramp(v, OldestStart(now, width, n), width, n), Ramp(v, OldestStart(now, width, m), width, m))
  {
    var long, short := OldestStart(now, width, m), OldestStart(now, width, n);
    forall i: nat | i < n ensures BucketStart(short, width, i) == BucketStart(long, width, m - n + i) {
      SameBucket(now, width, n, m, i);
    }
  }

  lemma RampNotBefore(v: real, oldest: int, width: int, n: nat)
    requires width > 0
    ensures forall x :: x in Ramp(v, oldest, width, n) ==> oldest <= x.observedAt
  {
    forall i: nat | i < n ensures oldest <= BucketStart(oldest, width, i) {
      BucketStartMonotone(oldest, width, 0, i);
      assert BucketStart(oldest, width, 0) == oldest;
    }
  }

  lemma {:induction false} LongerStartsEarlier(now: int, width: int, n: nat, m: nat)
    requires width > 0 && n < m
    ensures OldestStart(now, width, m) + width <= OldestStart(now, width, n)
    decreases m
  {
    assert OldestStart(now, width, m) + width == OldestStart(now, width, m - 1);
    if n < m - 1 { LongerStartsEarlier(now, width, n, m - 1); }
  }

  /** A shorter ramp does not reach the oldest bucket of a longer window. */
  lemma ShortRampIncomplete(v: real, now: int, width: int, n: nat, m: nat)
    requires width > 0 && 0 < n < m
    ensures Query(Ramp(v, OldestStart(now, width, n), width, n), now, width, m, 0).status != Complete
  {
    var long := OldestStart(now, width, m);
    RampNotBefore(v, OldestStart(now, width, n), width, n);
    LongerStartsEarlier(now, width, n, m);
    assert BucketStart(long, width, 0) == long;
    assert InBucket(Ramp(v, OldestStart(now, width, n), width, n), long, width, 0) == None;
  }

  /** A bounded decision to have more than there is is the full one. No order of
      thresholds is needed. */
  lemma UpscaleOnSuffix(c: WindowConfig, s: seq<Sample>, full: seq<Sample>, now: int, cutoff: int, current: int)
    requires c.bucketDuration != 0 && IsSuffix(s, full)
    requires c.downscale.Some? ==> c.downscale.value.step >= 0
    requires Decision(c, s, now, cutoff, current).Some? && Decision(c, s, now, cutoff, current).value > current
    ensures Decision(c, full, now, cutoff, current) == Decision(c, s, now, cutoff, current)
  {
    BreachOnSuffix(c, Upscale, c.upscale.value, s, full, now, cutoff);
  }
}
