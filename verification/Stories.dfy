/** Histories that mislead: of a window policy that should raise the count and is kept
    from it by the samples its store has lost, and of one that should lower it. */
module Stories {
  import opened Arithmetic
  import opened Samples
  import opened StoreModel
  import opened StoreInvariant
  import opened Buckets
  import opened WindowPolicies
  import opened BoundedDecisions

  // ------------------------------------------------------- configurations

  predicate ValidDirection(c: WindowConfig, t: Option<Threshold>)
    requires c.bucketDuration != 0
  {
    t.Some? ==> c.Required(t.value) > 0 && t.value.step > 0
  }

  /** What validation leaves of window policies. */
  predicate Configured(c: WindowConfig) {
    && c.bucketDuration > 0 && ValidDirection(c, c.upscale) && ValidDirection(c, c.downscale)
    && c.service != "" && c.metric != ""
  }

  /** The policy can be kept from an upscale by missing data. */
  ghost predicate Misled(c: WindowConfig)
    requires Configured(c)
  {
    UpscaleOnly(c) || Inverted(c)
  }

  // ------------------------------------------------------ samples after a window

  /** Samples in the `n` ticks after `now`. */
  function Flood(now: int, n: nat): seq<Sample> { seq(n, i requires i >= 0 => Sample(0.0, now + 1 + i)) }

  lemma AfterWindow(r: seq<Sample>, f: seq<Sample>, now: int, width: int, count: int)
    requires width > 0 && count > 0 && r != [] && forall x :: x in f ==> x.observedAt >= Truncate(now, width)
    ensures Query(r + f, now, width, count, 0) == Query(r, now, width, count, 0)
  {
    var oldest := OldestStart(now, width, count);
    forall i: nat | i < count ensures InBucket(r + f, oldest, width, i) == InBucket(r, oldest, width, i) {
      NoneAfter(f, now, width, count, i);
      LatestInAppend(r, f, BucketStart(oldest, width, i), BucketStart(oldest, width, i) + width);
    }
    hide OldestStart;
    SameBucketsSameAnswer(r + f, r, now, width, count, 0);
  }

  lemma NoneAfter(f: seq<Sample>, now: int, width: int, count: int, i: nat)
    requires width > 0 && i < count && forall x :: x in f ==> x.observedAt >= Truncate(now, width)
    ensures InBucket(f, OldestStart(now, width, count), width, i) == None
  {
    var oldest := OldestStart(now, width, count);
    BucketStartStep(oldest, width, i);
    BucketStartMonotone(oldest, width, i + 1, count);
    WindowEnds(now, width, count);
  }

  lemma OnlyAfterWindow(f: seq<Sample>, now: int, width: int, count: int)
    requires width > 0 && count > 0 && forall x :: x in f ==> x.observedAt >= Truncate(now, width)
    ensures Query(f, now, width, count, 0).status != Complete
  {
    NoneAfter(f, now, width, count, 0);
  }

  lemma FloodTimes(now: int, n: nat)
    ensures Sorted(Flood(now, n)) && forall x :: x in Flood(now, n) ==> now < x.observedAt <= now + n
  {
  }

  // ---------------------------------------------------------- one policy's story

  lemma FloodedBreach(c: WindowConfig, d: Direction, t: Threshold, r: seq<Sample>, now: int, n: nat)
    requires c.bucketDuration > 0 && c.Required(t) > 0 && r != []
    ensures Breach(c, d, t, r + Flood(now, n), now, 0) <==> Breach(c, d, t, r, now, 0)
  {
    FloodTimes(now, n);
    hide Query, Sorted;
    AfterWindow(r, Flood(now, n), now, c.bucketDuration, c.Required(t));
  }

  /** The last `n` buckets before `now` showing `v`. */
  function LastBuckets(c: WindowConfig, v: real, now: int, n: nat): seq<Sample>
    requires c.bucketDuration > 0
  {
    Ramp(v, OldestStart(now, c.bucketDuration, n), c.bucketDuration, n)
  }

  /** Between the thresholds of an inverted policy, or beyond the only one. */
  function Peak(c: WindowConfig): real
    requires c.upscale.Some?
  {
    if c.downscale.Some? then (c.upscale.value.threshold + c.downscale.value.threshold) / 2.0
    else c.upscale.value.threshold + 1.0
  }

  function Kept(c: WindowConfig): nat
    requires Configured(c)
  {
    if c.downscale.Some? then c.Required(c.downscale.value) else 0
  }

  /** A misled policy's history: its whole upscale window breaches, and then come as
      many samples as push everything but its downscale window out of the store. */
  function Misleading(c: WindowConfig, now: int, limit: nat): seq<Sample>
    requires Configured(c) && c.upscale.Some? && Kept(c) <= limit
  {
    LastBuckets(c, Peak(c), now, c.Required(c.upscale.value)) + Flood(now, limit - Kept(c))
  }

  /** One sample, too new for any window. */
  function Filler(now: int): seq<Sample> { Flood(now, 1) }

  /** Any other policy's history: a breached downscale window, if it has one. */
  function Plain(c: WindowConfig, now: int): seq<Sample>
    requires Configured(c)
  {
    if c.downscale.Some? then LastBuckets(c, Low(c), now, Kept(c)) else Filler(now)
  }

  lemma MisleadingCapped(c: WindowConfig, now: int, limit: nat)
    requires Configured(c) && c.upscale.Some? && Kept(c) <= limit && Kept(c) <= c.Required(c.upscale.value)
    ensures Cap(Misleading(c, now, limit), limit) == LastBuckets(c, Peak(c), now, Kept(c)) + Flood(now, limit - Kept(c))
  {
    var long := LastBuckets(c, Peak(c), now, c.Required(c.upscale.value));
    var short, flood := LastBuckets(c, Peak(c), now, Kept(c)), Flood(now, limit - Kept(c));
    ShortRampIsSuffix(Peak(c), now, c.bucketDuration, Kept(c), c.Required(c.upscale.value));
    var q := long[..|long| - |short|];
    assert long == q + short;
    assert long + flood == q + (short + flood);
    CapBehind(q, short + flood);
  }

  lemma MisledFull(c: WindowConfig, now: int, limit: nat)
    requires Configured(c) && Misled(c) && Kept(c) <= limit
    ensures Breach(c, Upscale, c.upscale.value, Misleading(c, now, limit), now, 0)
  {
    var u := c.upscale.value;
    RampBreaches(c, Upscale, u, Peak(c), now, 0);
    hide Breach;
    FloodedBreach(c, Upscale, u, LastBuckets(c, Peak(c), now, c.Required(u)), now, limit - Kept(c));
  }

  lemma MisledBounded(c: WindowConfig, now: int, limit: nat)
    requires Configured(c) && Misled(c) && Kept(c) <= limit
    ensures !Breach(c, Upscale, c.upscale.value, Cap(Misleading(c, now, limit), limit), now, 0)
    ensures c.downscale.Some? ==> Breach(c, Downscale, c.downscale.value, Cap(Misleading(c, now, limit), limit), now, 0)
  {
    var u, n := c.upscale.value, Kept(c);
    var short := LastBuckets(c, Peak(c), now, n);
    MisleadingCapped(c, now, limit);
    if c.downscale.Some? {
      ShortRampIncomplete(Peak(c), now, c.bucketDuration, n, c.Required(u));
      RampBreaches(c, Downscale, c.downscale.value, Peak(c), now, 0);
      hide Query;
      FloodedBreach(c, Upscale, u, short, now, limit - n);
      FloodedBreach(c, Downscale, c.downscale.value, short, now, limit - n);
    } else {
      FloodTimes(now, limit);
      OnlyAfterWindow(Flood(now, limit), now, c.bucketDuration, c.Required(u));
      assert short + Flood(now, limit) == Flood(now, limit);
    }
  }

  lemma PlainBreaches(c: WindowConfig, now: int)
    requires Configured(c) && c.downscale.Some?
    ensures Breach(c, Downscale, c.downscale.value, Plain(c, now), now, 0)
    ensures c.upscale.Some? ==> !Breach(c, Upscale, c.upscale.value, Plain(c, now), now, 0)
  {
    RampBreaches(c, Downscale, c.downscale.value, Low(c), now, 0);
    hide Query;
    if c.upscale.Some? && Breach(c, Upscale, c.upscale.value, Plain(c, now), now, 0) {
      UniformBreach(c, Upscale, c.upscale.value, Plain(c, now), Low(c), now, 0);
    }
  }

  /** What the policies say on the two stores. */
  lemma MisledDecides(c: WindowConfig, now: int, limit: nat, current: int)
    requires Configured(c) && Misled(c) && Kept(c) <= limit
    ensures Decision(c, Misleading(c, now, limit), now, 0, current) == Some(current + c.upscale.value.step)
    ensures Decision(c, Cap(Misleading(c, now, limit), limit), now, 0, current) ==
            if c.downscale.Some? then Some(current - c.downscale.value.step) else None
  {
    hide Breach;
    MisledFull(c, now, limit);
    MisledBounded(c, now, limit);
  }

  lemma FillerBreaches(c: WindowConfig, d: Direction, now: int)
    requires Configured(c)
    ensures c.upscale.Some? ==> !Breach(c, d, c.upscale.value, Filler(now), now, 0)
  {
    FloodTimes(now, 1);
    if c.upscale.Some? { OnlyAfterWindow(Filler(now), now, c.bucketDuration, c.Required(c.upscale.value)); }
  }

  lemma PlainDecides(c: WindowConfig, now: int, current: int)
    requires Configured(c)
    ensures Decision(c, Plain(c, now), now, 0, current) ==
            if c.downscale.Some? then Some(current - c.downscale.value.step) else None
  {
    hide Breach;
    if c.downscale.Some? {
      PlainBreaches(c, now);
    } else {
      FillerBreaches(c, Upscale, now);
    }
  }

  // -------------------------------------------------------------- their times

  /** How far back a window of the policy can reach. */
  function Reach(c: WindowConfig): nat
    requires Configured(c)
  {
    var up, down := if c.upscale.Some? then c.Required(c.upscale.value) else 0, Kept(c);
    Times(up + down + 1, c.bucketDuration)
  }

  function Times(a: nat, b: nat): nat { a * b }

  /** A window within reach of `now` begins after the first tick. */
  lemma WindowIsPositive(c: WindowConfig, now: int, n: nat)
    requires Configured(c) && Reach(c) < now
    requires n == Kept(c) || (c.upscale.Some? && n == c.Required(c.upscale.value))
    ensures 1 < OldestStart(now, c.bucketDuration, n)
  {
    var up := if c.upscale.Some? then c.Required(c.upscale.value) else 0;
    var m := up + Kept(c);
    MultiplesInOrder(m, n, c.bucketDuration);
    NextMultiple(m, c.bucketDuration);
  }

  lemma NextMultiple(m: nat, width: nat)
    ensures Times(m + 1, width) == m * width + width
  {
  }

  lemma RampTimes(v: real, now: int, width: int, n: nat)
    requires width > 0 && 1 < OldestStart(now, width, n)
    ensures Sorted(Ramp(v, OldestStart(now, width, n), width, n))
    ensures forall x :: x in Ramp(v, OldestStart(now, width, n), width, n) ==> 1 < x.observedAt < now
  {
    var oldest := OldestStart(now, width, n);
    RampSorted(v, oldest, width, n);
    forall i: nat | i < n ensures oldest <= BucketStart(oldest, width, i) < now {
      BucketStartMonotone(oldest, width, 0, i);
      BucketStartMonotone(oldest, width, i + 1, n);
      BucketStartStep(oldest, width, i);
      WindowEnds(now, width, n);
      assert BucketStart(oldest, width, 0) == oldest;
    }
  }

  lemma SortedJoin(a: seq<Sample>, b: seq<Sample>, t: int)
    requires Sorted(a) && Sorted(b)
    requires (forall x :: x in a ==> x.observedAt < t) && (forall x :: x in b ==> t < x.observedAt)
    ensures Sorted(a + b)
  {
    assert forall i :: 0 <= i < |a| ==> a[i] in a;
    assert forall i :: 0 <= i < |b| ==> b[i] in b;
  }

  /** A series of positive times up to `clock`, later than the first tick. */
  ghost predicate Timely(clock: int, h: seq<Sample>) {
    Sorted(h) && forall x :: x in h ==> 1 < x.observedAt <= clock
  }

  lemma MisleadingTimely(c: WindowConfig, now: int, limit: nat)
    requires Configured(c) && Misled(c) && Kept(c) <= limit && Reach(c) < now
    ensures Timely(now + limit, Misleading(c, now, limit))
  {
    var n := c.Required(c.upscale.value);
    WindowIsPositive(c, now, n);
    RampTimes(Peak(c), now, c.bucketDuration, n);
    FloodTimes(now, limit - Kept(c));
    hide Sorted, OldestStart, Ramp, Flood;
    SortedJoin(LastBuckets(c, Peak(c), now, n), Flood(now, limit - Kept(c)), now);
  }

  lemma FillerTimely(now: int, limit: nat)
    requires now > 0 && limit > 0
    ensures Timely(now + limit, Filler(now))
  {
    FloodTimes(now, 1);
  }

  lemma PlainTimely(c: WindowConfig, now: int, limit: nat)
    requires Configured(c) && 0 <= Reach(c) < now && limit > 0
    ensures Timely(now + limit, Plain(c, now))
  {
    if c.downscale.Some? {
      WindowIsPositive(c, now, Kept(c));
      RampTimes(Low(c), now, c.bucketDuration, Kept(c));
    } else {
      FillerTimely(now, limit);
    }
  }

  lemma PlainFits(c: WindowConfig, now: int, limit: nat)
    requires Configured(c) && Kept(c) <= limit && limit > 0
    ensures Cap(Plain(c, now), limit) == Plain(c, now) != []
  {
  }

  lemma FillerFits(now: int, limit: nat)
    requires limit > 0
    ensures Cap(Filler(now), limit) == Filler(now) != []
  {
  }

  lemma MisleadingFits(c: WindowConfig, now: int, limit: nat)
    requires Configured(c) && c.upscale.Some? && Kept(c) <= limit && limit > 0
    ensures Misleading(c, now, limit) != [] && Cap(Misleading(c, now, limit), limit) != []
  {
  }
}
