/** The part of the configuration that windows depend on: validation of services
    and window policies, and the retention derived from them. */
module Config {
  import opened Samples
  import opened WindowPolicies
  import opened Arithmetic

  const MIN_RETENTION := 30 * SECOND

  /** `compiles` says whether the expression of a target policy compiles. */
  datatype PolicyConfig = PolicyConfig(
    kind: string, metric: string, bucketDuration: Option<int>,
    upscale: Option<Threshold>, downscale: Option<Threshold>, expression: string, compiles: bool)

  datatype ServiceConfig = ServiceConfig(
    name: string, identifier: string, minCount: int, maxCount: int, metrics: seq<string>, policies: seq<PolicyConfig>)

  datatype ConfigError =
    | NoServices
    | InService(service: nat)
    | InPolicy(service: nat, policy: nat)

  function ThresholdOf(p: PolicyConfig, d: Direction): Option<Threshold> {
    match d
    case Upscale => p.upscale
    case Downscale => p.downscale
  }

  // ------------------------------------------------------------- validation

  predicate ValidThreshold(t: Threshold, bucketDuration: int) {
    bucketDuration > 0 && t.sustainedFor > 0 && t.sustainedFor % bucketDuration == 0 && t.step > 0
  }

  predicate ValidWindow(p: PolicyConfig, metrics: seq<string>) {
    && p.metric != "" && p.metric in metrics
    && p.bucketDuration.Some? && p.bucketDuration.value > 0
    && (p.upscale.Some? || p.downscale.Some?)
    && (p.upscale.Some? ==> ValidThreshold(p.upscale.value, p.bucketDuration.value))
    && (p.downscale.Some? ==> ValidThreshold(p.downscale.value, p.bucketDuration.value))
  }

  predicate ValidPolicy(p: PolicyConfig, metrics: seq<string>) {
    if p.kind == "window" then ValidWindow(p, metrics)
    else p.kind == "target" && p.expression != "" && p.compiles
  }

  predicate ValidHeader(services: seq<ServiceConfig>, i: nat)
    requires i < |services|
  {
    var s := services[i];
    && s.name != "" && (forall j :: 0 <= j < i ==> services[j].name != s.name)
    && s.identifier != "" && s.policies != []
    && 0 <= s.minCount <= s.maxCount
  }

  predicate ValidPolicies(s: ServiceConfig, n: nat)
    requires n <= |s.policies|
  {
    forall j :: 0 <= j < n ==> ValidPolicy(s.policies[j], s.metrics)
  }

  predicate ValidServices(services: seq<ServiceConfig>, n: nat)
    requires n <= |services|
  {
    forall i :: 0 <= i < n ==> ValidHeader(services, i) && ValidPolicies(services[i], |services[i].policies|)
  }

  predicate ValidConfig(services: seq<ServiceConfig>) {
    services != [] && ValidServices(services, |services|)
  }

  method ValidateThreshold(t: Option<Threshold>, bucketDuration: int) returns (ok: bool)
    requires bucketDuration > 0
    ensures ok <==> (t.Some? ==> ValidThreshold(t.value, bucketDuration))
  {
    if t == None { return true; }
    if t.value.sustainedFor <= 0 { return false; }
    if t.value.sustainedFor % bucketDuration != 0 { return false; }
    ok := t.value.step > 0;
  }

  method ValidatePolicy(p: PolicyConfig, metrics: seq<string>) returns (ok: bool)
    ensures ok <==> ValidPolicy(p, metrics)
  {
    if p.kind == "window" {
      if p.metric == "" || p.metric !in metrics { return false; }
      if p.bucketDuration == None || p.bucketDuration.value <= 0 { return false; }
      if p.upscale == None && p.downscale == None { return false; }
      ok := ValidateThreshold(p.upscale, p.bucketDuration.value);
      if !ok { return; }
      ok := ValidateThreshold(p.downscale, p.bucketDuration.value);
    } else {
      ok := p.kind == "target" && p.expression != "" && p.compiles;
    }
  }

  /** The first defect, or none: services in order, the header of each before its
      policies, and every service name used once. */
  method Validate(services: seq<ServiceConfig>) returns (error: Option<ConfigError>)
    ensures error == None <==> ValidConfig(services)
    ensures error == Some(NoServices) <==> services == []
    ensures error.Some? && error.value.InService? ==>
              var i := error.value.service;
              i < |services| && ValidServices(services, i) && !ValidHeader(services, i)
    ensures error.Some? && error.value.InPolicy? ==>
              var i, j := error.value.service, error.value.policy;
              && i < |services| && ValidServices(services, i) && ValidHeader(services, i)
              && j < |services[i].policies| && ValidPolicies(services[i], j)
              && !ValidPolicy(services[i].policies[j], services[i].metrics)
  {
    if services == [] { return Some(NoServices); }
    var names: set<string> := {};
    for i := 0 to |services|
      invariant ValidServices(services, i)
      invariant forall n :: n in names <==> exists j :: 0 <= j < i && services[j].name == n
    {
      var s := services[i];
      if s.name == "" || s.name in names { return Some(InService(i)); }
      names := names + {s.name};
      if s.identifier == "" || s.policies == [] { return Some(InService(i)); }
      if s.minCount < 0 || s.minCount > s.maxCount { return Some(InService(i)); }
      for j := 0 to |s.policies|
        invariant ValidPolicies(s, j)
      {
        var ok := ValidatePolicy(s.policies[j], s.metrics);
        if !ok { return Some(InPolicy(i, j)); }
      }
    }
    error := None;
  }

  /** A direction that can be sustained: for a whole number of buckets, and to some
      effect. */
  ghost predicate Effective(t: Threshold, width: int) {
    t.step >= 1 && exists n :: n >= 1 && Multiple(t.sustainedFor, width, n)
  }

  predicate Multiple(total: int, width: int, n: int) { total == n * width }

  lemma ThresholdIff(t: Threshold, width: int)
    requires width > 0
    ensures ValidThreshold(t, width) <==> Effective(t, width)
  {
    if ValidThreshold(t, width) {
      var n := t.sustainedFor / width;
      assert Multiple(t.sustainedFor, width, n) && n >= 1;
    }
    if Effective(t, width) {
      var n :| n >= 1 && Multiple(t.sustainedFor, width, n);
      RestOfMultiple(n, width, 0);
      MultiplesInOrder(0, n, width);
    }
  }

  /** What a policy must be: a window policy on a bound metric with buckets and a
      direction, each effective, or a target policy with an expression that compiles. */
  ghost predicate Usable(p: PolicyConfig, metrics: seq<string>) {
    || (p.kind == "target" && p.expression != "" && p.compiles)
    || (&& p.kind == "window" && p.metric != "" && p.metric in metrics
        && p.bucketDuration.Some? && p.bucketDuration.value >= 1 && !(p.upscale == None && p.downscale == None)
        && forall t :: p.upscale == Some(t) || p.downscale == Some(t) ==> Effective(t, p.bucketDuration.value))
  }

  lemma PolicyIff(p: PolicyConfig, metrics: seq<string>)
    ensures ValidPolicy(p, metrics) <==> Usable(p, metrics)
  {
    if p.bucketDuration.Some? && p.bucketDuration.value > 0 {
      if p.upscale.Some? { ThresholdIff(p.upscale.value, p.bucketDuration.value); }
      if p.downscale.Some? { ThresholdIff(p.downscale.value, p.bucketDuration.value); }
    }
    hide Effective, ValidThreshold;
  }

  /** Exactly which configurations pass. */
  lemma ConfigIff(services: seq<ServiceConfig>)
    ensures ValidConfig(services) <==>
      && services != []
      && (forall s :: s in services ==>
            && s.name != "" && s.identifier != "" && s.minCount >= 0 && s.maxCount >= s.minCount
            && s.policies != [] && forall p :: p in s.policies ==> Usable(p, s.metrics))
      && (forall i, j :: 0 <= i < j < |services| ==> services[i].name != services[j].name)
  {
    forall p, metrics ensures ValidPolicy(p, metrics) <==> Usable(p, metrics) { PolicyIff(p, metrics); }
    hide ValidPolicy, Usable;
  }

  // -------------------------------------------------------------- retention

  /** What one configured window needs: itself and two buckets of slack. */
  predicate Needs(services: seq<ServiceConfig>, i: nat, j: nat, d: Direction, duration: int) {
    && i < |services| && j < |services[i].policies|
    && var p := services[i].policies[j];
       p.kind == "window" && p.bucketDuration.Some? && ThresholdOf(p, d).Some? &&
       duration == ThresholdOf(p, d).value.sustainedFor + 2 * p.bucketDuration.value
  }

  /** What the windows before service `n`, or before policy `m` of it, need. */
  predicate NeedsBefore(services: seq<ServiceConfig>, n: nat, m: nat, i: nat, j: nat, d: Direction, duration: int) {
    Needs(services, i, j, d, duration) && (i < n || (i == n && j < m))
  }

  ghost predicate IsMaxBefore(services: seq<ServiceConfig>, n: nat, m: nat, r: int) {
    && r >= MIN_RETENTION
    && (forall i, j, d, duration :: NeedsBefore(services, n, m, i, j, d, duration) ==> duration <= r)
    && (r == MIN_RETENTION || exists i, j, d :: NeedsBefore(services, n, m, i, j, d, r))
  }

  lemma NoOtherNeeds(services: seq<ServiceConfig>, n: nat, m: nat, n': nat, m': nat, r: int)
    requires IsMaxBefore(services, n, m, r)
    requires forall i, j, d, duration ::
               NeedsBefore(services, n', m', i, j, d, duration) <==> NeedsBefore(services, n, m, i, j, d, duration)
    ensures IsMaxBefore(services, n', m', r)
  {
    if r != MIN_RETENTION {
      var i, j, d :| NeedsBefore(services, n, m, i, j, d, r);
      assert NeedsBefore(services, n', m', i, j, d, r);
    }
  }

  /** A window policy with buckets of this width configures this threshold. */
  predicate Configures(services: seq<ServiceConfig>, i: nat, j: nat, t: Threshold, width: int) {
    && i < |services| && j < |services[i].policies|
    && var p := services[i].policies[j];
       p.kind == "window" && p.bucketDuration == Some(width) && (p.upscale == Some(t) || p.downscale == Some(t))
  }

  lemma ConfiguresNeeds(services: seq<ServiceConfig>, i: nat, j: nat, t: Threshold, width: int) returns (d: Direction)
    requires Configures(services, i, j, t, width)
    ensures Needs(services, i, j, d, t.sustainedFor + 2 * width)
  {
    d := if services[i].policies[j].upscale == Some(t) then Upscale else Downscale;
  }

  lemma NeedsConfigures(services: seq<ServiceConfig>, i: nat, j: nat, d: Direction, duration: int)
    returns (t: Threshold, width: int)
    requires Needs(services, i, j, d, duration)
    ensures Configures(services, i, j, t, width) && duration == t.sustainedFor + 2 * width
  {
    var p := services[i].policies[j];
    t, width := ThresholdOf(p, d).value, p.bucketDuration.value;
  }

  /** The least retention that is half a minute or more and covers every configured
      window and two buckets more. */
  ghost predicate LeastRetention(services: seq<ServiceConfig>, retention: int) {
    && retention >= 30_000_000_000
    && (forall i, j, t, width :: Configures(services, i, j, t, width) ==> retention >= t.sustainedFor + 2 * width)
    && (retention == 30_000_000_000 ||
        exists i, j, t, width :: Configures(services, i, j, t, width) && retention == t.sustainedFor + 2 * width)
  }

  lemma LeastIff(services: seq<ServiceConfig>, retention: int)
    requires retention >= MIN_RETENTION
    requires forall i, j, d, duration :: Needs(services, i, j, d, duration) ==> duration <= retention
    requires retention == MIN_RETENTION || exists i, j, d :: Needs(services, i, j, d, retention)
    ensures LeastRetention(services, retention)
  {
    forall i, j, t, width | Configures(services, i, j, t, width) ensures retention >= t.sustainedFor + 2 * width {
      var d := ConfiguresNeeds(services, i, j, t, width);
    }
    if retention != MIN_RETENTION {
      var i, j, d :| Needs(services, i, j, d, retention);
      var t, width := NeedsConfigures(services, i, j, d, retention);
    }
  }

  /** The least retention that covers the minimum and every configured window. */
  method MetricRetention(services: seq<ServiceConfig>) returns (retention: int)
    ensures LeastRetention(services, retention)
    ensures retention >= MIN_RETENTION
    ensures forall i, j, d, duration :: Needs(services, i, j, d, duration) ==> duration <= retention
    ensures retention == MIN_RETENTION || exists i, j, d :: Needs(services, i, j, d, retention)
  {
    retention := MIN_RETENTION;
    for i := 0 to |services|
      invariant IsMaxBefore(services, i, 0, retention)
    {
      var policies := services[i].policies;
      for j := 0 to |policies|
        invariant IsMaxBefore(services, i, j, retention)
      {
        retention := RaiseFor(services, i, j, retention);
      }
      NoOtherNeeds(services, i, |policies|, i + 1, 0, retention);
    }
    assert forall i, j, d, duration :: Needs(services, i, j, d, duration) ==>
        NeedsBefore(services, |services|, 0, i, j, d, duration);
    LeastIff(services, retention);
  }

  /** The retention after one policy: raised by each direction it configures. */
  method RaiseFor(services: seq<ServiceConfig>, i: nat, j: nat, before: int) returns (retention: int)
    requires i < |services| && j < |services[i].policies|
    requires IsMaxBefore(services, i, j, before)
    ensures IsMaxBefore(services, i, j + 1, retention)
  {
    var p := services[i].policies[j];
    if p.kind != "window" || p.bucketDuration == None {
      NoOtherNeeds(services, i, j, i, j + 1, before);
      return before;
    }
    var slack := 2 * p.bucketDuration.value;
    retention := before;
    if p.upscale.Some? { retention := Larger(retention, p.upscale.value.sustainedFor + slack); }
    if p.downscale.Some? { retention := Larger(retention, p.downscale.value.sustainedFor + slack); }
    ghost var next := j + 1;
    forall i', j', d, duration | NeedsBefore(services, i, next, i', j', d, duration) ensures duration <= retention {
      if !NeedsBefore(services, i, j, i', j', d, duration) {
        assert i' == i && j' == j;
        assert d == Upscale || d == Downscale;
      }
    }
    if retention == before {
      if before != MIN_RETENTION {
        var i', j', d :| NeedsBefore(services, i, j, i', j', d, before);
        assert NeedsBefore(services, i, j + 1, i', j', d, before);
      }
    } else {
      var d := if p.upscale.Some? && retention == p.upscale.value.sustainedFor + slack then Upscale else Downscale;
      assert NeedsBefore(services, i, j + 1, i, j, d, retention);
    }
  }

  // -------------------------------------------------------- what follows

  function BuildWindow(service: string, p: PolicyConfig): WindowConfig
    requires p.bucketDuration.Some?
  {
    WindowConfig(service, p.metric, p.bucketDuration.value, p.upscale, p.downscale)
  }

  /** The policy built from a configuration decides by its own metric and thresholds:
      more where its upscale threshold is sustained, else less where its downscale
      threshold is, else it holds if it has one. */
  lemma BuiltDecides(service: string, p: PolicyConfig, metrics: seq<string>, values: seq<Sample>, now: int, cutoff: int,
                     current: int)
    requires ValidPolicy(p, metrics) && p.kind == "window" && Sorted(values)
    ensures p.bucketDuration.Some? && p.bucketDuration.value != 0
    ensures var c, width := BuildWindow(service, p), p.bucketDuration.value;
            var decision := Decision(c, values, now, cutoff, current);
            var up := p.upscale.Some? && Sustained(width, Upscale, p.upscale.value, values, now, cutoff);
            var down := p.downscale.Some? && Sustained(width, Downscale, p.downscale.value, values, now, cutoff);
      && c.Key().service == service && c.Key().name == p.metric && p.metric in metrics
      && (up ==> decision == Some(current + p.upscale.value.step))
      && (!up && down ==> decision == Some(current - p.downscale.value.step))
      && (!up && !down ==> decision == if p.downscale.Some? then Some(current) else None)
  {
    DecisionMeaning(BuildWindow(service, p), values, now, cutoff, current);
    hide Sustained, Decision;
  }

  ghost predicate ExactWindow(c: WindowConfig, t: Threshold) {
    c.bucketDuration > 0 && c.Required(t) >= 1 && c.Required(t) * c.bucketDuration == t.sustainedFor && t.step > 0
  }

  lemma ExactThreshold(c: WindowConfig, t: Threshold)
    requires ValidThreshold(t, c.bucketDuration)
    ensures ExactWindow(c, t)
  {
    var q := t.sustainedFor / c.bucketDuration;
    assert q * c.bucketDuration == t.sustainedFor;
    assert t.sustainedFor >= c.bucketDuration;
  }

  /** A validated configuration makes every window exact, and any retention at least
      the configured one covers it with two buckets of slack. */
  lemma ValidatedWindows(services: seq<ServiceConfig>, i: nat, j: nat, d: Direction, retention: int)
    requires ValidConfig(services) && i < |services| && j < |services[i].policies|
    requires var p := services[i].policies[j]; p.kind == "window" && ThresholdOf(p, d).Some?
    requires forall i, j, d, duration :: Needs(services, i, j, d, duration) ==> duration <= retention
    ensures services[i].policies[j].bucketDuration.Some?
    ensures var p := services[i].policies[j];
            var c, t := BuildWindow(services[i].name, p), ThresholdOf(p, d).value;
            ExactWindow(c, t) && retention >= c.Required(t) * c.bucketDuration + 2 * c.bucketDuration
  {
    assert ValidPolicies(services[i], |services[i].policies|);
    var p := services[i].policies[j];
    assert ValidPolicy(p, services[i].metrics);
    var t := ThresholdOf(p, d).value;
    ExactThreshold(BuildWindow(services[i].name, p), t);
    assert Needs(services, i, j, d, t.sustainedFor + 2 * p.bucketDuration.value);
  }
}
