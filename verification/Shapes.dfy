/** What a configuration says of a service's policies, and which configurations are
    exposed to eviction. */
module Shapes {
  import opened Samples
  import opened WindowPolicies
  import opened Decisions
  import opened BoundedDecisions
  import opened Stories

  // ------------------------------------------------------- configurations

  /** What a configuration says of a policy; the expression of a target policy is left
      open. */
  datatype Shape = WindowShape(config: WindowConfig) | TargetShape(metricNames: seq<string>)

  type Expression = (int, map<string, real>) -> Option<real>

  predicate ConfiguredShape(service: string, p: Shape) {
    match p
    case WindowShape(c) => Configured(c) && c.service == service
    case TargetShape(names) => forall n :: n in names ==> n != ""
  }

  predicate ConfiguredService(service: string, ps: seq<Shape>) {
    service != "" && forall i :: 0 <= i < |ps| ==> ConfiguredShape(service, ps[i])
  }

  /** No two window policies read the same metric. */
  ghost predicate OwnMetrics(ps: seq<Shape>) {
    forall i, j :: 0 <= i < j < |ps| && ps[i].WindowShape? && ps[j].WindowShape? ==>
      ps[i].config.metric != ps[j].config.metric
  }

  function StateFor(service: string, p: Shape, cutoff: int, e: Expression): PolicyState {
    match p
    case WindowShape(c) => WindowState(c, cutoff)
    case TargetShape(names) => TargetState(TargetSpec(service, names, e))
  }

  /** The policies as the reconciler holds them, after any scale events. */
  function PoliciesOf(service: string, ps: seq<Shape>, cutoffs: seq<int>, es: seq<Expression>): (states: seq<PolicyState>)
    requires ConfiguredService(service, ps) && |cutoffs| == |ps| == |es|
    ensures forall p :: p in states ==> WellFormed(p) && PositiveStepsOf(p)
  {
    var states := seq(|ps|, i requires 0 <= i < |ps| => StateFor(service, ps[i], cutoffs[i], es[i]));
    assert forall i :: 0 <= i < |states| ==>
        ConfiguredShape(service, ps[i]) && states[i] == StateFor(service, ps[i], cutoffs[i], es[i]);
    states
  }

  predicate CanLower(p: Shape) { p.TargetShape? || p.config.downscale.Some? }

  predicate Reads(p: Shape, name: string) {
    match p
    case WindowShape(c) => c.metric == name
    case TargetShape(names) => name in names
  }

  /** A window policy that holds the count where the metric is missing. */
  predicate HoldsWithout(p: Shape, name: string) {
    p.WindowShape? && p.config.downscale.Some? && p.config.metric == name
  }

  ghost predicate AnyMisled(ps: seq<Shape>) {
    exists e :: 0 <= e < |ps| && ps[e].WindowShape? && Configured(ps[e].config) && Misled(ps[e].config)
  }

  /** Without samples of the metric a target policy is silent, and this policy is not. */
  ghost predicate Silences(ps: seq<Shape>, l: nat, name: string)
    requires l < |ps|
  {
    && !Reads(ps[l], name)
    && (exists t :: 0 <= t < |ps| && ps[t].TargetShape? && Reads(ps[t], name))
    && (forall i :: 0 <= i < |ps| ==> !HoldsWithout(ps[i], name))
  }

  ghost predicate LowersUnchecked(ps: seq<Shape>, l: nat)
    requires l < |ps|
  {
    CanLower(ps[l]) && (AnyMisled(ps) || exists name :: Silences(ps, l, name))
  }

  /** Some policy can lower the count while missing data keeps another from raising
      it: a window policy that can only raise it or is inverted, or a target policy with
      a metric that nothing else needs. */
  ghost predicate Exposed(ps: seq<Shape>) { exists l: nat :: l < |ps| && LowersUnchecked(ps, l) }
}
