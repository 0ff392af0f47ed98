/** Runs of the solver as sequences of steps on the trail and the store, to exhibit particular
    ones. Which package is decided next is never open in them. */
module Runs {
  import opened Incompatibilities
  import opened Justifications
  import opened Options
  import opened Problems
  import opened Satisfiers
  import opened SolverInvariants
  import opened Terms
  import opened Trails

  datatype Config = Config(trail: Trail, store: Store)

  datatype Step =
    | Derive(package: PackageId, cause: nat)
    | Expand(package: PackageId, version: Version)
    | LackVersions(package: PackageId, range: VS)
    | Resolve(conflict: nat, info: SatisfierInfo)
    | Backjump(conflict: nat, info: SatisfierInfo)

  function Clauses(p: PackageId, v: Version, deps: seq<Dependency>): Store {
    seq(|deps|, i requires 0 <= i < |deps| => FromDependency(p, v, deps[i].package, deps[i].range))
  }

  function Start(pr: Problem): Config {
    Config(EMPTY.WithDecision(ROOT, pr.rootVersion),
           [NotRoot(ROOT, pr.rootVersion)] + Clauses(ROOT, pr.rootVersion, pr.Dependencies(ROOT, pr.rootVersion)))
  }

  /** Of no other package is a version required and not chosen yet. */
  ghost predicate OnlyChoice(t: Trail, p: PackageId, range: VS) {
    && p in t.assignments && t.assignments[p].state == Derivations(Positive(range))
    && forall q :: q in t.assignments && q != p ==>
         t.assignments[q].state.Decision? || t.assignments[q].state.term.Negative?
  }

  ghost predicate FirstInRange(versions: seq<Version>, range: VS, v: Version) {
    exists i :: 0 <= i < |versions| && versions[i] == v && v in range && forall j :: 0 <= j < i ==>
        versions[j] !in range
  }

  ghost predicate ConflictOf(c: Config, id: nat, info: SatisfierInfo) {
    && 1 <= id < |c.store| && AllSatisfied(c.trail, c.store[id].terms) && !c.store[id].IsTerminal(ROOT)
    && IsLatest(c.trail, c.store[id].terms, info)
  }

  /** The solver takes the step: no other version would be chosen, no other package decided. */
  ghost predicate Legal(pr: Problem, c: Config, step: Step) {
    match step
    case Derive(p, id) => Unit(c.trail, c.store, id, p)
    case Expand(p, v) =>
      Decidable(pr, c.trail, p, v) &&
      exists range :: OnlyChoice(c.trail, p, range) && FirstInRange(pr.Versions(p), range, v)
    case LackVersions(p, range) => OnlyChoice(c.trail, p, range) && forall v :: v in pr.Versions(p) ==> v !in range
    case Resolve(id, info) => ConflictOf(c, id, info) && !info.isDecision && info.cause.Some?
        && info.cause.value < |c.store|
    case Backjump(id, info) =>
      ConflictOf(c, id, info) && IsPrevious(c.trail, c.store[id].terms, info) && info.isDecision
          && info.previous < info.level
  }

  function Learned(store: Store, id: nat, info: SatisfierInfo): Incompatibility
    requires id < |store| && info.cause.Some? && info.cause.value < |store|
  {
    Incompatibility(PriorTerms(store[id].terms, store[info.cause.value].terms, info.package),
        Derived(id, info.cause.value))
  }

  /** A backjump derives for the returned package, and decides the root again if it is gone. */
  function After(pr: Problem, c: Config, step: Step): Config
    requires Legal(pr, c, step)
  {
    match step
    case Derive(p, id) => c.(trail := Narrowed(c.trail, c.store, p, id))
    case Expand(p, v) => Config(c.trail.WithDecision(p, v), c.store + Clauses(p, v, pr.Dependencies(p, v)))
    case LackVersions(p, range) => c.(store := c.store + [NoVersions(p, range)])
    case Resolve(id, info) => c.(store := c.store + [Learned(c.store, id, info)])
    case Backjump(id, info) =>
      var t := Narrowed(c.trail.Rewound(info.previous), c.store, info.package, id);
      c.(trail := if ROOT in t.assignments then t else t.WithDecision(ROOT, pr.rootVersion))
  }

  /** A run from the start, on which every version is expanded at most once. */
  ghost predicate IsRun(pr: Problem, configs: nat -> Config, steps: seq<Step>) {
    && configs(0) == Start(pr)
    && (forall n :: 0 <= n < |steps| ==>
          Legal(pr, configs(n), steps[n]) && configs(n + 1) == After(pr, configs(n), steps[n]))
    && forall m, n :: 0 <= m < n < |steps| && steps[m].Expand? ==> steps[m] != steps[n]
  }
}
