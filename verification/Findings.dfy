/** Inputs on which the resolver does not do what it promises, and the exact conditions. */
module Findings {
  import opened ClauseIndexes
  import opened Incompatibilities
  import opened Justifications
  import opened Options
  import opened Problems
  import opened Propagation
  import opened Resolvers
  import opened Runs
  import opened Satisfiers
  import opened SolverInvariants
  import opened SolverSteps
  import opened Terms
  import opened Trails
  import opened TrailUpdates

  // -- A dependency that is not looked at ------------------------------------------------

  /** Expanding a version leaves a conflict behind that is not among the watchers of the decided
      package if and only if, at registration, the version was the only one left for its package,
      the dependency was already excluded, and it has the smaller number. Then only the dependency
      watches the conflict: the propagation comes to it only if it derives for the dependency. */
  lemma ExpansionLeavesConflict(t: Trail, p: PackageId, v: Version, d: Dependency, a: PackageId, b: PackageId)
    requires TrailOk(t) && !t.IsDecided(p) && t.TermFor(p).Admits(Selected(v)) && p != d.package
    requires Picked(t, FromDependency(p, v, d.package, d.range).terms, a, b)
    ensures AllSatisfied(t.WithDecision(p, v), FromDependency(p, v, d.package, d.range).terms) && p != a && p != b
            <==> MissesDepender(t, p, v, d)
    ensures MissesDepender(t, p, v, d) ==> a == d.package && b == d.package
  {
    hide Picked, TrailOk;
    PickedDependency(t, p, v, d, a, b);
    PickedAmong(t, FromDependency(p, v, d.package, d.range).terms, a, b);
    var terms := FromDependency(p, v, d.package, d.range).terms;
    assert terms.Keys == {p, d.package};
    var t' := t.WithDecision(p, v);
    assert t'.TermFor(p) == Positive({v}) && t'.TermFor(d.package) == t.TermFor(d.package);
  }

  /** The trail after derivations from stored incompatibilities, in order. */
  function Propagations(t: Trail, store: Store, derived: seq<(PackageId, nat)>): Trail
    requires forall i :: 0 <= i < |derived| ==> derived[i].1 < |store| && derived[i].0 in store[derived[i].1].terms
  {
    if derived == [] then t
    else
      var last := |derived| - 1;
      Narrowed(Propagations(t, store, derived[..last]), store, derived[last].0, derived[last].1)
  }

  /** Whatever is derived afterwards, the conflict stays. */
  lemma {:induction false} ConflictStays(t: Trail, store: Store, derived: seq<(PackageId, nat)>, terms: PackageTerms)
    requires forall i :: 0 <= i < |derived| ==> derived[i].1 < |store| && derived[i].0 in store[derived[i].1].terms
    requires AllSatisfied(t, terms)
    ensures AllSatisfied(Propagations(t, store, derived), terms)
  {
    if derived != [] {
      var last := |derived| - 1;
      ConflictStays(t, store, derived[..last], terms);
      NarrowedStays(Propagations(t, store, derived[..last]), store, derived[last].0, derived[last].1, terms);
    }
  }

  lemma NarrowedStays(t: Trail, store: Store, p: PackageId, cause: nat, terms: PackageTerms)
    requires cause < |store| && p in store[cause].terms && AllSatisfied(t, terms)
    ensures AllSatisfied(Narrowed(t, store, p, cause), terms)
  {
    var t' := Narrowed(t, store, p, cause);
    forall q | q in terms ensures t'.TermFor(q).SubsetOf(terms[q]) {
      assert t.TermFor(q).SubsetOf(terms[q]);
    }
  }

  /** The project requires version 1 of the first package, which requires version 1 of the
      second, which requires version 2 of the first. */
  const PINNED: Problem := Problem(
    3, {0, 1, 2}, 0,
    map[1 := [1], 2 := [1]],
    map[(ROOT, 0) := [Dependency(1, {1})], (1, 1) := [Dependency(2, {1})], (2, 1) := [Dependency(1, {2})]])

  const PINNED_STORE: Store := [
    NotRoot(ROOT, 0), FromDependency(ROOT, 0, 1, {1}), FromDependency(1, 1, 2, {1}), FromDependency(2, 1, 1, {2})]

  const PINNED_STEPS: seq<Step> := [Derive(1, 1), Expand(1, 1), Derive(2, 2), Expand(2, 1)]

  function PinnedTrail(n: nat): Trail {
    if n == 0 then EMPTY.WithDecision(ROOT, 0)
    else if n == 1 then PinnedTrail(0).WithDerivation(1, 1, Positive({1}))
    else if n == 2 then PinnedTrail(1).WithDecision(1, 1)
    else if n == 3 then PinnedTrail(2).WithDerivation(2, 2, Positive({1}))
    else PinnedTrail(3).WithDecision(2, 1)
  }

  function PinnedConfig(n: nat): Config {
    Config(PinnedTrail(n), if n < 2 then PINNED_STORE[..2] else if n < 4 then PINNED_STORE[..3] else PINNED_STORE)
  }

  lemma PinnedTerms()
    ensures PinnedTrail(0).assignments.Keys == {ROOT} && PinnedTrail(0).TermFor(ROOT) == Positive({0})
    ensures PinnedTrail(1).assignments.Keys == {ROOT, 1}
            && PinnedTrail(1).assignments[1].state == Derivations(Positive({1}))
    ensures PinnedTrail(2).assignments.Keys == {ROOT, 1} && PinnedTrail(2).TermFor(1) == Positive({1})
    ensures PinnedTrail(3).assignments.Keys == {ROOT, 1, 2}
            && PinnedTrail(3).assignments[2].state == Derivations(Positive({1}))
    ensures PinnedTrail(4).assignments.Keys == {ROOT, 1, 2}
    ensures forall n :: 0 <= n <= 4 ==>
              PinnedTrail(n).IsDecided(ROOT) && PinnedTrail(n).assignments[ROOT].state.version == 0
    ensures forall n :: 2 <= n <= 4 ==> PinnedTrail(n).IsDecided(1) && PinnedTrail(n).assignments[1].state.version == 1
    ensures PinnedTrail(4).IsDecided(2) && PinnedTrail(4).assignments[2].state.version == 1
  {
  }

  const PINNED_SELECTION: Selection := map[ROOT := 0, 1 := 1, 2 := 1]

  lemma PinnedStart()
    ensures PINNED.WellFormed() && PinnedConfig(0) == Start(PINNED)
  {
    assert Clauses(ROOT, 0, PINNED.Dependencies(ROOT, 0)) == [PINNED_STORE[1]];
  }

  lemma PinnedDerivations()
    ensures Legal(PINNED, PinnedConfig(0), Derive(1, 1))
            && PinnedConfig(1) == After(PINNED, PinnedConfig(0), Derive(1, 1))
    ensures Legal(PINNED, PinnedConfig(2), Derive(2, 2))
            && PinnedConfig(3) == After(PINNED, PinnedConfig(2), Derive(2, 2))
  {
    PinnedTerms();
  }

  lemma PinnedExpansions()
    ensures Legal(PINNED, PinnedConfig(1), Expand(1, 1))
            && PinnedConfig(2) == After(PINNED, PinnedConfig(1), Expand(1, 1))
    ensures Legal(PINNED, PinnedConfig(3), Expand(2, 1))
            && PinnedConfig(4) == After(PINNED, PinnedConfig(3), Expand(2, 1))
  {
    PinnedTerms();
    assert OnlyChoice(PinnedTrail(1), 1, {1}) && FirstInRange(PINNED.Versions(1), {1}, 1) by {
      assert PINNED.Versions(1)[0] == 1;
    }
    assert OnlyChoice(PinnedTrail(3), 2, {1}) && FirstInRange(PINNED.Versions(2), {1}, 1) by {
      assert PINNED.Versions(2)[0] == 1;
    }
    assert Clauses(1, 1, PINNED.Dependencies(1, 1)) == [PINNED_STORE[2]];
    assert Clauses(2, 1, PINNED.Dependencies(2, 1)) == [PINNED_STORE[3]];
    assert PINNED_STORE[..2] + [PINNED_STORE[2]] == PINNED_STORE[..3]
        && PINNED_STORE[..3] + [PINNED_STORE[3]] == PINNED_STORE;
  }

  /** The run, on which every pick is forced. */
  lemma PinnedSteps()
    ensures PINNED.WellFormed() && IsRun(PINNED, PinnedConfig, PINNED_STEPS)
  {
    hide PinnedConfig, Legal, After;
    PinnedStart();
    PinnedDerivations();
    PinnedExpansions();
    forall n | 0 <= n < |PINNED_STEPS|
      ensures Legal(PINNED, PinnedConfig(n), PINNED_STEPS[n])
      ensures PinnedConfig(n + 1) == After(PINNED, PinnedConfig(n), PINNED_STEPS[n])
    {
      assert n == 0 || n == 1 || n == 2 || n == 3;
    }
  }

  /** The watch lists: each incompatibility as it was registered. */
  function PinnedIndex(): ClauseIndex {
    EMPTY_INDEX.Pushed(PINNED_STORE[0], ROOT, ROOT).Pushed(PINNED_STORE[1], 1, ROOT).Pushed(PINNED_STORE[2], 2, 1)
      .Pushed(PINNED_STORE[3], 1, 1)
  }

  lemma PinnedWatches()
    ensures Picked(PinnedTrail(0), PINNED_STORE[1].terms, 1, ROOT)
    ensures Picked(PinnedTrail(1), PINNED_STORE[2].terms, 2, 1)
    ensures Picked(PinnedTrail(3), PINNED_STORE[3].terms, 1, 1)
  {
    hide PinnedTrail;
    PinnedTerms();
    PickedOpen(PinnedTrail(0), PINNED_STORE[1].terms, 1, ROOT);
    PickedOpen(PinnedTrail(1), PINNED_STORE[2].terms, 2, 1);
    PickedSmallest(PinnedTrail(3), PINNED_STORE[3].terms, 1, 2);
  }

  lemma PickedOpen(t: Trail, terms: PackageTerms, a: PackageId, b: PackageId)
    requires a != b && terms.Keys == {a, b} && IsOpen(t, terms, a) && !IsOpen(t, terms, b)
    ensures Picked(t, terms, a, b)
  {
  }

  lemma PickedSmallest(t: Trail, terms: PackageTerms, a: PackageId, b: PackageId)
    requires a < b && terms.Keys == {a, b} && !IsOpen(t, terms, a) && !IsOpen(t, terms, b)
    ensures Picked(t, terms, a, a)
  {
  }

  lemma PinnedLists()
    ensures PinnedIndex().store == PINNED_STORE && ListOf(PinnedIndex().watches, 2) == [2]
    ensures PinnedIndex().Watches(1, 1) && PinnedIndex().Watches(2, 2)
  {
    hide FromDependency;
  }

  lemma PinnedClauses()
    ensures PINNED_STORE[0].terms == map[ROOT := Negative({0})]
    ensures PINNED_STORE[1].terms == map[ROOT := Positive({0}), 1 := Negative({1})]
    ensures PINNED_STORE[2].terms == map[1 := Positive({1}), 2 := Negative({1})]
    ensures PINNED_STORE[3].terms == map[2 := Positive({1}), 1 := Negative({2})]
  {
  }

  /** No watch moves on the way: nowhere are two terms of an incompatibility open, which is when
      refreshing moves watches, and the causes of both derivations watch the derived package. */
  lemma PinnedUnmoved(n: nat, id: nat)
    requires n <= |PINNED_STEPS| && id < |PinnedConfig(n).store|
    ensures !TwoOpen(PinnedConfig(n).trail, PinnedConfig(n).store[id].terms)
    ensures n < |PINNED_STEPS| && PINNED_STEPS[n].Derive? ==>
              PinnedIndex().Watches(PINNED_STEPS[n].cause, PINNED_STEPS[n].package)
  {
    hide PinnedTrail, PinnedIndex, FromDependency, TwoOpen;
    PinnedLists();
    PinnedClauses();
    assert n == 0 || n == 1 || n == 2 || n == 3 || n == 4;
    if id == 0 {
      OnlyOpen(PinnedTrail(n), PINNED_STORE[id].terms, ROOT);
    } else if id == 1 {
      PinnedRootOpen(n);
    } else if id == 2 {
      PinnedDecidedOpen(n);
    } else {
      PinnedLastOpen(n);
    }
  }

  lemma OnlyOpen(t: Trail, terms: PackageTerms, p: PackageId)
    requires forall q :: q in terms && q != p ==> !IsOpen(t, terms, q)
    ensures !TwoOpen(t, terms)
  {
  }

  lemma PinnedRootOpen(n: nat)
    requires n <= 4
    ensures !TwoOpen(PinnedTrail(n), PINNED_STORE[1].terms)
  {
    hide PinnedTrail, FromDependency;
    PinnedTerms();
    PinnedClauses();
    OnlyOpen(PinnedTrail(n), PINNED_STORE[1].terms, 1);
  }

  lemma PinnedDecidedOpen(n: nat)
    requires 2 <= n <= 4
    ensures !TwoOpen(PinnedTrail(n), PINNED_STORE[2].terms)
  {
    hide PinnedTrail, FromDependency;
    PinnedTerms();
    PinnedClauses();
    OnlyOpen(PinnedTrail(n), PINNED_STORE[2].terms, 2);
  }

  lemma PinnedLastOpen(n: nat)
    requires n == 4
    ensures !TwoOpen(PinnedTrail(n), PINNED_STORE[3].terms)
  {
    hide PinnedTrail, FromDependency;
    PinnedTerms();
    PinnedClauses();
    OnlyOpen(PinnedTrail(4), PINNED_STORE[3].terms, 1);
  }

  /** After the last decision, the propagation of its package has one incompatibility to visit,
      and that is quiet; the one that is in conflict is not visited. */
  lemma PinnedPropagation()
    ensures AllSatisfied(PinnedTrail(4), PINNED_STORE[3].terms)
    ensures MissesDepender(PinnedTrail(3), 2, 1, Dependency(1, {2}))
    ensures Quiet(PinnedTrail(4), PINNED_STORE, ListOf(PinnedIndex().watches, 2), |ListOf(PinnedIndex().watches, 2)|)
  {
    hide PinnedIndex, ListOf;
    PinnedTerms();
    PinnedLists();
    assert PinnedTrail(4).TermFor(2).RelationWith(PINNED_STORE[2].terms[2]).Contradicted?;
    assert NotUnit(PinnedTrail(4), PINNED_STORE[2].terms);
  }

  /** The problem has no solution, but the run has nothing left to decide and reports one. */
  lemma PinnedOutcome()
    ensures Unsolvable(PINNED)
    ensures NothingUndecided(PinnedTrail(4)) && Extracted(PinnedTrail(4), PINNED_SELECTION)
    ensures Broken(PINNED, PINNED_SELECTION, DependencyKey(2, 1, 0))
  {
    PinnedTerms();
    forall sel: Selection ensures !Solution(PINNED, sel) {
      PinnedRequires(sel);
      PinnedRequiresMore(sel);
    }
  }

  lemma PinnedRequires(sel: Selection)
    ensures Solution(PINNED, sel) ==> 1 in sel && sel[1] == 1
    ensures Consistent(PINNED, sel) && 1 in sel && sel[1] == 1 ==> 2 in sel && sel[2] == 1
  {
    if Solution(PINNED, sel) {
      var deps := PINNED.Dependencies(ROOT, sel[ROOT]);
      assert Honours(sel, deps[0]) && deps[0] == Dependency(1, {1});
    }
    if Consistent(PINNED, sel) && 1 in sel && sel[1] == 1 {
      var deps := PINNED.Dependencies(1, sel[1]);
      assert Honours(sel, deps[0]) && deps[0] == Dependency(2, {1});
    }
  }

  lemma PinnedRequiresMore(sel: Selection)
    ensures Consistent(PINNED, sel) && 2 in sel && sel[2] == 1 ==> 1 in sel && sel[1] == 2
  {
    if Consistent(PINNED, sel) && 2 in sel && sel[2] == 1 {
      var deps := PINNED.Dependencies(2, sel[2]);
      assert Honours(sel, deps[0]) && deps[0] == Dependency(1, {2});
    }
  }
}
