/** The resolver loop: propagate, pick a package, choose a version, expand it. */
module Resolvers {
  import opened ClauseIndexes
  import opened Incompatibilities
  import opened Options
  import opened Picks
  import opened Pins
  import opened PartialSolutions
  import opened Problems
  import opened Propagation
  import opened Ranks
  import opened SolverInvariants
  import opened Solvers
  import opened SolverSteps
  import opened Terms
  import opened Trails

  datatype Resolution = Resolved(selection: Selection) | NoSolution | Diverged

  /** The dependency is unmet although its version was selected. */
  ghost predicate Broken(pr: Problem, sel: Selection, key: DependencyKey) {
    && KeyOk(pr, key) && key.package in sel && sel[key.package] == key.version
    && !Honours(sel, DependencyOf(pr, key))
  }

  /** Dependencies on packages with a smaller number, of versions that are told apart from every
      point beside them. */
  ghost predicate AllPinned(pr: Problem, keys: set<DependencyKey>) {
    forall key :: key in keys ==>
      && KeyOk(pr, key) && DependencyOf(pr, key).package < key.package
      && key.version in pr.Versions(key.package) && !HasTwin(pr, key.package, key.version)
  }

  /** Every dependency of a version that is told apart from all points beside it is on a package
      with a larger number. */
  ghost predicate PinsPointForward(pr: Problem) {
    forall p: PackageId, v: Version, i: nat ::
      v in pr.Versions(p) && i < |pr.Dependencies(p, v)| && !HasTwin(pr, p, v) ==> p < pr.Dependencies(p, v)[i].package
  }

  /** Where nothing is pinned that holds for every numbering. */
  lemma UnpinnedPointForward(pr: Problem)
    requires pr.WellFormed() && Unpinned(pr)
    ensures PinsPointForward(pr)
  {
    forall p: PackageId, v: Version, i: nat | v in pr.Versions(p) && i < |pr.Dependencies(p, v)| && !HasTwin(pr, p, v)
      ensures p < pr.Dependencies(p, v)[i].package
    {
      pr.DependencyFacts(p, v, i);
    }
  }

  lemma NothingMissed(pr: Problem, keys: set<DependencyKey>)
    requires pr.WellFormed() && AllPinned(pr, keys)
    ensures PinsPointForward(pr) ==> keys == {}
    ensures Unpinned(pr) ==> keys == {}
  {
    if Unpinned(pr) {
      UnpinnedPointForward(pr);
    }
    if PinsPointForward(pr) {
      forall key | KeyOk(pr, key) && key.version in pr.Versions(key.package) && !HasTwin(pr, key.package, key.version)
        ensures key.package < DependencyOf(pr, key).package
      {
        assert pr.Dependencies(key.package, key.version)[key.slot] == DependencyOf(pr, key);
      }
    }
  }

  /** The first version of the list that is in the range, and how many there are. */
  method ChooseVersion(versions: seq<Version>, range: VS) returns (chosen: Option<Version>, inRangeCount: nat)
    ensures chosen.None? <==> forall v :: v in versions ==> v !in range
    ensures chosen.Some? ==>
              exists i :: 0 <= i < |versions| && versions[i] == chosen.value && chosen.value in range &&
                forall j :: 0 <= j < i ==> versions[j] !in range
    ensures inRangeCount == |set i | 0 <= i < |versions| && versions[i] in range|
  {
    chosen, inRangeCount := None, 0;
    ghost var places: set<int> := {};
    for i := 0 to |versions|
      invariant places == set k | 0 <= k < i && versions[k] in range
      invariant inRangeCount == |places|
      invariant chosen.None? ==> forall j :: 0 <= j < i ==> versions[j] !in range
      invariant chosen.Some? ==>
                  exists k :: 0 <= k < i && versions[k] == chosen.value && chosen.value in range &&
                    forall j :: 0 <= j < k ==> versions[j] !in range
    {
      if versions[i] in range {
        places := places + {i};
        inRangeCount := inRangeCount + 1;
        if chosen.None? {
          chosen := Some(versions[i]);
        }
      }
    }
  }

  /** What is registered unwatched when a version is expanded. */
  lemma MissesOnlyPinned(pr: Problem, s: SolverView, p: PackageId, v: Version, keys: set<DependencyKey>)
    requires StateOk(pr, s) && p in s.trail.assignments && p != ROOT && Decidable(pr, s.trail, p, v)
             && (p, v) !in s.marked
    requires AllPinned(pr, keys)
    ensures AllPinned(pr, keys + MissedKeys(s.trail, p, v, pr.Dependencies(p, v), |pr.Dependencies(p, v)|))
  {
    if HasTwin(pr, p, v) {
      TwinLeft(pr, s.trail, s.index.store, s.marked, p, v);
    }
  }

  /** The root has the smallest number. */
  lemma RootMissesNothing(pr: Problem, t: Trail)
    ensures MissedKeys(t, ROOT, pr.rootVersion, pr.Dependencies(ROOT, pr.rootVersion),
            |pr.Dependencies(ROOT, pr.rootVersion)|) == {}
  {
  }

  /** The pick may be decided. */
  lemma PickDecidable(pr: Problem, s: SolverView, p: PackageId, range: VS, v: Version)
    requires StateOk(pr, s) && RootDecided(s.trail) && p in s.trail.assignments
    requires s.trail.assignments[p].state == Derivations(Positive(range))
    requires v in pr.Versions(p) && v in range
    ensures p != ROOT && Decidable(pr, s.trail, p, v) && p < pr.packages && v in pr.universe
  {
    RequiredInUniverse(pr, s, p, range);
  }

  lemma DecidedRoot(pr: Problem, s: SolverView)
    requires PropagationOk(pr, s, DONE)
    ensures RootDecided(s.trail) && Propagated(pr, s.trail, s.ids, s.unwatched, DONE)
  {
  }

  lemma InitialPropagation(pr: Problem, s: SolverView)
    requires StateOk(pr, s) && s.ids == map[] && s.trail == EMPTY.WithDecision(ROOT, pr.rootVersion)
    ensures PropagationOk(pr, s, Agenda({ROOT}, ROOT, {}))
    ensures s.trail.IsDecided(ROOT) && s.trail.assignments[ROOT].state.level == s.trail.level
  {
  }

  /** The final selection breaks no dependency but those registered without watching the
      depending package. */
  lemma FinalSelection(pr: Problem, s: SolverView, sel: Selection)
    requires PropagationOk(pr, s, DONE) && (ROOT, pr.rootVersion) in s.added
    requires Extracted(s.trail, sel) && NothingUndecided(s.trail)
    ensures forall key :: Broken(pr, sel, key) ==> key in s.unwatched
    ensures Solution(pr, sel) <==> forall key :: key in s.unwatched ==> !Broken(pr, sel, key)
  {
    FinalBroken(pr, s, sel);
    FinalRest(pr, s, sel);
    SolutionBreaksNothing(pr, sel);
  }

  lemma SolutionBreaksNothing(pr: Problem, sel: Selection)
    ensures Solution(pr, sel) ==> forall key :: !Broken(pr, sel, key)
  {
  }

  lemma FinalBroken(pr: Problem, s: SolverView, sel: Selection)
    requires PropagationOk(pr, s, DONE) && (ROOT, pr.rootVersion) in s.added
    requires Extracted(s.trail, sel) && NothingUndecided(s.trail)
    ensures forall key :: Broken(pr, sel, key) ==> key in s.unwatched
  {
    DecidedRoot(pr, s);
    forall key | Broken(pr, sel, key) ensures key in s.unwatched {
      OnlyUnwatchedMissed(pr, s.trail, s.ids, s.unwatched, s.added, sel, key);
    }
  }

  lemma FinalRest(pr: Problem, s: SolverView, sel: Selection)
    requires PropagationOk(pr, s, DONE) && Extracted(s.trail, sel)
    ensures (forall key :: !Broken(pr, sel, key)) ==> Solution(pr, sel)
  {
    hide PropagationOk, Extracted;
    SelectedExist(pr, s, sel);
    if forall key :: !Broken(pr, sel, key) {
      forall p, i: nat | p in sel && i < |pr.Dependencies(p, sel[p])|
        ensures Honours(sel, pr.Dependencies(p, sel[p])[i])
      {
        assert !Broken(pr, sel, DependencyKey(p, sel[p], i));
      }
    }
  }

  /** What the answer of a run says. */
  lemma FinalAnswer(pr: Problem, s: SolverView, sel: Selection)
    requires pr.WellFormed() && PropagationOk(pr, s, DONE) && (ROOT, pr.rootVersion) in s.added
    requires NothingUndecided(s.trail) && AllPinned(pr, s.unwatched)
    requires forall p :: p in sel <==> s.trail.IsDecided(p)
    requires forall p :: p in sel ==> s.trail.IsDecided(p) && sel[p] == s.trail.assignments[p].state.version
    ensures forall key :: Broken(pr, sel, key) ==> key in s.unwatched
    ensures Solution(pr, sel) <==> forall key :: key in s.unwatched ==> !Broken(pr, sel, key)
    ensures PinsPointForward(pr) || Unpinned(pr) ==> s.unwatched == {} && Solution(pr, sel)
  {
    hide PropagationOk, AllPinned, Broken, Solution, PinsPointForward, Unpinned, Extracted, NothingUndecided;
    SelectionExtracted(s.trail, sel);
    FinalSelection(pr, s, sel);
    NothingMissed(pr, s.unwatched);
  }

  lemma SelectedExist(pr: Problem, s: SolverView, sel: Selection)
    requires PropagationOk(pr, s, DONE) && Extracted(s.trail, sel)
    ensures ROOT in sel && sel[ROOT] == pr.rootVersion
    ensures forall p :: p in sel && p != ROOT ==> sel[p] in pr.Versions(p)
  {
    DecidedRoot(pr, s);
    assert s.trail.IsDecided(ROOT);
    forall p | p in sel && p != ROOT ensures sel[p] in pr.Versions(p) {
      assert s.trail.IsDecided(p);
    }
  }

  /** What holds between two rounds of the loop: the next package is to be propagated, and what
      was registered unwatched is pinned. */
  ghost predicate RoundOk(pr: Problem, solver: SolverState, next: PackageId)
    reads solver, solver.ps
  {
    && solver.pr == pr && solver.Inv()
    && PropagationOk(pr, solver.View(), Agenda({next}, ROOT, {}))
    && BookkeepingOk(solver.ids, solver.unwatched, solver.addedDeps) && solver.expanded == solver.addedDeps
    && (ROOT, pr.rootVersion) in solver.addedDeps
    && AllPinned(pr, solver.unwatched)
  }

  /** Choose a version for a package and expand it, or record that there is none. */
  method Expand(pr: Problem, solver: SolverState, p: PackageId, range: VS)
                returns (inRangeCount: nat, ghost stuck: Option<nat>)
    requires solver.pr == pr && solver.Inv() && PropagationOk(pr, solver.View(), DONE)
    requires BookkeepingOk(solver.ids, solver.unwatched, solver.addedDeps) && solver.expanded == solver.addedDeps
    requires (ROOT, pr.rootVersion) in solver.addedDeps && AllPinned(pr, solver.unwatched)
    requires p in solver.T().assignments && solver.T().assignments[p].state == Derivations(Positive(range))
    modifies solver`watches, solver`watched, solver`store, solver`learnedWatched, solver`ids, solver`unwatched,
      solver`addedDeps, solver`expanded, solver.ps
    ensures RoundOk(pr, solver, p)
    ensures stuck.Some? ==> InConflict(solver.View(), stuck.value) && solver.Ix().Watches(stuck.value, p)
    ensures if stuck.Some? then solver.T() == old(solver.T()) else Rank(pr, solver.T()) < Rank(pr, old(solver.T()))
  {
    hide StateOk, Propagated, PropagationOk, BookkeepingOk, MissedKeys, Rank, RootDecided, Decidable, AllPinned,
      InConflict, Problem.WellFormed;
    DecidedRoot(pr, solver.View());
    var versions := pr.Versions(p);
    var chosen;
    chosen, inRangeCount := ChooseVersion(versions, range);
    if chosen.None? {
      var id := solver.AddIncompatibilityForNoVersions(p, range);
      stuck := Some(id);
    } else {
      var v := chosen.value;
      PickDecidable(pr, solver.View(), p, range, v);
      if (p, v) !in solver.addedDeps {
        MissesOnlyPinned(pr, solver.View(), p, v, solver.unwatched);
      }
      ghost var before := solver.unwatched;
      assert before + {} == before;
      solver.AddDependencies(p, v, pr.Dependencies(p, v));
      stuck := None;
    }
  }

  /** Run the solver on a problem, for any activities of packages and any arrivals of version
      counts, hence for any order of picks.

      "No solution" is always right. A selection contains the root and only existing versions,
      and the only dependencies it can break are those in `unwatched`: dependencies that were
      registered when both of their terms were satisfied already, the package they point to
      having the smaller number. There are none of them where no dependency pins a version. The run
      comes to an end unless a package has contradictory requirements among others. */
  method RunSolver(pr: Problem, slack: nat, scores: (nat, PackageId) -> real, arrivals: nat -> map<PackageId, nat>)
    returns (r: Resolution, ghost unwatched: set<DependencyKey>)
    requires pr.WellFormed()
    ensures r.NoSolution? ==> Unsolvable(pr)
    ensures r.Diverged? ==> !pr.ContradictedAlone()
    ensures r.Resolved? ==> forall key :: Broken(pr, r.selection, key) ==> key in unwatched
    ensures r.Resolved? ==>
              (Solution(pr, r.selection) <==> forall key :: key in unwatched ==> !Broken(pr, r.selection, key))
    ensures AllPinned(pr, unwatched)
    ensures PinsPointForward(pr) || Unpinned(pr) ==> unwatched == {} && (r.Resolved? ==> Solution(pr, r.selection))
  {
    hide PinsPointForward, StateOk, Propagated, PropagationOk, BookkeepingOk, MissedKeys, Rank, Unsolvable,
      Problem.ContradictedAlone, RootDecided, Decidable, Broken, Solution, AllPinned, InConflict, NothingUndecided,
      Progress, Quiet, Problem.WellFormed, Unpinned, Priority;
    InUniverseRoot(pr);
    var solver := new SolverState(pr.rootVersion, pr);
    InitialPropagation(pr, solver.View());
    RootMissesNothing(pr, solver.T());
    solver.RegisterDependencies(ROOT, pr.rootVersion, pr.Dependencies(ROOT, pr.rootVersion), Agenda({ROOT}, ROOT, {}));
    var next, round := ROOT, 0;
    var counts: map<PackageId, nat> := map[];
    ghost var stuck: Option<nat> := None;
    RootRegistered(pr, solver.View());
    assert solver.unwatched == {};
    while true
      invariant fresh(solver) && fresh(solver.ps) && RoundOk(pr, solver, next)
      invariant stuck.Some? ==> InConflict(solver.View(), stuck.value) && solver.Ix().Watches(stuck.value, next)
      decreases Rank(pr, solver.T()), if stuck.Some? then 0 else 1
    {
      ghost var t := solver.T();
      var result := solver.UnitPropagation(next, slack, stuck);
      if !result.Ok? {
        NothingMissed(pr, solver.unwatched);
        return if result.NoSolution? then Resolution.NoSolution else Diverged, solver.unwatched;
      }
      ProgressCases(pr, t, solver.T());
      var undecided := solver.ps.FillUndecided();
      counts := NoteArrivals(undecided, arrivals(round), counts);
      var pick := solver.PickNextPackage(counts, (q: PackageId) => scores(round, q));
      if pick.None? {
        var sel := solver.ps.ExtractSolution();
        FinalAnswer(pr, solver.View(), sel);
        return Resolved(sel), solver.unwatched;
      }
      var (p, range) := pick.value;
      var inRangeCount;
      inRangeCount, stuck := Expand(pr, solver, p, range);
      counts, next, round := counts[p := inRangeCount], p, round + 1;
    }
  }

  /** What the comparison with brute force promises: where requirements pin no versions, and
      contradictory ones stand alone, a run decides whether there is a solution, and finds one. */
  method DecideSolvable(pr: Problem, slack: nat, scores: (nat, PackageId) -> real, arrivals: nat -> map<PackageId, nat>)
    returns (r: Resolution)
    requires pr.WellFormed() && pr.ContradictedAlone() && Unpinned(pr)
    ensures Unsolvable(pr) <==> r.NoSolution?
    ensures !Unsolvable(pr) ==> r.Resolved? && Solution(pr, r.selection)
  {
    ghost var unwatched;
    r, unwatched := RunSolver(pr, slack, scores, arrivals);
  }

  lemma InUniverseRoot(pr: Problem)
    requires pr.WellFormed()
    ensures pr.rootVersion in pr.universe && 0 < pr.packages
    ensures BookkeepingOk(map[], {}, {}) && AllPinned(pr, {})
  {
  }

  lemma RootRegistered(pr: Problem, s: SolverView)
    requires StateOk(pr, s) && s.trail == EMPTY.WithDecision(ROOT, pr.rootVersion)
    requires Propagated(pr, s.trail, s.ids, s.unwatched, Agenda({ROOT}, ROOT, {}))
    ensures PropagationOk(pr, s, Agenda({ROOT}, ROOT, {}))
  {
  }

  lemma SelectionExtracted(t: Trail, sel: Selection)
    requires forall p :: p in sel <==> t.IsDecided(p)
    requires forall p :: p in sel ==> t.IsDecided(p) && sel[p] == t.assignments[p].state.version
    ensures Extracted(t, sel)
  {
  }
}
