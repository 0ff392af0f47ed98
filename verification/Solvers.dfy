/** The solver state and its operations: the watch index, unit propagation and conflict
    resolution, all updating the state in place. */
module Solvers {
  import opened Backtracking
  import opened ClauseIndexes
  import opened Incompatibilities
  import opened Justifications
  import opened Options
  import opened Ordered
  import opened PartialSolutions
  import opened Picks
  import opened Pins
  import opened Problems
  import opened Propagation
  import opened Ranks
  import opened Satisfiers
  import opened SolverInvariants
  import opened SolverSteps
  import opened Terms
  import opened Trails
  import opened TrailUpdates

  datatype IncompatRelation = Satisfied | AlmostSatisfied(package: PackageId) | Contradicted | Inconclusive

  /** How a conflict ends: with a backjump after which `rootCause` is unit on `package`, with
      the report that there is no solution, or with more resolution steps than there are
      assignments plus the allowance of the caller. */
  datatype ConflictOutcome = Backtracked(package: PackageId, rootCause: nat) | NoSolution | Diverges

  /** The result of unit propagation, and of a whole run up to the selection. */
  datatype PropagationResult = Ok | NoSolution | Diverges

  class SolverState {
    ghost const pr: Problem
    const rootVersion: Version
    const ps: PartialSolution
    var watches: WatchLists
    var watched: seq<(PackageId, PackageId)>
    var store: Store
    var learnedWatched: seq<nat>
    var addedDeps: set<(PackageId, Version)>
    // the proof's records: registered dependencies, those registered without watching the
    // depending package, and the versions that are expanded completely
    ghost var ids: DependencyIds
    ghost var unwatched: set<DependencyKey>
    ghost var expanded: set<(PackageId, Version)>

    ghost function Ix(): ClauseIndex
      reads this
    {
      ClauseIndex(store, watches, watched, learnedWatched)
    }

    ghost function T(): Trail
      reads ps
    {
      ps.View()
    }

    ghost function View(): SolverView
      reads this, ps
    {
      SolverView(T(), Ix(), ids, unwatched, expanded, addedDeps)
    }

    ghost predicate Inv()
      reads this, ps
    {
      pr.rootVersion == rootVersion && StateOk(pr, View())
    }

    /** The root is decided before anything is propagated. */
    constructor (rootVersion: Version, ghost problem: Problem)
      requires problem.WellFormed() && problem.rootVersion == rootVersion
      ensures fresh(ps) && pr == problem && Inv()
      ensures T() == EMPTY.WithDecision(ROOT, rootVersion)
      ensures store == [NotRoot(ROOT, rootVersion)] && ids == map[] && unwatched == {} && addedDeps == {}
              && expanded == {}
    {
      this.rootVersion := rootVersion;
      pr := problem;
      ps := new PartialSolution();
      watches, watched, store, learnedWatched := map[], [], [], [];
      addedDeps, expanded, ids, unwatched := {}, {}, map[], {};
      new;
      hide StateOk, IndexOk, Problem.WellFormed, ClauseIndex.Pushed, ClauseIndex.Live;
      RegisterNotRoot();
      ghost var ix := Ix();
      InitialOk(pr, NotRoot(ROOT, rootVersion), ix);
      ps.AddDecision(ROOT, rootVersion);
      assert View() == SolverView(EMPTY.WithDecision(ROOT, rootVersion), ix, map[], {}, {}, {});
    }

    method RegisterNotRoot()
      requires Ix() == EMPTY_INDEX
      modifies this`watches, this`watched, this`store, this`learnedWatched
      ensures IndexOk(Ix()) && |learnedWatched| <= MAX_LEARNED_WATCHED && store == [NotRoot(ROOT, rootVersion)]
    {
      hide Picked, Collected, IndexOk, ClauseIndex.Pushed, ClauseIndex.Live;
      EmptyIndexOk();
      var notRoot := NotRoot(ROOT, rootVersion);
      assert ROOT in notRoot.terms;
      var id := Register(notRoot);
    }

    // -- The watch index -----------------------------------------------------------------

    method AddWatch(p: PackageId, id: nat)
      modifies this`watches
      ensures watches == AddedWatch(old(watches), p, id)
    {
      var list := if p in watches then watches[p] else [];
      watches := watches[p := list + [id]];
    }

    method RemoveWatch(p: PackageId, id: nat)
      modifies this`watches
      ensures watches == RemovedWatch(old(watches), p, id)
    {
      if p in watches {
        var list := watches[p];
        var pos := 0;
        while pos < |list| && list[pos] != id
          invariant pos <= |list|
          invariant Position(list, id) == pos + Position(list[pos..], id)
        {
          pos := pos + 1;
        }
        assert list[pos..] == [] || list[pos..][0] == id;
        if pos < |list| {
          watches := watches[p := list[pos := list[|list| - 1]][..|list| - 1]];
        }
      }
    }

    method SetWatches(id: nat, a: PackageId, b: PackageId)
      requires id < |watched|
      modifies this`watches, this`watched
      ensures Ix() == old(Ix()).Rewatched(id, a, b)
    {
      var (oldA, oldB) := watched[id];
      if (oldA, oldB) == (a, b) || (oldA, oldB) == (b, a) {
        return;
      }
      RemoveWatch(oldA, id);
      if oldB != oldA {
        RemoveWatch(oldB, id);
      }
      AddWatch(a, id);
      if b != a {
        AddWatch(b, id);
      }
      watched := watched[id := (a, b)];
    }

    /** Up to two open terms, in the order of the packages. */
    method TwoUnsatisfied(terms: PackageTerms, keys: seq<PackageId>) returns (open: seq<PackageId>)
      requires forall q :: q in keys <==> q in terms
      requires forall i, j :: 0 <= i < j < |keys| ==> keys[i] < keys[j]
      ensures |open| <= 2 && forall q :: q in open ==> q in terms && IsOpen(T(), terms, q)
      ensures |open| == 2 ==> open[0] < open[1]
      ensures |open| == 2 ==> forall q :: q in terms && IsOpen(T(), terms, q) ==> q == open[0] || open[1] <= q
      ensures |open| < 2 ==> forall q :: q in terms && IsOpen(T(), terms, q) ==> q in open
    {
      hide OpenSoFar, IsOpen;
      open := [];
      var i := 0;
      NoneSoFar(T(), terms, keys);
      while i < |keys| && |open| < 2
        invariant i <= |keys| && |open| <= 2 && OpenSoFar(T(), terms, keys, i, open)
      {
        OpenNext(T(), terms, keys, i, open);
        OpenByRelation(T(), terms, keys[i]);
        if ps.TermFor(keys[i]).RelationWith(terms[keys[i]]) != Relation.Satisfied {
          open := open + [keys[i]];
        }
        i := i + 1;
      }
      OpenEnd(T(), terms, keys, i, open);
    }

    method PickInitialWatches(terms: PackageTerms) returns (a: PackageId, b: PackageId)
      requires terms != map[]
      ensures Picked(T(), terms, a, b)
    {
      var keys := AscendingKeys(terms);
      var open := TwoUnsatisfied(terms, keys);
      if |open| == 2 {
        a, b := open[0], open[1];
      } else if |open| == 1 {
        a := open[0];
        b := OtherKey(terms, keys, a);
        assert forall q :: q in terms && q != a ==> q !in open;
      } else {
        a, b := keys[0], keys[0];
      }
    }

    method ForgetOldest()
      requires 0 < |learnedWatched| && learnedWatched[0] < |watched|
      modifies this`watches, this`learnedWatched
      ensures Ix() == old(Ix()).Forgot()
    {
      var id := learnedWatched[0];
      learnedWatched := learnedWatched[1..];
      var (a, b) := watched[id];
      RemoveWatch(a, id);
      if b != a {
        RemoveWatch(b, id);
      }
    }

    /** Forget the oldest learned incompatibilities above the cap. */
    method GcLearnedWatches()
      requires IndexOk(Ix())
      modifies this`watches, this`learnedWatched
      ensures Ix() == Collected(old(Ix()))
    {
      hide IndexOk;
      while |learnedWatched| > MAX_LEARNED_WATCHED
        invariant IndexOk(Ix()) && Collected(Ix()) == Collected(old(Ix()))
        invariant store == old(store) && watched == old(watched)
        decreases |learnedWatched|
      {
        ForgotOk(Ix());
        ForgetOldest();
      }
    }

    method Register(inc: Incompatibility) returns (id: nat)
      requires IndexOk(Ix()) && |learnedWatched| <= MAX_LEARNED_WATCHED && inc.terms != map[]
      modifies this`watches, this`watched, this`store, this`learnedWatched
      ensures id == |old(store)| < |watched| && Picked(T(), inc.terms, watched[id].0, watched[id].1)
      ensures IndexOk(old(Ix()).Pushed(inc, watched[id].0, watched[id].1))
      ensures Ix() == Collected(old(Ix()).Pushed(inc, watched[id].0, watched[id].1))
      ensures store == old(store) + [inc] && watched[..id] == old(watched)
      ensures Ix().Live(id) && IndexOk(Ix()) && |learnedWatched| <= MAX_LEARNED_WATCHED
    {
      hide IndexOk, Picked;
      IndexLengths(Ix());
      id := |store|;
      var a, b := PickInitialWatches(inc.terms);
      PickedAmong(T(), inc.terms, a, b);
      ghost var ix := Ix();
      PushedOk(ix, inc, a, b);
      watched := watched + [(a, b)];
      AddWatch(a, id);
      if b != a {
        AddWatch(b, id);
      }
      store := store + [inc];
      if inc.kind.Derived? {
        learnedWatched := learnedWatched + [id];
      }
      assert Ix() == ix.Pushed(inc, a, b);
      CollectedKeeps(Ix());
      CollectedForgetsOldLearned(Ix(), id);
      if inc.kind.Derived? {
        GcLearnedWatches();
      }
    }

    /** Register an incompatibility that follows from the facts, keeping the invariant. */
    method Learn(inc: Incompatibility) returns (id: nat)
      requires Inv() && ClauseOk(pr, inc.terms) && TermsAlike(pr, inc.terms, addedDeps)
      modifies this`watches, this`watched, this`store, this`learnedWatched
      ensures Inv() && Ix().Live(id)
      ensures id == |old(store)| < |watched| && store == old(store) + [inc] && watched[..id] == old(watched)
      ensures Picked(T(), inc.terms, watched[id].0, watched[id].1)
    {
      ghost var s := View();
      ClauseNotEmpty(pr, inc.terms);
      IndexOfState(pr, s);
      assert |learnedWatched| <= MAX_LEARNED_WATCHED;
      hide StateOk, ClauseOk, TermsAlike, IndexOk, StoreOk, AllRegistered, TrailOk, Collected;
      id := Register(inc);
      LearnedOk(pr, s, inc, watched[id].0, watched[id].1);
      assert View() == s.(index := Ix());
    }

    /** Point both watches of an incompatibility at two of its packages. */
    method MoveWatches(id: nat, a: PackageId, b: PackageId)
      requires Inv() && Ix().Live(id) && a in store[id].terms && b in store[id].terms && a != b
      modifies this`watches, this`watched
      ensures Inv() && Ix().Watches(id, a) && Ix().Watches(id, b)
      ensures OnlyMoved(old(watched), watched, id)
    {
      hide StateOk;
      ghost var s := View();
      MovedOk(pr, s, id, a, b);
      SetWatches(id, a, b);
      assert View() == s.(index := s.index.Rewatched(id, a, b));
    }

    /** Point both watches at open terms, if there are two. */
    method RefreshWatches(id: nat)
      requires Inv() && Ix().Live(id)
      modifies this`watches, this`watched
      ensures Inv()
      ensures OnlyMoved(old(watched), watched, id)
      ensures TwoOpen(T(), store[id].terms) ==> WatchesOpen(T(), Ix(), id)
      ensures TwoOpen(T(), store[id].terms) ==> OpenAfterWatches(T(), Ix(), id)
      ensures !TwoOpen(T(), store[id].terms) ==> watched == old(watched) && watches == old(watches)
    {
      hide StateOk;
      var keys := AscendingKeys(store[id].terms);
      var open := TwoUnsatisfied(store[id].terms, keys);
      if |open| == 2 {
        MoveWatches(id, open[0], open[1]);
      }
    }

    method EnsureWatched(id: nat, p: PackageId)
      requires Inv() && Ix().Live(id) && p in store[id].terms
      modifies this`watches, this`watched
      ensures Inv() && Ix().Watches(id, p)
      ensures OnlyMoved(old(watched), watched, id)
      ensures Ix().Watches(id, old(watched)[id].0)
      ensures old(Ix()).Watches(id, p) ==> watched == old(watched) && watches == old(watches)
    {
      hide StateOk, IndexOk, StoreOk, AllRegistered, TrailOk;
      IndexOfState(pr, View());
      var (a, b) := watched[id];
      assert a in store[id].terms;
      if a == p || b == p {
        return;
      }
      MoveWatches(id, p, a);
    }

    // -- Conflict resolution -------------------------------------------------------------

    method PriorCauseFromStore(a: nat, b: nat, pivot: PackageId) returns (prior: Incompatibility)
      requires a < |store| && b < |store|
      ensures prior == Incompatibility(PriorTerms(store[a].terms, store[b].terms, pivot), Derived(a, b))
    {
      var terms := PriorCause(store[a], store[b], pivot);
      prior := Incompatibility(terms, Derived(a, b));
    }

    method Resolve(current: nat, info: SatisfierInfo, ghost bound: nat) returns (next: nat)
      requires Inv() && 1 <= current && InConflict(View(), current) && 0 < bound
      requires IsLatest(T(), store[current].terms, info) && info.cause.Some?
      requires pr.ContradictedAlone() ==> SatisfiersBelow(T(), store[current].terms, bound)
      modifies this`watches, this`watched, this`store, this`learnedWatched
      ensures Inv() && InConflict(View(), next)
      ensures pr.ContradictedAlone() ==> SatisfiersBelow(T(), store[next].terms, bound - 1)
    {
      hide StateOk, IsLatest, SatisfiersBelow, Picked, ClauseOk, TermsAlike, PriorTerms, Problem.ContradictedAlone;
      ResolveStep(pr, View(), current, info, bound);
      var prior := PriorCauseFromStore(current, info.cause.value, info.package);
      next := Learn(prior);
    }

    method BackOut(current: nat, info: SatisfierInfo)
      requires Inv() && 1 <= current && InConflict(View(), current)
      requires IsLatest(T(), store[current].terms, info) && IsPrevious(T(), store[current].terms, info)
      requires info.isDecision || info.cause.None?
      modifies ps
      ensures Inv() && info.previous < old(T()).level && T() == old(T()).Rewound(info.previous)
      ensures Unit(T(), store, current, info.package)
    {
      hide StateOk, IsLatest, IsPrevious, Unit;
      ghost var s := View();
      BackjumpStep(pr, s, current, info);
      ps.Backtrack(info.previous);
      assert View() == s.(trail := s.trail.Rewound(info.previous));
    }

    /** Resolve the conflict with the causes of its latest satisfiers until the latest one is
        a decision, and back up to where everything else was already satisfied. The two other
        exits of the loop cannot be taken: a satisfier is a decision or has a cause, and a
        decision is above everything else. */
    method ConflictResolution(incompatId: nat, slack: nat) returns (outcome: ConflictOutcome)
      requires Inv() && RootOk(pr, T()) && InConflict(View(), incompatId)
      modifies this`watches, this`watched, this`store, this`learnedWatched, ps
      ensures Inv()
      ensures outcome.NoSolution? ==> Unsolvable(pr)
      ensures outcome.Diverges? ==> !pr.ContradictedAlone()
      ensures outcome.Backtracked? ==>
                && T().level < old(T()).level && T() == old(T()).Rewound(T().level)
                && Ix().Live(outcome.rootCause) && Unit(T(), store, outcome.rootCause, outcome.package)
    {
      hide StateOk, Unit, IsLatest, IsPrevious, RootOk, Unsolvable, Problem.ContradictedAlone;
      var current := incompatId;
      var fuel: nat := ps.nextGlobalIndex + slack;
      SatisfiersBounded(pr, View(), current, fuel);
      while true
        invariant Inv() && T() == old(T()) && InConflict(View(), current)
        invariant pr.ContradictedAlone() ==> SatisfiersBelow(T(), store[current].terms, fuel)
        decreases fuel
      {
        if store[current].IsTerminal(ROOT) {
          TerminalExit(pr, View(), current);
          return ConflictOutcome.NoSolution;
        }
        NotTerminal(pr, View(), current);
        if fuel == 0 {
          return ConflictOutcome.Diverges;
        }
        var info := ps.SatisfierSearch(store[current].terms);
        if !info.isDecision && info.cause.Some? {
          current := Resolve(current, info, fuel);
          fuel := fuel - 1;
        } else {
          BackOut(current, info);
          return Backtracked(info.package, current);
        }
      }
    }

    // -- Unit propagation ----------------------------------------------------------------

    method CheckRelation(terms: PackageTerms) returns (r: IncompatRelation)
      ensures r.Satisfied? ==> AllSatisfied(T(), terms)
      ensures r.AlmostSatisfied? ==>
                && r.package in terms && OthersSatisfied(T(), terms, r.package)
                && T().TermFor(r.package).RelationWith(terms[r.package]).Inconclusive?
      ensures r.Contradicted? || r.Inconclusive? ==> NotUnit(T(), terms)
    {
      var keys := Ascending(terms.Keys);
      var almost: Option<PackageId> := None;
      for i := 0 to |keys|
        invariant almost.Some? ==>
                    almost.value in terms && T().TermFor(almost.value).RelationWith(terms[almost.value]).Inconclusive?
        invariant forall q :: q in keys[..i] && almost != Some(q) ==> T().TermFor(q).SubsetOf(terms[q])
        invariant almost.Some? ==> almost.value in keys[..i]
      {
        var q := keys[i];
        assert keys[..i + 1] == keys[..i] + [q];
        assert q !in keys[..i];
        match ps.TermFor(q).RelationWith(terms[q])
        case Satisfied =>
        case Contradicted => return IncompatRelation.Contradicted;
        case Inconclusive =>
          if almost.Some? {
            return IncompatRelation.Inconclusive;
          }
          almost := Some(q);
      }
      assert keys[..|keys|] == keys;
      r := if almost.None? then IncompatRelation.Satisfied else AlmostSatisfied(almost.value);
    }

    /** Derive the negation of the one open term, and watch its package so that a later
        backtrack looks at the incompatibility again. */
    method Derive(id: nat, p: PackageId)
      requires Inv() && Ix().Live(id) && p in store[id].terms
      requires StateOk(pr, View().(trail := Narrowed(T(), store, p, id)))
      modifies this`watches, this`watched, ps
      ensures Inv() && T() == Narrowed(old(T()), store, p, id) && Ix().Watches(id, p)
      ensures OnlyMoved(old(watched), watched, id)
    {
      hide StateOk;
      ghost var s := View();
      ps.AddDerivation(p, id, store[id].terms[p].Negate());
      assert View() == s.(trail := Narrowed(s.trail, store, p, id));
      EnsureWatched(id, p);
    }

    /** The visit of one watched incompatibility: derive if it is unit, else keep its watches
        on open terms. */
    method Examine(id: nat, ghost agenda: Agenda) returns (r: IncompatRelation)
      requires Inv() && PropagationOk(pr, View(), agenda) && Ix().Live(id)
      modifies this`watches, this`watched, ps
      ensures Inv()
      ensures r.Satisfied? ==> View() == old(View()) && InConflict(View(), id)
      ensures r.AlmostSatisfied? ==>
                && Unit(old(T()), store, id, r.package) && T() == Narrowed(old(T()), store, r.package, id)
                && PropagationOk(pr, View(), Agenda(agenda.buffer + {r.package}, agenda.current,
                     agenda.remaining - {id}))
                && Rank(pr, T()) < Rank(pr, old(T()))
      ensures r.Contradicted? || r.Inconclusive? ==>
                && T() == old(T()) && NotUnit(T(), store[id].terms)
                && PropagationOk(pr, View(), agenda.(remaining := agenda.remaining - {id}))
      ensures OnlyMoved(old(watched), watched, id)
    {
      hide StateOk, NotUnit, RootOk, Unit, PropagationOk, Rank, AllSatisfied, OthersSatisfied, Narrowed, OnlyMoved;
      RootOfPropagation(pr, View(), agenda);
      NothingMoved(watched, id);
      r := CheckRelation(store[id].terms);
      if r.AlmostSatisfied? {
        ExamineUnit(id, r.package, agenda);
      } else if r.Contradicted? || r.Inconclusive? {
        ExamineOpen(id, agenda);
      }
    }

    method ExamineOpen(id: nat, ghost agenda: Agenda)
      requires Inv() && PropagationOk(pr, View(), agenda) && Ix().Live(id) && NotUnit(T(), store[id].terms)
      modifies this`watches, this`watched
      ensures Inv() && PropagationOk(pr, View(), agenda.(remaining := agenda.remaining - {id}))
      ensures OnlyMoved(old(watched), watched, id)
    {
      hide StateOk, NotUnit, PropagationOk, OnlyMoved;
      ghost var s := View();
      VisitedNothing(pr, s, agenda, id);
      RefreshWatches(id);
      MovedPropagation(pr, s, View(), agenda.(remaining := agenda.remaining - {id}));
    }

    method ExamineUnit(id: nat, p: PackageId, ghost agenda: Agenda)
      requires Inv() && PropagationOk(pr, View(), agenda) && Ix().Live(id)
      requires p in store[id].terms && OthersSatisfied(T(), store[id].terms, p)
      requires T().TermFor(p).RelationWith(store[id].terms[p]).Inconclusive?
      modifies this`watches, this`watched, ps
      ensures Inv() && Unit(old(T()), store, id, p) && T() == Narrowed(old(T()), store, p, id)
      ensures PropagationOk(pr, View(), Agenda(agenda.buffer + {p}, agenda.current, agenda.remaining - {id}))
      ensures Rank(pr, T()) < Rank(pr, old(T()))
      ensures OnlyMoved(old(watched), watched, id)
    {
      hide StateOk, RootOk, Unit, PropagationOk, Rank, OthersSatisfied, Narrowed, OnlyMoved;
      ghost var s := View();
      ghost var s' := s.(trail := Narrowed(T(), store, p, id));
      UnitVisited(pr, s, agenda, id, p);
      Derive(id, p);
      MovedPropagation(pr, s', View(), Agenda(agenda.buffer + {p}, agenda.current, agenda.remaining - {id}));
    }

    /** Note a package to visit, once. */
    method Enqueue(buffer0: seq<PackageId>, bufferSet0: set<PackageId>, p: PackageId)
      returns (buffer: seq<PackageId>, bufferSet: set<PackageId>)
      requires BufferOk(buffer0, bufferSet0)
      ensures BufferOk(buffer, bufferSet) && bufferSet == bufferSet0 + {p}
    {
      hide BufferOk;
      BufferPush(buffer0, bufferSet0, p);
      buffer, bufferSet := buffer0, bufferSet0;
      if p !in bufferSet {
        bufferSet := bufferSet + {p};
        buffer := buffer + [p];
      }
    }

    /** One turn of the loop over the watchers of a package. */
    method VisitOne(current: PackageId, watchers: seq<nat>, k: nat, buffer0: seq<PackageId>, bufferSet0: set<PackageId>)
      returns (conflict: bool, buffer: seq<PackageId>, bufferSet: set<PackageId>)
      requires Inv() && BufferOk(buffer0, bufferSet0) && k < |watchers| && WatchersOk(Ix(), watchers, k, current)
      requires PropagationOk(pr, View(), Agenda(bufferSet0, current, Remaining(watchers, k)))
      modifies this`watches, this`watched, ps
      ensures Inv() && BufferOk(buffer, bufferSet) && WatchersOk(Ix(), watchers, k + 1, current)
      ensures conflict ==> T() == old(T()) && InConflict(View(), watchers[k]) && bufferSet == bufferSet0
      ensures conflict ==> PropagationOk(pr, View(), Agenda(bufferSet, current, Remaining(watchers, k)))
      ensures !conflict ==> PropagationOk(pr, View(), Agenda(bufferSet, current, Remaining(watchers, k + 1)))
      ensures Progress(pr, old(T()), T()) && (T() == old(T()) ==> buffer == buffer0 && bufferSet == bufferSet0)
      ensures !conflict && T() == old(T()) ==> NotUnit(T(), store[watchers[k]].terms)
      ensures NotUnit(old(T()), store[watchers[k]].terms) ==> !conflict && T() == old(T())
    {
      buffer, bufferSet, conflict := buffer0, bufferSet0, false;
      var id := watchers[k];
      hide StateOk, PropagationOk, NotUnit, Unit, Narrowed, AllSatisfied, Rank, Remaining, WatchersOk, OnlyMoved,
        BufferOk, Progress, InConflict;
      ghost var ix, t := Ix(), T();
      WatcherLive(ix, watchers, k, current);
      RemainingStep(watchers, k);
      VisitExcludes(T(), store, id);
      var r := Examine(id, Agenda(bufferSet0, current, Remaining(watchers, k)));
      WatchersKept(ix, Ix(), watchers, k, current);
      ProgressMade(pr, t, T());
      if r.Satisfied? {
        conflict := true;
      } else if r.AlmostSatisfied? {
        buffer, bufferSet := Enqueue(buffer, bufferSet, r.package);
      }
    }

    /** The loop over the watchers of a package, up to the first conflict. */
    method VisitWatchers(current: PackageId, watchers: seq<nat>, buffer0: seq<PackageId>, bufferSet0: set<PackageId>)
      returns (conflict: Option<nat>, buffer: seq<PackageId>, bufferSet: set<PackageId>, ghost agenda: Agenda)
      requires Inv() && BufferOk(buffer0, bufferSet0) && WatchersOk(Ix(), watchers, 0, current)
      requires PropagationOk(pr, View(), Agenda(bufferSet0, current, Remaining(watchers, 0)))
      modifies this`watches, this`watched, ps
      ensures Inv() && BufferOk(buffer, bufferSet) && PropagationOk(pr, View(), agenda)
      ensures conflict.Some? ==> InConflict(View(), conflict.value)
      ensures conflict.None? ==> agenda == Agenda(bufferSet, current, {})
      ensures Progress(pr, old(T()), T()) && (T() == old(T()) ==> buffer == buffer0 && bufferSet == bufferSet0)
      ensures conflict.None? && T() == old(T()) ==> Quiet(T(), store, watchers, |watchers|)
      ensures Quiet(old(T()), store, watchers, |watchers|) ==> conflict.None? && T() == old(T())
    {
      hide StateOk, PropagationOk, NotUnit, Rank, Remaining, WatchersOk, BufferOk, Progress, Quiet, InConflict;
      buffer, bufferSet := buffer0, bufferSet0;
      var k := 0;
      QuietNone(T(), store, watchers);
      ProgressMade(pr, T(), T());
      while k < |watchers|
        invariant k <= |watchers| && Inv() && BufferOk(buffer, bufferSet) && WatchersOk(Ix(), watchers, k, current)
        invariant PropagationOk(pr, View(), Agenda(bufferSet, current, Remaining(watchers, k)))
        invariant Progress(pr, old(T()), T()) && (T() == old(T()) ==> buffer == buffer0 && bufferSet == bufferSet0)
        invariant T() == old(T()) ==> Quiet(T(), store, watchers, k)
        invariant Quiet(old(T()), store, watchers, |watchers|) ==> T() == old(T())
      {
        ghost var t := T();
        WatcherLive(Ix(), watchers, k, current);
        QuietAt(t, store, watchers, k);
        var hit;
        hit, buffer, bufferSet := VisitOne(current, watchers, k, buffer, bufferSet);
        ProgressChains(pr, old(T()), t, T());
        if hit {
          agenda := Agenda(bufferSet, current, Remaining(watchers, k));
          return Some(watchers[k]), buffer, bufferSet, agenda;
        }
        k := k + 1;
      }
      NothingRemains(watchers);
      agenda := Agenda(bufferSet, current, {});
      conflict := None;
    }

    /** Decide the root again if a backjump forgot it, so that its requirements propagate anew. */
    method ReviveRoot(package: PackageId) returns (buffer: seq<PackageId>, bufferSet: set<PackageId>)
      requires Inv() && Revivable(pr, View(), package)
      modifies ps
      ensures Inv() && BufferOk(buffer, bufferSet) && PropagationOk(pr, View(), Agenda(bufferSet, ROOT, {}))
      ensures Progress(pr, old(T()), T())
    {
      hide StateOk, PropagationOk, Propagated, BufferOk, Decidable, RootOk, TrailOk, DecisionsOk;
      buffer, bufferSet := [package], {package};
      SingleBuffer(package);
      ProgressMade(pr, T(), T());
      if ps.IsAssigned(ROOT) {
        RootKept(pr, View(), package);
      } else {
        ghost var s := View();
        ghost var s' := s.(trail := T().WithDecision(ROOT, rootVersion));
        RootAgain(pr, s, package);
        StateOfPropagation(pr, s', Agenda({package, ROOT}, ROOT, {}));
        ps.AddDecision(ROOT, rootVersion);
        assert View() == s';
        BufferPush(buffer, bufferSet, ROOT);
        buffer, bufferSet := buffer + [ROOT], bufferSet + {ROOT};
        assert bufferSet == {package, ROOT};
      }
    }

    /** After a backjump: derive for the returned package, then see to the root. */
    method AssertRootCause(package: PackageId, rootCause: nat, ghost s0: SolverView, ghost agenda: Agenda)
      returns (buffer: seq<PackageId>, bufferSet: set<PackageId>)
      requires PropagationOk(pr, s0, agenda)
      requires Inv() && ids == s0.ids && unwatched == s0.unwatched
      requires T().level < s0.trail.level && T() == s0.trail.Rewound(T().level)
      requires Ix().Live(rootCause) && Unit(T(), store, rootCause, package)
      modifies this`watches, this`watched, ps
      ensures Inv() && BufferOk(buffer, bufferSet)
      ensures PropagationOk(pr, View(), Agenda(bufferSet, ROOT, {}))
      ensures Rank(pr, T()) < Rank(pr, s0.trail)
    {
      hide StateOk, PropagationOk, Rank, Narrowed, BufferOk, OnlyMoved, Revivable, Progress, Unit, IndexOk,
        Trail.Rewound;
      UnitIsStored(T(), store, rootCause, package);
      ghost var s1 := View();
      ghost var s2 := s1.(trail := Narrowed(T(), store, package, rootCause));
      AfterBackjump(pr, s0, agenda, s1, package, rootCause);
      Derive(rootCause, package);
      RevivableMoved(pr, s2, View(), package);
      ghost var t2 := T();
      buffer, bufferSet := ReviveRoot(package);
      ProgressBelow(pr, s0.trail, t2, T());
    }

    /** Learn from a conflict, back up and derive; what is to be visited next starts anew. */
    method ResolveConflict(id: nat, slack: nat, ghost agenda: Agenda)
      returns (r: PropagationResult, buffer: seq<PackageId>, bufferSet: set<PackageId>)
      requires Inv() && PropagationOk(pr, View(), agenda) && InConflict(View(), id)
      modifies this`watches, this`watched, this`store, this`learnedWatched, ps
      ensures Inv() && BufferOk(buffer, bufferSet)
      ensures r.NoSolution? ==> Unsolvable(pr)
      ensures r.Diverges? ==> !pr.ContradictedAlone()
      ensures r.Ok? ==> PropagationOk(pr, View(), Agenda(bufferSet, ROOT, {})) && Rank(pr, T()) < Rank(pr, old(T()))
    {
      hide StateOk, PropagationOk, Rank, InConflict, Unsolvable, Problem.ContradictedAlone, RootOk, Unit, Trail.Rewound;
      ghost var s := View();
      StateOfPropagation(pr, s, agenda);
      buffer, bufferSet := [], {};
      var outcome := ConflictResolution(id, slack);
      match outcome
      case NoSolution => r := PropagationResult.NoSolution;
      case Diverges => r := PropagationResult.Diverges;
      case Backtracked(package, rootCause) =>
        buffer, bufferSet := AssertRootCause(package, rootCause, s, agenda);
        r := Ok;
    }

    /** Work off the buffer: visit the watchers of each package, resolving conflicts on the
        way. The witness `stuck` names an incompatibility that is in conflict from the start
        and watches the first package: then the rank goes down. */
    method UnitPropagation(start: PackageId, slack: nat, ghost stuck: Option<nat>) returns (r: PropagationResult)
      requires Inv() && PropagationOk(pr, View(), Agenda({start}, ROOT, {}))
      requires stuck.Some? ==> InConflict(View(), stuck.value) && Ix().Watches(stuck.value, start)
      modifies this`watches, this`watched, this`store, this`learnedWatched, ps
      ensures Inv()
      ensures r.NoSolution? ==> Unsolvable(pr)
      ensures r.Diverges? ==> !pr.ContradictedAlone()
      ensures r.Ok? ==> PropagationOk(pr, View(), DONE) && Progress(pr, old(T()), T())
      ensures r.Ok? && stuck.Some? ==> Rank(pr, T()) < Rank(pr, old(T()))
      ensures Quiet(old(T()), old(store), ListOf(old(watches), start), |ListOf(old(watches), start)|) ==>
              r.Ok? && T() == old(T())
    {
      hide StateOk, PropagationOk, Rank, Remaining, WatchersOk, BufferOk, Progress, Quiet, InConflict, Unsolvable,
        Problem.ContradictedAlone, RootOk, Unit;
      var buffer, bufferSet := [start], {start};
      ghost var first, quiet := true, Quiet(T(), store, ListOf(watches, start), |ListOf(watches, start)|);
      SingleBuffer(start);
      ProgressMade(pr, T(), T());
      while buffer != []
        invariant Inv() && BufferOk(buffer, bufferSet) && PropagationOk(pr, View(), Agenda(bufferSet, ROOT, {}))
        invariant Progress(pr, old(T()), T())
        invariant first ==> T() == old(T()) && buffer == [start] && watches == old(watches) && watched == old(watched)
        invariant first ==> store == old(store) && learnedWatched == old(learnedWatched)
        invariant !first && stuck.Some? ==> Rank(pr, T()) < Rank(pr, old(T()))
        invariant !first && quiet ==> T() == old(T()) && buffer == []
        decreases Rank(pr, T()), |buffer|
      {
        ghost var t := T();
        BufferPop(buffer, bufferSet);
        var current := buffer[|buffer| - 1];
        buffer := buffer[..|buffer| - 1];
        VisitBegins(pr, View(), bufferSet, current);
        bufferSet := bufferSet - {current};
        var watchers := if current in watches then watches[current] else [];
        if first && stuck.Some? {
          StuckIsListed(pr, View(), stuck.value, current, watchers);
        }
        var conflict;
        ghost var agenda;
        conflict, buffer, bufferSet, agenda := VisitWatchers(current, watchers, buffer, bufferSet);
        ProgressChains(pr, old(T()), t, T());
        if conflict.Some? {
          ghost var t' := T();
          var result;
          result, buffer, bufferSet := ResolveConflict(conflict.value, slack, agenda);
          if !result.Ok? {
            return result;
          }
          ProgressLowers(pr, old(T()), t', T());
          ProgressLowers(pr, t, t', T());
        } else {
          AgendaCurrent(pr, View(), bufferSet, current);
          ProgressCases(pr, t, T());
        }
        first := false;
      }
      BufferEmpty(bufferSet);
      r := Ok;
    }

    // -- Growing the problem -------------------------------------------------------------

    /** Register one dependency of a package version. The incompatibility watches the
        depending package unless both of its terms are satisfied already and the dependency
        has the smaller number. */
    method AddDependencyIncompatibility(p: PackageId, v: Version, d: Dependency, ghost slot: nat,
                                        ghost agenda: Agenda) returns (id: nat)
      requires Inv() && Propagated(pr, T(), ids, unwatched, agenda)
      requires p < pr.packages && v in pr.universe && (p, v) in addedDeps
      requires p in T().assignments && if p == ROOT then v == rootVersion else v in pr.Versions(p)
      requires KeyOk(pr, DependencyKey(p, v, slot)) && d == DependencyOf(pr, DependencyKey(p, v, slot))
      requires DependencyKey(p, v, slot) !in ids
      requires Decides(T(), DependencyKey(p, v, slot)) ==>
               p in agenda.buffer && T().assignments[p].state.level == T().level
      modifies this`watches, this`watched, this`store, this`learnedWatched, this`ids, this`unwatched
      ensures Inv() && Propagated(pr, T(), ids, unwatched, agenda)
      ensures ids == old(ids)[DependencyKey(p, v, slot) := id]
      ensures Ix().Watches(id, p) <==> !MissesDepender(T(), p, v, d)
      ensures unwatched == if MissesDepender(T(), p, v, d) then old(unwatched) + {DependencyKey(p, v, slot)}
                           else old(unwatched) - {DependencyKey(p, v, slot)}
    {
      hide StateOk, ClauseOk, TermsAlike, IndexOk, StoreOk, AllRegistered, TrailOk, Propagated, Decides, Picked,
        MissesDepender, FromDependency, DependencyOf, KeyOk;
      ghost var key := DependencyKey(p, v, slot);
      RegistrationAhead(pr, View(), agenda, key);
      var inc := FromDependency(p, v, d.package, d.range);
      id := Learn(inc);
      PickedDependency(T(), p, v, d, watched[id].0, watched[id].1);
      DependencyRegistered(pr, View(), key, id, MissesDepender(T(), p, v, d));
      ids := ids[key := id];
      unwatched := if MissesDepender(T(), p, v, d) then unwatched + {key} else unwatched - {key};
    }

    /** Register the dependencies of a version that was not expanded before. */
    method RegisterDependencies(p: PackageId, v: Version, deps: seq<Dependency>, ghost agenda: Agenda)
      requires Inv() && Propagated(pr, T(), ids, unwatched, agenda) && BookkeepingOk(ids, unwatched, addedDeps)
      requires p < pr.packages && v in pr.universe && (if p == ROOT then v == rootVersion else v in pr.Versions(p))
      requires p in T().assignments && deps == pr.Dependencies(p, v) && (p, v) !in addedDeps && expanded == addedDeps
      requires T().IsDecided(p) ==> p in agenda.buffer && T().assignments[p].state.level == T().level
      modifies this`watches, this`watched, this`store, this`learnedWatched, this`ids, this`unwatched, this`addedDeps,
          this`expanded
      ensures Inv() && Propagated(pr, T(), ids, unwatched, agenda) && BookkeepingOk(ids, unwatched, addedDeps)
      ensures addedDeps == old(addedDeps) + {(p, v)} && expanded == addedDeps
      ensures unwatched == old(unwatched) + MissedKeys(T(), p, v, deps, |deps|)
    {
      hide StateOk, Propagated, BookkeepingOk, MissesDepender, MissedKeys, PartlyRegistered;
      NothingRegisteredYet(ids, unwatched, addedDeps, T(), p, v, deps);
      VersionMarked(pr, View(), p, v);
      addedDeps := addedDeps + {(p, v)};
      for slot := 0 to |deps|
        invariant Inv() && Propagated(pr, T(), ids, unwatched, agenda)
        invariant PartlyRegistered(old(ids), ids, p, v, slot)
        invariant addedDeps == old(addedDeps) + {(p, v)} && expanded == old(expanded)
        invariant unwatched == old(unwatched) + MissedKeys(T(), p, v, deps, slot)
      {
        NotRegisteredYet(old(ids), old(unwatched), old(addedDeps), p, v, slot);
        PartlyRegisteredStep(old(ids), ids, p, v, slot, |store|);
        MissedKeysStep(T(), p, v, deps, slot);
        ghost var ids0 := ids;
        var id := AddDependencyIncompatibility(p, v, deps[slot], slot, agenda);
        PartlyRegisteredStep(old(ids), ids0, p, v, slot, id);
        MissedKeysFresh(T(), p, v, deps, slot);
      }
      AllOfVersionRegistered(old(ids), ids, old(unwatched), unwatched, old(addedDeps), T(), p, v, deps);
      VersionExpanded(pr, View(), p, v);
      expanded := expanded + {(p, v)};
    }

    /** Expand a version, unless that was done before, and decide it. */
    method AddDependencies(p: PackageId, v: Version, deps: seq<Dependency>)
      requires Inv() && Propagated(pr, T(), ids, unwatched, DONE) && RootDecided(T())
               && BookkeepingOk(ids, unwatched, addedDeps)
      requires expanded == addedDeps
      requires p != ROOT && Decidable(pr, T(), p, v) && p < pr.packages && v in pr.universe
               && deps == pr.Dependencies(p, v)
      modifies this`watches, this`watched, this`store, this`learnedWatched, this`ids, this`unwatched, this`addedDeps,
          this`expanded, ps
      ensures Inv() && PropagationOk(pr, View(), Agenda({p}, ROOT, {})) && BookkeepingOk(ids, unwatched, addedDeps)
      ensures T() == old(T()).WithDecision(p, v) && Rank(pr, T()) < Rank(pr, old(T()))
      ensures addedDeps == old(addedDeps) + {(p, v)} && expanded == addedDeps
      ensures unwatched == old(unwatched) +
                if (p, v) in old(addedDeps) then {} else MissedKeys(old(T()), p, v, deps, |deps|)
    {
      hide StateOk, Propagated, BookkeepingOk, MissedKeys, PropagationOk, Rank, RootDecided, Decidable;
      DecidableIsOpen(pr, T(), p, v);
      if (p, v) !in addedDeps {
        RegisterDependencies(p, v, deps, DONE);
      }
      ghost var s := View();
      ghost var s' := s.(trail := T().WithDecision(p, v));
      DecisionStep(pr, s, p, v);
      RootOfPropagation(pr, s', Agenda({p}, ROOT, {}));
      ps.AddDecision(p, v);
      assert View() == s';
    }

    /** Of the packages for which a version is required and not chosen yet, one that ranks
        highest, for any version counts and any activities. */
    method PickNextPackage(counts: map<PackageId, nat>, scores: PackageId -> real)
                           returns (next: Option<(PackageId, VS)>)
      ensures next.None? ==> NothingUndecided(T())
      ensures next.Some? ==>
                && next.value.0 in T().assignments
                && T().assignments[next.value.0].state == Derivations(Positive(next.value.1))
      ensures next.Some? ==> forall q :: q in T().assignments && IsUndecided(T().assignments[q]) ==>
                Priority(counts, scores, q) <= Priority(counts, scores, next.value.0)
    {
      hide Priority;
      var undecided := ps.FillUndecided();
      var best := PickBest(undecided, counts, scores);
      if best.None? {
        return None;
      }
      next := Some((best.value, undecided[best.value]));
    }

    /** Record that no version of a required package is in its range: a conflict. */
    method AddIncompatibilityForNoVersions(p: PackageId, range: VS) returns (id: nat)
      requires Inv() && PropagationOk(pr, View(), DONE) && RootDecided(T())
      requires p in T().assignments && T().assignments[p].state == Derivations(Positive(range))
      requires forall v :: v in pr.Versions(p) ==> v !in range
      modifies this`watches, this`watched, this`store, this`learnedWatched
      ensures Inv() && PropagationOk(pr, View(), Agenda({p}, ROOT, {}))
      ensures InConflict(View(), id) && Ix().Watches(id, p)
    {
      hide StateOk, ClauseOk, TermsAlike, PropagationOk, RootDecided, Picked, AllSatisfied, NoVersions;
      var inc := NoVersions(p, range);
      ghost var s := View();
      RootOfPropagation(pr, s, DONE);
      NoVersionsClauseOk(pr, s, p, range);
      NoVersionsConflict(T(), p, range);
      id := Learn(inc);
      LearnedPropagation(pr, s, View(), p);
    }
  }

  method AscendingKeys(terms: PackageTerms) returns (keys: seq<PackageId>)
    ensures forall q :: q in keys <==> q in terms
    ensures forall i, j :: 0 <= i < j < |keys| ==> keys[i] < keys[j]
  {
    keys := Ascending(terms.Keys);
    forall i, j | 0 <= i < j < |keys| ensures keys[i] < keys[j] {
      AscendingAt(keys, i, j);
    }
  }

  method OtherKey(terms: PackageTerms, keys: seq<PackageId>, first: PackageId) returns (other: PackageId)
    requires forall q :: q in keys <==> q in terms
    requires first in terms
    requires forall i, j :: 0 <= i < j < |keys| ==> keys[i] < keys[j]
    ensures other in terms && (|terms| > 1 ==> other != first)
    ensures forall q :: q in terms && q != first ==> other <= q
  {
    for i := 0 to |keys|
      invariant forall q :: q in keys[..i] ==> q == first
    {
      assert keys[..i + 1] == keys[..i] + [keys[i]];
      if keys[i] != first {
        AroundPlace(keys, i);
        return keys[i];
      }
    }
    assert keys[..|keys|] == keys;
    assert terms.Keys == {first};
    other := first;
  }
}
