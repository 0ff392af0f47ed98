/** What holds of the solver between its steps, as predicates on the trail and the index. */
module SolverInvariants {
  import opened Backtracking
  import opened ClauseIndexes
  import opened Conflicts
  import opened Incompatibilities
  import opened Justifications
  import opened Problems
  import opened Ranks
  import opened Satisfiers
  import opened Terms
  import opened Trails
  import opened TrailUpdates

  // -- The base invariant ----------------------------------------------------------------

  /** Decided versions exist; only the root is decided without having been required. */
  ghost predicate DecisionsOk(pr: Problem, t: Trail) {
    forall p :: t.IsDecided(p) ==>
      if p == ROOT then t.assignments[p].state.version == pr.rootVersion && t.assignments[p].derivations == []
      else t.assignments[p].derivations != [] && t.assignments[p].state.version in pr.Versions(p)
  }

  ghost predicate SolverOk(pr: Problem, t: Trail, ix: ClauseIndex) {
    && pr.WellFormed()
    && StoreOk(pr, ix.store)
    && IndexOk(ix)
    && TrailOk(t)
    && Justified(t, ix.store)
    && InUniverse(pr, t)
    && DecisionsOk(pr, t)
  }

  /** The root was refuted at level 0: only the report of "no solution" is left. */
  ghost predicate RootRefuted(pr: Problem, t: Trail) {
    t.level == 0 && !t.IsDecided(ROOT) && t.TermFor(ROOT) == Negative({pr.rootVersion})
  }

  ghost predicate RootDecided(t: Trail) {
    1 <= t.level && t.IsDecided(ROOT) && t.assignments[ROOT].state.level == 1
  }

  ghost predicate RootOk(pr: Problem, t: Trail) {
    RootDecided(t) || RootRefuted(pr, t)
  }

  // -- One step keeps the base invariant -------------------------------------------------

  lemma PushedSolverOk(pr: Problem, t: Trail, ix: ClauseIndex, inc: Incompatibility, a: PackageId, b: PackageId)
    requires SolverOk(pr, t, ix) && ClauseOk(pr, inc.terms) && a in inc.terms && b in inc.terms
    ensures SolverOk(pr, t, ix.Pushed(inc, a, b))
  {
    PushedOk(ix, inc, a, b);
    JustifiedInLargerStore(t, ix.store, inc);
  }

  lemma RewatchedSolverOk(pr: Problem, t: Trail, ix: ClauseIndex, id: nat, a: PackageId, b: PackageId)
    requires SolverOk(pr, t, ix) && ix.Live(id) && a in ix.store[id].terms && b in ix.store[id].terms
    ensures SolverOk(pr, t, ix.Rewatched(id, a, b))
  {
    RewatchedOk(ix, id, a, b);
  }

  lemma OpenIsUndecided(t: Trail, p: PackageId, term: Term)
    requires t.TermFor(p).RelationWith(term).Inconclusive?
    ensures !t.IsDecided(p)
  {
  }

  /** All terms of a stored incompatibility are satisfied but one, which is open. */
  ghost predicate Unit(t: Trail, store: Store, cause: nat, p: PackageId) {
    && 1 <= cause < |store| && p in store[cause].terms
    && OthersSatisfied(t, store[cause].terms, p)
    && t.TermFor(p).RelationWith(store[cause].terms[p]).Inconclusive?
  }

  function Narrowed(t: Trail, store: Store, p: PackageId, cause: nat): Trail
    requires cause < |store| && p in store[cause].terms
  {
    t.WithDerivation(p, cause, store[cause].terms[p].Negate())
  }

  lemma UnitCanDerive(pr: Problem, t: Trail, ix: ClauseIndex, p: PackageId, cause: nat)
    requires SolverOk(pr, t, ix) && Unit(t, ix.store, cause, p)
    ensures CanDerive(t, p, ix.store[cause].terms[p].Negate())
    ensures ClauseOk(pr, ix.store[cause].terms)
  {
    OpenIsUndecided(t, p, ix.store[cause].terms[p]);
    StrictNarrowing(t.TermFor(p), ix.store[cause].terms[p]);
  }

  lemma DerivedDecisionsOk(pr: Problem, t: Trail, p: PackageId, cause: nat, term: Term)
    requires DecisionsOk(pr, t) && !t.IsDecided(p)
    ensures DecisionsOk(pr, t.WithDerivation(p, cause, term))
  {
  }

  lemma DerivedSolverOk(pr: Problem, t: Trail, ix: ClauseIndex, p: PackageId, cause: nat)
    requires SolverOk(pr, t, ix) && Unit(t, ix.store, cause, p)
    ensures SolverOk(pr, Narrowed(t, ix.store, p, cause), ix)
    ensures Rank(pr, Narrowed(t, ix.store, p, cause)) < Rank(pr, t)
  {
    var term := ix.store[cause].terms[p].Negate();
    UnitCanDerive(pr, t, ix, p, cause);
    DeriveOk(t, p, cause, term);
    DeriveJustified(t, ix.store, p, cause);
    DeriveInUniverse(pr, t, p, cause, term);
    DerivedDecisionsOk(pr, t, p, cause, term);
    DeriveLowersRank(pr, t, p, cause, term);
  }

  /** The version may be decided: the root's own one, or an existing one of an undecided
      package that is required. */
  ghost predicate Decidable(pr: Problem, t: Trail, p: PackageId, v: Version) {
    && t.TermFor(p).Admits(Selected(v)) && !t.IsDecided(p)
    && if p == ROOT then v == pr.rootVersion && p !in t.assignments
       else p in t.assignments && t.TermFor(p).Positive? && v in pr.Versions(p)
  }

  lemma DecidableIsOpen(pr: Problem, t: Trail, p: PackageId, v: Version)
    requires Decidable(pr, t, p, v)
    ensures !t.IsDecided(p) && (p != ROOT ==> p in t.assignments && v in pr.Versions(p))
  {
  }

  lemma DecidedSolverOk(pr: Problem, t: Trail, ix: ClauseIndex, p: PackageId, v: Version)
    requires SolverOk(pr, t, ix) && Decidable(pr, t, p, v)
    ensures SolverOk(pr, t.WithDecision(p, v), ix)
    ensures Rank(pr, t.WithDecision(p, v)) < Rank(pr, t)
  {
    if p != ROOT {
      var a := t.assignments[p];
      assert AssignmentOk(a);
      assert a.derivations[|a.derivations| - 1].accumulated.range <= pr.universe;
    }
    DecideOk(t, p, v);
    DecideJustified(t, ix.store, p, v);
    DecideInUniverse(pr, t, p, v);
    DecideLowersRank(pr, t, p, v);
  }

  lemma RewoundSolverOk(pr: Problem, t: Trail, ix: ClauseIndex, target: nat)
    requires SolverOk(pr, t, ix) && target <= t.level
    ensures SolverOk(pr, t.Rewound(target), ix)
  {
    RewindOk(t, target);
    RewindJustified(t, ix.store, target);
    RewindInUniverse(pr, t, target);
    forall p | t.Rewound(target).IsDecided(p)
      ensures t.IsDecided(p) && t.Rewound(target).assignments[p] == t.assignments[p]
    {
      RewindDecided(t, target, p);
    }
  }

  // -- "No solution" is right ------------------------------------------------------------

  lemma TerminalUnsolvable(pr: Problem, terms: PackageTerms)
    requires ClauseOk(pr, terms) && forall p :: p in terms ==> p == ROOT
    ensures Unsolvable(pr)
  {
    forall sel: Selection | Solution(pr, sel) ensures false {
      assert Holds(terms, sel);
    }
  }

  /** The root refuted at level 0 has no decision behind it, so no selection has the root. */
  lemma RefutedUnsolvable(pr: Problem, t: Trail, ix: ClauseIndex)
    requires SolverOk(pr, t, ix) && RootRefuted(pr, t)
    ensures Unsolvable(pr)
  {
    forall sel: Selection | Solution(pr, sel) ensures false {
      forall q | t.IsDecided(q) ensures t.assignments[q].state.level > 0 {
        assert AssignmentOk(t.assignments[q]);
      }
      TermsAtSound(pr, t, ix.store, sel, 0, ROOT);
      TermForIsLatest(t, ROOT);
    }
  }
}
