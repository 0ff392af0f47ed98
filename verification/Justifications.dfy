/** Why the derivations of a partial solution are right: each one is forced by an
    incompatibility whose other terms were satisfied when it was made. */
module Justifications {
  import opened Backtracking
  import opened Incompatibilities
  import opened Problems
  import opened Terms
  import opened Trails
  import opened TrailUpdates

  type Store = seq<Incompatibility>

  /** Stored incompatibilities other than the first, `not_root`, follow from the facts about
      packages alone. They mention the root only to demand its version. */
  ghost predicate ClauseOk(pr: Problem, terms: PackageTerms) {
    && Entailed(pr, terms)
    && (forall p :: p in terms ==> p < pr.packages && terms[p].range <= pr.universe)
    && (ROOT in terms ==> terms[ROOT] == Positive({pr.rootVersion}))
    && TrivialExact(pr, terms)
  }

  /** The trivially true terms are those of the packages with contradictory requirements. */
  ghost predicate TrivialExact(pr: Problem, terms: PackageTerms) {
    pr.ContradictedAlone() ==> forall p :: p in terms ==> (terms[p].IsAny() <==> pr.Contradicted(p))
  }

  ghost predicate StoreOk(pr: Problem, store: Store) {
    && 0 < |store|
    && store[0] == NotRoot(ROOT, pr.rootVersion)
    && forall i :: 1 <= i < |store| ==> ClauseOk(pr, store[i].terms)
  }

  /** The `i`-th derivation for `p` removes the term of its cause, and the other terms of the
      cause were satisfied by what came before. */
  ghost predicate JustifiedAt(t: Trail, store: Store, p: PackageId, i: nat)
    requires p in t.assignments && i < |t.assignments[p].derivations|
  {
    var d := t.assignments[p].derivations[i];
    && 1 <= d.cause < |store|
    && p in store[d.cause].terms
    && d.accumulated == Accumulated(t.assignments[p].derivations, i).Intersection(store[d.cause].terms[p].Negate())
    && forall q :: q in store[d.cause].terms && q != p ==> t.TermBefore(q, d.index).SubsetOf(store[d.cause].terms[q])
  }

  ghost predicate Justified(t: Trail, store: Store) {
    forall p, i :: p in t.assignments && 0 <= i < |t.assignments[p].derivations| ==> JustifiedAt(t, store, p, i)
  }

  // -- Preservation ----------------------------------------------------------------------

  lemma JustifiedInLargerStore(t: Trail, store: Store, inc: Incompatibility)
    requires Justified(t, store)
    ensures Justified(t, store + [inc])
  {
    forall p, i | p in t.assignments && 0 <= i < |t.assignments[p].derivations|
      ensures JustifiedAt(t, store + [inc], p, i)
    {
      assert JustifiedAt(t, store, p, i);
    }
  }

  /** A derivation stays justified in a trail that has it, its predecessors and what it saw. */
  lemma JustifiedCopy(t: Trail, t': Trail, store: Store, p: PackageId, i: nat)
    requires p in t.assignments && i < |t.assignments[p].derivations| && JustifiedAt(t, store, p, i)
    requires p in t'.assignments && i < |t'.assignments[p].derivations|
    requires t'.assignments[p].derivations[i] == t.assignments[p].derivations[i]
    requires Accumulated(t'.assignments[p].derivations, i) == Accumulated(t.assignments[p].derivations, i)
    requires forall q :: q != p ==>
               t'.TermBefore(q, t.assignments[p].derivations[i].index)
                   == t.TermBefore(q, t.assignments[p].derivations[i].index)
    ensures JustifiedAt(t', store, p, i)
  {
  }

  lemma DerivationIndexBounded(t: Trail, p: PackageId, i: nat)
    requires TrailOk(t) && p in t.assignments && i < |t.assignments[p].derivations|
    ensures t.assignments[p].derivations[i].index < t.nextIndex
  {
    assert t.HasEntry(p, i) && t.IndexOf(p, i) == t.assignments[p].derivations[i].index;
  }

  lemma DecideJustified(t: Trail, store: Store, p: PackageId, v: Version)
    requires CanDecide(t, p, v) && Justified(t, store)
    ensures Justified(t.WithDecision(p, v), store)
  {
    var t' := t.WithDecision(p, v);
    forall q, i | q in t'.assignments && 0 <= i < |t'.assignments[q].derivations|
      ensures JustifiedAt(t', store, q, i)
    {
      assert t'.assignments[q].derivations == t.assignments[q].derivations;
      assert JustifiedAt(t, store, q, i);
      DerivationIndexBounded(t, q, i);
      forall r
        ensures t'.TermBefore(r, t'.assignments[q].derivations[i].index)
             == t.TermBefore(r, t'.assignments[q].derivations[i].index)
      {
        DecideFrame(t, p, v, r);
      }
    }
  }

  /** All terms but that of `p` are satisfied. */
  ghost predicate OthersSatisfied(t: Trail, terms: PackageTerms, p: PackageId) {
    forall q :: q in terms && q != p ==> t.TermFor(q).SubsetOf(terms[q])
  }

  lemma DeriveJustifiedNew(t: Trail, store: Store, p: PackageId, cause: nat)
    requires 1 <= cause < |store| && p in store[cause].terms
    requires CanDerive(t, p, store[cause].terms[p].Negate()) && OthersSatisfied(t, store[cause].terms, p)
    ensures var t' := t.WithDerivation(p, cause, store[cause].terms[p].Negate());
            JustifiedAt(t', store, p, |t'.assignments[p].derivations| - 1)
  {
    var term := store[cause].terms[p].Negate();
    var t' := t.WithDerivation(p, cause, term);
    forall q | q in store[cause].terms && q != p ensures t'.TermBefore(q, t.nextIndex).SubsetOf(store[cause].terms[q]) {
      DeriveFrame(t, p, cause, term, q);
      TermForIsLatest(t, q);
    }
  }

  lemma DeriveJustified(t: Trail, store: Store, p: PackageId, cause: nat)
    requires Justified(t, store) && 1 <= cause < |store| && p in store[cause].terms
    requires CanDerive(t, p, store[cause].terms[p].Negate()) && OthersSatisfied(t, store[cause].terms, p)
    ensures Justified(t.WithDerivation(p, cause, store[cause].terms[p].Negate()), store)
  {
    var term := store[cause].terms[p].Negate();
    var t' := t.WithDerivation(p, cause, term);
    forall q, i | q in t'.assignments && 0 <= i < |t'.assignments[q].derivations|
      ensures JustifiedAt(t', store, q, i)
    {
      if q == p && i == |t'.assignments[p].derivations| - 1 {
        DeriveJustifiedNew(t, store, p, cause);
      } else {
        assert JustifiedAt(t, store, q, i);
        DerivationIndexBounded(t, q, i);
        forall r
          ensures t'.TermBefore(r, t'.assignments[q].derivations[i].index)
               == t.TermBefore(r, t'.assignments[q].derivations[i].index)
        {
          DeriveFrame(t, p, cause, term, r);
        }
      }
    }
  }

  /** What a kept derivation saw before it is kept, too. */
  lemma RewindSees(t: Trail, target: nat, p: PackageId, i: nat, q: PackageId)
    requires CanRewind(t, target) && t.HasEntry(p, i) && t.LevelOf(p, i) <= target
    ensures t.Rewound(target).TermBefore(q, t.IndexOf(p, i)) == t.TermBefore(q, t.IndexOf(p, i))
  {
    var g := t.IndexOf(p, i);
    if q in t.assignments {
      forall j | 0 <= j < t.assignments[q].Count() && t.assignments[q].Index(j) < g
        ensures t.assignments[q].Level(j) <= target
      {
        assert t.HasEntry(q, j) && t.IndexOf(q, j) < g;
        IndexLevelMonotone(t, q, j, p, i);
      }
    }
    RewindBefore(t, target, q, g);
  }

  lemma RewindJustifiedAt(t: Trail, store: Store, target: nat, p: PackageId, i: nat)
    requires CanRewind(t, target) && Justified(t, store)
    requires p in t.Rewound(target).assignments && i < |t.Rewound(target).assignments[p].derivations|
    ensures JustifiedAt(t.Rewound(target), store, p, i)
  {
    hide TrailOk;
    var t' := t.Rewound(target);
    RewindEntry(t, target, p, i);
    RewoundDerivation(t.assignments[p], target, i);
    forall q ensures t'.TermBefore(q, t.IndexOf(p, i)) == t.TermBefore(q, t.IndexOf(p, i)) {
      RewindSees(t, target, p, i, q);
    }
    assert JustifiedAt(t, store, p, i);
    JustifiedCopy(t, t', store, p, i);
  }

  lemma RewoundDerivation(a: Assignment, target: nat, i: nat)
    requires i < |RewoundAssignment(a, target).derivations|
    ensures i < |a.derivations| && RewoundAssignment(a, target).derivations[i] == a.derivations[i]
    ensures Accumulated(RewoundAssignment(a, target).derivations, i) == Accumulated(a.derivations, i)
  {
  }

  lemma RewindJustified(t: Trail, store: Store, target: nat)
    requires CanRewind(t, target) && Justified(t, store)
    ensures Justified(t.Rewound(target), store)
  {
    var t' := t.Rewound(target);
    forall p, i | p in t'.assignments && 0 <= i < |t'.assignments[p].derivations| ensures JustifiedAt(t', store, p, i) {
      RewindJustifiedAt(t, store, target, p, i);
    }
  }

  // -- Backtracking is replay ------------------------------------------------------------

  /** Apply the assignments of `p` in their order, skipping those above a level: a derivation
      removes the term of its cause, a decision fixes the version. */
  ghost function Replay(t: Trail, store: Store, p: PackageId, level: nat, n: nat): Term
    requires Justified(t, store) && p in t.assignments && n <= t.assignments[p].Count()
  {
    var a := t.assignments[p];
    if n == 0 then Term.Any()
    else
      var before := Replay(t, store, p, level, n - 1);
      if level < a.Level(n - 1) then before
      else if n - 1 < |a.derivations| then
        assert JustifiedAt(t, store, p, n - 1);
        before.Intersection(store[a.derivations[n - 1].cause].terms[p].Negate())
      else Positive({a.state.version})
  }

  lemma CountAtSplits(ds: seq<Derivation>, level: nat, n: nat)
    requires Sorted(ds) && 0 < n <= |ds|
    ensures ds[n - 1].level <= level <==> n <= CountAt(ds, level)
  {
    var k := CountAt(ds, level);
    if n <= k {
      assert ds[n - 1].level <= ds[k - 1].level;
    } else {
      assert ds[k].level <= ds[n - 1].level;
    }
  }

  lemma {:induction false} ReplayPrefix(t: Trail, store: Store, p: PackageId, level: nat, n: nat)
    requires TrailOk(t) && Justified(t, store) && p in t.assignments && n <= |t.assignments[p].derivations|
    ensures var ds := t.assignments[p].derivations;
            Replay(t, store, p, level, n) == Accumulated(ds, if n <= CountAt(ds, level) then n else CountAt(ds, level))
  {
    hide Bounded, Distinct, DecisionsSeparate, LevelsDecided, Chain, Sorted, CountAt;
    var ds := t.assignments[p].derivations;
    if n > 0 {
      ReplayPrefix(t, store, p, level, n - 1);
      assert JustifiedAt(t, store, p, n - 1);
      CountAtSplits(ds, level, n);
    }
  }

  lemma ReplayOfDecision(t: Trail, store: Store, p: PackageId, level: nat)
    requires Justified(t, store) && p in t.assignments
    ensures var a := t.assignments[p];
            Replay(t, store, p, level, a.Count()) ==
            if a.state.Decision? && a.state.level <= level then Positive({a.state.version})
            else Replay(t, store, p, level, |a.derivations|)
  {
    hide Justified;
  }

  lemma ReplayIsTermAt(t: Trail, store: Store, p: PackageId, level: nat)
    requires TrailOk(t) && Justified(t, store) && p in t.assignments
    ensures Replay(t, store, p, level, t.assignments[p].Count()) == t.assignments[p].TermAt(level)
  {
    hide Distinct, DecisionsSeparate, LevelsDecided, Bounded, Justified, Chain, Replay;
    ReplayOfDecision(t, store, p, level);
    ReplayPrefix(t, store, p, level, |t.assignments[p].derivations|);
  }

  /** After a backtrack every package has the term obtained by replaying only its
      assignments up to the target level. */
  lemma BacktrackIsReplay(t: Trail, store: Store, target: nat, p: PackageId)
    requires CanRewind(t, target) && Justified(t, store)
    ensures t.Rewound(target).TermFor(p) ==
            if p in t.assignments then Replay(t, store, p, target, t.assignments[p].Count()) else Term.Any()
  {
    RewindTerm(t, target, p);
    if p in t.assignments {
      ReplayIsTermAt(t, store, p, target);
    }
  }

  // -- Soundness of the accumulated terms ------------------------------------------------

  /** The selection takes the decided versions of all decisions before an index. */
  ghost predicate AgreesBefore(t: Trail, sel: Selection, n: nat) {
    forall p :: t.IsDecided(p) && t.assignments[p].state.index < n ==>
        p in sel && sel[p] == t.assignments[p].state.version
  }

  lemma TermBeforeOwn(a: Assignment, i: nat)
    requires AssignmentOk(a) && i < |a.derivations|
    ensures a.TermBefore(a.derivations[i].index) == Accumulated(a.derivations, i)
  {
    var g := a.derivations[i].index;
    var k := CountBefore(a.derivations, g);
  }

  /** Every consistent selection that agrees with the decisions before an index satisfies
      every term accumulated before that index. */
  lemma {:induction false} TermsBeforeSound(pr: Problem, t: Trail, store: Store, sel: Selection, n: nat, p: PackageId)
    requires TrailOk(t) && StoreOk(pr, store) && Justified(t, store)
    requires Consistent(pr, sel) && AgreesBefore(t, sel, n)
    ensures t.TermBefore(p, n).Admits(ChoiceOf(sel, p))
    decreases n, 0
  {
    hide TrailOk, StoreOk, Justified, Consistent;
    if p in t.assignments && !(t.IsDecided(p) && t.assignments[p].state.index < n) {
      var a := t.assignments[p];
      var k := CountBefore(a.derivations, n);
      if 0 < k {
        DerivationSound(pr, t, store, sel, p, k - 1);
      }
    }
  }

  /** What is left after removing a term that the choice does not admit admits the choice. */
  lemma NarrowedAdmits(before: Term, term: Term, c: Choice)
    requires before.Admits(c) && !term.Admits(c)
    ensures before.Intersection(term.Negate()).Admits(c)
  {
  }

  lemma {:induction false} DerivationSound(pr: Problem, t: Trail, store: Store, sel: Selection, p: PackageId, i: nat)
    requires TrailOk(t) && StoreOk(pr, store) && Justified(t, store) && Consistent(pr, sel)
    requires p in t.assignments && i < |t.assignments[p].derivations|
    requires AgreesBefore(t, sel, t.assignments[p].derivations[i].index)
    ensures t.assignments[p].derivations[i].accumulated.Admits(ChoiceOf(sel, p))
    decreases t.assignments[p].derivations[i].index, 2
  {
    var a := t.assignments[p];
    var d := a.derivations[i];
    assert JustifiedAt(t, store, p, i);
    hide Distinct, DecisionsSeparate, LevelsDecided, Bounded, Justified;
    TermBeforeOwn(a, i);
    TermsBeforeSound(pr, t, store, sel, d.index, p);
    CauseSound(pr, t, store, sel, p, i);
    NarrowedAdmits(Accumulated(a.derivations, i), store[d.cause].terms[p], ChoiceOf(sel, p));
  }

  lemma {:induction false} CauseSound(pr: Problem, t: Trail, store: Store, sel: Selection, p: PackageId, i: nat)
    requires TrailOk(t) && StoreOk(pr, store) && Justified(t, store) && Consistent(pr, sel)
    requires p in t.assignments && i < |t.assignments[p].derivations|
    requires JustifiedAt(t, store, p, i)
    requires AgreesBefore(t, sel, t.assignments[p].derivations[i].index)
    ensures !store[t.assignments[p].derivations[i].cause].terms[p].Admits(ChoiceOf(sel, p))
    decreases t.assignments[p].derivations[i].index, 1
  {
    hide TrailOk, Justified, Consistent;
    var d := t.assignments[p].derivations[i];
    var terms := store[d.cause].terms;
    forall q | q in terms && q != p ensures terms[q].Admits(ChoiceOf(sel, q)) {
      TermsBeforeSound(pr, t, store, sel, d.index, q);
      SubsetMeaning(t.TermBefore(q, d.index), terms[q]);
    }
    assert ClauseOk(pr, terms);
    EntailedRejects(pr, terms, sel, p);
  }

  lemma EntailedRejects(pr: Problem, terms: PackageTerms, sel: Selection, p: PackageId)
    requires Entailed(pr, terms) && Consistent(pr, sel) && p in terms
    requires forall q :: q in terms && q != p ==> terms[q].Admits(ChoiceOf(sel, q))
    ensures !terms[p].Admits(ChoiceOf(sel, p))
  {
  }

  /** Every consistent selection that agrees with the decisions up to a level satisfies the
      terms accumulated up to that level. */
  lemma TermsAtSound(pr: Problem, t: Trail, store: Store, sel: Selection, level: nat, p: PackageId)
    requires CanRewind(t, level) && StoreOk(pr, store) && Justified(t, store) && Consistent(pr, sel)
    requires forall q :: t.IsDecided(q) && t.assignments[q].state.level <= level ==>
             q in sel && sel[q] == t.assignments[q].state.version
    ensures t.TermAt(p, level).Admits(ChoiceOf(sel, p))
  {
    hide TrailOk, Justified, StoreOk, Consistent;
    var t' := t.Rewound(level);
    RewindOk(t, level);
    RewindJustified(t, store, level);
    forall q | t'.IsDecided(q) ensures q in sel && sel[q] == t'.assignments[q].state.version {
      RewindDecided(t, level, q);
    }
    TermsBeforeSound(pr, t', store, sel, t'.nextIndex, p);
    TermForIsLatest(t', p);
    RewindTerm(t, level, p);
  }
}
