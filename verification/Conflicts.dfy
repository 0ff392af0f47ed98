/** The steps of conflict resolution: resolving with the cause of the latest satisfier walks
    down the trail, and backing out of a decision leaves the learned incompatibility unit. */
module Conflicts {
  import opened Backtracking
  import opened Incompatibilities
  import opened Justifications
  import opened Options
  import opened Problems
  import opened Satisfiers
  import opened Terms
  import opened Trails
  import opened TrailUpdates

  ghost predicate Conflict(t: Trail, store: Store, terms: PackageTerms) {
    TrailOk(t) && Justified(t, store) && AllSatisfied(t, terms)
  }

  /** Something in a conflict was assigned, because an entailed incompatibility demands some
      package and demands are not satisfied by absence. */
  lemma ConflictHasAssigned(pr: Problem, t: Trail, terms: PackageTerms)
    requires Entailed(pr, terms) && AllSatisfied(t, terms)
    ensures exists p :: p in terms && p in t.assignments
  {
    EntailedHasPositive(pr, terms);
    var p :| p in terms && terms[p].Positive?;
    assert p in t.assignments;
  }

  lemma LatestIsStrict(t: Trail, terms: PackageTerms, info: SatisfierInfo, q: PackageId)
    requires TrailOk(t) && AllSatisfied(t, terms) && IsLatest(t, terms, info)
    requires q in terms && q in t.assignments && q != info.package
    ensures SatisfierOf(t, terms, q).index < SatisfierOf(t, terms, info.package).index
  {
    SatisfierIsEntry(t, terms, q);
    SatisfierIsEntry(t, terms, info.package);
  }

  // -- Resolving -------------------------------------------------------------------------

  lemma OtherSatisfiedBefore(t: Trail, terms: PackageTerms, info: SatisfierInfo, q: PackageId)
    requires TrailOk(t) && AllSatisfied(t, terms) && IsLatest(t, terms, info) && q in terms && q != info.package
    ensures t.TermBefore(q, SatisfierOf(t, terms, info.package).index).SubsetOf(terms[q])
  {
    if q in t.assignments {
      LatestIsStrict(t, terms, info, q);
      SatisfiedSince(t, terms, q);
    }
  }

  /** What was known about the pivot before the satisfier satisfies the merged pivot term. */
  lemma PivotSatisfiedBefore(t: Trail, store: Store, terms: PackageTerms, p: PackageId)
    requires TrailOk(t) && Justified(t, store) && p in terms && p in t.assignments && t.TermFor(p).SubsetOf(terms[p])
    requires var i := SatisfyingEntry(t.assignments[p], terms[p]); i < |t.assignments[p].derivations|
    ensures var s := SatisfierOf(t, terms, p);
            && s.cause.Some? && 1 <= s.cause.value < |store| && p in store[s.cause.value].terms
            && t.TermBefore(p, s.index).SubsetOf(terms[p].Union(store[s.cause.value].terms[p]))
  {
    var a := t.assignments[p];
    var i := SatisfyingEntry(a, terms[p]);
    assert JustifiedAt(t, store, p, i);
    TermBeforeOwn(a, i);
    DisjointFromNegation(a.derivations[i].accumulated, terms[p]);
    SubsetOfUnion(Accumulated(a.derivations, i), store[a.derivations[i].cause].terms[p], terms[p]);
  }

  /** The resolvent with the cause of the latest satisfier was satisfied before it. */
  lemma ResolventSatisfiedBefore(t: Trail, store: Store, terms: PackageTerms, info: SatisfierInfo)
    requires Conflict(t, store, terms) && IsLatest(t, terms, info) && info.cause.Some?
    ensures 1 <= info.cause.value < |store| && info.package in store[info.cause.value].terms
    ensures SatisfiedBefore(t, PriorTerms(terms, store[info.cause.value].terms, info.package),
                            SatisfierOf(t, terms, info.package).index)
  {
    var p := info.package;
    var g := SatisfierOf(t, terms, p).index;
    SatisfierIsEntry(t, terms, p);
    PivotSatisfiedBefore(t, store, terms, p);
    var i := SatisfyingEntry(t.assignments[p], terms[p]);
    var cause := store[info.cause.value].terms;
    assert JustifiedAt(t, store, p, i);
    forall q | q in PriorTerms(terms, cause, p)
      ensures t.TermBefore(q, g).SubsetOf(PriorTerms(terms, cause, p)[q])
    {
      if q != p {
        if q in terms {
          OtherSatisfiedBefore(t, terms, info, q);
        }
        if q in terms && q in cause {
          SubsetOfIntersection(t.TermBefore(q, g), terms[q], cause[q]);
        }
      }
    }
  }

  lemma SatisfiedBeforeIsSatisfied(t: Trail, terms: PackageTerms, g: nat)
    requires TrailOk(t) && SatisfiedBefore(t, terms, g)
    ensures AllSatisfied(t, terms)
  {
    forall q | q in terms ensures t.TermFor(q).SubsetOf(terms[q]) {
      TermForNarrows(t, q);
      SubsetTransitive(t.TermFor(q), t.TermBefore(q, g), terms[q]);
    }
  }

  /** A resolution step lowers the index of the satisfier exactly when every trivially true
      term of the resolvent belongs to a package first assigned before it (or unassigned). */
  lemma ResolutionDescends(t: Trail, prior: PackageTerms, g: nat, next: SatisfierInfo)
    requires TrailOk(t) && SatisfiedBefore(t, prior, g) && IsLatest(t, prior, next)
    ensures SatisfierOf(t, prior, next.package).index < g <==>
            forall q :: q in prior && q in t.assignments && prior[q].IsAny() ==> t.IndexOf(q, 0) < g
  {
    forall q | q in prior && q in t.assignments
      ensures if prior[q].IsAny() then SatisfierOf(t, prior, q).index == t.IndexOf(q, 0)
              else SatisfierOf(t, prior, q).index < g
    {
      if prior[q].IsAny() {
        assert AssignmentOk(t.assignments[q]);
      } else {
        SatisfierBefore(t, prior, q, g);
      }
    }
  }

  /** Resolving two stored incompatibilities gives one that may be stored. */
  lemma PriorClauseOk(pr: Problem, a: PackageTerms, b: PackageTerms, pivot: PackageId)
    requires ClauseOk(pr, a) && ClauseOk(pr, b)
    ensures ClauseOk(pr, PriorTerms(a, b, pivot))
  {
    PriorTermsEntailed(pr, a, b, pivot);
    var prior := PriorTerms(a, b, pivot);
    forall p | p in prior
      ensures p < pr.packages && prior[p].range <= pr.universe
      ensures p == ROOT ==> prior[p] == Positive({pr.rootVersion})
    {
      if p != pivot {
        assert prior[p] == MergedTerm(a, b, p);
      }
    }
    PriorTrivial(pr, a, b, pivot);
  }

  lemma PriorTrivial(pr: Problem, a: PackageTerms, b: PackageTerms, pivot: PackageId)
    requires TrivialExact(pr, a) && TrivialExact(pr, b)
    ensures TrivialExact(pr, PriorTerms(a, b, pivot))
  {
    var prior := PriorTerms(a, b, pivot);
    if pr.ContradictedAlone() {
      forall p | p in prior ensures prior[p].IsAny() <==> pr.Contradicted(p) {
        if p != pivot {
          assert prior[p] == MergedTerm(a, b, p);
          if p in a && p in b {
            IntersectionIsAny(a[p], b[p]);
          }
        } else if p in a && p in b {
          UnionOfAny(a[p], b[p]);
        }
      }
    }
  }

  lemma UnionOfAny(a: Term, b: Term)
    ensures a.IsAny() ==> a.Union(b).IsAny()
  {
  }

  lemma IntersectionIsAny(a: Term, b: Term)
    ensures a.Intersection(b).IsAny() <==> a.IsAny() && b.IsAny()
  {
    if a.Negative? && b.Negative? {
      assert a.range <= a.range + b.range && b.range <= a.range + b.range;
    }
  }

  /** Nothing is ever derived for a package all requirements on which are contradictory. */
  lemma AssignedNotContradicted(pr: Problem, t: Trail, store: Store, p: PackageId)
    requires pr.WellFormed() && pr.ContradictedAlone() && StoreOk(pr, store) && TrailOk(t) && Justified(t, store)
    requires p in t.assignments && (p == ROOT || t.assignments[p].derivations != [])
    ensures !pr.Contradicted(p)
  {
    pr.RootNotContradicted();
    if p != ROOT {
      var a := t.assignments[p];
      assert AssignmentOk(a) && JustifiedAt(t, store, p, 0);
      var cause := store[a.derivations[0].cause].terms;
      assert ClauseOk(pr, cause);
      FirstIsReal(a.derivations, cause[p]);
    }
  }

  /** The first derivation says something and leaves something. */
  lemma FirstIsReal(ds: seq<Derivation>, term: Term)
    requires Chain(ds) && ds != [] && ds[0].accumulated == Accumulated(ds, 0).Intersection(term.Negate())
    ensures !term.IsAny()
  {
  }

  // -- Backing out of a decision ---------------------------------------------------------

  /** Everything else was satisfied on lower levels than the satisfying decision. */
  lemma DecisionLevels(t: Trail, terms: PackageTerms, info: SatisfierInfo)
    requires TrailOk(t) && AllSatisfied(t, terms) && IsLatest(t, terms, info) && IsPrevious(t, terms, info)
             && info.isDecision
    ensures info.previous < info.level <= t.level
    ensures t.IsDecided(info.package) && t.assignments[info.package].state.level == info.level
  {
    var p := info.package;
    SatisfierIsEntry(t, terms, p);
    assert Separates(t, p);
    if 0 < info.previous {
      var q :| q in terms && q in t.assignments && q != p && SatisfierOf(t, terms, q).level == info.previous;
      SatisfierIsEntry(t, terms, q);
      LatestIsStrict(t, terms, info, q);
    } else {
      assert AssignmentOk(t.assignments[p]);
    }
  }

  lemma OthersSatisfiedAfterBackjump(t: Trail, terms: PackageTerms, info: SatisfierInfo)
    requires TrailOk(t) && AllSatisfied(t, terms) && IsLatest(t, terms, info) && IsPrevious(t, terms, info)
    requires info.previous <= t.level
    ensures OthersSatisfied(t.Rewound(info.previous), terms, info.package)
  {
    forall q | q in terms && q != info.package
      ensures t.Rewound(info.previous).TermFor(q).SubsetOf(terms[q])
    {
      RewindTerm(t, info.previous, q);
      if q in t.assignments {
        SatisfiedSince(t, terms, q);
      }
    }
  }

  /** As of any earlier level the term of the decided package is open: it neither satisfies
      the incompatibility, else there would be an earlier satisfier, nor contradicts it,
      because of the decided version. */
  lemma DecidedTermWasOpen(t: Trail, terms: PackageTerms, p: PackageId, level: nat)
    requires TrailOk(t) && p in terms && t.IsDecided(p) && t.TermFor(p).SubsetOf(terms[p])
    requires SatisfierOf(t, terms, p).isDecision && level < t.assignments[p].state.level
    requires t.assignments[p].derivations == [] ==> !terms[p].IsAny()
    ensures t.TermAt(p, level).RelationWith(terms[p]).Inconclusive?
  {
    var a := t.assignments[p];
    assert AssignmentOk(a);
    var n, k := |a.derivations|, CountAt(a.derivations, level);
    var before := Accumulated(a.derivations, k);
    SatisfierIsEntry(t, terms, p);
    if 0 < k {
      DisjointFromNegation(a.derivations[k - 1].accumulated, terms[p]);
      EntriesNarrow(a, k - 1, n - 1);
    } else if 0 < n {
      DisjointFromNegation(a.derivations[0].accumulated, terms[p]);
    }
    SubsetMeaning(Accumulated(a.derivations, n), before);
    SubsetMeaning(t.TermFor(p), terms[p]);
    var c := Selected(a.state.version);
    assert t.TermFor(p).Admits(c);
    assert before.Admits(c) && terms[p].Admits(c);
    DisjointMeaning(before, terms[p]);
  }

  /** After the backjump the learned incompatibility is unit on the returned package, so the
      derivation that follows is forced, strictly narrowing and not empty. */
  lemma BackjumpIsUnit(t: Trail, store: Store, terms: PackageTerms, info: SatisfierInfo)
    requires Conflict(t, store, terms) && IsLatest(t, terms, info) && IsPrevious(t, terms, info) && info.isDecision
    requires t.assignments[info.package].derivations == [] ==> !terms[info.package].IsAny()
    ensures info.previous < info.level <= t.level
    ensures OthersSatisfied(t.Rewound(info.previous), terms, info.package)
    ensures t.Rewound(info.previous).TermFor(info.package).RelationWith(terms[info.package]).Inconclusive?
    ensures CanDerive(t.Rewound(info.previous), info.package, terms[info.package].Negate())
  {
    var p := info.package;
    DecisionLevels(t, terms, info);
    OthersSatisfiedAfterBackjump(t, terms, info);
    DecidedTermWasOpen(t, terms, p, info.previous);
    RewindTerm(t, info.previous, p);
    RewindOk(t, info.previous);
    RewindDecided(t, info.previous, p);
    StrictNarrowing(t.TermAt(p, info.previous), terms[p]);
  }
}
