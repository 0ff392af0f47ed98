/** Terms that do not tell a version from a point beside it, as long as the version was not
    expanded: then it is never the only one left for its package. */
module Pins {
  import opened Incompatibilities
  import opened Justifications
  import opened Problems
  import opened Terms
  import opened Trails
  import opened TrailUpdates

  type PackageVersions = set<(PackageId, Version)>

  predicate Alike(term: Term, v: Version, w: Version) {
    v in term.range <==> w in term.range
  }

  /** Twins of versions that are not marked look alike to the terms. */
  ghost predicate TermsAlike(pr: Problem, terms: PackageTerms, marked: PackageVersions) {
    forall p: PackageId, v: Version, w: Version ::
      p in terms && p != ROOT && Twins(pr, p, v, w) && (p, v) !in marked ==> Alike(terms[p], v, w)
  }

  ghost predicate StoreAlike(pr: Problem, store: Store, marked: PackageVersions) {
    forall i :: 1 <= i < |store| ==> TermsAlike(pr, store[i].terms, marked)
  }

  lemma MarkedAlike(pr: Problem, store: Store, marked: PackageVersions, more: PackageVersions)
    requires StoreAlike(pr, store, marked)
    ensures StoreAlike(pr, store, marked + more)
  {
    forall i | 1 <= i < |store| ensures TermsAlike(pr, store[i].terms, marked + more) {
      assert TermsAlike(pr, store[i].terms, marked);
    }
  }

  /** Only the expanded version itself is told apart by its dependencies. */
  lemma DependencyAlike(pr: Problem, p: PackageId, v: Version, i: nat, marked: PackageVersions)
    requires pr.WellFormed() && i < |pr.Dependencies(p, v)| && (p, v) in marked && (p != ROOT ==> v in pr.Versions(p))
    ensures var d := pr.Dependencies(p, v)[i]; TermsAlike(pr, FromDependency(p, v, d.package, d.range).terms, marked)
  {
    var d := pr.Dependencies(p, v)[i];
    assert pr.dependencies[(p, v)][i] == d;
  }

  lemma PriorAlike(pr: Problem, a: PackageTerms, b: PackageTerms, pivot: PackageId, marked: PackageVersions)
    requires TermsAlike(pr, a, marked) && TermsAlike(pr, b, marked)
    ensures TermsAlike(pr, PriorTerms(a, b, pivot), marked)
  {
    var prior := PriorTerms(a, b, pivot);
    forall p: PackageId, v: Version, w: Version | p in prior && p != ROOT && Twins(pr, p, v, w) && (p, v) !in marked
      ensures Alike(prior[p], v, w)
    {
      assert p in a ==> Alike(a[p], v, w);
      assert p in b ==> Alike(b[p], v, w);
      if p != pivot {
        assert prior[p] == MergedTerm(a, b, p);
      }
    }
  }

  /** Derived terms are intersections of stored ones. */
  lemma {:induction false} AccumulatedAlike(pr: Problem, t: Trail, store: Store, marked: PackageVersions, p: PackageId,
                                            k: nat,
                                            v: Version, w: Version)
    requires Justified(t, store) && StoreAlike(pr, store, marked)
    requires p in t.assignments && p != ROOT && k <= |t.assignments[p].derivations|
    requires Twins(pr, p, v, w) && (p, v) !in marked
    ensures Alike(Accumulated(t.assignments[p].derivations, k), v, w)
    decreases k
  {
    if k > 0 {
      AccumulatedAlike(pr, t, store, marked, p, k - 1, v, w);
      assert JustifiedAt(t, store, p, k - 1);
      var cause := store[t.assignments[p].derivations[k - 1].cause].terms;
      assert TermsAlike(pr, cause, marked);
      assert Alike(cause[p], v, w);
    }
  }

  lemma UndecidedAlike(pr: Problem, t: Trail, store: Store, marked: PackageVersions, p: PackageId, v: Version,
                       w: Version)
    requires TrailOk(t) && Justified(t, store) && StoreAlike(pr, store, marked)
    requires p in t.assignments && p != ROOT && !t.IsDecided(p) && Twins(pr, p, v, w) && (p, v) !in marked
    ensures Alike(t.TermFor(p), v, w)
  {
    var a := t.assignments[p];
    assert AssignmentOk(a);
    AccumulatedAlike(pr, t, store, marked, p, |a.derivations|, v, w);
  }

  /** A range of which no version is left is one that no version can be told apart by. */
  lemma RequiredAlike(pr: Problem, t: Trail, store: Store, marked: PackageVersions, p: PackageId, range: VS)
    requires TrailOk(t) && Justified(t, store) && StoreAlike(pr, store, marked)
    requires p in t.assignments && p != ROOT && t.assignments[p].state == Derivations(Positive(range))
    ensures TermsAlike(pr, NoVersions(p, range).terms, marked)
  {
    forall v: Version, w: Version | Twins(pr, p, v, w) && (p, v) !in marked ensures Alike(Positive(range), v, w) {
      UndecidedAlike(pr, t, store, marked, p, v, w);
    }
  }

  /** A version that has a twin is not the only point left for its package when it is expanded. */
  lemma TwinLeft(pr: Problem, t: Trail, store: Store, marked: PackageVersions, p: PackageId, v: Version)
    requires TrailOk(t) && Justified(t, store) && StoreAlike(pr, store, marked)
    requires p in t.assignments && p != ROOT && !t.IsDecided(p) && t.TermFor(p).Admits(Selected(v)) && (p, v) !in marked
    requires HasTwin(pr, p, v)
    ensures !t.TermFor(p).SubsetOf(Positive({v}))
  {
    var w :| Twins(pr, p, v, w);
    UndecidedAlike(pr, t, store, marked, p, v, w);
  }
}
