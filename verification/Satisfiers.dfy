/** Conflict analysis: which assignment made an incompatibility fully satisfied, and what
    resolving with its cause, or backing out of it, achieves. */
module Satisfiers {
  import opened Backtracking
  import opened Incompatibilities
  import opened Justifications
  import opened Options
  import opened Problems
  import opened Terms
  import opened Trails
  import opened TrailUpdates

  datatype Satisfier = Satisfier(index: nat, level: nat, cause: Option<nat>, isDecision: bool)

  datatype SatisfierInfo = SatisfierInfo(package: PackageId, level: nat, previous: nat, cause: Option<nat>,
      isDecision: bool)

  /** The first derivation from `i` on that is disjoint from the start term. */
  function FirstDisjoint(ds: seq<Derivation>, start: Term, i: nat): (k: nat)
    requires i <= |ds|
    ensures i <= k <= |ds|
    ensures k < |ds| ==> ds[k].accumulated.IsDisjoint(start)
    ensures forall j :: i <= j < k ==> !ds[j].accumulated.IsDisjoint(start)
    decreases |ds| - i
  {
    if i == |ds| || ds[i].accumulated.IsDisjoint(start) then i else FirstDisjoint(ds, start, i + 1)
  }

  /** The earliest assignment of a package that satisfies the term whose negation is given. */
  function FindSatisfier(t: Trail, a: Assignment, start: Term): Satisfier {
    var k := FirstDisjoint(a.derivations, start, 0);
    if k < |a.derivations| then
      Satisfier(a.derivations[k].index, a.derivations[k].level, Some(a.derivations[k].cause), false)
    else match a.state
      case Decision(l, _, g) => Satisfier(g, l, None, true)
      case Derivations(_) => Satisfier(t.nextIndex, a.highest, None, false)
  }

  /** The satisfier of one term of an incompatibility. */
  function SatisfierOf(t: Trail, terms: PackageTerms, q: PackageId): Satisfier
    requires q in terms && q in t.assignments
  {
    FindSatisfier(t, t.assignments[q], terms[q].Negate())
  }

  /** The result of the satisfier search: the latest of the satisfiers, and the highest
      level among the others. */
  ghost predicate IsLatest(t: Trail, terms: PackageTerms, info: SatisfierInfo) {
    && info.package in terms && info.package in t.assignments
    && (var s := SatisfierOf(t, terms, info.package);
        && info.level == s.level && info.cause == s.cause && info.isDecision == s.isDecision
        && forall q :: q in terms && q in t.assignments ==> SatisfierOf(t, terms, q).index <= s.index)
  }

  ghost predicate IsPrevious(t: Trail, terms: PackageTerms, info: SatisfierInfo) {
    && (forall q :: q in terms && q in t.assignments && q != info.package ==>
         SatisfierOf(t, terms, q).level <= info.previous)
    && (info.previous == 0 ||
        exists q :: q in terms && q in t.assignments && q != info.package
            && SatisfierOf(t, terms, q).level == info.previous)
  }

  ghost predicate AllSatisfied(t: Trail, terms: PackageTerms) {
    forall q :: q in terms ==> t.TermFor(q).SubsetOf(terms[q])
  }

  ghost predicate SatisfiedBefore(t: Trail, terms: PackageTerms, index: nat) {
    forall q :: q in terms ==> t.TermBefore(q, index).SubsetOf(terms[q])
  }

  // -- Satisfiers of satisfied terms -----------------------------------------------------

  /** The entry the satisfier search finds for one package. */
  function SatisfyingEntry(a: Assignment, term: Term): nat {
    FirstDisjoint(a.derivations, term.Negate(), 0)
  }

  lemma SatisfierIsEntry(t: Trail, terms: PackageTerms, q: PackageId)
    requires TrailOk(t) && q in terms && q in t.assignments && t.TermFor(q).SubsetOf(terms[q])
    ensures var i := SatisfyingEntry(t.assignments[q], terms[q]);
            var s := SatisfierOf(t, terms, q);
            && t.HasEntry(q, i) && s.index == t.IndexOf(q, i) && s.level == t.LevelOf(q, i)
            && (s.isDecision <==> i == |t.assignments[q].derivations|)
            && (s.isDecision ==> t.IsDecided(q) && s.cause == None)
            && (!s.isDecision ==> s.cause == Some(t.assignments[q].derivations[i].cause))
  {
    var a := t.assignments[q];
    assert AssignmentOk(a);
    DisjointFromNegation(t.TermFor(q), terms[q]);
  }

  lemma EntriesNarrow(a: Assignment, i: nat, j: nat)
    requires AssignmentOk(a) && i <= j < |a.derivations|
    ensures a.derivations[j].accumulated.SubsetOf(a.derivations[i].accumulated)
  {
  }

  lemma TermNarrows(a: Assignment, k: nat)
    requires AssignmentOk(a) && k <= |a.derivations|
    ensures a.Term().SubsetOf(Accumulated(a.derivations, k))
  {
    var n := |a.derivations|;
    if 0 < k < n {
      EntriesNarrow(a, k - 1, n - 1);
    }
    if a.state.Decision? {
      SubsetMeaning(Accumulated(a.derivations, n), Accumulated(a.derivations, k));
      SubsetMeaning(a.Term(), Accumulated(a.derivations, k));
    }
  }

  /** The current term is narrower than the term as of any index or level. */
  lemma TermForNarrows(t: Trail, q: PackageId)
    requires TrailOk(t)
    ensures forall g: nat :: t.TermFor(q).SubsetOf(t.TermBefore(q, g))
    ensures forall l: nat :: t.TermFor(q).SubsetOf(t.TermAt(q, l))
  {
    if q in t.assignments {
      var a := t.assignments[q];
      forall k: nat | k <= |a.derivations| ensures a.Term().SubsetOf(Accumulated(a.derivations, k)) {
        TermNarrows(a, k);
      }
    }
  }

  /** From its satisfier on, a term stays satisfied: as of every later index and level. */
  lemma SatisfiedSince(t: Trail, terms: PackageTerms, q: PackageId)
    requires TrailOk(t) && q in terms && q in t.assignments && t.TermFor(q).SubsetOf(terms[q])
    ensures forall g: nat :: SatisfierOf(t, terms, q).index < g ==> t.TermBefore(q, g).SubsetOf(terms[q])
    ensures forall l: nat :: SatisfierOf(t, terms, q).level <= l ==> t.TermAt(q, l).SubsetOf(terms[q])
  {
    var a := t.assignments[q];
    var i := SatisfyingEntry(a, terms[q]);
    SatisfierIsEntry(t, terms, q);
    forall g: nat | SatisfierOf(t, terms, q).index < g ensures a.TermBefore(g).SubsetOf(terms[q]) {
      SatisfiedFrom(a, terms[q], i, CountBefore(a.derivations, g));
    }
    forall l: nat | SatisfierOf(t, terms, q).level <= l ensures a.TermAt(l).SubsetOf(terms[q]) {
      SatisfiedFrom(a, terms[q], i, CountAt(a.derivations, l));
    }
  }

  lemma SatisfiedFrom(a: Assignment, term: Term, i: nat, k: nat)
    requires AssignmentOk(a) && i == SatisfyingEntry(a, term) && k <= |a.derivations|
    ensures i < k ==> Accumulated(a.derivations, k).SubsetOf(term)
  {
    if i < k {
      DisjointFromNegation(a.derivations[i].accumulated, term);
      if i < k - 1 {
        SubsetTransitive(a.derivations[k - 1].accumulated, a.derivations[i].accumulated, term);
      }
    }
  }

  /** A real term that is satisfied before an index has its satisfier before that index. */
  lemma SatisfierBefore(t: Trail, terms: PackageTerms, q: PackageId, g: nat)
    requires TrailOk(t) && q in terms && !terms[q].IsAny() && t.TermBefore(q, g).SubsetOf(terms[q])
    ensures q in t.assignments && SatisfierOf(t, terms, q).index < g
  {
    var a := t.assignments[q];
    var k := CountBefore(a.derivations, g);
    if 0 < k && a.derivations[k - 1].accumulated.SubsetOf(terms[q]) {
      DisjointFromNegation(a.derivations[k - 1].accumulated, terms[q]);
      assert SatisfyingEntry(a, terms[q]) <= k - 1;
    }
  }
}
