/** Incompatibilities: sets of terms that no consistent selection satisfies together. */
module Incompatibilities {
  import opened Ordered
  import opened Problems
  import opened Terms

  type PackageTerms = map<PackageId, Term>

  /** Where an incompatibility comes from. Derived ones name their two causes. */
  datatype Kind =
    | RootFact
    | NoVersionsFact(package: PackageId, range: VS)
    | DependencyFact(package: PackageId, dependency: PackageId)
    | Derived(left: nat, right: nat)

  datatype Incompatibility = Incompatibility(terms: PackageTerms, kind: Kind) {

    predicate IsTerminal(root: PackageId) {
      |terms| == 0 || (|terms| == 1 && root in terms)
    }
  }

  function NotRoot(root: PackageId, version: Version): Incompatibility {
    Incompatibility(map[root := Negative({version})], RootFact)
  }

  function NoVersions(p: PackageId, range: VS): Incompatibility {
    Incompatibility(map[p := Positive(range)], NoVersionsFact(p, range))
  }

  /** Two insertions into the same map: for `p == dep` the second replaces the first. */
  function FromDependency(p: PackageId, v: Version, dep: PackageId, range: VS): Incompatibility {
    Incompatibility(map[p := Positive({v})][dep := Negative(range)], DependencyFact(p, dep))
  }

  // -- Meaning ---------------------------------------------------------------------------

  ghost predicate Holds(terms: PackageTerms, sel: Selection) {
    forall p :: p in terms ==> terms[p].Admits(ChoiceOf(sel, p))
  }

  /** The facts about packages and versions alone rule the terms out; the root need not be
      selected. */
  ghost predicate Entailed(pr: Problem, terms: PackageTerms) {
    forall sel: Selection :: Consistent(pr, sel) ==> !Holds(terms, sel)
  }

  // -- The base facts --------------------------------------------------------------------

  /** `from_dependency` says exactly that the dependency is broken, if and only if the two
      packages differ: for a self dependency it even rejects leaving the package out. */
  lemma FromDependencyExact(p: PackageId, v: Version, dep: PackageId, range: VS)
    ensures (forall sel: Selection ::
               Holds(FromDependency(p, v, dep, range).terms, sel) <==>
               p in sel && sel[p] == v && !Honours(sel, Dependency(dep, range)))
            <==> p != dep
  {
    var terms := FromDependency(p, v, dep, range).terms;
    if p == dep {
      var nothing: Selection := map[];
      assert Holds(terms, nothing);
    } else {
      forall sel: Selection
        ensures Holds(terms, sel) <==> p in sel && sel[p] == v && !Honours(sel, Dependency(dep, range))
      {
        assert p in terms && dep in terms;
        assert terms[p].Admits(ChoiceOf(sel, p)) <==> p in sel && sel[p] == v;
        assert terms[dep].Admits(ChoiceOf(sel, dep)) <==> !Honours(sel, Dependency(dep, range));
      }
    }
  }

  lemma DependencyEntailed(pr: Problem, p: PackageId, v: Version, i: nat)
    requires pr.WellFormed() && i < |pr.Dependencies(p, v)|
    ensures var d := pr.Dependencies(p, v)[i]; Entailed(pr, FromDependency(p, v, d.package, d.range).terms)
  {
    var d := pr.Dependencies(p, v)[i];
    pr.DependencyFacts(p, v, i);
    FromDependencyExact(p, v, d.package, d.range);
  }

  lemma NoVersionsEntailed(pr: Problem, p: PackageId, range: VS)
    requires p != ROOT && forall v :: v in pr.Versions(p) ==> v !in range
    ensures Entailed(pr, NoVersions(p, range).terms)
  {
    forall sel: Selection | Consistent(pr, sel) ensures !Holds(NoVersions(p, range).terms, sel) {
      assert p in NoVersions(p, range).terms;
    }
  }

  /** Selecting nothing breaks no fact, so an entailed set of terms demands some package:
      it is neither empty nor purely negative. */
  lemma EntailedHasPositive(pr: Problem, terms: PackageTerms)
    requires Entailed(pr, terms)
    ensures exists p :: p in terms && terms[p].Positive?
  {
    var nothing: Selection := map[];
    assert Consistent(pr, nothing);
  }

  // -- Resolution ------------------------------------------------------------------------

  function MergedTerm(a: PackageTerms, b: PackageTerms, p: PackageId): Term
    requires p in a || p in b
  {
    if p in a && p in b then a[p].Intersection(b[p]) else if p in a then a[p] else b[p]
  }

  function PivotTerm(a: PackageTerms, b: PackageTerms, pivot: PackageId): Term {
    if pivot in a && pivot in b then a[pivot].Union(b[pivot])
    else if pivot in a then a[pivot]
    else if pivot in b then b[pivot]
    else Term.Any()
  }

  function RestTerms(a: PackageTerms, b: PackageTerms, pivot: PackageId): (terms: PackageTerms)
    ensures forall p :: p in terms <==> p != pivot && (p in a || p in b)
    ensures forall p :: p in terms ==> terms[p] == MergedTerm(a, b, p)
  {
    map p | p in a.Keys + b.Keys && p != pivot :: MergedTerm(a, b, p)
  }

  /** The resolvent of two term sets on a pivot package. */
  function PriorTerms(a: PackageTerms, b: PackageTerms, pivot: PackageId): PackageTerms {
    var t := PivotTerm(a, b, pivot);
    if t.IsAny() then RestTerms(a, b, pivot) else RestTerms(a, b, pivot)[pivot := t]
  }

  /** Resolution is sound: a selection that satisfies the resolvent satisfies one of the
      two parents. */
  lemma PriorTermsSound(a: PackageTerms, b: PackageTerms, pivot: PackageId, sel: Selection)
    requires Holds(PriorTerms(a, b, pivot), sel)
    ensures Holds(a, sel) || Holds(b, sel)
  {
    var prior := PriorTerms(a, b, pivot);
    var c := ChoiceOf(sel, pivot);
    forall p | p in a.Keys + b.Keys && p != pivot
      ensures p in a ==> a[p].Admits(ChoiceOf(sel, p))
      ensures p in b ==> b[p].Admits(ChoiceOf(sel, p))
    {
      assert prior[p] == MergedTerm(a, b, p);
    }
    if pivot in a && pivot in b {
      assert PivotTerm(a, b, pivot).Admits(c);
      OperationsMeaning(a[pivot], b[pivot], c);
    }
  }

  lemma PriorTermsEntailed(pr: Problem, a: PackageTerms, b: PackageTerms, pivot: PackageId)
    requires Entailed(pr, a) && Entailed(pr, b)
    ensures Entailed(pr, PriorTerms(a, b, pivot))
  {
    forall sel: Selection | Consistent(pr, sel) && Holds(PriorTerms(a, b, pivot), sel) ensures false {
      PriorTermsSound(a, b, pivot, sel);
    }
  }

  /** `b` has been merged into the copy of `a`, except for the packages still to do. */
  ghost predicate Merged(a: PackageTerms, b: PackageTerms, pivot: PackageId, todo: set<PackageId>,
                         terms: PackageTerms) {
    && (forall p :: p in terms <==> p != pivot && (p in a || (p in b && p !in todo)))
    && (forall p :: p in terms ==> terms[p] == if p in todo then a[p] else MergedTerm(a, b, p))
  }

  function MergeOne(terms: PackageTerms, b: PackageTerms, pivot: PackageId, p: PackageId): PackageTerms
    requires p in b
  {
    if p == pivot then terms
    else terms[p := if p in terms then terms[p].Intersection(b[p]) else b[p]]
  }

  lemma MergeOneMerges(a: PackageTerms, b: PackageTerms, pivot: PackageId, todo: set<PackageId>, terms: PackageTerms,
                       p: PackageId)
    requires Merged(a, b, pivot, todo, terms) && p in todo && todo <= b.Keys
    ensures Merged(a, b, pivot, todo - {p}, MergeOne(terms, b, pivot, p))
  {
  }

  lemma MergedIsRest(a: PackageTerms, b: PackageTerms, pivot: PackageId, terms: PackageTerms)
    requires Merged(a, b, pivot, {}, terms)
    ensures terms == RestTerms(a, b, pivot)
  {
    assert terms.Keys == RestTerms(a, b, pivot).Keys;
  }

  /** The terms of both parents outside the pivot: the second parent is merged into the
      copied first one, in place; the order of the visits does not matter. */
  method MergeRest(a: PackageTerms, b: PackageTerms, pivot: PackageId) returns (terms: PackageTerms)
    ensures terms == RestTerms(a, b, pivot)
  {
    terms := map p | p in a && p != pivot :: a[p];
    var todo := b.Keys;
    while todo != {}
      invariant todo <= b.Keys && Merged(a, b, pivot, todo, terms)
      decreases |todo|
    {
      var p :| p in todo;
      MergeOneMerges(a, b, pivot, todo, terms, p);
      terms := MergeOne(terms, b, pivot, p);
      todo := todo - {p};
    }
    MergedIsRest(a, b, pivot, terms);
  }

  /** The merge in place computes the resolvent. */
  method PriorCause(a: Incompatibility, b: Incompatibility, pivot: PackageId) returns (terms: PackageTerms)
    ensures terms == PriorTerms(a.terms, b.terms, pivot)
  {
    terms := MergeRest(a.terms, b.terms, pivot);
    var t := PivotTerm(a.terms, b.terms, pivot);
    if !t.IsAny() {
      terms := terms[pivot := t];
    }
  }
}
