/** Terms over version sets, the atoms of the resolver.

    A version range of the solver is modelled as a finite set of versions. A term speaks
    about what one package contributes to a selection, which is either nothing at all or
    exactly one version, so its meaning is the set of choices it admits. */
module Terms {
  type Version = nat
  type VS = set<Version>

  /** What a selection says about one package. */
  datatype Choice = Absent | Selected(version: Version)

  datatype Relation = Satisfied | Contradicted | Inconclusive

  datatype Term = Positive(range: VS) | Negative(range: VS) {

    /** The meaning of a term: a positive term wants a version of its range, a negative
        term rejects the versions of its range and is content with absence. */
    predicate Admits(c: Choice) {
      match this
      case Positive(r) => c.Selected? && c.version in r
      case Negative(r) => c.Selected? ==> c.version !in r
    }

    static function Any(): Term {
      Negative({})
    }

    function Negate(): Term {
      match this
      case Positive(r) => Negative(r)
      case Negative(r) => Positive(r)
    }

    function Intersection(other: Term): Term {
      match (this, other)
      case (Positive(a), Positive(b)) => Positive(a * b)
      case (Positive(p), Negative(n)) => Positive(p - n)
      case (Negative(n), Positive(p)) => Positive(p - n)
      case (Negative(a), Negative(b)) => Negative(a + b)
    }

    function Union(other: Term): Term {
      match (this, other)
      case (Positive(a), Positive(b)) => Positive(a + b)
      case (Positive(p), Negative(n)) => Negative(n - p)
      case (Negative(n), Positive(p)) => Negative(n - p)
      case (Negative(a), Negative(b)) => Negative(a * b)
    }

    predicate IsDisjoint(other: Term) {
      match (this, other)
      case (Positive(a), Positive(b)) => a !! b
      case (Positive(p), Negative(n)) => p <= n
      case (Negative(n), Positive(p)) => p <= n
      case (Negative(_), Negative(_)) => false
    }

    predicate SubsetOf(other: Term) {
      match (this, other)
      case (Positive(a), Positive(b)) => a <= b
      case (Positive(p), Negative(n)) => p !! n
      case (Negative(_), Positive(_)) => false
      case (Negative(a), Negative(b)) => b <= a
    }

    function RelationWith(other: Term): Relation {
      if SubsetOf(other) then Satisfied
      else if IsDisjoint(other) then Contradicted
      else Inconclusive
    }

    predicate IsAny() {
      this == Any()
    }

    /** No choice at all is admitted. */
    predicate IsEmpty() {
      this == Positive({})
    }
  }

  // -- The operations compute what their names say, on the meaning -----------------------

  lemma OperationsMeaning(a: Term, b: Term, c: Choice)
    ensures a.Negate().Admits(c) <==> !a.Admits(c)
    ensures a.Intersection(b).Admits(c) <==> a.Admits(c) && b.Admits(c)
    ensures a.Union(b).Admits(c) <==> a.Admits(c) || b.Admits(c)
  {
  }

  /** `subset_of` decides inclusion of meanings, in both directions: in particular a
      negative term is never included in a positive one, because of absence. */
  lemma SubsetMeaning(a: Term, b: Term)
    ensures a.SubsetOf(b) <==> forall c: Choice :: a.Admits(c) ==> b.Admits(c)
  {
    if !a.SubsetOf(b) {
      var c: Choice := match (a, b)
        case (Positive(x), Positive(y)) => (var v :| v in x - y; Selected(v))
        case (Positive(x), Negative(y)) => (var v :| v in x * y; Selected(v))
        case (Negative(x), Positive(y)) => Absent
        case (Negative(x), Negative(y)) => (var v :| v in y - x; Selected(v));
      assert a.Admits(c) && !b.Admits(c);
    }
  }

  /** `is_disjoint` decides that no choice is admitted by both terms. */
  lemma DisjointMeaning(a: Term, b: Term)
    ensures a.IsDisjoint(b) <==> forall c: Choice :: !(a.Admits(c) && b.Admits(c))
  {
    if !a.IsDisjoint(b) {
      var c: Choice := match (a, b)
        case (Positive(x), Positive(y)) => (var v :| v in x * y; Selected(v))
        case (Positive(x), Negative(y)) => (var v :| v in x - y; Selected(v))
        case (Negative(x), Positive(y)) => (var v :| v in y - x; Selected(v))
        case (Negative(x), Negative(y)) => Absent;
      assert a.Admits(c) && b.Admits(c);
    }
  }

  /** The trivially true term is recognised syntactically. */
  lemma AnyMeaning(t: Term)
    ensures t.IsAny() <==> forall c: Choice :: t.Admits(c)
  {
    if !t.IsAny() {
      match t
      case Positive(r) => assert !t.Admits(Absent);
      case Negative(r) =>
        var v :| v in r;
        assert !t.Admits(Selected(v));
    }
  }

  /** The three-way relation splits on the meaning: everything admitted by `a` is admitted
      by `b`, or nothing is, or both kinds of choices exist. */
  lemma RelationMeaning(a: Term, b: Term)
    ensures a.RelationWith(b).Satisfied? <==> forall c: Choice :: a.Admits(c) ==> b.Admits(c)
    ensures a.RelationWith(b).Contradicted? ==> forall c: Choice :: a.Admits(c) ==> !b.Admits(c)
    ensures a.RelationWith(b).Inconclusive? <==>
            (exists c: Choice :: a.Admits(c) && b.Admits(c)) && (exists c: Choice :: a.Admits(c) && !b.Admits(c))
  {
    SubsetMeaning(a, b);
    DisjointMeaning(a, b);
  }

  // -- Order facts used by the solver proofs ----------------------------------------------

  /** The satisfier search asks for disjointness with the negation; that is inclusion. */
  lemma DisjointFromNegation(a: Term, b: Term)
    ensures a.IsDisjoint(b.Negate()) <==> a.SubsetOf(b)
  {
  }

  lemma SubsetTransitive(a: Term, b: Term, c: Term)
    requires a.SubsetOf(b) && b.SubsetOf(c)
    ensures a.SubsetOf(c)
  {
  }

  lemma SubsetOfIntersection(a: Term, b: Term, c: Term)
    requires a.SubsetOf(b) && a.SubsetOf(c)
    ensures a.SubsetOf(b.Intersection(c))
  {
  }

  /** What removing `t` puts below `s` was below `s` or `t` before. */
  lemma SubsetOfUnion(a: Term, t: Term, s: Term)
    requires a.Intersection(t.Negate()).SubsetOf(s)
    ensures a.SubsetOf(s.Union(t))
  {
  }

  /** Removing an inconclusive term is a strict, non-empty narrowing. */
  lemma StrictNarrowing(a: Term, t: Term)
    requires a.RelationWith(t).Inconclusive?
    ensures a.Intersection(t.Negate()).SubsetOf(a)
    ensures a.Intersection(t.Negate()) != a
    ensures !a.SubsetOf(a.Intersection(t.Negate()))
    ensures !a.Intersection(t.Negate()).IsEmpty()
    ensures !a.Intersection(t.Negate()).IsAny()
  {
    match (a, t)
    case (Positive(x), Positive(y)) =>
      var v :| v in x && v !in y;
      assert v in x - y;
    case (Positive(x), Negative(y)) =>
      var v :| v in x && v !in y;
      var w :| w in x && w in y;
      assert w in x * y;
    case (Negative(x), Positive(y)) =>
      var v :| v in y && v !in x;
      assert v in x + y;
    case (Negative(x), Negative(y)) =>
      var v :| v in y && v !in x;
      assert v in y - x;
  }
}
