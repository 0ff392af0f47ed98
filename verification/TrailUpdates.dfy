/** What deciding, deriving and backtracking keep, and what they leave unchanged. */
module TrailUpdates {
  import opened Problems
  import opened Terms
  import opened Trails

  // -- One more entry --------------------------------------------------------------------

  /** `t'` has the entries of `t` and a newest one for `p`. */
  ghost predicate OneMore(t: Trail, t': Trail, p: PackageId) {
    && t'.nextIndex == t.nextIndex + 1
    && t'.level >= t.level
    && forall q, i :: t'.HasEntry(q, i) ==>
         || (q == p && t'.IndexOf(q, i) == t.nextIndex && t'.LevelOf(q, i) == t'.level)
         || (t.HasEntry(q, i) && t'.IndexOf(q, i) == t.IndexOf(q, i) && t'.LevelOf(q, i) == t.LevelOf(q, i))
  }

  lemma OneMoreBounded(t: Trail, t': Trail, p: PackageId)
    requires OneMore(t, t', p) && Bounded(t)
    ensures Bounded(t')
  {
  }

  lemma OneMoreDistinct(t: Trail, t': Trail, p: PackageId)
    requires OneMore(t, t', p) && Bounded(t) && Distinct(t)
    ensures Distinct(t')
  {
  }

  // -- Deciding --------------------------------------------------------------------------

  ghost predicate CanDecide(t: Trail, p: PackageId, v: Version) {
    TrailOk(t) && !t.IsDecided(p) && t.TermFor(p).Admits(Selected(v))
  }

  lemma DecideOneMore(t: Trail, p: PackageId, v: Version)
    requires CanDecide(t, p, v)
    ensures OneMore(t, t.WithDecision(p, v), p)
  {
  }

  lemma DecideSeparates(t: Trail, p: PackageId, v: Version)
    requires CanDecide(t, p, v)
    ensures DecisionsSeparate(t.WithDecision(p, v))
  {
    var t' := t.WithDecision(p, v);
    DecideOneMore(t, p, v);
    forall q | t'.IsDecided(q) ensures Separates(t', q) {
      if q != p {
        assert Separates(t, q);
        var a := t.assignments[q];
        assert t.HasEntry(q, a.Count() - 1) && t.IndexOf(q, a.Count() - 1) == a.state.index
            && t.LevelOf(q, a.Count() - 1) == a.state.level;
      }
    }
  }

  lemma DecideLevels(t: Trail, p: PackageId, v: Version)
    requires CanDecide(t, p, v)
    ensures LevelsDecided(t.WithDecision(p, v))
  {
    var t' := t.WithDecision(p, v);
    forall k: nat | 1 <= k <= t'.level ensures DecidesLevel(t', k) {
      if k == t'.level {
        assert t'.IsDecided(p);
      } else {
        assert DecidesLevel(t, k);
        var q :| t.IsDecided(q) && t.assignments[q].state.level == k;
        assert t'.IsDecided(q);
      }
    }
    forall q | t.IsDecided(q) ensures t.assignments[q].state.level <= t.level {
      var a := t.assignments[q];
      assert t.HasEntry(q, a.Count() - 1) && t.LevelOf(q, a.Count() - 1) == a.state.level;
    }
  }

  lemma DecideAssignment(t: Trail, p: PackageId, v: Version)
    requires CanDecide(t, p, v)
    ensures AssignmentOk(t.WithDecision(p, v).assignments[p])
  {
    var a' := t.WithDecision(p, v).assignments[p];
    if p in t.assignments {
      var a := t.assignments[p];
      assert a.derivations == a'.derivations;
      forall i | 0 <= i < |a.derivations|
        ensures a.derivations[i].index < t.nextIndex && a.derivations[i].level <= t.level
      {
        assert t.HasEntry(p, i) && t.IndexOf(p, i) == a.derivations[i].index
            && t.LevelOf(p, i) == a.derivations[i].level;
      }
      assert a'.Level(0) == a.Level(0);
    }
  }

  lemma DecideOk(t: Trail, p: PackageId, v: Version)
    requires CanDecide(t, p, v)
    ensures TrailOk(t.WithDecision(p, v))
  {
    DecideOneMore(t, p, v);
    OneMoreBounded(t, t.WithDecision(p, v), p);
    OneMoreDistinct(t, t.WithDecision(p, v), p);
    DecideSeparates(t, p, v);
    DecideLevels(t, p, v);
    DecideAssignment(t, p, v);
  }

  /** Deciding changes no term as of an earlier level or index. */
  lemma DecideFrame(t: Trail, p: PackageId, v: Version, q: PackageId)
    requires CanDecide(t, p, v)
    ensures forall k: nat :: k <= t.level ==> t.WithDecision(p, v).TermAt(q, k) == t.TermAt(q, k)
    ensures forall g: nat :: g <= t.nextIndex ==> t.WithDecision(p, v).TermBefore(q, g) == t.TermBefore(q, g)
  {
  }

  // -- Deriving --------------------------------------------------------------------------

  ghost predicate CanDerive(t: Trail, p: PackageId, term: Term) {
    var old' := t.TermFor(p);
    var new' := old'.Intersection(term);
    TrailOk(t) && !t.IsDecided(p) && new'.SubsetOf(old') && new' != old' && !new'.IsEmpty() && !new'.IsAny()
  }

  lemma DeriveOneMore(t: Trail, p: PackageId, cause: nat, term: Term)
    requires CanDerive(t, p, term)
    ensures OneMore(t, t.WithDerivation(p, cause, term), p)
  {
  }

  lemma DeriveSeparates(t: Trail, p: PackageId, cause: nat, term: Term)
    requires CanDerive(t, p, term)
    ensures DecisionsSeparate(t.WithDerivation(p, cause, term))
  {
    var t' := t.WithDerivation(p, cause, term);
    DeriveOneMore(t, p, cause, term);
    forall q | t'.IsDecided(q) ensures Separates(t', q) {
      assert Separates(t, q);
      var a := t.assignments[q];
      assert t.HasEntry(q, a.Count() - 1) && t.IndexOf(q, a.Count() - 1) == a.state.index
          && t.LevelOf(q, a.Count() - 1) == a.state.level;
    }
  }

  lemma DeriveLevels(t: Trail, p: PackageId, cause: nat, term: Term)
    requires CanDerive(t, p, term)
    ensures LevelsDecided(t.WithDerivation(p, cause, term))
  {
    var t' := t.WithDerivation(p, cause, term);
    forall k: nat | 1 <= k <= t'.level ensures DecidesLevel(t', k) {
      assert DecidesLevel(t, k);
      var q :| t.IsDecided(q) && t.assignments[q].state.level == k;
      assert t'.IsDecided(q);
    }
  }

  lemma ChainAppend(ds: seq<Derivation>, d: Derivation)
    requires Sorted(ds) && Chain(ds)
    requires forall i :: 0 <= i < |ds| ==> ds[i].index < d.index && ds[i].level <= d.level
    requires d.accumulated.SubsetOf(Accumulated(ds, |ds|)) && d.accumulated != Accumulated(ds, |ds|)
    requires !d.accumulated.IsEmpty() && !d.accumulated.IsAny()
    ensures Sorted(ds + [d]) && Chain(ds + [d])
  {
    forall i | 0 <= i < |ds|
      ensures d.accumulated.SubsetOf(ds[i].accumulated) && d.accumulated != ds[i].accumulated
    {
      var last := ds[|ds| - 1].accumulated;
      if i < |ds| - 1 {
        SubsetTransitive(d.accumulated, last, ds[i].accumulated);
      }
      if d.accumulated == ds[i].accumulated {
        SubsetAntisymmetric(last, d.accumulated);
      }
    }
  }

  lemma SubsetAntisymmetric(a: Term, b: Term)
    requires a.SubsetOf(b) && b.SubsetOf(a)
    ensures a == b || (a.IsEmpty() && b.IsEmpty())
  {
  }

  lemma DeriveAssignment(t: Trail, p: PackageId, cause: nat, term: Term)
    requires CanDerive(t, p, term)
    ensures AssignmentOk(t.WithDerivation(p, cause, term).assignments[p])
  {
    var a' := t.WithDerivation(p, cause, term).assignments[p];
    if p in t.assignments {
      var a := t.assignments[p];
      forall i | 0 <= i < |a.derivations|
        ensures a.derivations[i].index < t.nextIndex && a.derivations[i].level <= t.level
      {
        assert t.HasEntry(p, i) && t.IndexOf(p, i) == a.derivations[i].index
            && t.LevelOf(p, i) == a.derivations[i].level;
      }
      var d := a'.derivations[|a.derivations|];
      ChainAppend(a.derivations, d);
      assert a'.derivations == a.derivations + [d];
      assert a'.Level(0) == a.Level(0);
    }
  }

  lemma DeriveOk(t: Trail, p: PackageId, cause: nat, term: Term)
    requires CanDerive(t, p, term)
    ensures TrailOk(t.WithDerivation(p, cause, term))
  {
    var t' := t.WithDerivation(p, cause, term);
    DeriveOneMore(t, p, cause, term);
    OneMoreBounded(t, t', p);
    OneMoreDistinct(t, t', p);
    DeriveSeparates(t, p, cause, term);
    DeriveLevels(t, p, cause, term);
    DeriveAssignment(t, p, cause, term);
  }

  lemma CountAtAppend(ds: seq<Derivation>, d: Derivation, k: nat)
    requires k < d.level
    ensures CountAt(ds + [d], k) == CountAt(ds, k)
  {
    assert (ds + [d])[..|ds|] == ds;
  }

  lemma CountBeforeAppend(ds: seq<Derivation>, d: Derivation, g: nat)
    requires g <= d.index
    ensures CountBefore(ds + [d], g) == CountBefore(ds, g)
  {
    assert (ds + [d])[..|ds|] == ds;
  }

  /** Deriving changes no term as of an earlier level or index, and narrows the term of its
      package as of now. */
  lemma DeriveFrame(t: Trail, p: PackageId, cause: nat, term: Term, q: PackageId)
    requires CanDerive(t, p, term)
    ensures forall k: nat :: k < t.level || q != p ==> t.WithDerivation(p, cause, term).TermAt(q, k) == t.TermAt(q, k)
    ensures forall g: nat :: g <= t.nextIndex ==>
            t.WithDerivation(p, cause, term).TermBefore(q, g) == t.TermBefore(q, g)
    ensures t.WithDerivation(p, cause, term).TermFor(p) == t.TermFor(p).Intersection(term)
  {
    hide Trail.WithDerivation, CanDerive, Assignment.TermAt, Assignment.TermBefore;
    DerivedNow(t, p, cause, term);
    if q != p {
      DerivedOther(t, p, cause, term, q);
    } else {
      forall k: nat | k < t.level ensures t.WithDerivation(p, cause, term).TermAt(p, k) == t.TermAt(p, k) {
        DerivedAt(t, p, cause, term, k);
      }
      forall g: nat | g <= t.nextIndex ensures t.WithDerivation(p, cause, term).TermBefore(p, g) == t.TermBefore(p, g) {
        DerivedBefore(t, p, cause, term, g);
      }
    }
  }

  lemma DerivedOther(t: Trail, p: PackageId, cause: nat, term: Term, q: PackageId)
    requires q != p
    ensures var t' := t.WithDerivation(p, cause, term);
            && (q in t'.assignments <==> q in t.assignments)
            && (q in t.assignments ==> t'.assignments[q] == t.assignments[q])
  {
  }

  lemma DerivedNow(t: Trail, p: PackageId, cause: nat, term: Term)
    requires CanDerive(t, p, term)
    ensures t.WithDerivation(p, cause, term).TermFor(p) == t.TermFor(p).Intersection(term)
  {
  }

  lemma DerivedAt(t: Trail, p: PackageId, cause: nat, term: Term, k: nat)
    requires CanDerive(t, p, term) && k < t.level
    ensures t.WithDerivation(p, cause, term).TermAt(p, k) == t.TermAt(p, k)
  {
    var ds := if p in t.assignments then t.assignments[p].derivations else [];
    CountAtAppend(ds, Derivation(t.nextIndex, t.level, cause, t.TermFor(p).Intersection(term)), k);
  }

  lemma DerivedBefore(t: Trail, p: PackageId, cause: nat, term: Term, g: nat)
    requires CanDerive(t, p, term) && g <= t.nextIndex
    ensures t.WithDerivation(p, cause, term).TermBefore(p, g) == t.TermBefore(p, g)
  {
    var ds := if p in t.assignments then t.assignments[p].derivations else [];
    CountBeforeAppend(ds, Derivation(t.nextIndex, t.level, cause, t.TermFor(p).Intersection(term)), g);
  }

  /** The current term is the term as of any level from the current one on. */
  lemma TermForIsLatest(t: Trail, p: PackageId)
    requires TrailOk(t)
    ensures forall k: nat :: t.level <= k ==> t.TermAt(p, k) == t.TermFor(p)
    ensures forall g: nat :: t.nextIndex <= g ==> t.TermBefore(p, g) == t.TermFor(p)
  {
    if p in t.assignments {
      var a := t.assignments[p];
      assert AssignmentOk(a);
      var last := a.Count() - 1;
      assert t.HasEntry(p, last) && t.IndexOf(p, last) == a.Index(last) && t.LevelOf(p, last) == a.Level(last);
    }
  }
}
