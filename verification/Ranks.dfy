/** Termination: a lexicographic measure on the terms accumulated per decision level, encoded
    as one number. Deriving shrinks the current level, deciding opens a level, and a backjump
    with its derivation shrinks the target level. */
module Ranks {
  import opened Backtracking
  import opened Problems
  import opened Terms
  import opened Trails
  import opened TrailUpdates

  ghost predicate InUniverse(pr: Problem, t: Trail) {
    forall p :: p in t.assignments ==> AssignmentInUniverse(pr, p, t.assignments[p])
  }

  ghost predicate AssignmentInUniverse(pr: Problem, p: PackageId, a: Assignment) {
    && p < pr.packages
    && (forall i :: 0 <= i < |a.derivations| ==> a.derivations[i].accumulated.range <= pr.universe)
    && (a.state.Decision? ==> a.state.version in pr.universe)
  }

  lemma TermAtInUniverse(pr: Problem, t: Trail, p: PackageId, level: nat)
    requires InUniverse(pr, t)
    ensures t.TermAt(p, level).range <= pr.universe
  {
  }

  // -- The weight of a term --------------------------------------------------------------

  /** How many choices a term over the universe admits. */
  function Weight(universe: VS, t: Term): nat {
    match t
    case Positive(r) => |r|
    case Negative(r) => if |r| <= |universe| then 1 + |universe| - |r| else 0
  }

  lemma SubsetSize<T>(a: set<T>, b: set<T>)
    requires a <= b
    ensures |a| <= |b|
    ensures a != b ==> |a| < |b|
  {
    assert b == a + (b - a);
    assert a != b ==> b - a != {};
  }

  lemma WeightMonotone(universe: VS, a: Term, b: Term)
    requires a.range <= universe && b.range <= universe && a.SubsetOf(b)
    ensures Weight(universe, a) <= Weight(universe, b) <= |universe| + 1
    ensures a != b ==> Weight(universe, a) < Weight(universe, b)
  {
    SubsetSize(a.range, universe);
    SubsetSize(b.range, universe);
    match (a, b)
    case (Positive(x), Positive(y)) => SubsetSize(x, y);
    case (Positive(x), Negative(y)) =>
      SubsetSize(x, universe - y);
      assert |universe - y| == |universe| - |y|;
    case (Negative(x), Negative(y)) => SubsetSize(y, x);
  }

  lemma WeightBounded(universe: VS, a: Term)
    requires a.range <= universe
    ensures Weight(universe, a) <= |universe| + 1
  {
    SubsetSize(a.range, universe);
  }

  // -- The mass of a level ---------------------------------------------------------------

  function Mass(pr: Problem, t: Trail, level: nat, n: nat): nat {
    if n == 0 then 0 else Mass(pr, t, level, n - 1) + Weight(pr.universe, t.TermAt(n - 1, level))
  }

  lemma {:induction false} MassBounded(pr: Problem, t: Trail, level: nat, n: nat)
    requires InUniverse(pr, t)
    ensures Mass(pr, t, level, n) <= n * (|pr.universe| + 1)
  {
    if n > 0 {
      MassBounded(pr, t, level, n - 1);
      TermAtInUniverse(pr, t, n - 1, level);
      WeightBounded(pr.universe, t.TermAt(n - 1, level));
      var m := |pr.universe| + 1;
      assert n * m == (n - 1) * m + m;
    }
  }

  lemma {:induction false} MassSame(pr: Problem, t: Trail, t': Trail, level: nat, n: nat)
    requires forall q: PackageId :: t'.TermAt(q, level) == t.TermAt(q, level)
    ensures Mass(pr, t', level, n) == Mass(pr, t, level, n)
  {
    if n > 0 {
      MassSame(pr, t, t', level, n - 1);
    }
  }

  /** Narrowing the term of one package strictly makes the mass smaller. */
  lemma {:induction false} MassShrinks(pr: Problem, t: Trail, t': Trail, level: nat, p: PackageId, n: nat)
    requires forall q: PackageId :: q != p ==> t'.TermAt(q, level) == t.TermAt(q, level)
    requires Weight(pr.universe, t'.TermAt(p, level)) < Weight(pr.universe, t.TermAt(p, level))
    ensures Mass(pr, t', level, n) <= Mass(pr, t, level, n)
    ensures p < n ==> Mass(pr, t', level, n) < Mass(pr, t, level, n)
  {
    hide Weight, Trail.TermAt;
    if n > 0 {
      MassShrinks(pr, t, t', level, p, n - 1);
    }
  }

  // -- The rank --------------------------------------------------------------------------

  function Top(pr: Problem): nat {
    pr.packages * (|pr.universe| + 1) + 1
  }

  /** One digit per level; levels that are not open yet count as full. */
  function Digit(pr: Problem, t: Trail, k: nat): nat {
    if k <= t.level then Mass(pr, t, k, pr.packages) else Top(pr)
  }

  function Shift(high: nat, base: nat, low: nat): nat {
    high * base + low
  }

  function RankUpTo(pr: Problem, t: Trail, k: nat): nat {
    if k == 0 then Digit(pr, t, 0) else Shift(RankUpTo(pr, t, k - 1), Top(pr) + 1, Digit(pr, t, k))
  }

  function Rank(pr: Problem, t: Trail): nat {
    RankUpTo(pr, t, pr.packages)
  }

  lemma DigitBounded(pr: Problem, t: Trail, k: nat)
    requires InUniverse(pr, t)
    ensures Digit(pr, t, k) <= Top(pr)
    ensures k <= t.level ==> Digit(pr, t, k) < Top(pr)
  {
    MassBounded(pr, t, k, pr.packages);
  }

  lemma {:induction false} RankSame(pr: Problem, t: Trail, t': Trail, k: nat)
    requires forall i: nat :: i <= k ==> Digit(pr, t', i) == Digit(pr, t, i)
    ensures RankUpTo(pr, t', k) == RankUpTo(pr, t, k)
  {
    if k > 0 {
      RankSame(pr, t, t', k - 1);
    }
  }

  lemma DigitStep(a: nat, b: nat, base: nat, x: nat, y: nat)
    requires a < b && x <= base
    ensures Shift(a, base + 1, x) < Shift(b, base + 1, y)
  {
    assert (a + 1) * (base + 1) <= b * (base + 1);
  }

  /** The first digit that differs decides. */
  lemma {:induction false} RankLess(pr: Problem, t: Trail, t': Trail, j: nat, k: nat)
    requires InUniverse(pr, t') && j <= k
    requires forall i: nat :: i < j ==> Digit(pr, t', i) == Digit(pr, t, i)
    requires Digit(pr, t', j) < Digit(pr, t, j)
    ensures RankUpTo(pr, t', k) < RankUpTo(pr, t, k)
    decreases k
  {
    if j < k {
      RankLess(pr, t, t', j, k - 1);
      DigitBounded(pr, t', k);
      DigitStep(RankUpTo(pr, t', k - 1), RankUpTo(pr, t, k - 1), Top(pr), Digit(pr, t', k), Digit(pr, t, k));
    } else if j > 0 {
      RankSame(pr, t, t', j - 1);
    }
  }

  // -- There are no more levels than packages --------------------------------------------

  function DecidedUpTo(t: Trail, k: nat): set<PackageId> {
    set p | p in t.assignments && t.assignments[p].state.Decision? && t.assignments[p].state.level <= k
  }

  lemma {:induction false} DecidedCount(t: Trail, k: nat)
    requires TrailOk(t) && k <= t.level
    ensures |DecidedUpTo(t, k)| == k
  {
    if k == 0 {
      forall p | t.IsDecided(p) ensures 0 < t.assignments[p].state.level {
        assert AssignmentOk(t.assignments[p]);
      }
      assert DecidedUpTo(t, 0) == {};
    } else {
      DecidedCount(t, k - 1);
      assert DecidesLevel(t, k);
      var p :| t.IsDecided(p) && t.assignments[p].state.level == k;
      forall q | q in DecidedUpTo(t, k) && q != p ensures q in DecidedUpTo(t, k - 1) {
        assert t.IsDecided(q);
      }
      assert DecidedUpTo(t, k) == DecidedUpTo(t, k - 1) + {p};
    }
  }

  lemma {:induction false} SmallNumbers(s: set<nat>, n: nat)
    requires forall x :: x in s ==> x < n
    ensures |s| <= n
  {
    if n == 0 {
      assert s == {};
    } else {
      SmallNumbers(s - {n - 1}, n - 1);
    }
  }

  lemma LevelsBounded(pr: Problem, t: Trail)
    requires TrailOk(t) && InUniverse(pr, t)
    ensures t.level <= pr.packages
  {
    DecidedCount(t, t.level);
    SmallNumbers(DecidedUpTo(t, t.level), pr.packages);
  }

  // -- The three updates -----------------------------------------------------------------

  lemma DecideInUniverse(pr: Problem, t: Trail, p: PackageId, v: Version)
    requires InUniverse(pr, t) && p < pr.packages && v in pr.universe
    ensures InUniverse(pr, t.WithDecision(p, v))
  {
  }

  lemma DeriveInUniverse(pr: Problem, t: Trail, p: PackageId, cause: nat, term: Term)
    requires InUniverse(pr, t) && p < pr.packages && term.range <= pr.universe
    requires p in t.assignments ==> AssignmentOk(t.assignments[p])
    ensures InUniverse(pr, t.WithDerivation(p, cause, term))
  {
  }

  lemma RewindInUniverse(pr: Problem, t: Trail, target: nat)
    requires InUniverse(pr, t)
    ensures InUniverse(pr, t.Rewound(target))
  {
  }

  lemma DecideLowersRank(pr: Problem, t: Trail, p: PackageId, v: Version)
    requires CanDecide(t, p, v) && InUniverse(pr, t) && p < pr.packages && v in pr.universe
    ensures Rank(pr, t.WithDecision(p, v)) < Rank(pr, t)
  {
    var t' := t.WithDecision(p, v);
    DecideOk(t, p, v);
    DecideInUniverse(pr, t, p, v);
    LevelsBounded(pr, t');
    forall k: nat | k < t'.level ensures Digit(pr, t', k) == Digit(pr, t, k) {
      forall q: PackageId ensures t'.TermAt(q, k) == t.TermAt(q, k) {
        DecideFrame(t, p, v, q);
      }
      MassSame(pr, t, t', k, pr.packages);
    }
    DigitBounded(pr, t', t'.level);
    RankLess(pr, t, t', t'.level, pr.packages);
  }

  /** Backing up to a level, where the current one is allowed, and deriving there. */
  lemma BackjumpLowersRank(pr: Problem, t: Trail, target: nat, p: PackageId, cause: nat, term: Term)
    requires CanRewind(t, target) && CanDerive(t.Rewound(target), p, term)
    requires InUniverse(pr, t) && p < pr.packages && term.range <= pr.universe
    ensures Rank(pr, t.Rewound(target).WithDerivation(p, cause, term)) < Rank(pr, t)
  {
    var t1 := t.Rewound(target);
    var t' := t1.WithDerivation(p, cause, term);
    RewindInUniverse(pr, t, target);
    DeriveInUniverse(pr, t1, p, cause, term);
    DeriveOk(t1, p, cause, term);
    LevelsBounded(pr, t);
    forall k: nat, q: PackageId | k <= target && (k < target || q != p) ensures t'.TermAt(q, k) == t.TermAt(q, k) {
      DeriveFrame(t1, p, cause, term, q);
      RewindFrame(t, target, q, k);
    }
    forall k: nat | k < target ensures Digit(pr, t', k) == Digit(pr, t, k) {
      MassSame(pr, t, t', k, pr.packages);
    }
    TargetTermShrinks(pr, t, target, p, cause, term);
    MassShrinks(pr, t, t', target, p, pr.packages);
    RankLess(pr, t, t', target, pr.packages);
  }

  lemma TargetTermShrinks(pr: Problem, t: Trail, target: nat, p: PackageId, cause: nat, term: Term)
    requires CanRewind(t, target) && CanDerive(t.Rewound(target), p, term)
    requires InUniverse(pr, t) && p < pr.packages && term.range <= pr.universe
    ensures var t' := t.Rewound(target).WithDerivation(p, cause, term);
            Weight(pr.universe, t'.TermAt(p, target)) < Weight(pr.universe, t.TermAt(p, target))
  {
    var t1 := t.Rewound(target);
    var t' := t1.WithDerivation(p, cause, term);
    DeriveOk(t1, p, cause, term);
    DeriveFrame(t1, p, cause, term, p);
    TermForIsLatest(t', p);
    RewindTerm(t, target, p);
    TermAtInUniverse(pr, t, p, target);
    WeightMonotone(pr.universe, t'.TermAt(p, target), t.TermAt(p, target));
  }

  lemma RewindNowhere(t: Trail)
    requires TrailOk(t)
    ensures t.Rewound(t.level) == t
  {
    forall p | p in t.assignments ensures t.assignments[p].highest <= t.level && t.assignments[p].smallest <= t.level {
      var a := t.assignments[p];
      assert AssignmentOk(a);
      assert t.HasEntry(p, 0) && t.LevelOf(p, 0) == a.Level(0);
      var last := a.Count() - 1;
      assert t.HasEntry(p, last) && t.LevelOf(p, last) == a.Level(last);
    }
    assert t.Rewound(t.level).assignments == t.assignments;
  }

  lemma DeriveLowersRank(pr: Problem, t: Trail, p: PackageId, cause: nat, term: Term)
    requires CanDerive(t, p, term)
    requires InUniverse(pr, t) && p < pr.packages && term.range <= pr.universe
    ensures Rank(pr, t.WithDerivation(p, cause, term)) < Rank(pr, t)
  {
    RewindNowhere(t);
    BackjumpLowersRank(pr, t, t.level, p, cause, term);
  }
}
