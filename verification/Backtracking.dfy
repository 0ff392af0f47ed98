/** Backtracking to a decision level keeps exactly the assignments up to that level. */
module Backtracking {
  import opened Problems
  import opened Terms
  import opened Trails
  import opened TrailUpdates

  ghost predicate CanRewind(t: Trail, target: nat) {
    TrailOk(t) && target <= t.level
  }

  lemma PrefixOk(ds: seq<Derivation>, k: nat)
    requires Sorted(ds) && Chain(ds) && k <= |ds|
    ensures Sorted(ds[..k]) && Chain(ds[..k])
  {
  }

  lemma LevelsBelowHighest(a: Assignment)
    requires AssignmentOk(a)
    ensures forall i :: 0 <= i < a.Count() ==> a.smallest <= a.Level(i) <= a.highest
  {
  }

  /** A package that keeps an assignment but loses some keeps a non-empty history: the
      fallback to the trivial term is never taken. */
  lemma HistoryRemains(a: Assignment, target: nat)
    requires AssignmentOk(a) && a.smallest <= target < a.highest
    ensures 0 < CountAt(a.derivations, target)
    ensures forall i :: 0 <= i < CountAt(a.derivations, target) ==> a.derivations[i].level <= target
  {
    assert a.derivations != [] && a.derivations[0].level == a.smallest;
    var k := CountAt(a.derivations, target);
    forall i | 0 <= i < k ensures a.derivations[i].level <= target {
      assert a.derivations[i].level <= a.derivations[k - 1].level;
    }
  }

  lemma RewoundEntries(a: Assignment, target: nat)
    requires AssignmentOk(a) && a.smallest <= target
    ensures RewoundAssignment(a, target).highest <= target
    ensures RewoundAssignment(a, target).Count() <= a.Count()
    ensures forall i :: 0 <= i < RewoundAssignment(a, target).Count() ==>
              RewoundAssignment(a, target).Index(i) == a.Index(i)
                  && RewoundAssignment(a, target).Level(i) == a.Level(i) <= target
  {
    if a.highest > target {
      HistoryRemains(a, target);
    } else {
      LevelsBelowHighest(a);
    }
  }

  lemma RewoundAssignmentOk(a: Assignment, target: nat)
    requires AssignmentOk(a) && a.smallest <= target
    ensures AssignmentOk(RewoundAssignment(a, target))
    ensures RewoundAssignment(a, target).state.Decision? <==> a.state.Decision? && a.state.level <= target
    ensures RewoundAssignment(a, target).state.Decision? ==> RewoundAssignment(a, target) == a
  {
    if a.highest > target {
      HistoryRemains(a, target);
      PrefixOk(a.derivations, CountAt(a.derivations, target));
    }
  }

  lemma RewindEntry(t: Trail, target: nat, q: PackageId, i: nat)
    requires CanRewind(t, target) && t.Rewound(target).HasEntry(q, i)
    ensures t.HasEntry(q, i)
    ensures t.Rewound(target).IndexOf(q, i) == t.IndexOf(q, i)
    ensures t.Rewound(target).LevelOf(q, i) == t.LevelOf(q, i) <= target
  {
    RewoundEntries(t.assignments[q], target);
  }

  lemma RewindDecided(t: Trail, target: nat, q: PackageId)
    requires CanRewind(t, target)
    ensures t.Rewound(target).IsDecided(q) <==> t.IsDecided(q) && t.assignments[q].state.level <= target
    ensures t.Rewound(target).IsDecided(q) ==> t.Rewound(target).assignments[q] == t.assignments[q]
  {
    if q in t.assignments {
      var a := t.assignments[q];
      if a.smallest <= target {
        RewoundAssignmentOk(a, target);
      } else if t.IsDecided(q) {
        assert a.smallest == a.Level(0) <= a.state.level;
      }
    }
  }

  lemma RewindSeparates(t: Trail, target: nat)
    requires CanRewind(t, target)
    ensures Bounded(t.Rewound(target))
    ensures Distinct(t.Rewound(target))
    ensures DecisionsSeparate(t.Rewound(target))
  {
    var t' := t.Rewound(target);
    forall q, i | t'.HasEntry(q, i)
      ensures t.HasEntry(q, i) && t'.IndexOf(q, i) == t.IndexOf(q, i) && t'.LevelOf(q, i) == t.LevelOf(q, i) <= target
    {
      RewindEntry(t, target, q, i);
    }
    forall q | t'.IsDecided(q) ensures Separates(t', q) {
      RewindDecided(t, target, q);
      assert Separates(t, q);
    }
  }

  lemma RewindLevels(t: Trail, target: nat)
    requires CanRewind(t, target)
    ensures LevelsDecided(t.Rewound(target))
  {
    var t' := t.Rewound(target);
    forall k: nat | 1 <= k <= target ensures DecidesLevel(t', k) {
      assert DecidesLevel(t, k);
      var q :| t.IsDecided(q) && t.assignments[q].state.level == k;
      RewindDecided(t, target, q);
      assert t'.IsDecided(q);
    }
    forall p, q | t'.IsDecided(p) && t'.IsDecided(q) && p != q
      ensures t'.assignments[p].state.level != t'.assignments[q].state.level
    {
      RewindDecided(t, target, p);
      RewindDecided(t, target, q);
    }
  }

  lemma RewindOk(t: Trail, target: nat)
    requires CanRewind(t, target)
    ensures TrailOk(t.Rewound(target))
  {
    forall q | q in t.Rewound(target).assignments ensures AssignmentOk(t.Rewound(target).assignments[q]) {
      RewoundAssignmentOk(t.assignments[q], target);
    }
    RewindSeparates(t, target);
    RewindLevels(t, target);
  }

  // -- Terms after backtracking ----------------------------------------------------------

  lemma {:induction false} CountAtPrefix(ds: seq<Derivation>, target: nat, k: nat)
    requires k <= target
    ensures CountAt(ds[..CountAt(ds, target)], k) == CountAt(ds, k) <= CountAt(ds, target)
  {
    if |ds| > 0 && target < ds[|ds| - 1].level {
      CountAtPrefix(ds[..|ds| - 1], target, k);
      assert ds[..|ds| - 1][..CountAt(ds, target)] == ds[..CountAt(ds, target)];
    } else {
      assert ds[..|ds|] == ds;
    }
  }

  lemma {:induction false} CountBeforePrefix(ds: seq<Derivation>, m: nat, g: nat)
    requires m <= |ds| && forall i :: m <= i < |ds| ==> g <= ds[i].index
    ensures CountBefore(ds[..m], g) == CountBefore(ds, g) <= m
  {
    if m < |ds| {
      CountBeforePrefix(ds[..|ds| - 1], m, g);
      assert ds[..|ds| - 1][..m] == ds[..m];
    } else {
      assert ds[..m] == ds;
    }
  }

  lemma RewoundTermAt(a: Assignment, target: nat, k: nat)
    requires AssignmentOk(a) && a.smallest <= target && k <= target
    ensures RewoundAssignment(a, target).TermAt(k) == a.TermAt(k)
  {
    RewoundAssignmentOk(a, target);
    if a.highest > target {
      CountAtPrefix(a.derivations, target, k);
    }
  }

  lemma DroppedTermAt(a: Assignment, target: nat, k: nat)
    requires AssignmentOk(a) && target < a.smallest && k <= target
    ensures a.TermAt(k) == Term.Any()
  {
    assert forall i :: 0 <= i < |a.derivations| ==> a.smallest <= a.derivations[i].level;
  }

  /** Every term as of a kept level is what it was. */
  lemma RewindFrame(t: Trail, target: nat, q: PackageId, k: nat)
    requires CanRewind(t, target) && k <= target
    ensures t.Rewound(target).TermAt(q, k) == t.TermAt(q, k)
  {
    if q in t.assignments {
      if t.assignments[q].smallest <= target {
        RewoundTermAt(t.assignments[q], target, k);
      } else {
        DroppedTermAt(t.assignments[q], target, k);
      }
    }
  }

  lemma RewindTerm(t: Trail, target: nat, q: PackageId)
    requires CanRewind(t, target)
    ensures t.Rewound(target).TermFor(q) == t.TermAt(q, target)
  {
    RewindOk(t, target);
    TermForIsLatest(t.Rewound(target), q);
    RewindFrame(t, target, q, target);
  }

  /** Everything before index `g` lies on the kept levels. */
  ghost predicate KeptBefore(a: Assignment, target: nat, g: nat) {
    forall i :: 0 <= i < a.Count() && a.Index(i) < g ==> a.Level(i) <= target
  }

  lemma RewoundTermBefore(a: Assignment, target: nat, g: nat)
    requires AssignmentOk(a) && a.smallest <= target && KeptBefore(a, target, g)
    ensures RewoundAssignment(a, target).TermBefore(g) == a.TermBefore(g)
  {
    hide AssignmentOk, KeptBefore, CountAt, CountBefore, Assignment.Index, Assignment.Level;
    if a.highest > target {
      ForgottenAbove(a, target, g);
      CountBeforePrefix(a.derivations, CountAt(a.derivations, target), g);
      HistoryRemains(a, target);
    }
  }

  /** What is forgotten came after the index. */
  lemma ForgottenAbove(a: Assignment, target: nat, g: nat)
    requires AssignmentOk(a) && a.highest > target && KeptBefore(a, target, g)
    ensures forall i :: CountAt(a.derivations, target) <= i < |a.derivations| ==> g <= a.derivations[i].index
    ensures a.state.Decision? ==> g <= a.state.index
  {
    var m := CountAt(a.derivations, target);
    forall i | m <= i < |a.derivations| ensures g <= a.derivations[i].index {
      assert a.derivations[m].level <= a.derivations[i].level;
      assert a.Index(i) == a.derivations[i].index && a.Level(i) == a.derivations[i].level;
    }
    assert a.state.Decision? ==> a.Index(a.Count() - 1) == a.state.index && a.Level(a.Count() - 1) == a.state.level;
  }

  lemma DroppedTermBefore(a: Assignment, target: nat, g: nat)
    requires AssignmentOk(a) && target < a.smallest && KeptBefore(a, target, g)
    ensures a.TermBefore(g) == Term.Any()
  {
    forall i | 0 <= i < a.Count() ensures g <= a.Index(i) {
      assert a.smallest <= a.Level(i);
    }
    assert forall i :: 0 <= i < |a.derivations| ==> a.Index(i) == a.derivations[i].index;
    assert a.state.Decision? ==> a.Index(a.Count() - 1) == a.state.index;
  }

  /** Indices that lie below everything forgotten still see the same terms. */
  lemma RewindBefore(t: Trail, target: nat, q: PackageId, g: nat)
    requires CanRewind(t, target)
    requires q in t.assignments ==> KeptBefore(t.assignments[q], target, g)
    ensures t.Rewound(target).TermBefore(q, g) == t.TermBefore(q, g)
  {
    if q in t.assignments {
      if t.assignments[q].smallest <= target {
        RewoundTermBefore(t.assignments[q], target, g);
      } else {
        DroppedTermBefore(t.assignments[q], target, g);
      }
    }
  }

  /** Levels follow the order of the indices. */
  lemma IndexLevelMonotone(t: Trail, p: PackageId, i: nat, q: PackageId, j: nat)
    requires TrailOk(t) && t.HasEntry(p, i) && t.HasEntry(q, j)
    requires t.IndexOf(p, i) < t.IndexOf(q, j)
    ensures t.LevelOf(p, i) <= t.LevelOf(q, j)
  {
    var l := t.LevelOf(p, i);
    if 0 < l {
      assert DecidesLevel(t, l);
      var r :| t.IsDecided(r) && t.assignments[r].state.level == l;
      assert Separates(t, r);
    }
  }
}
