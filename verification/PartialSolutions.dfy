/** The partial solution as the solver keeps it: updated in place, seen as a trail. */
module PartialSolutions {
  import opened Incompatibilities
  import opened Justifications
  import opened Options
  import opened Ordered
  import opened Problems
  import opened Satisfiers
  import opened Terms
  import opened Trails

  type Assignments = map<PackageId, Assignment>

  class PartialSolution {
    var decisionLevel: nat
    var nextGlobalIndex: nat
    var assignments: Assignments

    ghost function View(): Trail
      reads this
    {
      Trail(decisionLevel, nextGlobalIndex, assignments)
    }

    constructor ()
      ensures View() == EMPTY
    {
      decisionLevel, nextGlobalIndex, assignments := 0, 0, map[];
    }

    method AddDecision(p: PackageId, v: Version)
      modifies this
      ensures View() == old(View()).WithDecision(p, v)
    {
      decisionLevel := decisionLevel + 1;
      var gi := nextGlobalIndex;
      nextGlobalIndex := nextGlobalIndex + 1;
      if p in assignments {
        assignments := assignments[p := assignments[p].(state := Decision(decisionLevel, v, gi),
            highest := decisionLevel)];
      } else {
        assignments := assignments[p := Assignment(Decision(decisionLevel, v, gi), [], decisionLevel, decisionLevel)];
      }
    }

    method AddDerivation(p: PackageId, cause: nat, newTerm: Term)
      modifies this
      ensures View() == old(View()).WithDerivation(p, cause, newTerm)
    {
      var dl := decisionLevel;
      var gi := nextGlobalIndex;
      nextGlobalIndex := nextGlobalIndex + 1;
      var pa := if p in assignments then assignments[p] else Assignment(Derivations(Term.Any()), [], dl, dl);
      if pa.state.Decision? {
        return;
      }
      var accumulated := pa.state.term.Intersection(newTerm);
      assignments := assignments[p := Assignment(
        Derivations(accumulated), pa.derivations + [Derivation(gi, dl, cause, accumulated)], pa.smallest, dl)];
    }

    function TermFor(p: PackageId): (t: Term)
      reads this
      ensures t == View().TermFor(p)
    {
      if p in assignments then assignments[p].Term() else Term.Any()
    }

    predicate IsAssigned(p: PackageId)
      reads this
    {
      p in assignments
    }

    /** Every package keeps what it was assigned up to the target level. */
    method Backtrack(target: nat)
      modifies this
      ensures View() == old(View()).Rewound(target)
    {
      decisionLevel := target;
      ghost var before := assignments;
      var toRemove: set<PackageId> := {};
      var todo := assignments.Keys;
      while todo != {}
        invariant decisionLevel == target && nextGlobalIndex == old(nextGlobalIndex)
        invariant PartlyRewound(before, target, todo, toRemove, assignments)
        decreases |todo|
      {
        var p :| p in todo;
        RewindOneMore(before, target, todo, toRemove, assignments, p);
        var pa := assignments[p];
        if pa.smallest > target {
          toRemove := toRemove + {p};
        } else if pa.highest > target {
          pa := Pop(pa, target);
          assignments := assignments[p := pa];
        }
        todo := todo - {p};
      }
      FullyRewound(before, target, toRemove, assignments);
      assignments := assignments - toRemove;
    }

    /** The undecided packages for which some version is required, with their ranges. */
    method FillUndecided() returns (buf: map<PackageId, VS>)
      ensures forall p :: p in buf <==> p in assignments && IsUndecided(assignments[p])
      ensures forall p :: p in buf ==> assignments[p].state == Derivations(Positive(buf[p]))
    {
      buf := map p | p in assignments && IsUndecided(assignments[p]) :: assignments[p].state.term.range;
    }

    method ExtractSolution() returns (sel: Selection)
      ensures forall p :: p in sel <==> View().IsDecided(p)
      ensures forall p :: p in sel ==> View().IsDecided(p) && sel[p] == assignments[p].state.version
    {
      sel := map p | p in assignments && assignments[p].state.Decision? :: assignments[p].state.version;
    }

    /** Scan the history of one package for the first assignment that satisfies a term. */
    method FindSatisfierFor(pa: Assignment, start: Term) returns (s: Satisfier)
      ensures s == FindSatisfier(View(), pa, start)
    {
      var i := 0;
      while i < |pa.derivations|
        invariant i <= |pa.derivations|
        invariant FirstDisjoint(pa.derivations, start, 0) == FirstDisjoint(pa.derivations, start, i)
      {
        var dd := pa.derivations[i];
        if dd.accumulated.IsDisjoint(start) {
          return Satisfier(dd.index, dd.level, Some(dd.cause), false);
        }
        i := i + 1;
      }
      match pa.state
      case Decision(dl, _, gi) => s := Satisfier(gi, dl, None, true);
      case Derivations(_) => s := Satisfier(nextGlobalIndex, pa.highest, None, false);
    }

    /** The first pass: the latest satisfier over all terms. */
    method LatestSatisfier(terms: PackageTerms, keys: seq<PackageId>) returns (p: PackageId, s: Satisfier)
      requires forall q :: q in keys <==> q in terms
      requires exists q :: q in terms && q in assignments
      ensures p in terms && p in assignments && s == SatisfierOf(View(), terms, p)
      ensures forall q :: q in terms && q in assignments ==> SatisfierOf(View(), terms, q).index <= s.index
    {
      p, s := ROOT, Satisfier(0, 0, None, false);
      ghost var found := false;
      for i := 0 to |keys|
        invariant LatestUpTo(View(), terms, keys[..i], found, p, s)
      {
        var q := keys[i];
        assert keys[..i + 1] == keys[..i] + [q];
        if q in assignments {
          var info := FindSatisfierFor(assignments[q], terms[q].Negate());
          if info.index >= s.index {
            p, s, found := q, info, true;
          }
        }
      }
      assert keys[..|keys|] == keys;
    }

    /** The second pass: the highest satisfier level among the other terms. */
    method PreviousLevel(terms: PackageTerms, keys: seq<PackageId>, p: PackageId) returns (previous: nat)
      requires forall q :: q in keys <==> q in terms
      ensures forall q :: q in terms && q in assignments && q != p ==> SatisfierOf(View(), terms, q).level <= previous
      ensures previous == 0 ||
              exists q :: q in terms && q in assignments && q != p && SatisfierOf(View(), terms, q).level == previous
    {
      previous := 0;
      for i := 0 to |keys|
        invariant forall q :: q in keys[..i] && q in assignments && q != p ==>
                  SatisfierOf(View(), terms, q).level <= previous
        invariant previous == 0 ||
                  exists q ::
                    q in terms && q in assignments && q != p && SatisfierOf(View(), terms, q).level == previous
      {
        var q := keys[i];
        assert keys[..i + 1] == keys[..i] + [q];
        if q != p && q in assignments {
          var info := FindSatisfierFor(assignments[q], terms[q].Negate());
          assert info == SatisfierOf(View(), terms, q);
          if info.level > previous {
            previous := info.level;
          }
        }
      }
      assert keys[..|keys|] == keys;
    }

    method SatisfierSearch(terms: PackageTerms) returns (info: SatisfierInfo)
      requires exists q :: q in terms && q in assignments
      ensures IsLatest(View(), terms, info) && IsPrevious(View(), terms, info)
    {
      var keys := Ascending(terms.Keys);
      var p, s := LatestSatisfier(terms, keys);
      var previous := PreviousLevel(terms, keys, p);
      info := SatisfierInfo(p, s.level, previous, s.cause, s.isDecision);
    }
  }

  predicate IsUndecided(a: Assignment) {
    a.state.Derivations? && a.state.term.Positive?
  }

  /** Pop the derivations above the target off the end of a history. */
  method Pop(a: Assignment, target: nat) returns (popped: Assignment)
    requires target < a.highest
    ensures popped == RewoundAssignment(a, target)
  {
    var ds := a.derivations;
    while |ds| > 0 && ds[|ds| - 1].level > target
      invariant ds == a.derivations[..|ds|]
      invariant CountAt(ds, target) == CountAt(a.derivations, target)
      decreases |ds|
    {
      ds := ds[..|ds| - 1];
    }
    if |ds| > 0 {
      popped := Assignment(Derivations(ds[|ds| - 1].accumulated), ds, a.smallest, ds[|ds| - 1].level);
    } else {
      popped := Assignment(Derivations(Term.Any()), ds, a.smallest, a.smallest);
    }
  }

  ghost predicate PartlyRewound(before: Assignments, target: nat, todo: set<PackageId>, toRemove: set<PackageId>,
                                now: Assignments) {
    && now.Keys == before.Keys && todo <= before.Keys
    && (forall p :: p in toRemove <==> p in before && p !in todo && before[p].smallest > target)
    && (forall p :: p in now ==>
          now[p] == if p in todo || before[p].smallest > target then before[p]
              else RewoundAssignment(before[p], target))
  }

  /** What one visit of the backtracking loop does to the package it visits. */
  lemma RewindOneMore(before: Assignments, target: nat, todo: set<PackageId>, toRemove: set<PackageId>,
                      now: Assignments, p: PackageId)
    requires PartlyRewound(before, target, todo, toRemove, now) && p in todo
    ensures p in now
    ensures now[p].smallest > target ==> PartlyRewound(before, target, todo - {p}, toRemove + {p}, now)
    ensures now[p].smallest <= target ==>
              PartlyRewound(before, target, todo - {p}, toRemove, now[p := RewoundAssignment(now[p], target)])
    ensures now[p].smallest <= target && now[p].highest <= target ==> now[p := RewoundAssignment(now[p], target)] == now
  {
  }

  lemma FullyRewound(before: Assignments, target: nat, toRemove: set<PackageId>, now: Assignments)
    requires PartlyRewound(before, target, {}, toRemove, now)
    ensures now - toRemove == map p | p in before
            && before[p].smallest <= target :: RewoundAssignment(before[p], target)
  {
  }

  ghost predicate LatestUpTo(t: Trail, terms: PackageTerms, keys: seq<PackageId>, found: bool, p: PackageId,
                             s: Satisfier)
    requires forall q :: q in keys ==> q in terms
  {
    && (found ==> p in terms && p in t.assignments && s == SatisfierOf(t, terms, p))
    && (!found ==> s.index == 0 && forall q :: q in keys ==> q !in t.assignments)
    && (forall q :: q in keys && q in t.assignments ==> SatisfierOf(t, terms, q).index <= s.index)
  }
}
