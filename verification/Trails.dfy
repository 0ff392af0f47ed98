/** The partial solution as a value: per package a history of derivations, ending possibly
    in a decision, each entry stamped with a global index and a decision level. */
module Trails {
  import opened Problems
  import opened Terms

  datatype Derivation = Derivation(index: nat, level: nat, cause: nat, accumulated: Term)

  datatype AssignmentState =
    | Decision(level: nat, version: Version, index: nat)
    | Derivations(term: Term)

  datatype Assignment = Assignment(state: AssignmentState, derivations: seq<Derivation>, smallest: nat, highest: nat) {

    function Term(): Term {
      match state
      case Decision(_, v, _) => Positive({v})
      case Derivations(t) => t
    }

    // Entries number the derivations and then the decision.

    function Count(): nat {
      |derivations| + if state.Decision? then 1 else 0
    }

    function Index(i: nat): nat
      requires i < Count()
    {
      if i < |derivations| then derivations[i].index else state.index
    }

    function Level(i: nat): nat
      requires i < Count()
    {
      if i < |derivations| then derivations[i].level else state.level
    }

    function TermAt(level: nat): Term {
      if state.Decision? && state.level <= level then Positive({state.version})
      else Accumulated(derivations, CountAt(derivations, level))
    }

    function TermBefore(index: nat): Term {
      if state.Decision? && state.index < index then Positive({state.version})
      else Accumulated(derivations, CountBefore(derivations, index))
    }
  }

  // -- Prefixes of a history -------------------------------------------------------------

  function Accumulated(ds: seq<Derivation>, k: nat): Term
    requires k <= |ds|
  {
    if k == 0 then Term.Any() else ds[k - 1].accumulated
  }

  /** How many derivations remain after popping those above a level off the end. */
  function CountAt(ds: seq<Derivation>, level: nat): (k: nat)
    ensures k <= |ds|
    ensures k < |ds| ==> level < ds[k].level
    ensures 0 < k ==> ds[k - 1].level <= level
  {
    if |ds| == 0 then 0
    else if ds[|ds| - 1].level <= level then |ds|
    else CountAt(ds[..|ds| - 1], level)
  }

  function CountBefore(ds: seq<Derivation>, index: nat): (k: nat)
    ensures k <= |ds|
    ensures k < |ds| ==> index <= ds[k].index
    ensures 0 < k ==> ds[k - 1].index < index
  {
    if |ds| == 0 then 0
    else if ds[|ds| - 1].index < index then |ds|
    else CountBefore(ds[..|ds| - 1], index)
  }

  datatype Trail = Trail(level: nat, nextIndex: nat, assignments: map<PackageId, Assignment>) {

    function TermFor(p: PackageId): Term {
      if p in assignments then assignments[p].Term() else Term.Any()
    }

    predicate IsDecided(p: PackageId) {
      p in assignments && assignments[p].state.Decision?
    }

    predicate HasEntry(p: PackageId, i: nat) {
      p in assignments && i < assignments[p].Count()
    }

    function IndexOf(p: PackageId, i: nat): nat
      requires HasEntry(p, i)
    {
      assignments[p].Index(i)
    }

    function LevelOf(p: PackageId, i: nat): nat
      requires HasEntry(p, i)
    {
      assignments[p].Level(i)
    }

    /** The term of a package when only the assignments up to a decision level count. */
    function TermAt(p: PackageId, level: nat): Term {
      if p in assignments then assignments[p].TermAt(level) else Term.Any()
    }

    /** The term of a package when only the assignments before a global index count. */
    function TermBefore(p: PackageId, index: nat): Term {
      if p in assignments then assignments[p].TermBefore(index) else Term.Any()
    }

    // -- The three updates ---------------------------------------------------------------

    function WithDecision(p: PackageId, v: Version): Trail {
      var l := level + 1;
      var a :=
        if p in assignments then assignments[p].(state := Decision(l, v, nextIndex), highest := l)
        else Assignment(Decision(l, v, nextIndex), [], l, l);
      Trail(l, nextIndex + 1, assignments[p := a])
    }

    /** A derivation for a decided package only uses up an index. */
    function WithDerivation(p: PackageId, cause: nat, term: Term): Trail {
      var a := if p in assignments then assignments[p] else Assignment(Derivations(Term.Any()), [], level, level);
      if a.state.Decision? then Trail(level, nextIndex + 1, assignments)
      else
        var t := a.state.term.Intersection(term);
        var d := Derivation(nextIndex, level, cause, t);
        Trail(level, nextIndex + 1,
              assignments[p := Assignment(Derivations(t), a.derivations + [d], a.smallest, level)])
    }

    function Rewound(target: nat): Trail {
      Trail(target, nextIndex,
            map p | p in assignments && assignments[p].smallest <= target :: RewoundAssignment(assignments[p], target))
    }
  }

  function RewoundAssignment(a: Assignment, target: nat): Assignment {
    if a.highest <= target then a
    else
      var ds := a.derivations[..CountAt(a.derivations, target)];
      if |ds| > 0 then Assignment(Derivations(ds[|ds| - 1].accumulated), ds, a.smallest, ds[|ds| - 1].level)
      else Assignment(Derivations(Term.Any()), ds, a.smallest, a.smallest)
  }

  const EMPTY: Trail := Trail(0, 0, map[])

  // -- Well-formed trails ----------------------------------------------------------------

  /** Indices grow strictly, levels never fall. */
  ghost predicate Sorted(ds: seq<Derivation>) {
    && (forall i, j :: 0 <= i < j < |ds| ==> ds[i].index < ds[j].index)
    && (forall i, j :: 0 <= i < j < |ds| ==> ds[i].level <= ds[j].level)
  }

  /** The accumulated terms form a strictly decreasing chain of non-empty, real terms. */
  ghost predicate Chain(ds: seq<Derivation>) {
    && (forall i :: 0 <= i < |ds| ==> !ds[i].accumulated.IsEmpty() && !ds[i].accumulated.IsAny())
    && (forall i, j :: 0 <= i < j < |ds| ==> ds[j].accumulated.SubsetOf(ds[i].accumulated))
    && (forall i, j :: 0 <= i < j < |ds| ==> ds[j].accumulated != ds[i].accumulated)
  }

  ghost predicate AssignmentOk(a: Assignment) {
    && 0 < a.Count()
    && Sorted(a.derivations)
    && Chain(a.derivations)
    && a.smallest == a.Level(0)
    && a.highest == a.Level(a.Count() - 1)
    && match a.state
       case Derivations(t) =>
         |a.derivations| > 0 && t == Accumulated(a.derivations, |a.derivations|)
       case Decision(l, v, g) =>
         && (forall i :: 0 <= i < |a.derivations| ==> a.derivations[i].index < g && a.derivations[i].level < l)
         && Accumulated(a.derivations, |a.derivations|).Admits(Selected(v))
         && 0 < l
  }

  ghost predicate Bounded(t: Trail) {
    forall p, i :: t.HasEntry(p, i) ==> t.IndexOf(p, i) < t.nextIndex && t.LevelOf(p, i) <= t.level
  }

  /** Every assignment has its own global index. */
  ghost predicate Distinct(t: Trail) {
    forall p, q, i, j :: p != q && t.HasEntry(p, i) && t.HasEntry(q, j) ==> t.IndexOf(p, i) != t.IndexOf(q, j)
  }

  /** A decision separates the levels below its own from the others, in the index order. */
  ghost predicate Separates(t: Trail, q: PackageId)
    requires t.IsDecided(q)
  {
    var Decision(l, _, g) := t.assignments[q].state;
    forall p, i :: t.HasEntry(p, i) ==> (t.LevelOf(p, i) < l <==> t.IndexOf(p, i) < g)
  }

  ghost predicate DecisionsSeparate(t: Trail) {
    forall q :: t.IsDecided(q) ==> Separates(t, q)
  }

  ghost predicate DecidesLevel(t: Trail, k: nat) {
    exists p :: t.IsDecided(p) && t.assignments[p].state.level == k
  }

  /** The decided levels are exactly 1 up to the current one, one package each. */
  ghost predicate LevelsDecided(t: Trail) {
    && (forall k: nat :: 1 <= k <= t.level ==> DecidesLevel(t, k))
    && (forall p, q :: t.IsDecided(p) && t.IsDecided(q) && p != q ==>
          t.assignments[p].state.level != t.assignments[q].state.level)
  }

  ghost predicate TrailOk(t: Trail) {
    && (forall p :: p in t.assignments ==> AssignmentOk(t.assignments[p]))
    && Bounded(t)
    && Distinct(t)
    && DecisionsSeparate(t)
    && LevelsDecided(t)
  }
}
