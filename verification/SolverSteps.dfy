/** The steps of the solver on values: each keeps the invariant. */
module SolverSteps {
  import opened Backtracking
  import opened ClauseIndexes
  import opened Conflicts
  import opened Incompatibilities
  import opened Justifications
  import opened Options
  import opened Ordered
  import opened Pins
  import opened Problems
  import opened Propagation
  import opened Ranks
  import opened Satisfiers
  import opened SolverInvariants
  import opened Terms
  import opened Trails
  import opened TrailUpdates

  // -- Choosing watches ------------------------------------------------------------------

  predicate IsOpen(t: Trail, terms: PackageTerms, q: PackageId)
    requires q in terms
  {
    !t.TermFor(q).SubsetOf(terms[q])
  }

  ghost predicate TwoOpen(t: Trail, terms: PackageTerms) {
    exists p, q :: p != q && p in terms && q in terms && IsOpen(t, terms, p) && IsOpen(t, terms, q)
  }

  /** Both watches are on different open terms. */
  ghost predicate WatchesOpen(t: Trail, ix: ClauseIndex, id: nat) {
    && id < |ix.store| && id < |ix.watched| && ix.watched[id].0 != ix.watched[id].1
    && forall p :: p in ix.store[id].terms && ix.Watches(id, p) ==> IsOpen(t, ix.store[id].terms, p)
  }

  /** What is found when the first keys are looked at, until there are two. */
  ghost predicate OpenSoFar(t: Trail, terms: PackageTerms, keys: seq<PackageId>, i: nat, open: seq<PackageId>) {
    && i <= |keys| && |open| <= 2 && (forall q :: q in keys <==> q in terms)
    && (forall q :: q in open ==> q in keys[..i] && q in terms && IsOpen(t, terms, q))
    && (forall q :: q in keys[..i] && q in terms && IsOpen(t, terms, q) ==> q in open)
    && (|open| == 2 ==> i > 0 && open[0] < open[1] && open[1] == keys[i - 1])
  }

  lemma NoneSoFar(t: Trail, terms: PackageTerms, keys: seq<PackageId>)
    requires forall q :: q in keys <==> q in terms
    ensures OpenSoFar(t, terms, keys, 0, [])
  {
  }

  lemma OpenByRelation(t: Trail, terms: PackageTerms, q: PackageId)
    requires q in terms
    ensures t.TermFor(q).RelationWith(terms[q]) != Satisfied <==> IsOpen(t, terms, q)
  {
  }

  lemma OpenNext(t: Trail, terms: PackageTerms, keys: seq<PackageId>, i: nat, open: seq<PackageId>)
    requires OpenSoFar(t, terms, keys, i, open) && |open| < 2 && i < |keys|
    requires forall i, j :: 0 <= i < j < |keys| ==> keys[i] < keys[j]
    ensures keys[i] in terms
    ensures OpenSoFar(t, terms, keys, i + 1, if IsOpen(t, terms, keys[i]) then open + [keys[i]] else open)
  {
    hide IsOpen;
    var q := keys[i];
    assert q in keys;
    assert keys[..i + 1] == keys[..i] + [q];
    AroundPlace(keys, i);
    assert |open| == 1 ==> open[0] in open && open[0] < q;
  }

  /** The two are the first ones, or there are no more. */
  lemma OpenEnd(t: Trail, terms: PackageTerms, keys: seq<PackageId>, i: nat, open: seq<PackageId>)
    requires OpenSoFar(t, terms, keys, i, open) && (i == |keys| || |open| == 2)
    requires forall i, j :: 0 <= i < j < |keys| ==> keys[i] < keys[j]
    ensures |open| <= 2 && forall q :: q in open ==> q in terms && IsOpen(t, terms, q)
    ensures |open| == 2 ==> open[0] < open[1]
    ensures |open| == 2 ==> forall q :: q in terms && IsOpen(t, terms, q) ==> q == open[0] || open[1] <= q
    ensures |open| < 2 ==> forall q :: q in terms && IsOpen(t, terms, q) ==> q in open
  {
    hide IsOpen;
    if |open| == 2 {
      OpenEndTwo(t, terms, keys, i, open);
    } else {
      assert keys[..i] == keys;
    }
  }

  lemma OpenEndTwo(t: Trail, terms: PackageTerms, keys: seq<PackageId>, i: nat, open: seq<PackageId>)
    requires OpenSoFar(t, terms, keys, i, open) && |open| == 2
    requires forall i, j :: 0 <= i < j < |keys| ==> keys[i] < keys[j]
    ensures forall q :: q in terms && IsOpen(t, terms, q) ==> q == open[0] || open[1] <= q
  {
    hide IsOpen;
    AroundPlace(keys, i - 1);
    assert keys[..i] == keys[..i - 1] + [keys[i - 1]];
    forall q | q in terms && IsOpen(t, terms, q) ensures q == open[0] || open[1] <= q {
      assert q in keys;
    }
  }

  /** Open terms that are not watched come after both watches. */
  ghost predicate OpenAfterWatches(t: Trail, ix: ClauseIndex, id: nat) {
    && id < |ix.store| && id < |ix.watched|
    && forall p :: p in ix.store[id].terms && IsOpen(t, ix.store[id].terms, p) && !ix.Watches(id, p) ==>
         ix.watched[id].0 < p && ix.watched[id].1 < p
  }

  /** The first two open terms are watched if there are two; otherwise the open one and the first
      other; if all are satisfied, only the smallest package. */
  ghost predicate Picked(t: Trail, terms: PackageTerms, a: PackageId, b: PackageId) {
    && a in terms && b in terms
    && (IsOpen(t, terms, a) || (a == b && forall q :: q in terms ==> !IsOpen(t, terms, q) && a <= q))
    && (IsOpen(t, terms, a) && |terms| > 1 ==> a != b)
    && ((exists q :: q in terms && q != a && IsOpen(t, terms, q)) ==> IsOpen(t, terms, b))
    && FirstOpen(t, terms, a, b)
  }

  /** No open term comes before the first watch, and before the second one no other that would do
      as well. */
  ghost predicate FirstOpen(t: Trail, terms: PackageTerms, a: PackageId, b: PackageId)
    requires b in terms
  {
    && (forall q :: q in terms && IsOpen(t, terms, q) ==> a <= q)
    && (forall q :: q in terms && q != a && (IsOpen(t, terms, b) ==> IsOpen(t, terms, q)) ==> a == b || b <= q)
  }

  /** The one case in which the incompatibility of a dependency does not watch the depending
      package: both terms are already satisfied and the dependency has the smaller number. */
  predicate MissesDepender(t: Trail, p: PackageId, v: Version, d: Dependency) {
    t.TermFor(p).SubsetOf(Positive({v})) && t.TermFor(d.package).SubsetOf(Negative(d.range)) && d.package < p
  }

  lemma PickedDependency(t: Trail, p: PackageId, v: Version, d: Dependency, a: PackageId, b: PackageId)
    requires p != d.package && Picked(t, FromDependency(p, v, d.package, d.range).terms, a, b)
    ensures (p == a || p == b) <==> !MissesDepender(t, p, v, d)
  {
    var terms := FromDependency(p, v, d.package, d.range).terms;
    assert terms.Keys == {p, d.package};
    assert |terms.Keys| == 2;
    assert IsOpen(t, terms, p) <==> !t.TermFor(p).SubsetOf(Positive({v}));
    assert IsOpen(t, terms, d.package) <==> !t.TermFor(d.package).SubsetOf(Negative(d.range));
  }

  // -- The initial state -----------------------------------------------------------------

  lemma EmptyIndexOk()
    ensures IndexOk(EMPTY_INDEX)
  {
  }

  lemma InitialOk(pr: Problem, notRoot: Incompatibility, ix: ClauseIndex)
    requires pr.WellFormed() && notRoot == NotRoot(ROOT, pr.rootVersion)
    requires IndexOk(ix) && ix.store == [notRoot]
    requires |ix.learned| <= MAX_LEARNED_WATCHED
    ensures StateOk(pr, SolverView(EMPTY.WithDecision(ROOT, pr.rootVersion), ix, map[], {}, {}, {}))
  {
    var t := EMPTY.WithDecision(ROOT, pr.rootVersion);
    assert TrailOk(EMPTY);
    DecideOk(EMPTY, ROOT, pr.rootVersion);
    DecideInUniverse(pr, EMPTY, ROOT, pr.rootVersion);
    assert Justified(EMPTY, ix.store);
    DecideJustified(EMPTY, ix.store, ROOT, pr.rootVersion);
  }

  // -- Garbage collection ----------------------------------------------------------------

  ghost function Collected(ix: ClauseIndex): ClauseIndex
    requires IndexOk(ix)
    decreases |ix.learned|
  {
    if |ix.learned| <= MAX_LEARNED_WATCHED then ix
    else
      ForgotOk(ix);
      Collected(ix.Forgot())
  }

  /** Collection keeps the newest learned incompatibilities, as many as the cap allows. */
  lemma {:induction false} CollectedKeeps(ix: ClauseIndex)
    requires IndexOk(ix)
    ensures IndexOk(Collected(ix))
    ensures Collected(ix).store == ix.store && Collected(ix).watched == ix.watched
    ensures |Collected(ix).learned| == if |ix.learned| <= MAX_LEARNED_WATCHED then |ix.learned| else MAX_LEARNED_WATCHED
    ensures Collected(ix).learned == ix.learned[|ix.learned| - |Collected(ix).learned|..]
    decreases |ix.learned|
  {
    hide ClauseIndex.Forgot, IndexOk, ClauseIndex.Live;
    if |ix.learned| > MAX_LEARNED_WATCHED {
      ForgotOk(ix);
      ForgotFields(ix);
      CollectedKeeps(ix.Forgot());
      SuffixOfTail(ix.learned, |Collected(ix).learned|);
    }
  }

  lemma ForgotFields(ix: ClauseIndex)
    requires 0 < |ix.learned| && ix.learned[0] < |ix.watched|
    ensures ix.Forgot().store == ix.store && ix.Forgot().watched == ix.watched && ix.Forgot().learned == ix.learned[1..]
  {
  }

  lemma SuffixOfTail<T>(s: seq<T>, k: nat)
    requires k < |s|
    ensures s[1..][|s| - 1 - k..] == s[|s| - k..]
  {
  }

  /** Only learned incompatibilities are forgotten, and never the latest one. */
  lemma CollectedForgetsOldLearned(ix: ClauseIndex, id: nat)
    requires IndexOk(ix)
    ensures ix.Live(id) && !Collected(ix).Live(id) ==> ix.store[id].kind.Derived?
    ensures 0 < |ix.learned| && id == ix.learned[|ix.learned| - 1] ==> Collected(ix).Live(id)
  {
    hide Collected, IndexOk;
    CollectedKeeps(ix);
    NewestStored(ix);
    var kept := Collected(ix).learned;
    if 0 < |ix.learned| {
      assert kept[|kept| - 1] == ix.learned[|ix.learned| - 1];
    }
  }

  lemma NewestStored(ix: ClauseIndex)
    requires IndexOk(ix)
    ensures 0 < |ix.learned| ==> ix.learned[|ix.learned| - 1] < |ix.store|
  {
  }

  lemma CollectedSolverOk(pr: Problem, t: Trail, ix: ClauseIndex, ids: DependencyIds, unwatched: set<DependencyKey>)
    requires SolverOk(pr, t, ix) && AllRegistered(pr, ix, ids, unwatched)
    ensures SolverOk(pr, t, Collected(ix)) && AllRegistered(pr, Collected(ix), ids, unwatched)
  {
    CollectedKeeps(ix);
    forall key | key in ids ensures RegisteredAs(pr, Collected(ix), unwatched, key, ids[key]) {
      assert RegisteredAs(pr, ix, unwatched, key, ids[key]);
    }
  }

  lemma ClauseNotEmpty(pr: Problem, terms: PackageTerms)
    requires ClauseOk(pr, terms)
    ensures terms != map[]
  {
    EntailedHasPositive(pr, terms);
  }

  lemma LearnedOk(pr: Problem, s: SolverView, inc: Incompatibility, a: PackageId, b: PackageId)
    requires StateOk(pr, s) && ClauseOk(pr, inc.terms) && TermsAlike(pr, inc.terms, s.marked)
    requires a in inc.terms && b in inc.terms
    ensures IndexOk(s.index.Pushed(inc, a, b))
    ensures StateOk(pr, s.(index := Collected(s.index.Pushed(inc, a, b))))
  {
    hide SolverOk, ClauseOk, TermsAlike;
    PushedSolverOk(pr, s.trail, s.index, inc, a, b);
    PushedIndexOk(pr, s, inc, a, b);
    PushedRegistered(pr, s.index, s.ids, s.unwatched, inc, a, b);
    CollectedSolverOk(pr, s.trail, s.index.Pushed(inc, a, b), s.ids, s.unwatched);
    CollectedKeeps(s.index.Pushed(inc, a, b));
  }

  lemma PushedIndexOk(pr: Problem, s: SolverView, inc: Incompatibility, a: PackageId, b: PackageId)
    requires StateOk(pr, s) && a in inc.terms && b in inc.terms
    ensures IndexOk(s.index) && IndexOk(s.index.Pushed(inc, a, b))
  {
    PushedOk(s.index, inc, a, b);
  }

  lemma MovedOk(pr: Problem, s: SolverView, id: nat, a: PackageId, b: PackageId)
    requires StateOk(pr, s) && s.index.Live(id)
    requires a in s.index.store[id].terms && b in s.index.store[id].terms && a != b
    ensures id < |s.index.watched| && StateOk(pr, s.(index := s.index.Rewatched(id, a, b)))
  {
    RewatchedSolverOk(pr, s.trail, s.index, id, a, b);
    RewatchedRegistered(pr, s.index, s.ids, s.unwatched, id, a, b);
  }

  lemma NarrowedOk(pr: Problem, s: SolverView, p: PackageId, id: nat)
    requires StateOk(pr, s) && RootOk(pr, s.trail) && id < |s.index.store| && p in s.index.store[id].terms
    requires OthersSatisfied(s.trail, s.index.store[id].terms, p)
    requires s.trail.TermFor(p).RelationWith(s.index.store[id].terms[p]).Inconclusive?
    ensures Unit(s.trail, s.index.store, id, p)
    ensures StateOk(pr, s.(trail := Narrowed(s.trail, s.index.store, p, id)))
    ensures RootOk(pr, Narrowed(s.trail, s.index.store, p, id))
    ensures RootRefuted(pr, Narrowed(s.trail, s.index.store, p, id)) <==> RootRefuted(pr, s.trail)
    ensures Rank(pr, Narrowed(s.trail, s.index.store, p, id)) < Rank(pr, s.trail)
  {
    hide TrailOk, StoreOk, IndexOk, Justified;
    var t, store := s.trail, s.index.store;
    UnitOk(pr, t, store, id, p);
    DerivedSolverOk(pr, t, s.index, p, id);
    OpenIsUndecided(t, p, store[id].terms[p]);
    DerivedRootOk(pr, t, p, id, store[id].terms[p].Negate());
    DerivedExpanded(t, p, id, store[id].terms[p].Negate(), s.added);
  }

  lemma DerivedExpanded(t: Trail, p: PackageId, cause: nat, term: Term, added: set<(PackageId, Version)>)
    requires !t.IsDecided(p) && DecidedExpanded(t, added)
    ensures DecidedExpanded(t.WithDerivation(p, cause, term), added)
  {
  }

  lemma RewoundExpanded(t: Trail, target: nat, added: set<(PackageId, Version)>)
    requires CanRewind(t, target) && DecidedExpanded(t, added)
    ensures DecidedExpanded(t.Rewound(target), added)
  {
    forall p | t.Rewound(target).IsDecided(p)
      ensures t.IsDecided(p) && t.Rewound(target).assignments[p] == t.assignments[p]
    {
      RewindDecided(t, target, p);
    }
  }

  lemma DecidedIsExpanded(t: Trail, p: PackageId, v: Version, added: set<(PackageId, Version)>)
    requires DecidedExpanded(t, added) && (p == ROOT || (p, v) in added)
    ensures DecidedExpanded(t.WithDecision(p, v), added)
  {
  }

  // -- The root --------------------------------------------------------------------------

  /** A decided or refuted root leaves no term for it open, so `not_root` is never a cause. */
  lemma UnitOk(pr: Problem, t: Trail, store: Store, id: nat, p: PackageId)
    requires StoreOk(pr, store) && RootOk(pr, t) && id < |store|
    requires RootDecided(t) ==> t.assignments[ROOT].state.version == pr.rootVersion
    requires p in store[id].terms && OthersSatisfied(t, store[id].terms, p)
    requires t.TermFor(p).RelationWith(store[id].terms[p]).Inconclusive?
    ensures Unit(t, store, id, p) && p != ROOT
  {
    if id > 0 {
      assert ClauseOk(pr, store[id].terms);
    }
  }

  lemma DerivedRootOk(pr: Problem, t: Trail, p: PackageId, cause: nat, term: Term)
    requires RootOk(pr, t) && !t.IsDecided(p) && p != ROOT
    ensures RootOk(pr, t.WithDerivation(p, cause, term))
    ensures RootRefuted(pr, t.WithDerivation(p, cause, term)) <==> RootRefuted(pr, t)
  {
  }

  // -- Conflict resolution ---------------------------------------------------------------

  /** A live incompatibility all of whose terms are satisfied. */
  ghost predicate InConflict(s: SolverView, id: nat) {
    s.index.Live(id) && AllSatisfied(s.trail, s.index.store[id].terms)
  }

  /** Every satisfier of the terms has an index below the bound. */
  ghost predicate SatisfiersBelow(t: Trail, terms: PackageTerms, bound: nat) {
    forall q :: q in terms && q in t.assignments ==> SatisfierOf(t, terms, q).index < bound
  }

  lemma SatisfiersBounded(pr: Problem, s: SolverView, id: nat, bound: nat)
    requires StateOk(pr, s) && InConflict(s, id) && s.trail.nextIndex <= bound
    ensures SatisfiersBelow(s.trail, s.index.store[id].terms, bound)
  {
    var t, terms := s.trail, s.index.store[id].terms;
    forall q | q in terms && q in t.assignments ensures SatisfierOf(t, terms, q).index < bound {
      SatisfierIsEntry(t, terms, q);
    }
  }

  /** The terminal incompatibilities are `not_root`, which is in conflict only with a refuted
      root, and those that exclude the root's version: either way there is no solution. */
  lemma TerminalExit(pr: Problem, s: SolverView, id: nat)
    requires StateOk(pr, s) && RootOk(pr, s.trail) && InConflict(s, id) && s.index.store[id].IsTerminal(ROOT)
    ensures Unsolvable(pr)
  {
    var terms := s.index.store[id].terms;
    if id == 0 {
      assert ROOT in terms && s.trail.TermFor(ROOT).SubsetOf(Negative({pr.rootVersion}));
      RefutedUnsolvable(pr, s.trail, s.index);
    } else {
      assert ClauseOk(pr, terms);
      OnlyKey(terms, ROOT);
      TerminalUnsolvable(pr, terms);
    }
  }

  lemma OnlyKey<K, V>(m: map<K, V>, k: K)
    requires |m| == 0 || (|m| == 1 && k in m)
    ensures forall x :: x in m ==> x == k
  {
    if |m| == 1 {
      assert |m.Keys - {k}| == 0;
      assert forall x :: x in m && x != k ==> x in m.Keys - {k};
    }
  }

  lemma NotTerminal(pr: Problem, s: SolverView, id: nat)
    requires StateOk(pr, s) && InConflict(s, id) && !s.index.store[id].IsTerminal(ROOT)
    ensures 1 <= id
    ensures exists q :: q in s.index.store[id].terms && q in s.trail.assignments
  {
    hide TrailOk, IndexOk, Justified;
    assert s.index.store[0].IsTerminal(ROOT);
    assert ClauseOk(pr, s.index.store[id].terms);
    ConflictHasAssigned(pr, s.trail, s.index.store[id].terms);
  }

  function ResolventOf(s: SolverView, id: nat, info: SatisfierInfo): PackageTerms
    requires id < |s.index.store| && info.cause.Some? && info.cause.value < |s.index.store|
  {
    PriorTerms(s.index.store[id].terms, s.index.store[info.cause.value].terms, info.package)
  }

  /** Resolving keeps the conflict and, unless contradictory requirements mix with others, lowers
      every satisfier. */
  lemma ResolveStep(pr: Problem, s: SolverView, id: nat, info: SatisfierInfo, bound: nat)
    requires StateOk(pr, s) && 1 <= id && InConflict(s, id) && 0 < bound
    requires IsLatest(s.trail, s.index.store[id].terms, info) && info.cause.Some?
    requires pr.ContradictedAlone() ==> SatisfiersBelow(s.trail, s.index.store[id].terms, bound)
    ensures info.cause.value < |s.index.store|
    ensures ClauseOk(pr, ResolventOf(s, id, info)) && AllSatisfied(s.trail, ResolventOf(s, id, info))
    ensures TermsAlike(pr, ResolventOf(s, id, info), s.marked)
    ensures pr.ContradictedAlone() ==> SatisfiersBelow(s.trail, ResolventOf(s, id, info), bound - 1)
  {
    var t, store := s.trail, s.index.store;
    var terms := store[id].terms;
    assert ClauseOk(pr, terms);
    ResolventSatisfiedBefore(t, store, terms, info);
    var cause := store[info.cause.value].terms;
    assert ClauseOk(pr, cause);
    PriorClauseOk(pr, terms, cause, info.package);
    PriorAlike(pr, terms, cause, info.package, s.marked);
    hide TermsAlike, Problem.ContradictedAlone;
    var prior := PriorTerms(terms, cause, info.package);
    var g := SatisfierOf(t, terms, info.package).index;
    hide StoreOk, IndexOk, Justified, PriorTerms, TrailOk;
    SatisfiedBeforeIsSatisfied(t, prior, g);
    if pr.ContradictedAlone() {
      LowerSatisfiers(pr, s, prior, g);
    }
  }

  /** The packages that are assigned have no trivially true terms. */
  lemma LowerSatisfiers(pr: Problem, s: SolverView, terms: PackageTerms, g: nat)
    requires StateOk(pr, s) && pr.ContradictedAlone() && ClauseOk(pr, terms) && SatisfiedBefore(s.trail, terms, g)
    ensures SatisfiersBelow(s.trail, terms, g)
  {
    forall q | q in terms && q in s.trail.assignments ensures SatisfierOf(s.trail, terms, q).index < g {
      AssignedIsDerived(pr, s, q);
      AssignedNotContradicted(pr, s.trail, s.index.store, q);
      SatisfierBefore(s.trail, terms, q, g);
    }
  }

  lemma AssignedIsDerived(pr: Problem, s: SolverView, p: PackageId)
    requires StateOk(pr, s) && p in s.trail.assignments
    ensures p == ROOT || s.trail.assignments[p].derivations != []
  {
    assert AssignmentOk(s.trail.assignments[p]);
  }

  lemma BackjumpStep(pr: Problem, s: SolverView, id: nat, info: SatisfierInfo)
    requires StateOk(pr, s) && 1 <= id && InConflict(s, id)
    requires IsLatest(s.trail, s.index.store[id].terms, info) && IsPrevious(s.trail, s.index.store[id].terms, info)
    requires info.isDecision || info.cause.None?
    ensures info.previous < s.trail.level
    ensures StateOk(pr, s.(trail := s.trail.Rewound(info.previous)))
    ensures Unit(s.trail.Rewound(info.previous), s.index.store, id, info.package)
  {
    var t, terms := s.trail, s.index.store[id].terms;
    assert ClauseOk(pr, terms);
    SatisfierIsEntry(t, terms, info.package);
    BackjumpIsUnit(t, s.index.store, terms, info);
    RewoundExpanded(t, info.previous, s.added);
    hide TrailOk, StoreOk, IndexOk, Justified, OthersSatisfied, CanDerive;
    RewoundSolverOk(pr, t, s.index, info.previous);
  }

  // -- Propagation -----------------------------------------------------------------------

  /** The invariant while the agenda is worked off. A refuted root is still on the agenda. */
  ghost predicate PropagationOk(pr: Problem, s: SolverView, agenda: Agenda) {
    && StateOk(pr, s)
    && RootOk(pr, s.trail)
    && Propagated(pr, s.trail, s.ids, s.unwatched, agenda)
    && (RootRefuted(pr, s.trail) ==> ROOT in agenda.buffer || (agenda.current == ROOT && 0 in agenda.remaining))
  }

  lemma RootOfPropagation(pr: Problem, s: SolverView, agenda: Agenda)
    requires PropagationOk(pr, s, agenda)
    ensures StateOk(pr, s) && RootOk(pr, s.trail)
  {
  }

  lemma NotUnitIsNoConflict(t: Trail, terms: PackageTerms)
    requires NotUnit(t, terms)
    ensures !AllSatisfied(t, terms)
    ensures forall p :: p in terms && OthersSatisfied(t, terms, p) ==>
            !t.TermFor(p).RelationWith(terms[p]).Inconclusive?
  {
  }

  lemma VisitExcludes(t: Trail, store: Store, id: nat)
    requires id < |store|
    ensures NotUnit(t, store[id].terms) ==> !AllSatisfied(t, store[id].terms) && forall p :: !Unit(t, store, id, p)
  {
  }

  lemma ListedAreLive(pr: Problem, s: SolverView, p: PackageId, id: nat)
    requires StateOk(pr, s)
    ensures NoDuplicates(ListOf(s.index.watches, p))
    ensures id in ListOf(s.index.watches, p) <==> s.index.Live(id) && s.index.Watches(id, p)
  {
    assert (p, id) in Pairs(s.index) <==> s.index.Live(id) && s.index.Watches(id, p);
  }

  lemma NotRootListed(pr: Problem, s: SolverView)
    requires StateOk(pr, s)
    ensures 0 in ListOf(s.index.watches, ROOT)
  {
    ListedAreLive(pr, s, ROOT, 0);
    assert s.index.watched[0].0 in s.index.store[0].terms;
  }

  /** Take a package off the buffer and put its listed incompatibilities on the agenda. */
  lemma VisitStarts(pr: Problem, s: SolverView, buffer: set<PackageId>, current: PackageId)
    requires PropagationOk(pr, s, Agenda(buffer, ROOT, {}))
    ensures PropagationOk(pr, s, Agenda(buffer - {current}, current, set id | id in ListOf(s.index.watches, current)))
  {
    hide StateOk;
    NotRootListed(pr, s);
    IndexOfState(pr, s);
    VisitPropagated(pr, s.trail, s.index, s.ids, s.unwatched, buffer, current, ROOT);
  }

  lemma IndexOfState(pr: Problem, s: SolverView)
    requires StateOk(pr, s)
    ensures IndexOk(s.index) && AllRegistered(pr, s.index, s.ids, s.unwatched) && pr.WellFormed() && TrailOk(s.trail)
    ensures StoreOk(pr, s.index.store)
  {
  }

  /** The refuted root is in conflict with `not_root`. */
  lemma RefutedConflict(pr: Problem, s: SolverView)
    requires StateOk(pr, s) && RootRefuted(pr, s.trail)
    ensures AllSatisfied(s.trail, s.index.store[0].terms)
  {
    assert s.index.store[0] == NotRoot(ROOT, pr.rootVersion);
  }

  lemma VisitedNothing(pr: Problem, s: SolverView, agenda: Agenda, id: nat)
    requires PropagationOk(pr, s, agenda) && id < |s.index.store| && NotUnit(s.trail, s.index.store[id].terms)
    ensures PropagationOk(pr, s, agenda.(remaining := agenda.remaining - {id}))
  {
    IndexOfState(pr, s);
    if RootRefuted(pr, s.trail) {
      RefutedConflict(pr, s);
      NotUnitIsNoConflict(s.trail, s.index.store[id].terms);
    }
    hide StateOk;
    VisitedPropagated(pr, s.trail, s.index, s.ids, s.unwatched, agenda, id);
  }

  /** Only watches differ. */
  ghost predicate SameButWatches(s: SolverView, s': SolverView) {
    && s'.trail == s.trail && s'.index.store == s.index.store && s'.index.learned == s.index.learned
    && s'.ids == s.ids && s'.unwatched == s.unwatched && s'.added == s.added
  }

  lemma MovedPropagation(pr: Problem, s: SolverView, s': SolverView, agenda: Agenda)
    requires PropagationOk(pr, s, agenda) && SameButWatches(s, s') && StateOk(pr, s')
    ensures PropagationOk(pr, s', agenda)
  {
  }

  lemma VisitedDerived(pr: Problem, s: SolverView, agenda: Agenda, id: nat, p: PackageId)
    requires PropagationOk(pr, s, agenda) && Unit(s.trail, s.index.store, id, p)
    ensures PropagationOk(pr, s.(trail := Narrowed(s.trail, s.index.store, p, id)),
                          Agenda(agenda.buffer + {p}, agenda.current, agenda.remaining - {id}))
    ensures Rank(pr, Narrowed(s.trail, s.index.store, p, id)) < Rank(pr, s.trail)
  {
    hide StateOk, SolverOk;
    var t' := Narrowed(s.trail, s.index.store, p, id);
    NarrowedOk(pr, s, p, id);
    DerivedAgenda(pr, s, agenda, id, p);
    AgendaGrows(pr, t', s.ids, s.unwatched, agenda.(remaining := agenda.remaining - {id}),
                Agenda(agenda.buffer + {p}, agenda.current, agenda.remaining - {id}));
  }

  lemma UnitVisited(pr: Problem, s: SolverView, agenda: Agenda, id: nat, p: PackageId)
    requires PropagationOk(pr, s, agenda) && id < |s.index.store| && p in s.index.store[id].terms
    requires OthersSatisfied(s.trail, s.index.store[id].terms, p)
    requires s.trail.TermFor(p).RelationWith(s.index.store[id].terms[p]).Inconclusive?
    ensures Unit(s.trail, s.index.store, id, p)
    ensures StateOk(pr, s.(trail := Narrowed(s.trail, s.index.store, p, id)))
    ensures PropagationOk(pr, s.(trail := Narrowed(s.trail, s.index.store, p, id)),
                          Agenda(agenda.buffer + {p}, agenda.current, agenda.remaining - {id}))
    ensures Rank(pr, Narrowed(s.trail, s.index.store, p, id)) < Rank(pr, s.trail)
  {
    hide StateOk, PropagationOk, RootOk, Unit, OthersSatisfied, Rank, Narrowed;
    RootOfPropagation(pr, s, agenda);
    NarrowedOk(pr, s, p, id);
    VisitedDerived(pr, s, agenda, id, p);
  }

  lemma DerivedAgenda(pr: Problem, s: SolverView, agenda: Agenda, id: nat, p: PackageId)
    requires StateOk(pr, s) && Propagated(pr, s.trail, s.ids, s.unwatched, agenda)
             && Unit(s.trail, s.index.store, id, p)
    ensures Propagated(pr, Narrowed(s.trail, s.index.store, p, id), s.ids, s.unwatched,
                       agenda.(remaining := agenda.remaining - {id}))
  {
    hide SolverOk, Propagated;
    var t' := Narrowed(s.trail, s.index.store, p, id);
    UnitCanDerive(pr, s.trail, s.index, p, id);
    DerivedPropagated(pr, s.trail, s.ids, s.unwatched, agenda, p, id, s.index.store[id].terms[p].Negate());
    DerivedVisitedPropagated(pr, s.trail, t', s.index, s.ids, s.unwatched, agenda, id, p);
  }

  // -- Working off the agenda ------------------------------------------------------------

  function Remaining(watchers: seq<nat>, k: nat): set<nat>
    requires k <= |watchers|
  {
    set id | id in watchers[k..]
  }

  lemma RemainingStep(watchers: seq<nat>, k: nat)
    requires NoDuplicates(watchers) && k < |watchers|
    ensures Remaining(watchers, k) - {watchers[k]} == Remaining(watchers, k + 1)
    ensures watchers[k] in Remaining(watchers, k)
  {
    assert watchers[k..] == [watchers[k]] + watchers[k + 1..];
    assert forall i :: k + 1 <= i < |watchers| ==> watchers[i] == watchers[k + 1..][i - k - 1];
    assert watchers[k] !in watchers[k + 1..];
  }

  /** The buffer of packages to visit, and the set that guards it against repetitions. */
  ghost predicate BufferOk(buffer: seq<PackageId>, bufferSet: set<PackageId>) {
    (forall p :: p in buffer <==> p in bufferSet) && NoDuplicates(buffer)
  }

  lemma BufferPop(buffer: seq<PackageId>, bufferSet: set<PackageId>)
    requires BufferOk(buffer, bufferSet) && buffer != []
    ensures BufferOk(buffer[..|buffer| - 1], bufferSet - {buffer[|buffer| - 1]})
    ensures buffer[|buffer| - 1] in bufferSet
  {
    var last := buffer[|buffer| - 1];
    assert buffer == buffer[..|buffer| - 1] + [last];
    assert last !in buffer[..|buffer| - 1];
  }

  lemma BufferPush(buffer: seq<PackageId>, bufferSet: set<PackageId>, p: PackageId)
    requires BufferOk(buffer, bufferSet)
    ensures p !in bufferSet ==> BufferOk(buffer + [p], bufferSet + {p})
  {
    if p !in bufferSet {
      assert p !in buffer;
    }
  }

  /** At most the watches of one incompatibility differ. */
  ghost predicate OnlyMoved(before: seq<(PackageId, PackageId)>, after: seq<(PackageId, PackageId)>, id: nat) {
    |after| == |before| && forall i :: 0 <= i < |before| && i != id ==> after[i] == before[i]
  }

  lemma IndexLengths(ix: ClauseIndex)
    requires IndexOk(ix)
    ensures |ix.watched| == |ix.store|
  {
  }

  lemma PickedAmong(t: Trail, terms: PackageTerms, a: PackageId, b: PackageId)
    requires Picked(t, terms, a, b)
    ensures a in terms && b in terms
  {
  }

  lemma NothingMoved(watched: seq<(PackageId, PackageId)>, id: nat)
    ensures OnlyMoved(watched, watched, id)
  {
  }

  lemma UnitIsStored(t: Trail, store: Store, id: nat, p: PackageId)
    requires Unit(t, store, id, p)
    ensures id < |store| && p in store[id].terms
  {
  }

  /** The listed incompatibilities are live, and those from `k` on still watch the package. */
  ghost predicate WatchersOk(ix: ClauseIndex, watchers: seq<nat>, k: nat, current: PackageId) {
    && NoDuplicates(watchers)
    && (forall i :: 0 <= i < |watchers| ==> ix.Live(watchers[i]))
    && (forall i :: k <= i < |watchers| ==> ix.Watches(watchers[i], current))
  }

  lemma WatcherLive(ix: ClauseIndex, watchers: seq<nat>, k: nat, current: PackageId)
    requires WatchersOk(ix, watchers, k, current) && k < |watchers|
    ensures ix.Live(watchers[k]) && ix.Watches(watchers[k], current)
  {
  }

  lemma WatchersKept(ix: ClauseIndex, ix': ClauseIndex, watchers: seq<nat>, k: nat, current: PackageId)
    requires WatchersOk(ix, watchers, k, current) && k < |watchers|
    requires ix'.store == ix.store && ix'.learned == ix.learned && OnlyMoved(ix.watched, ix'.watched, watchers[k])
    ensures WatchersOk(ix', watchers, k + 1, current)
  {
  }

  lemma ProgressMade(pr: Problem, before: Trail, after: Trail)
    ensures after == before || Rank(pr, after) < Rank(pr, before) ==> Progress(pr, before, after)
    ensures Rank(pr, after) < Rank(pr, before) ==> after != before
  {
  }

  /** Either the rank went down or nothing changed. */
  ghost predicate Progress(pr: Problem, before: Trail, after: Trail) {
    after == before || Rank(pr, after) < Rank(pr, before)
  }

  lemma ProgressChains(pr: Problem, a: Trail, b: Trail, c: Trail)
    requires Progress(pr, a, b) && Progress(pr, b, c)
    ensures Progress(pr, a, c) && (c == a ==> b == a)
  {
  }

  /** The first `k` watchers are neither unit nor in conflict. */
  ghost predicate Quiet(t: Trail, store: Store, watchers: seq<nat>, k: nat) {
    forall i :: 0 <= i < k <= |watchers| && watchers[i] < |store| ==> NotUnit(t, store[watchers[i]].terms)
  }

  lemma QuietNone(t: Trail, store: Store, watchers: seq<nat>)
    ensures Quiet(t, store, watchers, 0)
  {
  }

  lemma QuietAt(t: Trail, store: Store, watchers: seq<nat>, k: nat)
    requires k < |watchers| && watchers[k] < |store|
    ensures Quiet(t, store, watchers, |watchers|) ==> NotUnit(t, store[watchers[k]].terms)
    ensures Quiet(t, store, watchers, k) && NotUnit(t, store[watchers[k]].terms) ==> Quiet(t, store, watchers, k + 1)
  {
  }

  lemma NothingRemains(watchers: seq<nat>)
    ensures Remaining(watchers, |watchers|) == {}
  {
  }

  lemma VisitBegins(pr: Problem, s: SolverView, buffer: set<PackageId>, current: PackageId)
    requires PropagationOk(pr, s, Agenda(buffer, ROOT, {}))
    ensures var watchers := ListOf(s.index.watches, current);
            && WatchersOk(s.index, watchers, 0, current)
            && PropagationOk(pr, s, Agenda(buffer - {current}, current, Remaining(watchers, 0)))
  {
    hide StateOk, PropagationOk;
    var watchers := ListOf(s.index.watches, current);
    VisitStarts(pr, s, buffer, current);
    assert watchers[0..] == watchers;
    RootOfPropagation(pr, s, Agenda(buffer, ROOT, {}));
    ListedAreLive(pr, s, current, 0);
    forall i | 0 <= i < |watchers| ensures s.index.Live(watchers[i]) && s.index.Watches(watchers[i], current) {
      ListedAreLive(pr, s, current, watchers[i]);
    }
  }

  /** An incompatibility in conflict that watches the package is among its watchers, which
      therefore are not all quiet. */
  lemma StuckIsListed(pr: Problem, s: SolverView, id: nat, p: PackageId, watchers: seq<nat>)
    requires StateOk(pr, s) && InConflict(s, id) && s.index.Watches(id, p) && watchers == ListOf(s.index.watches, p)
    ensures !Quiet(s.trail, s.index.store, watchers, |watchers|)
  {
    ListedAreLive(pr, s, p, id);
    var i :| 0 <= i < |watchers| && watchers[i] == id;
    NotUnitOrConflict(s.trail, s.index.store[id].terms);
  }

  lemma NotUnitOrConflict(t: Trail, terms: PackageTerms)
    ensures AllSatisfied(t, terms) ==> !NotUnit(t, terms)
  {
  }

  lemma AgendaCurrent(pr: Problem, s: SolverView, buffer: set<PackageId>, current: PackageId)
    requires PropagationOk(pr, s, Agenda(buffer, current, {}))
    ensures PropagationOk(pr, s, Agenda(buffer, ROOT, {}))
  {
    hide StateOk, Propagated, RootOk;
    AgendaGrows(pr, s.trail, s.ids, s.unwatched, Agenda(buffer, current, {}), Agenda(buffer, ROOT, {}));
  }

  lemma ProgressCases(pr: Problem, a: Trail, b: Trail)
    requires Progress(pr, a, b)
    ensures b == a || Rank(pr, b) < Rank(pr, a)
  {
  }

  lemma ProgressLowers(pr: Problem, a: Trail, b: Trail, c: Trail)
    requires Progress(pr, a, b) && Rank(pr, c) < Rank(pr, b)
    ensures Progress(pr, a, c) && Rank(pr, c) < Rank(pr, a)
  {
  }

  lemma BufferEmpty(bufferSet: set<PackageId>)
    requires BufferOk([], bufferSet)
    ensures bufferSet == {}
  {
    assert forall p :: p in bufferSet ==> p in [];
  }

  // -- After a conflict ------------------------------------------------------------------

  /** A backjump to level 0 forgets the root; above, the root stays decided. */
  lemma RootAfterRewind(pr: Problem, t: Trail, target: nat)
    requires TrailOk(t) && DecisionsOk(pr, t) && RootOk(pr, t) && target < t.level
    ensures target == 0 ==> ROOT !in t.Rewound(target).assignments
    ensures target > 0 ==> RootDecided(t.Rewound(target)) && t.Rewound(target).IsDecided(ROOT)
  {
    var a := t.assignments[ROOT];
    assert AssignmentOk(a) && a.smallest == a.Level(0) == 1;
    RewindDecided(t, target, ROOT);
  }

  lemma AssertedRoot(pr: Problem, t: Trail, store: Store, p: PackageId, cause: nat)
    requires StoreOk(pr, store) && Unit(t, store, cause, p) && !t.IsDecided(p)
    requires if t.level == 0 then ROOT !in t.assignments else RootDecided(t)
    ensures RootRevivable(pr, Narrowed(t, store, p, cause), p)
  {
    assert ClauseOk(pr, store[cause].terms);
    var t' := Narrowed(t, store, p, cause);
    assert t'.level == t.level;
    if t.level == 0 && p == ROOT {
      assert t'.TermFor(ROOT) == Negative({pr.rootVersion});
    }
  }

  /** The root is decided, refuted just now, or forgotten. */
  ghost predicate RootRevivable(pr: Problem, t: Trail, p: PackageId) {
    if ROOT in t.assignments then RootOk(pr, t) && (RootRefuted(pr, t) ==> p == ROOT)
    else t.level == 0 && p != ROOT && Decidable(pr, t, ROOT, pr.rootVersion)
  }

  ghost predicate Revivable(pr: Problem, s: SolverView, p: PackageId) {
    Propagated(pr, s.trail, s.ids, s.unwatched, DONE) && RootRevivable(pr, s.trail, p)
  }

  lemma AfterBackjumpRoot(pr: Problem, s: SolverView, agenda: Agenda, s1: SolverView, p: PackageId, cause: nat)
    requires TrailOk(s.trail) && DecisionsOk(pr, s.trail) && RootOk(pr, s.trail)
    requires Propagated(pr, s.trail, s.ids, s.unwatched, agenda)
    requires s1.trail.level < s.trail.level && s1.trail == s.trail.Rewound(s1.trail.level)
    requires s1.ids == s.ids && s1.unwatched == s.unwatched
    requires StateOk(pr, s1) && Unit(s1.trail, s1.index.store, cause, p)
    ensures Revivable(pr, s1.(trail := Narrowed(s1.trail, s1.index.store, p, cause)), p)
  {
    var store := s1.index.store;
    RewoundPropagated(pr, s.trail, s.ids, s.unwatched, agenda, s1.trail.level);
    RootAfterRewind(pr, s.trail, s1.trail.level);
    UnitCanDerive(pr, s1.trail, s1.index, p, cause);
    OpenIsUndecided(s1.trail, p, store[cause].terms[p]);
    IndexOfState(pr, s1);
    hide StateOk, SolverOk, StoreOk, IndexOk, TrailOk, RootOk, Propagated, RootRevivable, RootDecided;
    AssertedRoot(pr, s1.trail, store, p, cause);
    DerivedPropagated(pr, s1.trail, s1.ids, s1.unwatched, DONE, p, cause, store[cause].terms[p].Negate());
  }

  /** The state after the backjump and its derivation: the package is all there is to visit,
      the root can be decided again if it was forgotten, and the rank went down. */
  lemma AfterBackjump(pr: Problem, s: SolverView, agenda: Agenda, s1: SolverView, p: PackageId, cause: nat)
    requires PropagationOk(pr, s, agenda)
    requires s1.trail.level < s.trail.level && s1.trail == s.trail.Rewound(s1.trail.level)
    requires s1.ids == s.ids && s1.unwatched == s.unwatched
    requires StateOk(pr, s1) && Unit(s1.trail, s1.index.store, cause, p)
    ensures StateOk(pr, s1.(trail := Narrowed(s1.trail, s1.index.store, p, cause)))
    ensures Revivable(pr, s1.(trail := Narrowed(s1.trail, s1.index.store, p, cause)), p)
    ensures Rank(pr, Narrowed(s1.trail, s1.index.store, p, cause)) < Rank(pr, s.trail)
  {
    hide TrailOk, StoreOk, IndexOk, Justified, CanDerive, Propagated, PropagationOk, Revivable, RootOk,
      DecidedExpanded;
    StateOfPropagation(pr, s, agenda);
    AfterBackjumpRoot(pr, s, agenda, s1, p, cause);
    UnitCanDerive(pr, s1.trail, s1.index, p, cause);
    OpenIsUndecided(s1.trail, p, s1.index.store[cause].terms[p]);
    DerivedExpanded(s1.trail, p, cause, s1.index.store[cause].terms[p].Negate(), s1.added);
    BackjumpLowersRank(pr, s.trail, s1.trail.level, p, cause, s1.index.store[cause].terms[p].Negate());
    DerivedSolverOk(pr, s1.trail, s1.index, p, cause);
  }

  lemma RevivableMoved(pr: Problem, s: SolverView, s': SolverView, p: PackageId)
    requires SameButWatches(s, s') && Revivable(pr, s, p)
    ensures Revivable(pr, s', p)
  {
  }

  lemma ProgressBelow(pr: Problem, a: Trail, b: Trail, c: Trail)
    requires Rank(pr, b) < Rank(pr, a) && Progress(pr, b, c)
    ensures Rank(pr, c) < Rank(pr, a)
  {
  }

  /** Deciding the root again. */
  lemma RootAgain(pr: Problem, s: SolverView, p: PackageId)
    requires StateOk(pr, s) && Propagated(pr, s.trail, s.ids, s.unwatched, DONE)
    requires s.trail.level == 0 && Decidable(pr, s.trail, ROOT, pr.rootVersion)
    ensures PropagationOk(pr, s.(trail := s.trail.WithDecision(ROOT, pr.rootVersion)), Agenda({p, ROOT}, ROOT, {}))
    ensures Rank(pr, s.trail.WithDecision(ROOT, pr.rootVersion)) < Rank(pr, s.trail)
  {
    DecidedSolverOk(pr, s.trail, s.index, ROOT, pr.rootVersion);
    DecidedPropagated(pr, s.trail, s.ids, s.unwatched, ROOT, pr.rootVersion);
    DecidedIsExpanded(s.trail, ROOT, pr.rootVersion, s.added);
    hide Propagated, SolverOk, DecidedExpanded;
    AgendaGrows(pr, s.trail.WithDecision(ROOT, pr.rootVersion), s.ids, s.unwatched, Agenda({ROOT}, ROOT, {}),
        Agenda({p, ROOT}, ROOT, {}));
  }

  lemma StateOfPropagation(pr: Problem, s: SolverView, agenda: Agenda)
    requires PropagationOk(pr, s, agenda)
    ensures StateOk(pr, s) && RootOk(pr, s.trail) && Propagated(pr, s.trail, s.ids, s.unwatched, agenda)
    ensures TrailOk(s.trail) && DecisionsOk(pr, s.trail)
  {
  }

  lemma SingleBuffer(p: PackageId)
    ensures BufferOk([p], {p})
  {
  }

  lemma RootKept(pr: Problem, s: SolverView, p: PackageId)
    requires StateOk(pr, s) && Propagated(pr, s.trail, s.ids, s.unwatched, DONE)
    requires RootOk(pr, s.trail) && (RootRefuted(pr, s.trail) ==> p == ROOT)
    ensures PropagationOk(pr, s, Agenda({p}, ROOT, {}))
  {
    hide StateOk, Propagated, RootOk;
    AgendaGrows(pr, s.trail, s.ids, s.unwatched, DONE, Agenda({p}, ROOT, {}));
  }

  // -- Registering dependencies ----------------------------------------------------------

  lemma DependencyClauseOk(pr: Problem, key: DependencyKey)
    requires pr.WellFormed() && KeyOk(pr, key) && key.package < pr.packages && key.version in pr.universe
    requires key.package == ROOT ==> key.version == pr.rootVersion
    requires pr.Occurs(key.package, key.version) && (pr.ContradictedAlone() ==> !pr.Contradicted(key.package))
    ensures var d := DependencyOf(pr, key);
            ClauseOk(pr, FromDependency(key.package, key.version, d.package, d.range).terms)
  {
    hide Problem.ContradictedAlone, Problem.Contradicted;
    pr.DependencyFacts(key.package, key.version, key.slot);
    if pr.ContradictedAlone() {
      pr.ContradictionFacts(key.package, key.version, key.slot);
    }
    DependencyEntailed(pr, key.package, key.version, key.slot);
  }

  /** Registering the incompatibility of a dependency: it is exempt from propagation exactly
      if it does not watch the depending package. */
  lemma DependencyRegistered(pr: Problem, s: SolverView, key: DependencyKey, id: nat, misses: bool)
    requires StateOk(pr, s) && KeyOk(pr, key) && key !in s.ids && 1 <= id < |s.index.store|
    requires var d := DependencyOf(pr, key);
             s.index.store[id] == FromDependency(key.package, key.version, d.package, d.range)
    requires s.index.Watches(id, key.package) || misses
    ensures StateOk(pr, s.(ids := s.ids[key := id],
                           unwatched := if misses then s.unwatched + {key} else s.unwatched - {key}))
  {
    var unwatched' := if misses then s.unwatched + {key} else s.unwatched - {key};
    var ids' := s.ids[key := id];
    hide SolverOk, DecidedExpanded;
    forall k | k in ids' ensures RegisteredAs(pr, s.index, unwatched', k, ids'[k]) {
      if k != key {
        assert RegisteredAs(pr, s.index, s.unwatched, k, s.ids[k]);
      }
    }
  }

  /** Registering keeps what is propagated, when the depending version is not decided or its
      package is on the agenda. */
  lemma RegisteredPropagated(pr: Problem, s: SolverView, agenda: Agenda, key: DependencyKey, id: nat, misses: bool)
    requires Propagated(pr, s.trail, s.ids, s.unwatched, agenda) && key !in s.ids
    requires Decides(s.trail, key) ==>
               key.package in agenda.buffer && s.trail.assignments[key.package].state.level == s.trail.level
    ensures Propagated(pr, s.trail, s.ids[key := id],
                       if misses then s.unwatched + {key} else s.unwatched - {key}, agenda)
  {
    var ids', unwatched' := s.ids[key := id], if misses then s.unwatched + {key} else s.unwatched - {key};
    forall k | k in ids' && k !in unwatched' && KeyOk(pr, k) && Decides(s.trail, k)
      ensures Settled(pr, s.trail, k) || Pending(s.trail, ids', agenda, k)
    {
      if k != key {
        assert Settled(pr, s.trail, k) || Pending(s.trail, s.ids, agenda, k);
      }
    }
  }

  lemma NotContradicted(pr: Problem, s: SolverView, p: PackageId)
    requires StateOk(pr, s) && p in s.trail.assignments
    ensures pr.ContradictedAlone() ==> !pr.Contradicted(p)
  {
    if pr.ContradictedAlone() {
      AssignedIsDerived(pr, s, p);
      AssignedNotContradicted(pr, s.trail, s.index.store, p);
    }
  }

  /** What registering a dependency needs and keeps, whichever watches it gets. */
  lemma RegistrationAhead(pr: Problem, s: SolverView, agenda: Agenda, key: DependencyKey)
    requires StateOk(pr, s) && Propagated(pr, s.trail, s.ids, s.unwatched, agenda) && key !in s.ids && KeyOk(pr, key)
    requires key.package < pr.packages && key.version in pr.universe && (key.package, key.version) in s.marked
    requires if key.package == ROOT then key.version == pr.rootVersion else key.version in pr.Versions(key.package)
    requires key.package in s.trail.assignments
    requires Decides(s.trail, key) ==>
               key.package in agenda.buffer && s.trail.assignments[key.package].state.level == s.trail.level
    ensures key.package != DependencyOf(pr, key).package && 1 <= |s.index.store|
    ensures var d := DependencyOf(pr, key);
            var terms := FromDependency(key.package, key.version, d.package, d.range).terms;
            var misses := MissesDepender(s.trail, key.package, key.version, d);
            && ClauseOk(pr, terms) && TermsAlike(pr, terms, s.marked)
            && Propagated(pr, s.trail, s.ids[key := |s.index.store|],
                          if misses then s.unwatched + {key} else s.unwatched - {key}, agenda)
  {
    hide TermsAlike;
    IndexOfState(pr, s);
    pr.DependencyFacts(key.package, key.version, key.slot);
    NotContradicted(pr, s, key.package);
    DependencyClauseOk(pr, key);
    DependencyAlike(pr, key.package, key.version, key.slot, s.marked);
    RegisteredPropagated(pr, s, agenda, key, |s.index.store|,
        MissesDepender(s.trail, key.package, key.version, DependencyOf(pr, key)));
  }

  /** Registration is confined to expanded versions. */
  ghost predicate BookkeepingOk(ids: DependencyIds, unwatched: set<DependencyKey>, added: set<(PackageId, Version)>) {
    && (forall key :: key in ids ==> (key.package, key.version) in added)
    && unwatched <= ids.Keys
  }

  /** The first `n` dependencies of a version that are registered without watching it. */
  ghost function MissedKeys(t: Trail, p: PackageId, v: Version, deps: seq<Dependency>, n: nat): set<DependencyKey>
    requires n <= |deps|
  {
    set i: nat | i < n && MissesDepender(t, p, v, deps[i]) :: DependencyKey(p, v, i)
  }

  lemma MissedKeysStep(t: Trail, p: PackageId, v: Version, deps: seq<Dependency>, n: nat)
    requires n < |deps|
    ensures MissedKeys(t, p, v, deps, n + 1) ==
            MissedKeys(t, p, v, deps, n) + if MissesDepender(t, p, v, deps[n]) then {DependencyKey(p, v, n)} else {}
  {
  }

  /** Some of a version's dependencies are registered. */
  ghost predicate PartlyRegistered(ids0: DependencyIds, ids: DependencyIds, p: PackageId, v: Version, n: nat) {
    && (forall key :: key in ids <==> key in ids0 || (key.package == p && key.version == v && key.slot < n))
    && (forall key :: key in ids0 ==> ids[key] == ids0[key])
  }

  lemma PartlyRegisteredStep(ids0: DependencyIds, ids: DependencyIds, p: PackageId, v: Version, n: nat, id: nat)
    requires PartlyRegistered(ids0, ids, p, v, n) && DependencyKey(p, v, n) !in ids0
    ensures DependencyKey(p, v, n) !in ids
    ensures PartlyRegistered(ids0, ids[DependencyKey(p, v, n) := id], p, v, n + 1)
  {
  }

  lemma AllOfVersionRegistered(ids0: DependencyIds, ids: DependencyIds, unwatched0: set<DependencyKey>,
                               unwatched: set<DependencyKey>,
                               added: set<(PackageId, Version)>, t: Trail, p: PackageId, v: Version,
                                   deps: seq<Dependency>)
    requires BookkeepingOk(ids0, unwatched0, added) && PartlyRegistered(ids0, ids, p, v, |deps|)
    requires unwatched == unwatched0 + MissedKeys(t, p, v, deps, |deps|)
    ensures BookkeepingOk(ids, unwatched, added + {(p, v)})
    ensures forall i: nat :: i < |deps| ==> DependencyKey(p, v, i) in ids
  {
  }

  lemma NothingRegisteredYet(ids: DependencyIds, unwatched: set<DependencyKey>, added: set<(PackageId, Version)>,
                             t: Trail, p: PackageId, v: Version, deps: seq<Dependency>)
    ensures PartlyRegistered(ids, ids, p, v, 0)
    ensures unwatched == unwatched + MissedKeys(t, p, v, deps, 0)
  {
  }

  lemma NotRegisteredYet(ids: DependencyIds, unwatched: set<DependencyKey>, added: set<(PackageId, Version)>,
                         p: PackageId, v: Version, slot: nat)
    requires BookkeepingOk(ids, unwatched, added) && (p, v) !in added
    ensures DependencyKey(p, v, slot) !in ids && DependencyKey(p, v, slot) !in unwatched
  {
  }

  lemma MissedKeysFresh(t: Trail, p: PackageId, v: Version, deps: seq<Dependency>, n: nat)
    requires n < |deps|
    ensures DependencyKey(p, v, n) !in MissedKeys(t, p, v, deps, n)
  {
  }

  /** A new incompatibility changes nothing about what is propagated. */
  lemma LearnedPropagation(pr: Problem, s: SolverView, s': SolverView, p: PackageId)
    requires PropagationOk(pr, s, DONE) && StateOk(pr, s') && s'.trail == s.trail && s'.ids == s.ids
             && s'.unwatched == s.unwatched
    ensures PropagationOk(pr, s', Agenda({p}, ROOT, {}))
  {
    hide StateOk, Propagated, RootOk;
    AgendaGrows(pr, s.trail, s.ids, s.unwatched, DONE, Agenda({p}, ROOT, {}));
  }

  lemma VersionExpanded(pr: Problem, s: SolverView, p: PackageId, v: Version)
    requires StateOk(pr, s) && forall i: nat :: i < |pr.Dependencies(p, v)| ==> DependencyKey(p, v, i) in s.ids
    ensures StateOk(pr, s.(added := s.added + {(p, v)}))
  {
    hide SolverOk, AllRegistered;
  }

  lemma VersionMarked(pr: Problem, s: SolverView, p: PackageId, v: Version)
    requires StateOk(pr, s)
    ensures StateOk(pr, s.(marked := s.marked + {(p, v)}))
  {
    hide SolverOk, AllRegistered, ExpandedOk, DecidedExpanded, StoreAlike;
    MarkedAlike(pr, s.index.store, s.marked, {(p, v)});
  }

  lemma DecidableNow(pr: Problem, s: SolverView, p: PackageId, v: Version)
    requires StateOk(pr, s) && Decidable(pr, s.trail, p, v)
    ensures CanDecide(s.trail, p, v) && SolverOk(pr, s.trail, s.index)
  {
  }

  /** The package may be decided next: some version of it is required, it exists and was
      expanded. */
  lemma DecisionStep(pr: Problem, s: SolverView, p: PackageId, v: Version)
    requires StateOk(pr, s) && RootDecided(s.trail) && Propagated(pr, s.trail, s.ids, s.unwatched, DONE)
    requires Decidable(pr, s.trail, p, v) && p != ROOT && (p, v) in s.added
    ensures PropagationOk(pr, s.(trail := s.trail.WithDecision(p, v)), Agenda({p}, ROOT, {}))
    ensures Rank(pr, s.trail.WithDecision(p, v)) < Rank(pr, s.trail)
    ensures !RootRefuted(pr, s.trail.WithDecision(p, v))
  {
    hide Propagated, SolverOk, AllRegistered, ExpandedOk, DecidedExpanded, Decidable, Rank, StoreAlike;
    DecidableNow(pr, s, p, v);
    DecidedPropagated(pr, s.trail, s.ids, s.unwatched, p, v);
    DecidedIsExpanded(s.trail, p, v, s.added);
    DecidedSolverOk(pr, s.trail, s.index, p, v);
    RootStays(s.trail, p, v);
  }

  lemma RootStays(t: Trail, p: PackageId, v: Version)
    requires RootDecided(t) && p != ROOT
    ensures RootDecided(t.WithDecision(p, v))
  {
  }

  lemma RequiredInUniverse(pr: Problem, s: SolverView, p: PackageId, range: VS)
    requires StateOk(pr, s) && p in s.trail.assignments
    requires s.trail.assignments[p].state == Derivations(Positive(range))
    ensures p < pr.packages && range <= pr.universe
  {
    var a := s.trail.assignments[p];
    assert AssignmentOk(a) && AssignmentInUniverse(pr, p, a);
    assert a.derivations[|a.derivations| - 1].accumulated == Positive(range);
  }

  /** The only term is satisfied, hence the package is watched. */
  lemma NoVersionsConflict(t: Trail, p: PackageId, range: VS)
    requires p in t.assignments && t.assignments[p].state == Derivations(Positive(range))
    ensures AllSatisfied(t, NoVersions(p, range).terms)
    ensures forall a, b :: Picked(t, NoVersions(p, range).terms, a, b) ==> a == p
  {
    assert NoVersions(p, range).terms.Keys == {p};
  }

  lemma NoVersionsAlike(pr: Problem, s: SolverView, p: PackageId, range: VS)
    requires StateOk(pr, s) && RootDecided(s.trail) && p in s.trail.assignments
    requires s.trail.assignments[p].state == Derivations(Positive(range))
    ensures TermsAlike(pr, NoVersions(p, range).terms, s.marked)
  {
    RequiredAlike(pr, s.trail, s.index.store, s.marked, p, range);
  }

  /** No version of a required package is in its range. */
  lemma NoVersionsClauseOk(pr: Problem, s: SolverView, p: PackageId, range: VS)
    requires StateOk(pr, s) && RootDecided(s.trail) && p in s.trail.assignments
    requires s.trail.assignments[p].state == Derivations(Positive(range))
    requires forall v :: v in pr.Versions(p) ==> v !in range
    ensures ClauseOk(pr, NoVersions(p, range).terms) && TermsAlike(pr, NoVersions(p, range).terms, s.marked)
  {
    NoVersionsAlike(pr, s, p, range);
    RequiredInUniverse(pr, s, p, range);
    RequiredIsNotRoot(s, p, range);
    NotContradicted(pr, s, p);
    hide *;
    NoVersionsClause(pr, p, range);
  }

  lemma RequiredIsNotRoot(s: SolverView, p: PackageId, range: VS)
    requires RootDecided(s.trail) && p in s.trail.assignments
             && s.trail.assignments[p].state == Derivations(Positive(range))
    ensures p != ROOT
  {
  }

  lemma NoVersionsClause(pr: Problem, p: PackageId, range: VS)
    requires p != ROOT && p < pr.packages && range <= pr.universe && forall v :: v in pr.Versions(p) ==> v !in range
    requires pr.ContradictedAlone() ==> !pr.Contradicted(p)
    ensures ClauseOk(pr, NoVersions(p, range).terms)
  {
    hide Entailed, Problem.ContradictedAlone, Problem.Contradicted;
    NoVersionsEntailed(pr, p, range);
  }
}
