/** Which dependencies of decided versions have been propagated, and which are pending.

    Every dependency whose incompatibility watches the depending package is, once that
    package is decided, either still to be looked at on the current level, or the term of
    the dependency has been narrowed into its range on the level of the decision. */
module Propagation {
  import opened Backtracking
  import opened ClauseIndexes
  import opened Incompatibilities
  import opened Justifications
  import opened Pins
  import opened Problems
  import opened Satisfiers
  import opened SolverInvariants
  import opened Terms
  import opened Trails
  import opened TrailUpdates

  /** The `slot`-th dependency of a package version. */
  datatype DependencyKey = DependencyKey(package: PackageId, version: Version, slot: nat)

  type DependencyIds = map<DependencyKey, nat>

  ghost predicate KeyOk(pr: Problem, key: DependencyKey) {
    key.slot < |pr.Dependencies(key.package, key.version)|
  }

  function DependencyOf(pr: Problem, key: DependencyKey): Dependency
    requires KeyOk(pr, key)
  {
    pr.Dependencies(key.package, key.version)[key.slot]
  }

  /** The registered incompatibility of a dependency. It watches the depending package,
      unless it was registered in the one case where only the dependency is watched. */
  ghost predicate RegisteredAs(pr: Problem, ix: ClauseIndex, unwatched: set<DependencyKey>, key: DependencyKey,
                               id: nat) {
    && KeyOk(pr, key)
    && 1 <= id < |ix.store|
    && (var d := DependencyOf(pr, key); ix.store[id] == FromDependency(key.package, key.version, d.package, d.range))
    && (key !in unwatched ==> ix.Watches(id, key.package))
  }

  ghost predicate AllRegistered(pr: Problem, ix: ClauseIndex, ids: DependencyIds, unwatched: set<DependencyKey>) {
    forall key :: key in ids ==> RegisteredAs(pr, ix, unwatched, key, ids[key])
  }

  /** The dependencies of the versions expanded so far are all registered. */
  ghost predicate ExpandedOk(pr: Problem, ids: DependencyIds, added: set<(PackageId, Version)>) {
    forall p, v, i: nat :: (p, v) in added && i < |pr.Dependencies(p, v)| ==> DependencyKey(p, v, i) in ids
  }

  /** The solver state as a value, with the bookkeeping of the proof. */
  datatype SolverView = SolverView(
    trail: Trail,
    index: ClauseIndex,
    ids: DependencyIds,
    unwatched: set<DependencyKey>,
    added: set<(PackageId, Version)>,
    marked: set<(PackageId, Version)>)

  /** The invariant of the solver state. */
  ghost predicate StateOk(pr: Problem, s: SolverView) {
    && SolverOk(pr, s.trail, s.index)
    && AllRegistered(pr, s.index, s.ids, s.unwatched)
    && ExpandedOk(pr, s.ids, s.added)
    && DecidedExpanded(s.trail, s.added)
    && StoreAlike(pr, s.index.store, s.marked)
    && |s.index.learned| <= MAX_LEARNED_WATCHED
  }

  /** Versions are expanded when they are decided, and stay so; the root comes expanded. */
  ghost predicate DecidedExpanded(t: Trail, added: set<(PackageId, Version)>) {
    forall p :: t.IsDecided(p) && p != ROOT ==> (p, t.assignments[p].state.version) in added
  }

  ghost predicate Decides(t: Trail, key: DependencyKey) {
    t.IsDecided(key.package) && t.assignments[key.package].state.version == key.version
  }

  /** As of the level of the decision, the dependency is narrowed into its range. */
  ghost predicate Settled(pr: Problem, t: Trail, key: DependencyKey)
    requires KeyOk(pr, key) && Decides(t, key)
  {
    var d := DependencyOf(pr, key);
    t.TermAt(d.package, t.assignments[key.package].state.level).SubsetOf(Positive(d.range))
  }

  /** What propagation still has to visit: the buffered packages, and of the package being
      visited the remaining incompatibilities. */
  datatype Agenda = Agenda(buffer: set<PackageId>, current: PackageId, remaining: set<nat>)

  const DONE: Agenda := Agenda({}, ROOT, {})

  ghost predicate Pending(t: Trail, ids: DependencyIds, agenda: Agenda, key: DependencyKey)
    requires Decides(t, key) && key in ids
  {
    && t.assignments[key.package].state.level == t.level
    && (key.package in agenda.buffer || (key.package == agenda.current && ids[key] in agenda.remaining))
  }

  ghost predicate Propagated(pr: Problem, t: Trail, ids: DependencyIds, unwatched: set<DependencyKey>, agenda: Agenda)
  {
    forall key :: key in ids && key !in unwatched && KeyOk(pr, key) && Decides(t, key) ==>
      Settled(pr, t, key) || Pending(t, ids, agenda, key)
  }

  // -- Preservation ----------------------------------------------------------------------

  lemma RewatchedKey(pr: Problem, ix: ClauseIndex, unwatched: set<DependencyKey>, key: DependencyKey, i: nat, id: nat,
                     a: PackageId, b: PackageId)
    requires RegisteredAs(pr, ix, unwatched, key, i) && id < |ix.store| == |ix.watched|
    requires a != b && a in ix.store[id].terms && b in ix.store[id].terms
    ensures RegisteredAs(pr, ix.Rewatched(id, a, b), unwatched, key, i)
  {
    if i == id {
      assert ix.store[id].terms.Keys == {key.package, DependencyOf(pr, key).package};
    }
  }

  lemma RewatchedRegistered(pr: Problem, ix: ClauseIndex, ids: DependencyIds, unwatched: set<DependencyKey>, id: nat,
                            a: PackageId, b: PackageId)
    requires AllRegistered(pr, ix, ids, unwatched) && id < |ix.store| == |ix.watched|
    requires a != b && a in ix.store[id].terms && b in ix.store[id].terms
    ensures AllRegistered(pr, ix.Rewatched(id, a, b), ids, unwatched)
  {
    forall key | key in ids ensures RegisteredAs(pr, ix.Rewatched(id, a, b), unwatched, key, ids[key]) {
      RewatchedKey(pr, ix, unwatched, key, ids[key], id, a, b);
    }
  }

  lemma PushedRegistered(pr: Problem, ix: ClauseIndex, ids: DependencyIds, unwatched: set<DependencyKey>,
                         inc: Incompatibility, a: PackageId, b: PackageId)
    requires AllRegistered(pr, ix, ids, unwatched) && IndexOk(ix)
    ensures AllRegistered(pr, ix.Pushed(inc, a, b), ids, unwatched)
  {
    var ix' := ix.Pushed(inc, a, b);
    forall key | key in ids ensures RegisteredAs(pr, ix', unwatched, key, ids[key]) {
      assert RegisteredAs(pr, ix, unwatched, key, ids[key]);
      assert ix'.store[ids[key]] == ix.store[ids[key]] && ix'.watched[ids[key]] == ix.watched[ids[key]];
    }
  }

  lemma DerivedTermAt(t: Trail, p: PackageId, cause: nat, term: Term, q: PackageId, level: nat)
    requires CanDerive(t, p, term) && level <= t.level
    ensures t.WithDerivation(p, cause, term).TermAt(q, level).SubsetOf(t.TermAt(q, level))
  {
    DeriveFrame(t, p, cause, term, q);
    if q == p && level == t.level {
      DeriveOk(t, p, cause, term);
      TermForIsLatest(t, p);
      TermForIsLatest(t.WithDerivation(p, cause, term), p);
    }
  }

  lemma DecidedLevelBounded(t: Trail, p: PackageId)
    requires TrailOk(t) && t.IsDecided(p)
    ensures 1 <= t.assignments[p].state.level <= t.level
  {
    var last := t.assignments[p].Count() - 1;
    assert AssignmentOk(t.assignments[p]);
    assert t.HasEntry(p, last) && t.LevelOf(p, last) == t.assignments[p].state.level;
  }

  lemma DerivedPropagated(pr: Problem, t: Trail, ids: DependencyIds, unwatched: set<DependencyKey>, agenda: Agenda,
                          p: PackageId, cause: nat, term: Term)
    requires CanDerive(t, p, term) && Propagated(pr, t, ids, unwatched, agenda)
    ensures Propagated(pr, t.WithDerivation(p, cause, term), ids, unwatched, agenda)
  {
    var t' := t.WithDerivation(p, cause, term);
    forall key | key in ids && key !in unwatched && KeyOk(pr, key) && Decides(t', key)
      ensures Settled(pr, t', key) || Pending(t', ids, agenda, key)
    {
      assert Decides(t, key) && t'.assignments[key.package] == t.assignments[key.package];
      if Settled(pr, t, key) {
        var d, l := DependencyOf(pr, key), t.assignments[key.package].state.level;
        DecidedLevelBounded(t, key.package);
        DerivedTermAt(t, p, cause, term, d.package, l);
        SubsetTransitive(t'.TermAt(d.package, l), t.TermAt(d.package, l), Positive(d.range));
      } else {
        assert Pending(t, ids, agenda, key);
      }
    }
  }

  /** A decision makes its own dependencies pending; nothing else may be pending before. */
  lemma DecidedPropagated(pr: Problem, t: Trail, ids: DependencyIds, unwatched: set<DependencyKey>, p: PackageId,
                          v: Version)
    requires CanDecide(t, p, v) && Propagated(pr, t, ids, unwatched, DONE)
    ensures Propagated(pr, t.WithDecision(p, v), ids, unwatched, Agenda({p}, ROOT, {}))
  {
    var t' := t.WithDecision(p, v);
    forall key | key in ids && key !in unwatched && KeyOk(pr, key) && Decides(t', key)
      ensures Settled(pr, t', key) || Pending(t', ids, Agenda({p}, ROOT, {}), key)
    {
      if key.package != p {
        assert Decides(t, key) && Settled(pr, t, key);
        DecidedLevelBounded(t, key.package);
        DecideFrame(t, p, v, DependencyOf(pr, key).package);
      }
    }
  }

  /** Below the current level everything is settled, so backtracking leaves nothing pending. */
  lemma RewoundPropagated(pr: Problem, t: Trail, ids: DependencyIds, unwatched: set<DependencyKey>, agenda: Agenda,
                          target: nat)
    requires TrailOk(t) && target < t.level && Propagated(pr, t, ids, unwatched, agenda)
    ensures Propagated(pr, t.Rewound(target), ids, unwatched, DONE)
  {
    var t' := t.Rewound(target);
    forall key | key in ids && key !in unwatched && KeyOk(pr, key) && Decides(t', key)
      ensures Settled(pr, t', key)
    {
      RewindDecided(t, target, key.package);
      assert Decides(t, key) && !Pending(t, ids, agenda, key);
      assert Settled(pr, t, key);
      RewindFrame(t, target, DependencyOf(pr, key).package, t.assignments[key.package].state.level);
    }
  }

  lemma AgendaGrows(pr: Problem, t: Trail, ids: DependencyIds, unwatched: set<DependencyKey>, agenda: Agenda,
                    agenda': Agenda)
    requires Propagated(pr, t, ids, unwatched, agenda) && agenda.buffer <= agenda'.buffer
    requires agenda.remaining == {} || (agenda'.current == agenda.current && agenda.remaining <= agenda'.remaining)
    ensures Propagated(pr, t, ids, unwatched, agenda')
  {
    forall key | key in ids && key !in unwatched && KeyOk(pr, key) && Decides(t, key)
      ensures Settled(pr, t, key) || Pending(t, ids, agenda', key)
    {
      assert Settled(pr, t, key) || Pending(t, ids, agenda, key);
    }
  }

  lemma RegisteredIsListed(pr: Problem, ix: ClauseIndex, unwatched: set<DependencyKey>, key: DependencyKey, id: nat)
    requires IndexOk(ix) && RegisteredAs(pr, ix, unwatched, key, id) && key !in unwatched
    ensures id in ListOf(ix.watches, key.package)
  {
    assert ix.Live(id);
    assert (key.package, id) in Pairs(ix);
  }

  /** Taking a package off the buffer: its dependencies are among the listed incompatibilities. */
  lemma VisitPropagated(pr: Problem, t: Trail, ix: ClauseIndex, ids: DependencyIds, unwatched: set<DependencyKey>,
                        buffer: set<PackageId>, current: PackageId, other: PackageId)
    requires IndexOk(ix) && AllRegistered(pr, ix, ids, unwatched)
    requires Propagated(pr, t, ids, unwatched, Agenda(buffer, other, {}))
    ensures Propagated(pr, t, ids, unwatched,
            Agenda(buffer - {current}, current, set id | id in ListOf(ix.watches, current)))
  {
    var agenda' := Agenda(buffer - {current}, current, set id | id in ListOf(ix.watches, current));
    forall key | key in ids && key !in unwatched && KeyOk(pr, key) && Decides(t, key)
      ensures Settled(pr, t, key) || Pending(t, ids, agenda', key)
    {
      assert RegisteredAs(pr, ix, unwatched, key, ids[key]);
      RegisteredIsListed(pr, ix, unwatched, key, ids[key]);
    }
  }

  // -- Visiting one incompatibility ------------------------------------------------------

  /** An incompatibility is contradicted by one of its terms, or two of them are open. */
  ghost predicate NotUnit(t: Trail, terms: PackageTerms) {
    || (exists q :: q in terms && t.TermFor(q).RelationWith(terms[q]).Contradicted?)
    || (exists q, r :: q in terms && r in terms && q != r &&
          !t.TermFor(q).SubsetOf(terms[q]) && !t.TermFor(r).SubsetOf(terms[r]))
  }

  /** Once the incompatibility of a dependency of a just decided version was visited without
      a conflict, the dependency is settled. */
  lemma VisitedSettles(pr: Problem, t: Trail, ix: ClauseIndex, key: DependencyKey, id: nat)
    requires pr.WellFormed() && TrailOk(t) && KeyOk(pr, key) && Decides(t, key)
    requires RegisteredAs(pr, ix, {key}, key, id) && t.assignments[key.package].state.level == t.level
    requires NotUnit(t, ix.store[id].terms)
    ensures Settled(pr, t, key)
  {
    var d := DependencyOf(pr, key);
    var terms := ix.store[id].terms;
    pr.DependencyFacts(key.package, key.version, key.slot);
    assert terms.Keys == {key.package, d.package};
    assert t.TermFor(key.package) == Positive({key.version}) == terms[key.package];
    assert t.TermFor(d.package).IsDisjoint(Negative(d.range));
    DisjointFromNegation(t.TermFor(d.package), Positive(d.range));
    TermForIsLatest(t, d.package);
  }

  lemma SettledNow(pr: Problem, t: Trail, key: DependencyKey)
    requires TrailOk(t) && KeyOk(pr, key) && Decides(t, key) && t.assignments[key.package].state.level == t.level
    requires t.TermFor(DependencyOf(pr, key).package).SubsetOf(Positive(DependencyOf(pr, key).range))
    ensures Settled(pr, t, key)
  {
    TermForIsLatest(t, DependencyOf(pr, key).package);
  }

  /** The open term of the incompatibility of a decided version is that of the dependency. */
  lemma OpenIsDependency(pr: Problem, t: Trail, ix: ClauseIndex, unwatched: set<DependencyKey>, key: DependencyKey,
                         id: nat, p: PackageId)
    requires RegisteredAs(pr, ix, unwatched, key, id) && Unit(t, ix.store, id, p) && t.IsDecided(key.package)
    ensures p == DependencyOf(pr, key).package && ix.store[id].terms[p] == Negative(DependencyOf(pr, key).range)
  {
    OpenIsUndecided(t, p, ix.store[id].terms[p]);
    assert ix.store[id].terms.Keys == {key.package, DependencyOf(pr, key).package};
  }

  lemma DerivedSettles(pr: Problem, t: Trail, t': Trail, ix: ClauseIndex, unwatched: set<DependencyKey>,
                       key: DependencyKey, id: nat, p: PackageId)
    requires SolverOk(pr, t, ix) && Unit(t, ix.store, id, p) && t' == Narrowed(t, ix.store, p, id)
    requires RegisteredAs(pr, ix, unwatched, key, id) && t.IsDecided(key.package) && Decides(t', key)
    requires t'.assignments[key.package].state.level == t'.level
    ensures Settled(pr, t', key)
  {
    var term := ix.store[id].terms[p].Negate();
    OpenIsDependency(pr, t, ix, unwatched, key, id, p);
    UnitCanDerive(pr, t, ix, p, id);
    DeriveFrame(t, p, id, term, p);
    DeriveOk(t, p, id, term);
    IntersectionBelow(t.TermFor(p), DependencyOf(pr, key).range);
    SettledNow(pr, t', key);
  }

  lemma IntersectionBelow(a: Term, range: VS)
    ensures a.Intersection(Positive(range)).SubsetOf(Positive(range))
  {
  }

  /** What a visit that derives nothing does to one dependency. */
  lemma VisitedKey(pr: Problem, t: Trail, ix: ClauseIndex, ids: DependencyIds, unwatched: set<DependencyKey>,
                   agenda: Agenda, id: nat, key: DependencyKey)
    requires pr.WellFormed() && TrailOk(t) && key in ids && key !in unwatched && Decides(t, key)
    requires RegisteredAs(pr, ix, unwatched, key, ids[key])
    requires Settled(pr, t, key) || Pending(t, ids, agenda, key)
    requires id < |ix.store| && (NotUnit(t, ix.store[id].terms) || !ix.Watches(id, agenda.current))
    ensures Settled(pr, t, key) || Pending(t, ids, agenda.(remaining := agenda.remaining - {id}), key)
  {
    if !Settled(pr, t, key) && key.package == agenda.current && ids[key] == id {
      VisitedSettles(pr, t, ix, key, id);
    }
  }

  /** The visit of one incompatibility takes it off the agenda. */
  lemma VisitedPropagated(pr: Problem, t: Trail, ix: ClauseIndex, ids: DependencyIds, unwatched: set<DependencyKey>,
                          agenda: Agenda, id: nat)
    requires pr.WellFormed() && TrailOk(t) && AllRegistered(pr, ix, ids, unwatched)
             && Propagated(pr, t, ids, unwatched, agenda)
    requires id < |ix.store| && (NotUnit(t, ix.store[id].terms) || !ix.Watches(id, agenda.current))
    ensures Propagated(pr, t, ids, unwatched, agenda.(remaining := agenda.remaining - {id}))
  {
    forall key | key in ids && key !in unwatched && KeyOk(pr, key) && Decides(t, key)
      ensures Settled(pr, t, key) || Pending(t, ids, agenda.(remaining := agenda.remaining - {id}), key)
    {
      VisitedKey(pr, t, ix, ids, unwatched, agenda, id, key);
    }
  }

  lemma DecidedStays(t: Trail, p: PackageId, cause: nat, term: Term, q: PackageId)
    requires !t.IsDecided(p) && t.WithDerivation(p, cause, term).IsDecided(q)
    ensures t.IsDecided(q) && t.WithDerivation(p, cause, term).assignments[q] == t.assignments[q]
  {
  }

  lemma DerivedVisitedKey(pr: Problem, t: Trail, t': Trail, ix: ClauseIndex, ids: DependencyIds,
                          unwatched: set<DependencyKey>, agenda: Agenda, id: nat, p: PackageId, key: DependencyKey)
    requires SolverOk(pr, t, ix) && Unit(t, ix.store, id, p) && t' == Narrowed(t, ix.store, p, id)
    requires key in ids && key !in unwatched && RegisteredAs(pr, ix, unwatched, key, ids[key]) && Decides(t', key)
    requires Settled(pr, t', key) || Pending(t', ids, agenda, key)
    ensures Settled(pr, t', key) || Pending(t', ids, agenda.(remaining := agenda.remaining - {id}), key)
  {
    hide SolverOk, Settled, Trail.WithDerivation, OthersSatisfied;
    if !Settled(pr, t', key) && key.package == agenda.current && ids[key] == id {
      OpenIsUndecided(t, p, ix.store[id].terms[p]);
      DecidedStays(t, p, id, ix.store[id].terms[p].Negate(), key.package);
      DerivedSettles(pr, t, t', ix, unwatched, key, id, p);
    }
  }

  lemma DerivedVisitedPropagated(pr: Problem, t: Trail, t': Trail, ix: ClauseIndex, ids: DependencyIds,
                                 unwatched: set<DependencyKey>, agenda: Agenda, id: nat, p: PackageId)
    requires SolverOk(pr, t, ix) && Unit(t, ix.store, id, p) && t' == Narrowed(t, ix.store, p, id)
    requires AllRegistered(pr, ix, ids, unwatched) && Propagated(pr, t', ids, unwatched, agenda)
    ensures Propagated(pr, t', ids, unwatched, agenda.(remaining := agenda.remaining - {id}))
  {
    forall key | key in ids && key !in unwatched && KeyOk(pr, key) && Decides(t', key)
      ensures Settled(pr, t', key) || Pending(t', ids, agenda.(remaining := agenda.remaining - {id}), key)
    {
      DerivedVisitedKey(pr, t, t', ix, ids, unwatched, agenda, id, p, key);
    }
  }

  // -- "Solution" is right ---------------------------------------------------------------

  /** The selection of the decided packages. */
  ghost predicate Extracted(t: Trail, sel: Selection) {
    && (forall p :: p in sel <==> t.IsDecided(p))
    && (forall p :: p in sel ==> t.IsDecided(p) && sel[p] == t.assignments[p].state.version)
  }

  ghost predicate NothingUndecided(t: Trail) {
    forall p :: p in t.assignments && t.assignments[p].state.Derivations? ==> !t.assignments[p].state.term.Positive?
  }

  lemma SettledIsHonoured(pr: Problem, t: Trail, ids: DependencyIds, unwatched: set<DependencyKey>, sel: Selection,
                          key: DependencyKey)
    requires TrailOk(t) && Propagated(pr, t, ids, unwatched, DONE)
    requires Extracted(t, sel) && NothingUndecided(t)
    requires KeyOk(pr, key) && key in ids && key !in unwatched && Decides(t, key)
    ensures Honours(sel, DependencyOf(pr, key))
  {
    var d := DependencyOf(pr, key);
    var level := t.assignments[key.package].state.level;
    assert Settled(pr, t, key) || Pending(t, ids, DONE, key);
    TermForNarrows(t, d.package);
    SubsetTransitive(t.TermFor(d.package), t.TermAt(d.package, level), Positive(d.range));
    if d.package in t.assignments {
      assert AssignmentOk(t.assignments[d.package]);
    }
  }

  /** When nothing is undecided, the only dependencies a selected version can miss are those
      registered without watching it. */
  lemma OnlyUnwatchedMissed(pr: Problem, t: Trail, ids: DependencyIds, unwatched: set<DependencyKey>,
                            added: set<(PackageId, Version)>, sel: Selection, key: DependencyKey)
    requires TrailOk(t) && Propagated(pr, t, ids, unwatched, DONE)
    requires ExpandedOk(pr, ids, added) && DecidedExpanded(t, added)
    requires DecisionsOk(pr, t) && (ROOT, pr.rootVersion) in added
    requires Extracted(t, sel) && NothingUndecided(t)
    requires KeyOk(pr, key) && key.package in sel && sel[key.package] == key.version
    requires !Honours(sel, DependencyOf(pr, key))
    ensures key in unwatched
  {
    assert t.IsDecided(key.package);
    assert DependencyKey(key.package, key.version, key.slot) == key;
    if key !in unwatched {
      SettledIsHonoured(pr, t, ids, unwatched, sel, key);
    }
  }
}
