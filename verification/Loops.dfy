/** A problem on which conflict resolution goes on for ever. */
module Loops {
  import opened Incompatibilities
  import opened Justifications
  import opened Options
  import opened Problems
  import opened Runs
  import opened Satisfiers
  import opened SolverInvariants
  import opened Terms
  import opened Trails

  /** Version 3 of package 2 has a contradictory requirement, and version 2 one that no version
      meets. */
  const LOOPING: Problem := Problem(
    4, {0, 1, 2, 3}, 0,
    map[1 := [2, 1], 2 := [3, 2]],
    map[(ROOT, 0) := [Dependency(1, {1, 2})],
        (1, 2) := [Dependency(2, {3})], (1, 1) := [Dependency(2, {2, 3})],
        (2, 3) := [Dependency(3, {})], (2, 2) := [Dependency(3, {2})]])

  const LOOPING_STORE: Store := [
    NotRoot(ROOT, 0), FromDependency(ROOT, 0, 1, {1, 2}), FromDependency(1, 2, 2, {3}), FromDependency(2, 3, 3, {}),
    Incompatibility(map[1 := Positive({2}), 3 := Term.Any()], Derived(3, 2)),
    FromDependency(1, 1, 2, {2, 3}), FromDependency(2, 2, 3, {2}), NoVersions(3, {2})]

  /** Resolved once, the first conflict is backed out of down to level 0. */
  const LOOPING_STEPS: seq<Step> := [
    Derive(1, 1), Expand(1, 2), Derive(2, 2), Expand(2, 3),
    Resolve(3, SatisfierInfo(2, 2, 0, Some(2), false)), Backjump(4, SatisfierInfo(1, 2, 0, None, true)),
    Derive(1, 1), Expand(1, 1), Derive(2, 5), Derive(2, 3), Expand(2, 2), Derive(3, 6), LackVersions(3, {2})]

  function LoopingUpdate(t: Trail, n: nat): Trail {
    if n == 1 then t.WithDerivation(1, 1, Positive({1, 2}))
    else if n == 2 then t.WithDecision(1, 2)
    else if n == 3 then t.WithDerivation(2, 2, Positive({3}))
    else if n == 4 then t.WithDecision(2, 3)
    else if n == 6 then t.Rewound(0).WithDerivation(1, 4, Negative({2})).WithDecision(ROOT, 0)
    else if n == 7 then t.WithDerivation(1, 1, Positive({1, 2}))
    else if n == 8 then t.WithDecision(1, 1)
    else if n == 9 then t.WithDerivation(2, 5, Positive({2, 3}))
    else if n == 10 then t.WithDerivation(2, 3, Negative({3}))
    else if n == 11 then t.WithDecision(2, 2)
    else if n == 12 then t.WithDerivation(3, 6, Positive({2}))
    else t
  }

  function LoopingTrail(n: nat): Trail {
    if n == 0 then EMPTY.WithDecision(ROOT, 0) else LoopingUpdate(LoopingTrail(n - 1), n)
  }

  lemma LoopingUnfolds(n: nat)
    ensures n > 0 ==> LoopingTrail(n) == LoopingUpdate(LoopingTrail(n - 1), n)
    ensures n == 0 ==> LoopingTrail(n) == EMPTY.WithDecision(ROOT, 0)
  {
  }

  function LoopingStored(n: nat): (k: nat)
    ensures k <= 8
  {
    if n <= 1 then 2 else if n <= 3 then 3 else if n == 4 then 4 else if n <= 7 then 5 else if n <= 10 then 6
        else if n <= 12 then 7 else 8
  }

  function LoopingConfig(n: nat): Config {
    Config(LoopingTrail(n), LOOPING_STORE[..LoopingStored(n)])
  }

  /** The first derivation for a package. */
  lemma FirstDerivation(t: Trail, p: PackageId, cause: nat, term: Term)
    requires p !in t.assignments
    ensures t.WithDerivation(p, cause, term) == Trail(t.level, t.nextIndex + 1, t.assignments[p :=
              Assignment(Derivations(term), [Derivation(t.nextIndex, t.level, cause, term)], t.level, t.level)])
  {
    assert Term.Any().Intersection(term) == term by {
      match term
      case Positive(r) => assert r - {} == r;
      case Negative(r) => assert {} + r == r;
    }
    var d := Derivation(t.nextIndex, t.level, cause, term);
    assert [] + [d] == [d];
  }

  lemma LoopingFirst()
    ensures LoopingTrail(0) == Trail(1, 1, map[ROOT := Assignment(Decision(1, 0, 0), [], 1, 1)])
    ensures LoopingTrail(1) == Trail(1, 2, LoopingTrail(0).assignments[1 :=
              Assignment(Derivations(Positive({1, 2})), [Derivation(1, 1, 1, Positive({1, 2}))], 1, 1)])
    ensures LoopingTrail(2) == Trail(2, 3, LoopingTrail(0).assignments[1 :=
              Assignment(Decision(2, 2, 2), [Derivation(1, 1, 1, Positive({1, 2}))], 1, 2)])
  {
    hide LoopingTrail;
    LoopingUnfolds(0);
    LoopingUnfolds(1);
    LoopingUnfolds(2);
    FirstDerivation(LoopingTrail(0), 1, 1, Positive({1, 2}));
  }

  lemma LoopingSecond()
    ensures LoopingTrail(3) == Trail(2, 4, LoopingTrail(2).assignments[2 :=
              Assignment(Derivations(Positive({3})), [Derivation(3, 2, 2, Positive({3}))], 2, 2)])
    ensures LoopingTrail(4) == Trail(3, 5, LoopingTrail(2).assignments[2 :=
              Assignment(Decision(3, 3, 4), [Derivation(3, 2, 2, Positive({3}))], 2, 3)])
    ensures LoopingTrail(5) == LoopingTrail(4)
  {
    hide LoopingTrail;
    LoopingFirst();
    LoopingUnfolds(3);
    LoopingUnfolds(4);
    LoopingUnfolds(5);
    FirstDerivation(LoopingTrail(2), 2, 2, Positive({3}));
  }

  /** Everything lay above level 0. */
  lemma LoopingThird()
    ensures LoopingTrail(5).Rewound(0) == Trail(0, 5, map[])
    ensures LoopingTrail(6) == Trail(1, 7, map[
              1 := Assignment(Derivations(Negative({2})), [Derivation(5, 0, 4, Negative({2}))], 0, 0),
              ROOT := Assignment(Decision(1, 0, 6), [], 1, 1)])
  {
    hide LoopingTrail;
    LoopingFirst();
    LoopingSecond();
    LoopingUnfolds(6);
    assert LoopingTrail(5).Rewound(0).assignments == map[];
    FirstDerivation(Trail(0, 5, map[]), 1, 4, Negative({2}));
  }

  lemma LoopingFourth()
    ensures LoopingTrail(7) == Trail(1, 8, LoopingTrail(6).assignments[1 :=
              Assignment(Derivations(Positive({1})),
                  [Derivation(5, 0, 4, Negative({2})), Derivation(7, 1, 1, Positive({1}))], 0, 1)])
    ensures LoopingTrail(8) == Trail(2, 9, LoopingTrail(6).assignments[1 :=
              Assignment(Decision(2, 1, 8), [Derivation(5, 0, 4, Negative({2})), Derivation(7, 1, 1, Positive({1}))],
                  0, 2)])
  {
    hide LoopingTrail;
    LoopingThird();
    LoopingUnfolds(7);
    LoopingUnfolds(8);
    assert {1, 2} - {2} == {1};
    assert [Derivation(5, 0, 4, Negative({2}))] + [Derivation(7, 1, 1, Positive({1}))]
        == [Derivation(5, 0, 4, Negative({2})), Derivation(7, 1, 1, Positive({1}))];
  }

  const LOOPING_HISTORY: seq<Derivation> := [Derivation(9, 2, 5, Positive({2, 3})), Derivation(10, 2, 3, Positive({2}))]

  lemma LoopingFifth()
    ensures LoopingTrail(9) == Trail(2, 10, LoopingTrail(8).assignments[2 :=
              Assignment(Derivations(Positive({2, 3})), [Derivation(9, 2, 5, Positive({2, 3}))], 2, 2)])
    ensures LoopingTrail(10) == Trail(2, 11, LoopingTrail(8).assignments[2 :=
              Assignment(Derivations(Positive({2})), LOOPING_HISTORY, 2, 2)])
  {
    hide LoopingTrail;
    LoopingThird();
    LoopingFourth();
    LoopingUnfolds(9);
    LoopingUnfolds(10);
    FirstDerivation(LoopingTrail(8), 2, 5, Positive({2, 3}));
    assert {2, 3} - {3} == {2};
    assert [Derivation(9, 2, 5, Positive({2, 3}))] + [Derivation(10, 2, 3, Positive({2}))] == LOOPING_HISTORY;
  }

  lemma LoopingSixth()
    ensures LoopingTrail(11) == Trail(3, 12, LoopingTrail(8).assignments[2 :=
            Assignment(Decision(3, 2, 11), LOOPING_HISTORY, 2, 3)])
    ensures LoopingTrail(12) == Trail(3, 13, LoopingTrail(11).assignments[3 :=
              Assignment(Derivations(Positive({2})), [Derivation(12, 3, 6, Positive({2}))], 3, 3)])
    ensures LoopingTrail(13) == LoopingTrail(12)
  {
    hide LoopingTrail;
    LoopingThird();
    LoopingFourth();
    LoopingFifth();
    LoopingUnfolds(11);
    LoopingUnfolds(12);
    LoopingUnfolds(13);
    FirstDerivation(LoopingTrail(11), 3, 6, Positive({2}));
  }

  // -- Every step is legal ---------------------------------------------------------------

  lemma LoopingStart()
    ensures LOOPING.WellFormed() && !LOOPING.ContradictedAlone() && LoopingConfig(0) == Start(LOOPING)
  {
    assert LOOPING.Occurs(2, 3) && LOOPING.Dependencies(2, 3)[0] == Dependency(3, {});
    assert LOOPING.Occurs(2, 2) && LOOPING.Dependencies(2, 2)[0] == Dependency(3, {2});
    assert Clauses(ROOT, 0, LOOPING.Dependencies(ROOT, 0)) == [LOOPING_STORE[1]];
  }

  /** The step and its result. */
  ghost predicate LoopingStep(n: nat)
    requires n < |LOOPING_STEPS|
  {
    && Legal(LOOPING, LoopingConfig(n), LOOPING_STEPS[n])
    && LoopingConfig(n + 1) == After(LOOPING, LoopingConfig(n), LOOPING_STEPS[n])
  }

  lemma DeriveStep(n: nat, p: PackageId, id: nat)
    requires n < |LOOPING_STEPS| && LOOPING_STEPS[n] == Derive(p, id)
    requires LoopingStored(n + 1) == LoopingStored(n) > id && Unit(LoopingTrail(n), LOOPING_STORE, id, p)
    requires LoopingTrail(n + 1) == Narrowed(LoopingTrail(n), LOOPING_STORE, p, id)
    ensures LoopingStep(n)
  {
    hide LoopingTrail, LoopingStored;
  }

  lemma ExpandStep(n: nat, p: PackageId, v: Version, range: VS)
    requires n < |LOOPING_STEPS| && LOOPING_STEPS[n] == Expand(p, v)
    requires Decidable(LOOPING, LoopingTrail(n), p, v)
    requires OnlyChoice(LoopingTrail(n), p, range) && FirstInRange(LOOPING.Versions(p), range, v)
    requires LoopingTrail(n + 1) == LoopingTrail(n).WithDecision(p, v)
    requires LoopingStored(n + 1) == LoopingStored(n) + 1
    requires Clauses(p, v, LOOPING.Dependencies(p, v)) == [LOOPING_STORE[LoopingStored(n)]]
    ensures LoopingStep(n)
  {
    hide LoopingTrail, LoopingStored, Decidable, OnlyChoice, FirstInRange, Clauses;
  }

  /** The choice of the first or the second version. */
  lemma ChosenFirst(p: PackageId, range: VS, i: nat)
    requires i < |LOOPING.Versions(p)| && LOOPING.Versions(p)[i] in range
    requires forall j :: 0 <= j < i ==> LOOPING.Versions(p)[j] !in range
    ensures FirstInRange(LOOPING.Versions(p), range, LOOPING.Versions(p)[i])
  {
  }

  lemma OneClause(p: PackageId, v: Version, d: Dependency)
    requires LOOPING.Dependencies(p, v) == [d]
    ensures Clauses(p, v, LOOPING.Dependencies(p, v)) == [FromDependency(p, v, d.package, d.range)]
  {
    hide FromDependency;
  }

  lemma LoopingTo1()
    ensures LoopingStep(0)
  {
    hide LoopingTrail, LoopingStep;
    LoopingFirst();
    LoopingUnfolds(1);
    DeriveStep(0, 1, 1);
  }

  lemma LoopingTo2()
    ensures LoopingStep(1)
  {
    hide LoopingTrail, LoopingStep, FirstInRange, Clauses;
    LoopingFirst();
    LoopingUnfolds(2);
    ChosenFirst(1, {1, 2}, 0);
    OneClause(1, 2, Dependency(2, {3}));
    ExpandStep(1, 1, 2, {1, 2});
  }

  lemma LoopingTo3()
    ensures LoopingStep(2)
  {
    hide LoopingTrail, LoopingStep;
    LoopingFirst();
    LoopingUnfolds(3);
    DeriveStep(2, 2, 2);
  }

  lemma LoopingTo4()
    ensures LoopingStep(3)
  {
    hide LoopingTrail, LoopingStep, FirstInRange, Clauses;
    LoopingFirst();
    LoopingSecond();
    LoopingUnfolds(4);
    ChosenFirst(2, {3}, 0);
    OneClause(2, 3, Dependency(3, {}));
    ExpandStep(3, 2, 3, {3});
  }

  lemma FirstSatisfier()
    ensures var t, terms := LoopingTrail(4), LOOPING_STORE[3].terms;
            terms.Keys == {2, 3} && SatisfierOf(t, terms, 2) == Satisfier(3, 2, Some(2), false)
  {
    hide LoopingTrail;
    LoopingFirst();
    LoopingSecond();
  }

  lemma SecondSatisfier()
    ensures var t, terms := LoopingTrail(5), LOOPING_STORE[4].terms;
            terms.Keys == {1, 3} && SatisfierOf(t, terms, 1) == Satisfier(2, 2, None, true)
  {
    hide LoopingTrail;
    LoopingFirst();
    LoopingSecond();
    assert 1 in {1, 2} && 1 !in {2};
  }

  ghost predicate IsConflict(t: Trail, id: nat, info: SatisfierInfo) {
    && 1 <= id < |LOOPING_STORE| && AllSatisfied(t, LOOPING_STORE[id].terms) && !LOOPING_STORE[id].IsTerminal(ROOT)
    && IsLatest(t, LOOPING_STORE[id].terms, info)
  }

  lemma ResolveStep(n: nat, id: nat, info: SatisfierInfo)
    requires n < |LOOPING_STEPS| && LOOPING_STEPS[n] == Resolve(id, info) && id < LoopingStored(n)
    requires IsConflict(LoopingTrail(n), id, info)
    requires !info.isDecision && info.cause.Some? && info.cause.value < LoopingStored(n)
    requires LoopingTrail(n + 1) == LoopingTrail(n) && LoopingStored(n + 1) == LoopingStored(n) + 1
    requires Learned(LOOPING_STORE, id, info) == LOOPING_STORE[LoopingStored(n)]
    ensures LoopingStep(n)
  {
    hide LoopingTrail, LoopingStored, IsLatest, AllSatisfied, PriorTerms;
  }

  lemma BackjumpStep(n: nat, id: nat, info: SatisfierInfo)
    requires n < |LOOPING_STEPS| && LOOPING_STEPS[n] == Backjump(id, info) && id < LoopingStored(n)
    requires IsConflict(LoopingTrail(n), id, info) && IsPrevious(LoopingTrail(n), LOOPING_STORE[id].terms, info)
    requires info.isDecision && info.previous < info.level && info.package in LOOPING_STORE[id].terms
    requires var t := Narrowed(LoopingTrail(n).Rewound(info.previous), LOOPING_STORE, info.package, id);
             ROOT !in t.assignments && LoopingTrail(n + 1) == t.WithDecision(ROOT, 0)
    requires LoopingStored(n + 1) == LoopingStored(n)
    ensures LoopingStep(n)
  {
    hide LoopingTrail, LoopingStored, IsLatest, IsPrevious, AllSatisfied, Trail.Rewound;
  }

  /** The first conflict is resolved with what derived version 3 of package 2. */
  lemma LoopingTo5()
    ensures LoopingStep(4)
  {
    hide LoopingTrail, LoopingStep, IsConflict, PriorTerms;
    FirstConflict();
    LoopingSecond();
    LoopingResolvent(LOOPING_STORE[3].terms, LOOPING_STORE[2].terms, 2, LOOPING_STORE[4].terms);
    ResolveStep(4, 3, SatisfierInfo(2, 2, 0, Some(2), false));
  }

  lemma FirstConflict()
    ensures IsConflict(LoopingTrail(4), 3, SatisfierInfo(2, 2, 0, Some(2), false))
  {
    hide LoopingTrail, SatisfierOf;
    LoopingFirst();
    LoopingSecond();
    FirstSatisfier();
  }

  /** The resolvent is satisfied by the decision for package 1, and by nothing else. */
  lemma LoopingTo6()
    ensures LoopingStep(5)
  {
    hide LoopingTrail, LoopingStep, IsConflict, IsPrevious, Trail.Rewound;
    SecondConflict();
    LoopingThird();
    LoopingUnfolds(6);
    BackjumpStep(5, 4, SatisfierInfo(1, 2, 0, None, true));
  }

  lemma SecondConflict()
    ensures IsConflict(LoopingTrail(5), 4, SatisfierInfo(1, 2, 0, None, true))
    ensures IsPrevious(LoopingTrail(5), LOOPING_STORE[4].terms, SatisfierInfo(1, 2, 0, None, true))
  {
    hide LoopingTrail, SatisfierOf;
    LoopingFirst();
    LoopingSecond();
    SecondSatisfier();
  }

  lemma LoopingTo7()
    ensures LoopingStep(6)
  {
    hide LoopingTrail, LoopingStep;
    LoopingThird();
    LoopingUnfolds(7);
    DeriveStep(6, 1, 1);
  }

  lemma LoopingTo8()
    ensures LoopingStep(7)
  {
    hide LoopingTrail, LoopingStep, FirstInRange, Clauses;
    LoopingThird();
    LoopingFourth();
    LoopingUnfolds(8);
    ChosenFirst(1, {1}, 1);
    OneClause(1, 1, Dependency(2, {2, 3}));
    ExpandStep(7, 1, 1, {1});
  }

  lemma LoopingTo9()
    ensures LoopingStep(8)
  {
    hide LoopingTrail, LoopingStep;
    LoopingThird();
    LoopingFourth();
    LoopingUnfolds(9);
    DeriveStep(8, 2, 5);
  }

  lemma LoopingTo10()
    ensures LoopingStep(9)
  {
    hide LoopingTrail, LoopingStep;
    LoopingThird();
    LoopingFourth();
    LoopingFifth();
    LoopingUnfolds(10);
    DeriveStep(9, 2, 3);
  }

  lemma LoopingTo11()
    ensures LoopingStep(10)
  {
    hide LoopingTrail, LoopingStep, FirstInRange, Clauses;
    LoopingThird();
    LoopingFourth();
    LoopingFifth();
    LoopingUnfolds(11);
    ChosenFirst(2, {2}, 1);
    OneClause(2, 2, Dependency(3, {2}));
    ExpandStep(10, 2, 2, {2});
  }

  lemma LoopingTo12()
    ensures LoopingStep(11)
  {
    hide LoopingTrail, LoopingStep;
    LoopingThird();
    LoopingFourth();
    LoopingSixth();
    LoopingUnfolds(12);
    DeriveStep(11, 3, 6);
  }

  lemma LoopingTo13()
    ensures LoopingStep(12)
  {
    hide LoopingTrail;
    LoopingUnfolds(13);
    LoopingThird();
    LoopingFourth();
    LoopingFifth();
    LoopingSixth();
    assert OnlyChoice(LoopingTrail(12), 3, {2});
  }

  /** The run up to the conflict, on which every pick is forced. */
  lemma LoopingSteps()
    ensures LOOPING.WellFormed() && !LOOPING.ContradictedAlone() && IsRun(LOOPING, LoopingConfig, LOOPING_STEPS)
  {
    hide LoopingStep;
    LoopingStart();
    forall n | 0 <= n < |LOOPING_STEPS| ensures LoopingStep(n) {
      if n < 6 {
        FirstHalf(n);
      } else {
        SecondHalf(n);
      }
    }
    AllLegal();
  }

  lemma FirstHalf(n: nat)
    requires n < 6
    ensures LoopingStep(n)
  {
    hide LoopingStep;
    LoopingTo1();
    LoopingTo2();
    LoopingTo3();
    LoopingTo4();
    LoopingTo5();
    LoopingTo6();
    assert n == 0 || n == 1 || n == 2 || n == 3 || n == 4 || n == 5;
  }

  lemma SecondHalf(n: nat)
    requires 6 <= n < |LOOPING_STEPS|
    ensures LoopingStep(n)
  {
    hide LoopingStep;
    LoopingTo7();
    LoopingTo8();
    LoopingTo9();
    LoopingTo10();
    LoopingTo11();
    LoopingTo12();
    LoopingTo13();
    assert n == 6 || n == 7 || n == 8 || n == 9 || n == 10 || n == 11 || n == 12;
  }

  lemma AllLegal()
    requires LoopingConfig(0) == Start(LOOPING) && forall n :: 0 <= n < |LOOPING_STEPS| ==> LoopingStep(n)
    ensures IsRun(LOOPING, LoopingConfig, LOOPING_STEPS)
  {
    hide LoopingConfig, Legal, After;
    forall n | 0 <= n < |LOOPING_STEPS|
      ensures Legal(LOOPING, LoopingConfig(n), LOOPING_STEPS[n])
      ensures LoopingConfig(n + 1) == After(LOOPING, LoopingConfig(n), LOOPING_STEPS[n])
    {
      assert LoopingStep(n);
    }
  }

  // -- The conflict that is resolved for ever --------------------------------------------

  lemma LoopingResolvent(a: PackageTerms, b: PackageTerms, pivot: PackageId, expected: PackageTerms)
    requires pivot in a && pivot in b
    requires expected.Keys == a.Keys + b.Keys - if a[pivot].Union(b[pivot]).IsAny() then {pivot} else {}
    requires forall p :: p in expected && p != pivot ==> expected[p] == MergedTerm(a, b, p)
    requires pivot in expected ==> expected[pivot] == a[pivot].Union(b[pivot])
    ensures expected == PriorTerms(a, b, pivot)
  {
    assert expected.Keys == PriorTerms(a, b, pivot).Keys;
  }

  lemma LatestIsOnly(t: Trail, terms: PackageTerms, p: PackageId, cause: nat)
    requires p in terms && p in t.assignments
    requires SatisfierOf(t, terms, p).cause == Some(cause) && !SatisfierOf(t, terms, p).isDecision
    requires forall q :: q in terms && q in t.assignments && q != p ==>
             SatisfierOf(t, terms, q).index < SatisfierOf(t, terms, p).index
    ensures exists info :: IsLatest(t, terms, info)
    ensures forall info :: IsLatest(t, terms, info) ==>
            info.package == p && info.cause == Some(cause) && !info.isDecision
  {
    var s := SatisfierOf(t, terms, p);
    assert IsLatest(t, terms, SatisfierInfo(p, s.level, 0, s.cause, s.isDecision));
  }

  ghost predicate Resolves(t: Trail, store: Store, terms: PackageTerms, next: PackageTerms) {
    && (exists info :: IsLatest(t, terms, info))
    && forall info :: IsLatest(t, terms, info) ==>
         && !info.isDecision && info.cause.Some? && info.cause.value < |store|
         && next == PriorTerms(terms, store[info.cause.value].terms, info.package)
  }

  const NARROW: PackageTerms := map[2 := Positive({2})]
  const WIDE: PackageTerms := map[2 := Positive({2, 3}), 3 := Term.Any()]

  /** The incompatibilities that are visited, beginning with the last one stored. */
  function LoopingConflict(n: nat): PackageTerms {
    if n == 0 then map[3 := Positive({2})] else if n % 2 == 1 then NARROW else WIDE
  }

  lemma LoopingSatisfiers()
    ensures var t := LoopingTrail(13);
            && 2 in t.assignments && 3 in t.assignments && t.TermFor(2) == Positive({2})
                 && t.TermFor(3) == Positive({2})
            && SatisfierOf(t, LoopingConflict(0), 3) == Satisfier(12, 3, Some(6), false)
            && SatisfierOf(t, NARROW, 2) == Satisfier(10, 2, Some(3), false)
            && SatisfierOf(t, WIDE, 2) == Satisfier(9, 2, Some(5), false)
            && SatisfierOf(t, WIDE, 3) == Satisfier(12, 3, Some(6), false)
  {
    hide LoopingTrail;
    LoopingSixth();
    var a := LOOPING_HISTORY;
    assert a[0].accumulated == Positive({2, 3}) && a[1].accumulated == Positive({2});
    assert 3 in {2, 3} && 3 !in {2};
    assert !a[0].accumulated.IsDisjoint(Negative({2}));
  }

  lemma LoopingResolvents()
    ensures LoopingConflict(0) == LOOPING_STORE[7].terms
    ensures NARROW == PriorTerms(LoopingConflict(0), LOOPING_STORE[6].terms, 3)
    ensures WIDE == PriorTerms(NARROW, LOOPING_STORE[3].terms, 2)
    ensures NARROW == PriorTerms(WIDE, LOOPING_STORE[6].terms, 3)
  {
    var two: VS := {2};
    var both: VS := {2, 3};
    assert two - two == {} && two * both == two && both * two == two && {2} + {3} == both;
    LoopingResolvent(LoopingConflict(0), LOOPING_STORE[6].terms, 3, NARROW);
    LoopingResolvent(NARROW, LOOPING_STORE[3].terms, 2, WIDE);
    LoopingResolvent(WIDE, LOOPING_STORE[6].terms, 3, NARROW);
  }

  lemma LoopingResolves(n: nat)
    ensures Resolves(LoopingTrail(13), LOOPING_STORE, LoopingConflict(n), LoopingConflict(n + 1))
  {
    hide LoopingTrail, PriorTerms, IsLatest, SatisfierOf;
    LoopingSatisfiers();
    LoopingResolvents();
    var (p, cause) := if n == 0 || n % 2 == 0 then (3, 6) else (2, 3);
    LatestIsOnly(LoopingTrail(13), LoopingConflict(n), p, cause);
  }

  /** Conflict resolution goes on for ever: the trivially true term moves the satisfier up
      again, and the same two incompatibilities are learned in turns. */
  lemma LoopingNeverEnds(n: nat)
    ensures LoopingConfig(|LOOPING_STEPS|) == Config(LoopingTrail(13), LOOPING_STORE)
            && LoopingConflict(0) == LOOPING_STORE[7].terms
    ensures Resolves(LoopingTrail(13), LOOPING_STORE, LoopingConflict(n), LoopingConflict(n + 1))
    ensures AllSatisfied(LoopingTrail(13), LoopingConflict(n))
    ensures !Incompatibility(LoopingConflict(n), Derived(0, 0)).IsTerminal(ROOT)
  {
    hide LoopingTrail, PriorTerms, IsLatest, SatisfierOf, Resolves;
    LoopingResolves(n);
    LoopingSatisfiers();
    assert LOOPING_STORE[..8] == LOOPING_STORE;
  }
}
