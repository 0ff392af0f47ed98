# Verified model of vyp

vyp resolves Python dependencies with a conflict driven solver, fetches metadata concurrently, caches it on disk, merges the
resolutions of several environments and installs wheels. This project models that logic in Dafny and proves what it is relied
on for. The first group of modules is the resolver; the others stand beside it.

`dafny verify dfyconfig.toml` checks everything.

## The resolver

* `Terms`, `Problems`, `Incompatibilities`: terms over sets of versions, whose meaning is the set of choices (no version, or
  one) that they admit; the problem, with its solutions defined independently of any solver; incompatibilities and resolution.
  A range is a finite set of versions, which stands for the points of the version order that the ranges of a problem tell apart.
* `Trails`, `TrailUpdates`, `Backtracking`: the partial solution as a value, with one history of derivations per package, and
  its three updates. `PartialSolutions` is the class that updates it in place and is proved against them.
* `Justifications`: why every derived term is right, for every solution that agrees with the decisions.
* `Satisfiers`, `Conflicts`: conflict analysis down the trail, and the backjump.
* `Ranks`: the number that every decision, derivation and backjump lowers. It reads the sizes of the terms as of each level as
  the digits of one number, lowest level first.
* `ClauseIndexes`: the incompatibility store with its watch lists.
* `SolverInvariants`, `Propagation`, `SolverSteps`: what holds of the solver between its steps, and each step keeping it.
* `Pins`: terms do not tell an unexpanded version from a point beside it that no requirement separates from it. This is what
  makes the watches of a dependency right wherever no requirement pins a version.
* `Picks`: the ranking of the packages that wait for a decision.
* `Solvers`: the class with unit propagation and conflict resolution; `Resolvers`: the loop that propagates, picks, chooses and
  expands, for all activities of packages and all arrivals of version counts. "No solution" is always right; a run ends unless
  a package has contradictory requirements among others; a selection is a solution where no requirements pin a version, for
  every numbering of the packages. Lookups that the program unwraps are in range because every stored incompatibility is entailed.
* `Runs`, `Findings`, `Loops`: whole runs, step by step from the start, on which the program does not do what it promises.

## Beside it

* `Markers`, `MarkerGrammar`, `MarkerParsing`, `MarkerRoundTrips`, `MarkerQuotes`, `MarkerMeanings`, `MarkerAtoms`,
  `MarkerNormalForms`: environment markers (PEP 508, section "Grammar"): printer, parser with its cursor, evaluation, and
  exactly which trees and which meanings printing and parsing keep. `MarkerGroups`: every usual way to write a marker, with
  parentheses, is read as its tree; `MarkerLeniency`: what is made of texts that are not well-formed;
  `MarkerComparisons`: what the operators mean, place by place.
* `Versions`, `VersionParsing`, `VersionRoundTrips`, `VersionOrders`, `Requirements`, `RangeConversions`: version numbers
  (PEP 440, sections "Version scheme" and "Version specifiers"). `VersionFields`: the order field by field;
  `VersionSpellings`, `VersionMisspellings`: which texts are read as which version, and which are rejected.
* `InMemoryIndexes`, `FetchProtocols`, `FetchDuties`: claiming, filling and waiting as interleaved steps of callers and
  background tasks.
* `MetadataCaches`: the cache over an abstract disk, against a plain map.
* `IndexRouters`: routing against reachability. `UniversalMerges`: merging against the resolutions that were merged;
  `EnvironmentMarkers`: the same with the markers of the configuration as they are accepted, parsed and evaluated.
  `Records`: the RECORD file (PEP 376, section "RECORD"; RFC 4180, section 2, items 6 and 7), written and read back;
  `RecordTables`: the same file for a reader that follows the standard.
* `Options`, `Ordered`, `Texts`, `Numerals`: helpers.

## Where the program falls short

Each of these is proved, with a concrete input, next to the exact condition under which the program is right where there is one.

* **A selection can break a dependency.** Dependencies are registered before their version is decided
  (`crates/vyp-resolver/src/solver.rs:793-812`). If at that time the version is the only one left for its package and the
  dependency is excluded already, both terms are satisfied; then only the package with the smaller number is watched
  (`crates/vyp-resolver/src/solver.rs:694-697`). If that is the dependency, the conflict is not among the
  watchers of the decided package: unless something is derived for the dependency, propagation does not look at it. The project that requires `a == 1`, where `a 1` requires `b == 1` and `b 1` requires `a == 2`, is reported as solved
  (`Findings.PinnedSteps`, `Findings.PinnedUnmoved`, `Findings.PinnedPropagation`, `Findings.PinnedOutcome`).
  `Findings.ExpansionLeavesConflict` is the exact condition for one expansion. In a whole run it can only happen to a version
  that requirements tell apart from every point beside it, as `==`, `!=`, `===` or an inclusive bound from each side do, and
  for a dependency on a package with a smaller number (`Resolvers.RunSolver`).
* **Conflict resolution can go on for ever** when one requirement on a package is contradictory in itself, like `>=2,<1`, and
  another is not: the incompatibility of the former has a trivially true term, which moves the latest satisfier up again. One
  such input has two versions of `a` and two of `b`; every pick on the way is forced (`Loops.LoopingSteps`,
  `Loops.LoopingNeverEnds`). Where contradictory requirements stand alone every run ends (`Resolvers.RunSolver`), since the
  packages they are on are never assigned (`Conflicts.AssignedNotContradicted`); `Conflicts.ResolutionDescends` is the exact
  condition for one step.
* **A package that depends on itself** is ruled out altogether, even absent (`Incompatibilities.FromDependencyExact`).
  Problems in the model have no such dependencies, and none on the root.
* **Markers are printed without parentheses**: an "or" inside an "and" changes its meaning, and `false` is read back as true.
  Nothing in a text is escaped: one that contains a double quote is never read back (`MarkerQuotes.QuoteNotReadBack`).
* **A keyword in front of an opening parenthesis is not seen**: what follows `a` in `a and(b)` is ignored
  (`MarkerLeniency.GluedKeywordIgnored`).
* **`'linux' in sys_platform`** is turned around into `sys_platform in 'linux'` (`MarkerMeanings.InvertedMeaning`);
  `MarkerAtoms.AtomMeaningExact` says of every comparison whether it keeps its meaning.
* **An environment marker without `==`**, like `python_version = "3.8"`, is accepted but read as no condition, so that its
  lock entries apply everywhere (`EnvironmentMarkers.UsualForm`, `EnvironmentMarkers.ExclusiveExact`).
* **The order of versions is not an order** on local segments like `9`, `10`, `1a` (`VersionOrders.MixedSegmentsCycle`);
  `VersionOrders.PlainExact` says which segments are to blame.
* **Equal versions may have different hashes**: `1.0` and `1` are equal, but their releases are hashed with their lengths
  (`VersionOrders.HashExact`).
* **Usual spellings are rejected.** PEP 440 (section "Normalization") allows a separator in front of a pre-release and an
  undotted `dev`, but `1.0.rc1`, `1.0-rc1` and `1.0dev1` are invalid (`VersionMisspellings.SeparatedPreUnread`,
  `VersionMisspellings.UndottedDevUnread`), and `1.0-1` is the release 1.0.1, not a post-release
  (`VersionSpellings.SpellingRead`). The branch for a dot in front of a tag
  (`crates/vyp-api/src/types/version.rs:345-350`) is never taken, since a tag counts only after a digit.
* **A range is not the direct check.** `RangeConversions.ConstraintExact` says exactly where they differ; for one thing,
  `<V` is documented to leave out the pre-releases of V but lets them in (`RangeConversions.LtKeepsPreReleases`).
* **A newline in a file name** makes RECORD unreadable although it is quoted, since the uninstaller reads line by line
  (`Records.RecordReadBack`). A reader that follows RFC 4180 is not misled (`RecordTables.StandardReadBack`).
* **A quote in a path** keeps the digest of a file from being found again: the line is cut at commas from its end, and the
  quotes around the path are only trimmed (`Records.DigestReadBack`).
* **An unmarked lock entry has the wheels of the first environment only** (`UniversalMerges.UnmarkedExactly`).

## Model

| member | source | states |
|---|---|---|
| `Terms.OperationsMeaning` | crates/vyp-resolver/src/solver.rs:47-72 | negate, intersection and union are complement, intersection and union of the choices (absent, or one version) that terms admit |
| `Terms.SubsetMeaning` | crates/vyp-resolver/src/solver.rs:84-91 | `subset_of` holds if and only if every admitted choice is admitted by the other term, absence included |
| `Terms.DisjointMeaning` | crates/vyp-resolver/src/solver.rs:74-82 | `is_disjoint` holds if and only if no choice is admitted by both terms |
| `Terms.AnyMeaning` | crates/vyp-resolver/src/solver.rs:103-109 | `is_any` recognises exactly the term that admits every choice |
| `Terms.RelationMeaning` | crates/vyp-resolver/src/solver.rs:93-101 | "satisfied" is inclusion; "inconclusive" means that both admitted and rejected choices are left |
| `Terms.StrictNarrowing` | crates/vyp-resolver/src/solver.rs:862-880 | removing an inconclusive term narrows strictly and leaves something |
| `Incompatibilities.FromDependencyExact` | crates/vyp-resolver/src/solver.rs:148-156 | the incompatibility of a dependency says exactly "selected and not honoured" if and only if the two packages differ; a self-dependency overwrites its own term |
| `Incompatibilities.DependencyEntailed` | crates/vyp-resolver/src/solver.rs:148-156 | every dependency incompatibility follows from the facts about packages |
| `Incompatibilities.NoVersionsEntailed` | crates/vyp-resolver/src/solver.rs:139-146 | so does the one for a range without versions |
| `Incompatibilities.EntailedHasPositive` | crates/vyp-resolver/src/solver.rs:158-166 | an entailed incompatibility has a positive term: it is never empty, so that watches can be picked and terms looked up |
| `Incompatibilities.PriorTermsSound` | crates/vyp-resolver/src/solver.rs:168-209 | resolution is sound: whatever satisfies the resolvent satisfies one of the parents |
| `Incompatibilities.PriorTermsEntailed` | crates/vyp-resolver/src/solver.rs:168-209 | resolvents of entailed incompatibilities are entailed |
| `Incompatibilities.PriorCause` | crates/vyp-resolver/src/solver.rs:168-209 | merging the second parent into a copy of the first, in any order, computes the resolvent |
| `TrailUpdates.DecideOk` | crates/vyp-resolver/src/solver.rs:262-282 | a decision keeps the trail well-formed: decided levels are exactly 1 up to the current one, indices grow, accumulated terms are a strictly decreasing chain of non-empty terms |
| `TrailUpdates.DeriveOk` | crates/vyp-resolver/src/solver.rs:284-309 | a derivation that is not trivial keeps the trail well-formed |
| `TrailUpdates.DecideFrame` | crates/vyp-resolver/src/solver.rs:262-282 | a decision changes no term as of an earlier level or index |
| `TrailUpdates.DeriveFrame` | crates/vyp-resolver/src/solver.rs:284-309 | a derivation changes no term as of an earlier level or index |
| `Backtracking.RewindOk` | crates/vyp-resolver/src/solver.rs:335-362 | backtracking keeps the trail well-formed |
| `Backtracking.RewindFrame` | crates/vyp-resolver/src/solver.rs:335-362 | as of every level up to the target all terms are what they were |
| `Backtracking.RewindTerm` | crates/vyp-resolver/src/solver.rs:335-362 | after backtracking every term is the term as of the target level |
| `Backtracking.HistoryRemains` | crates/vyp-resolver/src/solver.rs:343-358 | a package that is not dropped keeps a derivation: the fallback for an empty history is unreachable |
| `Backtracking.IndexLevelMonotone` | crates/vyp-resolver/src/solver.rs:262-309 | the global index orders assignments consistently with their levels |
| `Justifications.BacktrackIsReplay` | crates/vyp-resolver/src/solver.rs:335-362 | the term after backtracking equals the one from replaying, cause by cause, the derivations of the remaining levels |
| `Justifications.DeriveJustified` | crates/vyp-resolver/src/solver.rs:855-866 | a derivation from a unit incompatibility is justified by what was assigned before it, and keeps the others justified |
| `Justifications.RewindJustified` | crates/vyp-resolver/src/solver.rs:335-362 | what is left after backtracking is justified |
| `Justifications.TermsBeforeSound` | crates/vyp-resolver/src/solver.rs:284-309 | every solution that agrees with the decisions made before an index satisfies every term accumulated before it |
| `Justifications.TermsAtSound` | crates/vyp-resolver/src/solver.rs:284-309 | every solution that agrees with the decisions up to a level satisfies the terms accumulated up to it |
| `PartialSolutions.PartialSolution.AddDecision` | crates/vyp-resolver/src/solver.rs:262-282 | the update in place is the decision step on trails |
| `PartialSolutions.PartialSolution.AddDerivation` | crates/vyp-resolver/src/solver.rs:284-309 | the update in place is the derivation step on trails |
| `PartialSolutions.PartialSolution.Backtrack` | crates/vyp-resolver/src/solver.rs:335-362 | popping histories and dropping packages in place is the rewind of the trail, in whatever order packages are visited |
| `PartialSolutions.PartialSolution.FillUndecided` | crates/vyp-resolver/src/solver.rs:370-377 | exactly the packages with an undecided positive term, with its range |
| `PartialSolutions.PartialSolution.ExtractSolution` | crates/vyp-resolver/src/solver.rs:379-387 | exactly the decided packages, with their versions |
| `PartialSolutions.PartialSolution.SatisfierSearch` | crates/vyp-resolver/src/solver.rs:389-440 | finds the latest satisfier and the highest level among the other satisfiers |
| `PartialSolutions.PartialSolution.FindSatisfierFor` | crates/vyp-resolver/src/solver.rs:442-467 | finds the first assignment that satisfies the term |
| `Satisfiers.SatisfierIsEntry` | crates/vyp-resolver/src/solver.rs:442-467 | the satisfier of a satisfied term is an entry of the trail, and is a decision exactly if no derivation satisfies the term |
| `Satisfiers.SatisfiedSince` | crates/vyp-resolver/src/solver.rs:442-467 | a term stays satisfied from its satisfier on |
| `Satisfiers.SatisfierBefore` | crates/vyp-resolver/src/solver.rs:442-467 | a term that is satisfied before an index has its satisfier before it |
| `Conflicts.ResolventSatisfiedBefore` | crates/vyp-resolver/src/solver.rs:946-975 | the resolvent of a conflict with the cause of its latest satisfier is satisfied before that satisfier |
| `Conflicts.ResolutionDescends` | crates/vyp-resolver/src/solver.rs:946-975 | a resolution step lowers the index of the satisfier if and only if every trivially true term of the resolvent belongs to a package assigned before it |
| `Conflicts.PriorClauseOk` | crates/vyp-resolver/src/solver.rs:168-209 | resolvents may be stored: entailed, inside the universe, and demanding the root only at its version |
| `Conflicts.AssignedNotContradicted` | crates/vyp-resolver/src/solver.rs:855-881 | where contradictory requirements stand alone, the packages they are on are never assigned, so that their trivially true terms have no satisfiers |
| `Conflicts.DecisionLevels` | crates/vyp-resolver/src/solver.rs:978-1000 | a satisfying decision lies on a level above all other satisfiers: the remaining branches of the loop are unreachable |
| `Conflicts.BackjumpIsUnit` | crates/vyp-resolver/src/solver.rs:868-881 | after the backjump the learned incompatibility is unit on the returned package, and the derivation that follows is strict and not empty |
| `Ranks.LevelsBounded` | crates/vyp-resolver/src/solver.rs:262-282 | there are never more levels than packages |
| `Ranks.DecideLowersRank` | crates/vyp-resolver/src/solver.rs:793-812 | a decision lowers the rank of the trail |
| `Ranks.DeriveLowersRank` | crates/vyp-resolver/src/solver.rs:855-866 | a derivation lowers the rank of the trail |
| `Ranks.BackjumpLowersRank` | crates/vyp-resolver/src/solver.rs:866-881 | a backjump together with the derivation after it lowers the rank of the trail |
| `ClauseIndexes.PushedOk` | crates/vyp-resolver/src/solver.rs:648-663 | registering keeps the index exact: every live incompatibility is listed once under each package it watches and nowhere else |
| `ClauseIndexes.RewatchedOk` | crates/vyp-resolver/src/solver.rs:715-729 | moving watches keeps the index exact |
| `ClauseIndexes.ForgotOk` | crates/vyp-resolver/src/solver.rs:762-771 | forgetting the oldest learned incompatibility keeps the index exact |
| `ClauseIndexes.PairStaysWatched` | crates/vyp-resolver/src/solver.rs:715-757 | an incompatibility of two terms that is watched on both sides stays so, whatever watches are moved, added or forgotten |
| `SolverSteps.CollectedKeeps` | crates/vyp-resolver/src/solver.rs:762-771 | collection keeps the newest learned incompatibilities, as many as the cap allows |
| `SolverSteps.CollectedForgetsOldLearned` | crates/vyp-resolver/src/solver.rs:762-771 | only learned incompatibilities are forgotten, and never the latest |
| `SolverSteps.PickedDependency` | crates/vyp-resolver/src/solver.rs:669-699 | the incompatibility of a dependency watches the depending package unless both terms are satisfied already and the dependency has the smaller number, and only then not |
| `SolverSteps.WatchersKept` | crates/vyp-resolver/src/solver.rs:825-840 | moving the watches of one visited incompatibility leaves the rest of the snapshot watching the package: the skip of moved watchers is never taken |
| `Solvers.SolverState.constructor` | crates/vyp-resolver/src/solver.rs:605-631 | a new solver has `not_root` stored and watched and the root decided, and every invariant holds |
| `Solvers.SolverState.SetWatches` | crates/vyp-resolver/src/solver.rs:715-729 | the update of the lists in place is the move of both watches |
| `Solvers.SolverState.PickInitialWatches` | crates/vyp-resolver/src/solver.rs:669-699 | the first two open terms if there are two; the open one and the first other; or the smallest package |
| `Solvers.SolverState.GcLearnedWatches` | crates/vyp-resolver/src/solver.rs:762-771 | forgets until the cap is met |
| `Solvers.SolverState.RefreshWatches` | crates/vyp-resolver/src/solver.rs:733-747 | both watches end on the first two open terms if there are two; otherwise nothing moves, and no other incompatibility ever does |
| `Solvers.SolverState.EnsureWatched` | crates/vyp-resolver/src/solver.rs:751-757 | afterwards the package is watched, along with one watched before; nothing moves if it was already |
| `Solvers.SolverState.CheckRelation` | crates/vyp-resolver/src/solver.rs:906-930 | "satisfied" only if all terms are, "almost satisfied" only with the one open term, the other answers only if the incompatibility is neither satisfied nor unit |
| `Solvers.SolverState.ConflictResolution` | crates/vyp-resolver/src/solver.rs:946-1002 | "no solution" is right; otherwise it backjumps to a lower level where the learned incompatibility is unit; it comes to an end unless a package has contradictory requirements among others |
| `Solvers.SolverState.UnitPropagation` | crates/vyp-resolver/src/solver.rs:818-904 | keeps every invariant, ends by settling the agenda with all watched decided dependencies settled, and lowers the rank whenever a conflict was waiting |
| `Solvers.SolverState.AddDependencyIncompatibility` | crates/vyp-resolver/src/solver.rs:778-787 | says exactly when the depending package is watched |
| `Solvers.SolverState.AddDependencies` | crates/vyp-resolver/src/solver.rs:793-812 | registers each version once, before the decision; afterwards the decision is on the agenda; exactly the missed dependencies are exempt |
| `Solvers.SolverState.PickNextPackage` | crates/vyp-resolver/src/solver.rs:1008-1034 | an open package of the highest priority, and none only if no package is open |
| `Picks.PickBest` | crates/vyp-resolver/src/solver.rs:1016-1033 | the loop over the open packages finds one of the highest priority |
| `Picks.NoteArrivals` | crates/vyp-core/src/lib.rs:464-477 | exactly the counts of open packages that arrived are added, none is changed |
| `Picks.FewerVersionsFirst` | crates/vyp-resolver/src/solver.rs:1018-1024 | with equal activity the package with fewer versions left ranks higher, one without any highest, one without data lowest; with equally many the more active one |
| `Solvers.SolverState.AddIncompatibilityForNoVersions` | crates/vyp-resolver/src/solver.rs:773-776 | the new incompatibility is in conflict and watches the package |
| `SolverSteps.TerminalExit` | crates/vyp-resolver/src/solver.rs:953-961 | a conflict that is terminal refutes the problem |
| `SolverInvariants.TerminalUnsolvable` | crates/vyp-resolver/src/solver.rs:158-166 | an entailed terminal incompatibility rules out every solution |
| `SolverInvariants.RefutedUnsolvable` | crates/vyp-resolver/src/solver.rs:885-900 | the exit through `not_root` at level 0 is right, too: the derived term of the root rules out every solution |
| `Propagation.OnlyUnwatchedMissed` | crates/vyp-resolver/src/solver.rs:818-904 | when nothing is left to decide, a selected version finds each registered dependency inside the selection unless it was registered without watching the depending package |
| `Resolvers.ChooseVersion` | crates/vyp-core/src/lib.rs:543-554 | the first listed version inside the range, and the number of listed versions inside it |
| `Resolvers.RunSolver` | crates/vyp-core/src/lib.rs:394-615 | for any activities and arrivals of version counts: "no solution" is right; a selection is a solution if and only if it breaks no dependency registered unwatched; those belong to pinned versions and point to smaller numbers, so that a selection is always a solution where no version is pinned; the run ends unless a package has contradictory requirements among others |
| `Resolvers.DecideSolvable` | crates/vyp-core/tests/solver_property.rs:187-236 | for every numbering of the packages: where requirements pin no versions, and no package has contradictory requirements among others, a run answers "no solution" if and only if there is none, and finds a solution otherwise |
| `Resolvers.FinalSelection` | crates/vyp-core/src/lib.rs:480-488 | a final selection is a solution if and only if no unwatched dependency is broken |
| `Resolvers.Expand` | crates/vyp-core/src/lib.rs:527-615 | one round after the pick: a conflict for a range without versions, or a decision that lowers the rank; what is registered unwatched stays pinned |
| `Resolvers.UnpinnedPointForward` | crates/vyp-resolver/src/solver.rs:793-812 | where nothing is pinned the condition on numbers holds for every numbering |
| `Pins.PriorAlike` | crates/vyp-resolver/src/solver.rs:168-209 | resolution does not tell apart what its parents do not |
| `Pins.AccumulatedAlike` | crates/vyp-resolver/src/solver.rs:284-309 | derived terms tell no unexpanded version from a point beside it that no requirement separates from it |
| `Pins.TwinLeft` | crates/vyp-resolver/src/solver.rs:793-812 | a version with such a point beside it is never the only one left when it is expanded, the case in which its package may go unwatched |
| `Findings.ExpansionLeavesConflict` | crates/vyp-resolver/src/solver.rs:793-812 | expanding a version leaves a conflict that the decided package does not watch if and only if, at registration, it was the only version left, its dependency was excluded already, and that has the smaller number; then only the dependency watches it |
| `Findings.ConflictStays` | crates/vyp-resolver/src/solver.rs:855-881 | whatever is derived after the decision, the conflict stays |
| `Findings.PinnedSteps` | crates/vyp-resolver/src/solver.rs:793-812 | a run from the start, every step legal and every pick forced, that ends with a conflict nobody visits |
| `Findings.PinnedPropagation` | crates/vyp-resolver/src/solver.rs:818-904 | after the last decision the propagation visits one incompatibility, which is quiet, while another one is in conflict |
| `Findings.PinnedWatches` | crates/vyp-resolver/src/solver.rs:669-699 | the watches that registration picks on that run, the last incompatibility watching the dependency only |
| `Findings.PinnedUnmoved` | crates/vyp-resolver/src/solver.rs:733-757 | on the way there no watch moves: nowhere are two terms of an incompatibility open, and the causes of derivations watch the derived packages |
| `Findings.PinnedOutcome` | crates/vyp-core/src/lib.rs:480-488 | its selection breaks a dependency although the problem is unsolvable |
| `Loops.LoopingSteps` | crates/vyp-resolver/src/solver.rs:818-904 | a run from the start, every step legal and every pick forced, to a conflict on a problem where one of two requirements on a package is contradictory |
| `Loops.LoopingNeverEnds` | crates/vyp-resolver/src/solver.rs:946-1002 | conflict resolution learns the same two incompatibilities in turns from there, for ever |
| `MarkerParsing.Cursor.Disjunction` | crates/vyp-api/src/types/marker.rs:600-627 | the loop with its cursor computes the grammar function of disjunctions and terminates on every input |
| `MarkerParsing.Cursor.Conjunction` | crates/vyp-api/src/types/marker.rs:630-657 | likewise for conjunctions |
| `MarkerParsing.Cursor.Atom` | crates/vyp-api/src/types/marker.rs:660-673 | likewise for atoms and parenthesised trees |
| `MarkerParsing.Cursor.Comparison` | crates/vyp-api/src/types/marker.rs:676-732 | likewise for comparisons |
| `MarkerParsing.Cursor.ParseQuotedString` | crates/vyp-api/src/types/marker.rs:536-554 | the text up to the same quote, or to the end; nothing if there is no quote |
| `MarkerParsing.Cursor.ParseIdentifier` | crates/vyp-api/src/types/marker.rs:557-570 | the longest run of identifier characters |
| `MarkerParsing.Cursor.EatKeyword` | crates/vyp-api/src/types/marker.rs:520-532 | a keyword is taken only in front of white space, a closing parenthesis or the end |
| `MarkerParsing.Cursor.Value` | crates/vyp-api/src/types/marker.rs:734-749 | likewise for variables and texts |
| `MarkerParsing.Cursor.Op` | crates/vyp-api/src/types/marker.rs:751-802 | likewise for operators |
| `MarkerParsing.ParseMarker` | crates/vyp-api/src/types/marker.rs:577-591 | the parser computes the grammar function on the trimmed input |
| `MarkerGroups.WrittenRead` | crates/vyp-api/src/types/marker.rs:577-732 | a marker written with parentheses is read as its tree: for any nesting of lists of two or more comparisons in normal form, either quote or bare words, dotted variable names, and any white space |
| `MarkerGroups.ParenthesesKept` | crates/vyp-api/src/types/marker.rs:660-673 | an "or" in parentheses is an operand of the "and" that follows: what is behind the closing parenthesis is not lost |
| `MarkerLeniency.LoneOperandSkipped` | crates/vyp-api/src/types/marker.rs:637-648 | an operand without an operator between two others counts for nothing, and what follows it is read on |
| `MarkerLeniency.LoneAlternativeSkipped` | crates/vyp-api/src/types/marker.rs:607-618 | the same between alternatives |
| `MarkerLeniency.LoneOperandTrue` | crates/vyp-api/src/types/marker.rs:577-591 | a text without an operator is read as no condition |
| `MarkerLeniency.TrailingIgnored` | crates/vyp-api/src/types/marker.rs:577-591 | text after a marker that begins no keyword is ignored |
| `MarkerLeniency.GluedKeywordIgnored` | crates/vyp-api/src/types/marker.rs:520-532 | a keyword counts for nothing in front of anything but white space, a closing parenthesis or the end: the marker ends there |
| `MarkerLeniency.DanglingAnd` | crates/vyp-api/src/types/marker.rs:637-673 | in front of a closing parenthesis it counts, and what is missing after it is left out |
| `MarkerLeniency.DanglingOr` | crates/vyp-api/src/types/marker.rs:607-673 | the same for alternatives |
| `MarkerLeniency.GluedOperatorUnread` | crates/vyp-api/src/types/marker.rs:751-802 | a name that only begins like `in` or `not in` is no operator |
| `MarkerLeniency.PunctuationEnds` | crates/vyp-api/src/types/marker.rs:557-570 | a name ends at any punctuation but the dot and the underscore |
| `MarkerLeniency.UnclosedGroup` | crates/vyp-api/src/types/marker.rs:660-673 | a parenthesis that is left open is closed by the end of the text |
| `MarkerLeniency.UnclosedQuote` | crates/vyp-api/src/types/marker.rs:536-554 | so is a quote, and the comparison is the same as with the quote |
| `MarkerRoundTrips.AtomPrinted` | crates/vyp-api/src/types/marker.rs:917-934 | a printed comparison of texts without double quotes is read back in its normal form and no further |
| `MarkerRoundTrips.PrintedText` | crates/vyp-api/src/types/marker.rs:894-916 | without double quotes and empty lists: the printed text of any nesting is the text of an "or" of "and"s, regrouped as the missing parentheses make it |
| `MarkerRoundTrips.ParsePrinted` | crates/vyp-api/src/types/marker.rs:577-935 | without double quotes and empty lists: parsing a printed tree gives exactly that regrouped tree, without the words for always and never where they are skipped |
| `MarkerNormalForms.NormalAtomExact` | crates/vyp-api/src/types/marker.rs:686-731 | which comparisons are in normal form |
| `MarkerNormalForms.RoundTripExact` | crates/vyp-api/src/types/marker.rs:577-935 | any tree is read back as it was if and only if it is always true, or a flat "or" of "and"s in normal form without double quotes |
| `MarkerQuotes.QuoteNotReadBack` | crates/vyp-api/src/types/marker.rs:536-554 | a tree with a double quote in a text is never read back as it was |
| `MarkerNormalForms.RoundTripMeaning` | crates/vyp-api/src/types/marker.rs:357-376 | without an "or" inside an "and", double quotes and empty lists, and with comparisons whose fields are as `AtomOk` says, the text that is read back means the same in every environment and for all extras |
| `MarkerAtoms.AtomMeaningExact` | crates/vyp-api/src/types/marker.rs:686-731 | a comparison means the same in its normal form, in every environment and for all extras, if and only if its fields are as `AtomOk` says |
| `MarkerNormalForms.NestedOrChangesMeaning` | crates/vyp-api/src/types/marker.rs:899-916 | an "or" inside an "and" does not |
| `MarkerNormalForms.FalseBecomesTrue` | crates/vyp-api/src/types/marker.rs:894-898 | the never true marker is read back as the always true one |
| `MarkerMeanings.InvertedMeaning` | crates/vyp-api/src/types/marker.rs:831-843 | turning a comparison around keeps its meaning, for all texts and environments, if and only if the operator is not containment, nor compatible release of a version |
| `MarkerComparisons.ComparisonExact` | crates/vyp-api/src/types/marker.rs:378-476 | what each operator means: `<` holds if and only if at the first place where the numbers differ the left one is smaller, `==` if they differ nowhere, and so on; `~=` adds the bound at the next prefix; texts go by characters, containment by places |
| `MarkerComparisons.NumbersOfParts` | crates/vyp-api/src/types/marker.rs:415-422 | a dotted text has the numbers of its parts, white space around them aside; parts that are no numbers are left out |
| `MarkerComparisons.ActiveExtra` | crates/vyp-api/src/types/marker.rs:364-367 | an extra is active if one of the given ones differs from it in letter case at most |
| `MarkerComparisons.ListExact` | crates/vyp-api/src/types/marker.rs:368-372 | a version list holds what has the same characters as one of its members |
| `VersionOrders.OrderExact` | crates/vyp-api/src/types/version.rs:149-222 | among versions with local segments of some kind, numerals included, the comparison is a total order up to equality if and only if all segments of that kind are plain |
| `VersionOrders.PlainExact` | crates/vyp-api/src/types/version.rs:204-222 | a segment has a place among the numerals, and among all plain segments, if and only if it is plain |
| `VersionOrders.MixedSegmentsCycle` | crates/vyp-api/src/types/version.rs:204-222 | other segments can be ordered in a circle |
| `VersionOrders.PaddedCompare` | crates/vyp-api/src/types/version.rs:113-117 | padding releases further does not change their comparison |
| `VersionFields.LessExact` | crates/vyp-api/src/types/version.rs:149-222 | a version is less than another if and only if at the first field in which they differ it comes first: epoch and release by number, alpha before beta before candidate before none, no post-release before any, any development release before none, local segments by value or by text |
| `VersionFields.GreaterExact` | crates/vyp-api/src/types/version.rs:149-222 | greater is that turned around, for all versions, and equal is neither |
| `VersionFields.StagesInOrder` | crates/vyp-api/src/types/version.rs:174-202 | development releases, alphas, betas, candidates, the final release and its post-releases come in that order, each by number |
| `VersionOrders.HashExact` | crates/vyp-api/src/types/version.rs:123-147 | two versions are hashed alike if and only if they are equal and their releases are equally long |
| `VersionParsing.ParseVersion` | crates/vyp-api/src/types/version.rs:259-397 | the step by step parser computes the parsing function |
| `VersionParsing.TakePre` | crates/vyp-api/src/types/version.rs:324-365 | the loops over the tags take the first one that marks a pre-release |
| `VersionRoundTrips.PublicRead` | crates/vyp-api/src/types/version.rs:224-244 | release, pre-, post- and development parts are read back, in all combinations |
| `VersionRoundTrips.RoundTripExact` | crates/vyp-api/src/types/version.rs:224-397 | a version survives printing and parsing if and only if it has release numbers and its local segments can be told apart in the text |
| `VersionRoundTrips.ParsedInWidth` | crates/vyp-api/src/types/version.rs:259-397 | whatever is read has release numbers, and all its numbers have 32 bits |
| `VersionSpellings.PartExact` | crates/vyp-api/src/types/version.rs:372-386 | a release number of digits is read by its value, leading zeros aside, and rejected if and only if it needs more than 32 bits |
| `VersionSpellings.EmptySkipped` | crates/vyp-api/src/types/version.rs:372-375 | separators in a row count as one |
| `VersionSpellings.SpellingRead` | crates/vyp-api/src/types/version.rs:259-397 | every spelling is read as the version it stands for: leading zeros, a leading `v`, either case, `-` and `_` between numbers, all names of the tags, tags without a number, `post` with a dot, without, or after a separator |
| `VersionSpellings.SpellingReadAround` | crates/vyp-api/src/types/version.rs:259-262 | white space around it does not count |
| `VersionSpellings.SpellingIsNormal` | crates/vyp-api/src/types/version.rs:224-397 | it is read as the printed text of that version is |
| `VersionMisspellings.SeparatedPreUnread` | crates/vyp-api/src/types/version.rs:325-386 | a pre-release after a separator makes the whole text invalid |
| `VersionMisspellings.UndottedDevUnread` | crates/vyp-api/src/types/version.rs:290-305 | so does a development part without its dot |
| `VersionMisspellings.JunkAfterPreUnread` | crates/vyp-api/src/types/version.rs:325-364 | and a pre-release with letters after its number |
| `VersionMisspellings.UnreadableCountsAsZero` | crates/vyp-api/src/types/version.rs:290-322 | a development or post-release whose number is unreadable counts as number zero |
| `VersionMisspellings.BadEpochUnread` | crates/vyp-api/src/types/version.rs:265-272 | an epoch that is no number makes the whole text invalid |
| `VersionMisspellings.SeparatorsUnread` | crates/vyp-api/src/types/version.rs:384-387 | a text without release numbers is invalid |
| `Requirements.RequirementsToRange` | crates/vyp-resolver/src/provider.rs:14-84 | the loop intersects the sets of all constraints |
| `RangeConversions.ConstraintExact` | crates/vyp-resolver/src/provider.rs:28-79 | for every operator but `===`: the converted set and the direct check differ on exactly the versions that `Differs` describes by their fields |
| `RangeConversions.ArbitraryEqualExact` | crates/vyp-api/src/types/requirement.rs:133-135 | for `===` they differ exactly on versions that compare equal but differ in length or in the text of a local segment |
| `RangeConversions.FinalRefines` | crates/vyp-api/src/types/requirement.rs:94-154 | for final releases, and wildcards no longer than the release whose last number can go up, the set contains a version if and only if it satisfies every constraint directly |
| `RangeConversions.ReleaseInWildcard` | crates/vyp-resolver/src/provider.rs:47-67 | between a prefix and the next one lie the releases that begin with it, up to zeros |
| `RangeConversions.CompatibleIsPrefix` | crates/vyp-resolver/src/provider.rs:64-77 | a final release is compatible if and only if it is not below the bound and begins with all its numbers but the last, up to zeros |
| `RangeConversions.LtKeepsPreReleases` | crates/vyp-resolver/src/provider.rs:39-45 | a strict upper bound lets the pre-releases of the bound in |
| `RangeConversions.LteKeepsLocals` | crates/vyp-resolver/src/provider.rs:38-40 | `<=V` lets in V with every local label whose first segment begins with a digit or a letter before `z` |
| `RangeConversions.BeyondExact` | crates/vyp-api/src/types/version.rs:108-111 | which local labels lie beyond the bound of `<=` |
| `InMemoryIndexes.InMemoryIndex.Register` | crates/vyp-index/src/in_memory_index.rs:108-117 | a key is claimed by the first caller only |
| `InMemoryIndexes.InMemoryIndex.Set` | crates/vyp-index/src/in_memory_index.rs:137-143 | the slot is created if missing, and filled |
| `InMemoryIndexes.InMemoryIndex.SlotToWaitOn` | crates/vyp-index/src/in_memory_index.rs:119-125 | waiting creates a missing slot |
| `InMemoryIndexes.InMemoryIndex.TryGet` | crates/vyp-index/src/in_memory_index.rs:127-130 | the value of a filled slot, nothing for an empty or missing one |
| `FetchProtocols.NextKeepsInv` | crates/vyp-index/src/pypi.rs:225-529 | every step of every caller and task keeps: an empty slot has exactly one owner |
| `FetchProtocols.ClaimedAndFilledOnce` | crates/vyp-index/src/pypi.rs:225-529 | under every interleaving a key is claimed at most once and filled at most once |
| `FetchProtocols.EnsuredIsServed` | crates/vyp-index/src/pypi.rs:229-241 | a key whose fetch was ensured is filled, or exactly one task is left to fill it |
| `FetchProtocols.WaitIsServed` | crates/vyp-index/src/pypi.rs:959-998 | who waits can go on, or somebody is left to fill the slot |
| `FetchProtocols.OwnerProgresses` | crates/vyp-index/src/pypi.rs:249-345 | an owner is never blocked, its steps come nearer to filling the slot, and no other step takes the slot away |
| `FetchProtocols.OwnersFill` | crates/vyp-index/src/pypi.rs:249-345 | in every run: once the successive owners of a key took as many steps as the first was away, two at most, it is filled |
| `FetchProtocols.FilledStays` | crates/vyp-index/src/in_memory_index.rs:66-98 | what was read from a slot once is read ever after |
| `FetchDuties.CallServed` | crates/vyp-index/src/pypi.rs:229-241 | in every run: a call to ensure a fetch is over only when the key has a slot, and with a wait only when it has a value |
| `FetchDuties.PrefetchCovers` | crates/vyp-index/src/pypi.rs:1015-1078 | in every run: a prefetch is over only when all its versions have slots |
| `FetchDuties.ChainCovers` | crates/vyp-index/src/pypi.rs:436-528 | the same for the candidates among fresh versions |
| `FetchDuties.ValueFromOwner` | crates/vyp-index/src/pypi.rs:225-529 | a value that is read was brought by a step of the owner of its key |
| `FetchProtocols.EarlyWaitOrphans` | crates/vyp-index/src/in_memory_index.rs:156-163 | waiting for a key that was not ensured leaves a slot that nobody owns |
| `FetchProtocols.OrphanStays` | crates/vyp-index/src/in_memory_index.rs:145-163 | such a slot is never filled, even if the fetch is ensured later |
| `MetadataCaches.MetadataCache.constructor` | crates/vyp-index/src/cache.rs:98-107 | opening reconciles any saved index with the files |
| `MetadataCaches.MetadataCache.Get` | crates/vyp-index/src/cache.rs:111-129 | a hit needs an entry and a readable file, and is what was last inserted; an unreadable entry is dropped with its file; both are noted for saving |
| `MetadataCaches.MetadataCache.Insert` | crates/vyp-index/src/cache.rs:132-168 | the size limit holds afterwards; what had to go, with its files and no others, is a minimal set of least recently accessed entries; the change is noted for saving |
| `MetadataCaches.MetadataCache.EvictIfNeeded` | crates/vyp-index/src/cache.rs:293-313 | removes entries in order of access and exactly their files, no more than needed |
| `MetadataCaches.MetadataCache.ReconcileOrphans` | crates/vyp-index/src/cache.rs:363-399 | adopts what is readable and correctly named, removes the rest, leaves what is tracked |
| `MetadataCaches.MetadataCache.MarkDirty` | crates/vyp-index/src/cache.rs:259-265 | counts insertions and dropped entries, and saves the index exactly when their number reaches the threshold and the file can be written |
| `MetadataCaches.EvictionMinimal` | crates/vyp-index/src/cache.rs:293-313 | every smaller eviction in order of access leaves too much behind |
| `MetadataCaches.ReloadAdopts` | crates/vyp-index/src/cache.rs:344-399 | after loading any old index, every readable file named after its key is found again |
| `MetadataCaches.NoOrphanStays` | crates/vyp-index/src/cache.rs:363-399 | after loading any old index, the index knows every file that is left |
| `MetadataCaches.LossesHarmless` | crates/vyp-index/src/cache.rs:121-127 | losing files or their content cannot make a lookup answer wrongly |
| `MetadataCaches.InsertFaithful` | crates/vyp-index/src/cache.rs:132-153 | the files agree with a plain map after an insertion, also after a failed one |
| `IndexRouters.IndexRouter.SeedIndex` | crates/vyp-core/src/index_router.rs:61-72 | adds the normalised names to the seeds and the scope of the index |
| `IndexRouters.IndexRouter.SeedDefault` | crates/vyp-core/src/index_router.rs:78-83 | adds the normalised names to the default set |
| `IndexRouters.IndexRouter.Propagate` | crates/vyp-core/src/index_router.rs:91-118 | every set that holds the parent grows by the dependencies, no other set changes |
| `IndexRouters.IndexRouter.RoutesTo` | crates/vyp-core/src/index_router.rs:121-141 | the overlap policy; once nothing is added any more it is reachability |
| `IndexRouters.GrownWithin` | crates/vyp-core/src/index_router.rs:91-118 | no call sequence leads outside the closure of the seeds along the walked edges |
| `IndexRouters.ClosureReached` | crates/vyp-core/src/index_router.rs:91-118 | a set equals the closure exactly when walking the edges again adds nothing |
| `IndexRouters.RoutesByReachability` | crates/vyp-core/src/index_router.rs:121-141 | then routing means: a seed, or reachable from the seeds of the index and not from the default seeds |
| `IndexRouters.NormalizedExact` | crates/vyp-api/src/types/package.rs:51-54 | two names are the same package if and only if they differ in letter case and in which separators they use at most |
| `UniversalMerges.MergeRequiresPython` | crates/vyp/src/lock/universal.rs:54-86 | one marked entry for every package of every environment, sorted |
| `UniversalMerges.MergeFewest` | crates/vyp/src/lock/universal.rs:88-143 | one entry of each kind, the first of its kind, sorted |
| `UniversalMerges.MergeReproduces` | crates/vyp/src/lock/universal.rs:44-143 | under both strategies, filtering for an environment gives exactly its own resolution, one entry for each package, those with markers with its own wheels |
| `UniversalMerges.MergeUniversal` | crates/vyp/src/lock/universal.rs:44-52 | the merge of either strategy, in order |
| `EnvironmentMarkers.AcceptedRead` | crates/vyp/src/lock/universal.rs:23-41 | an accepted marker is read as a comparison with the version if exactly the operator `==` stands in between, and as no condition otherwise |
| `EnvironmentMarkers.EnvironmentExact` | crates/vyp/src/lock/universal.rs:23-41 | in the environment of a marker the three version variables are read as its Python version, and all others as before |
| `EnvironmentMarkers.HoldsExact` | crates/vyp-api/src/types/marker.rs:128-147 | it holds in the environment of another one if and only if it lacks the operator or is about the same Python version |
| `EnvironmentMarkers.ExclusiveExact` | crates/vyp/src/cli/common.rs:73-81 | accepted markers hold in their own environments only, if and only if all have the operator and no two are about the same version |
| `EnvironmentMarkers.MergeForPythonVersions` | crates/vyp/src/lock/universal.rs:44-143 | then filtering the merged entries for a Python version gives exactly its resolution, with markers as they are parsed and evaluated |
| `EnvironmentMarkers.UsualForm` | crates/vyp/src/lock/universal.rs:23-41 | for every version, `python_version == "X.Y"` is accepted and has the operator; `python_version = "X.Y"` is accepted and read as no condition |
| `UniversalMerges.MarkedReproduces` | crates/vyp/src/lock/universal.rs:54-86 | the same for marked entries |
| `UniversalMerges.UnmarkedExactly` | crates/vyp/src/lock/universal.rs:98-113 | an unmarked entry appears exactly when at least two environments were resolved and all chose that version; it has the wheels of the first |
| `UniversalMerges.SortedInOrder` | crates/vyp/src/lock/universal.rs:84-85 | entries are in order of name and marker |
| `UniversalMerges.InOrderExact` | crates/vyp/src/lock/universal.rs:84-85 | that order is by characters, no marker first |
| `Records.RelativePath` | crates/vyp/src/cache/linker.rs:436-451 | the loops compute the path up to the common directory and down again |
| `Records.RelativeResolves` | crates/vyp/src/cache/installed.rs:148-160 | resolving a relative path against its base gives the target back |
| `Records.FieldReadBack` | crates/vyp/src/cache/installed.rs:119-144 | the first field of a written line is read back as it was |
| `Records.WriteRecord` | crates/vyp/src/cache/linker.rs:417-432 | writes the lines of all files, then its own |
| `Records.ReadRecord` | crates/vyp/src/cache/installed.rs:57-62 | finds the paths of all lines but those with an empty first field |
| `Records.RecordReadBack` | crates/vyp/src/cache/linker.rs:417-459 | the uninstaller finds exactly the installed files if and only if no relative path contains a newline and none is the base directory |
| `Records.DigestReadBack` | crates/vyp/src/cache/linker.rs:394-415 | hash and size of a written line are read back for reuse, and under its path if and only if that has no quotes in it |
| `RecordTables.StandardReadBack` | crates/vyp/src/cache/linker.rs:417-459 | a reader that follows RFC 4180, newlines in quotes included, finds the path, hash and size of every file in order, and the manifest itself with neither |
| `RecordTables.NoHashNoDigest` | crates/vyp/src/cache/linker.rs:401-409 | a line without a hash has no digest to reuse |

## Left out

- Package and incompatibility numbers, indices and levels are unbounded here; in the program they are 32 bits wide and wrap or panic beyond that.
- Packages are numbered beforehand, in any order; the program numbers them as it meets them. All results hold for every numbering.
- Version lists and dependency lists are fixed by the problem: the program memoises what the providers answer, and strategies, filters and pins are part of the answer.
- Activities and the arrival of version counts are arbitrary inputs of a run. Priorities are real numbers; their rounding is not modelled, and ties are broken arbitrarily.
- The derivation report, the contested packages, satisfier causes, provenance and progress callbacks are not modelled.
- Cancellation of a run, and a provider that changes its answer during a run.
- RunSolver: is for problems without self-dependencies and without dependencies on the root, since the incompatibility of a dependency is wrong on the former. It takes an allowance of extra resolution steps and gives up with `Diverged` beyond it, to stand for the runs that do not end; it is shown never to happen unless a package has contradictory requirements among others. The set of dependencies registered unwatched is a ghost result.
- ConflictResolution: gives up in the same way. It only ever has to backtrack at a decision, so that the program's two other branches there are not written out.
- UnitPropagation: has no guard for watchers that have moved off the package, since that is shown not to happen.
- SatisfierSearch: walks the terms in ascending order of packages, as the program's ordered map does; hash maps are walked in arbitrary order.
- The position of a package in the program's insertion ordered map of assignments, which only decides ties among picks.
- Texts are sequences of Unicode characters, not of bytes. Letters outside ASCII are neither identifier characters of markers nor changed by lower-casing.
- Parse: a marker that does not parse counts as always true, as in the program; no error is reported.
- The detection of the marker environment and its cache.
- RequirementsToRange: ranges are sets of versions given by their comparison with bounds; their representation as segments is not modelled.
- ConstraintExact: a last number that would overflow wraps around, as in a release build.
- HashExact: what is hashed, not what the hash function makes of it.
- ComparisonExact: the prefix that `~=` counts up wraps around at 32 bits, as in a release build.
- SpellingRead: what else is read, besides these spellings, is given by `Versions.Parse` and by the lemmas on misspellings only.
- AtomPrinted: what is read of a text with a double quote in it is not described, only that it is not the printed tree (`MarkerQuotes.QuoteNotReadBack`).
- PrintedText: likewise; and lists without members, which the parser never builds, are left out.
- RoundTripMeaning: likewise; and a tree with other comparisons than `AtomOk` allows may keep its meaning by coincidence.
- ParsePrinted: likewise; `MarkerNormalForms.RoundTripExact` covers these trees, too.
- The splitting of requirement texts into name, extras, constraints and marker.
- FetchProtocols: answers of the network and of the disk cache are arbitrary outcomes of a step; a task that panics or is cancelled is not modelled, and waiting is a step that is enabled once the slot is filled.
- The contents of fetched metadata and version lists, and the choice of wheels.
- MetadataCaches: file names are any function that is injective on the keys in use; the program uses a 64-bit hash. Version lists and their expiry are not modelled. Sizes and times are unbounded.
- Insert: metadata that cannot be serialised is not modelled; a failed write may leave an unreadable file.
- EvictIfNeeded: looks for the least recently accessed entry again and again instead of sorting once; ties are broken arbitrarily in both.
- IndexRouters: the lock around the sets; every method is one step.
- UniversalMerges: the provenance that entries carry; sorting is a stable insertion sort where the program calls the library.
- Records: paths are absolute, normalised and valid Unicode; the check that a path stays inside the environment, hashes and the removal of files are not modelled.
- Installing, linking, unpacking, launchers, platform and accelerator detection, plugin loading, configuration and commands: they only add input and output.
