/** Dependency problems and their solutions, independently of any solver. */
module Problems {
  import opened Terms

  /** Packages are numbered as the solver numbers them; the root is package 0. */
  type PackageId = nat

  const ROOT: PackageId := 0

  datatype Dependency = Dependency(package: PackageId, range: VS)

  /** The version lists and dependency lists the providers answer with. A package or
      version that is not listed has no versions, respectively no dependencies. */
  datatype Problem = Problem(
    packages: nat,
    universe: VS,
    rootVersion: Version,
    versions: map<PackageId, seq<Version>>,
    dependencies: map<(PackageId, Version), seq<Dependency>>)
  {
    function Versions(p: PackageId): seq<Version> {
      if p in versions then versions[p] else []
    }

    function Dependencies(p: PackageId, v: Version): seq<Dependency> {
      if (p, v) in dependencies then dependencies[(p, v)] else []
    }

    /** Every mentioned package is numbered, and ranges are sets over the finitely many
        points of the version order that some range distinguishes. The root is never a
        dependency and no package depends on itself. */
    ghost predicate WellFormed() {
      && 0 < packages
      && rootVersion in universe
      && forall key, i :: key in dependencies && 0 <= i < |dependencies[key]| ==>
           DependencyOk(key.0, dependencies[key][i])
    }

    ghost predicate DependencyOk(p: PackageId, d: Dependency) {
      d.package < packages && d.package != ROOT && d.package != p && d.range <= universe
    }

    /** The version exists, or is the root's own one. */
    ghost predicate Occurs(p: PackageId, v: Version) {
      v in Versions(p) || (p == ROOT && v == rootVersion)
    }

    /** Some requirement on the package is contradictory in itself, like `>=2,<1`. */
    ghost predicate Contradicted(q: PackageId) {
      exists p, v, i: nat ::
        Occurs(p, v) && i < |Dependencies(p, v)| && Dependencies(p, v)[i] == Dependency(q, {})
    }

    /** Where one requirement on a package is contradictory in itself, all of them are. */
    ghost predicate ContradictedAlone() {
      forall p, v, i: nat ::
        Occurs(p, v) && i < |Dependencies(p, v)| && Contradicted(Dependencies(p, v)[i].package) ==>
          Dependencies(p, v)[i].range == {}
    }

    lemma DependencyFacts(p: PackageId, v: Version, i: nat)
      requires WellFormed() && i < |Dependencies(p, v)|
      ensures DependencyOk(p, Dependencies(p, v)[i])
    {
    }

    lemma ContradictionFacts(p: PackageId, v: Version, i: nat)
      requires WellFormed() && Occurs(p, v) && i < |Dependencies(p, v)| && ContradictedAlone()
      ensures Contradicted(Dependencies(p, v)[i].package) <==> Dependencies(p, v)[i].range == {}
    {
    }

    lemma RootNotContradicted()
      requires WellFormed()
      ensures !Contradicted(ROOT)
    {
      forall p, v, i: nat | i < |Dependencies(p, v)| ensures Dependencies(p, v)[i].package != ROOT {
        DependencyFacts(p, v, i);
      }
    }
  }

  /** A point that is not a version of the package and that no dependency on the package tells
      apart from the listed version: one just beside it, say, when no range begins or ends
      between the two. */
  ghost predicate Twins(pr: Problem, p: PackageId, v: Version, w: Version) {
    && v in pr.Versions(p) && w !in pr.Versions(p)
    && forall key, i ::
         key in pr.dependencies && 0 <= i < |pr.dependencies[key]| && pr.dependencies[key][i].package == p ==>
           (v in pr.dependencies[key][i].range <==> w in pr.dependencies[key][i].range)
  }

  ghost predicate HasTwin(pr: Problem, p: PackageId, v: Version) {
    exists w: Version :: Twins(pr, p, v, w)
  }

  /** No dependencies pin a listed version, like `==`, `!=` and `===` do, or an inclusive bound
      from each side. */
  ghost predicate Unpinned(pr: Problem) {
    forall p: PackageId, v: Version :: p != ROOT && v in pr.Versions(p) ==> HasTwin(pr, p, v)
  }

  type Selection = map<PackageId, Version>

  function ChoiceOf(sel: Selection, p: PackageId): Choice {
    if p in sel then Selected(sel[p]) else Absent
  }

  ghost predicate Honours(sel: Selection, d: Dependency) {
    d.package in sel && sel[d.package] in d.range
  }

  /** Every selected version exists and finds all its dependencies inside the selection.
      Selecting nothing is consistent. */
  ghost predicate Consistent(pr: Problem, sel: Selection) {
    && (forall p :: p in sel && p != ROOT ==> sel[p] in pr.Versions(p))
    && (forall p, i :: p in sel && 0 <= i < |pr.Dependencies(p, sel[p])| ==>
         Honours(sel, pr.Dependencies(p, sel[p])[i]))
  }

  /** A solution is a consistent selection that contains the root. */
  ghost predicate Solution(pr: Problem, sel: Selection) {
    Consistent(pr, sel) && ROOT in sel && sel[ROOT] == pr.rootVersion
  }

  ghost predicate Unsolvable(pr: Problem) {
    forall sel: Selection :: !Solution(pr, sel)
  }
}
