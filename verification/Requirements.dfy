/** Version constraints, checked directly and as sets of versions. */
module Requirements {
  import opened Numerals
  import opened Options
  import opened Texts
  import opened Versions
  import opened VersionOrders

  datatype ComparisonOp = Eq | NotEq | Gte | Lte | Gt | Lt | Compatible | ArbitraryEq | EqStar | NotEqStar

  datatype VersionConstraint = VersionConstraint(op: ComparisonOp, version: VypVersion)

  function ReleaseOnly(release: seq<nat>): VypVersion {
    VypVersion(0, release, None, None, None, [])
  }

  /** The last number goes up by one, wrapping at 32 bits. */
  function Bumped(release: seq<nat>): seq<nat> {
    if release == [] then []
    else release[..|release| - 1] + [(release[|release| - 1] + 1) % (MAX_U32 + 1)]
  }

  function WithoutLocal(v: VypVersion): VypVersion {
    v.(local := [])
  }

  predicate HasPrefix(release: seq<nat>, prefix: seq<nat>) {
    |prefix| <= |release| && release[..|prefix|] == prefix
  }

  // -- The direct check ------------------------------------------------------------------

  predicate EqualTo(c: VypVersion, v: VypVersion) {
    if c.local != [] then Same(v, c) else Same(WithoutLocal(v), WithoutLocal(c))
  }

  predicate SatisfiedBy(c: VersionConstraint, v: VypVersion) {
    match c.op
    case Eq => EqualTo(c.version, v)
    case NotEq => !EqualTo(c.version, v)
    case Gte => Compare(v, c.version) != Less
    case Lte => Compare(v, c.version) != Greater
    case Gt => Compare(v, c.version) == Greater
    case Lt => Compare(v, c.version) == Less
    case Compatible =>
      var release := c.version.release;
      && Compare(v, c.version) != Less
      && (|release| >= 2 ==> Compare(v, ReleaseOnly(Bumped(release[..|release| - 1]))) == Less)
    case ArbitraryEq => Print(v) == Print(c.version)
    case EqStar => HasPrefix(v.release, c.version.release)
    case NotEqStar => !HasPrefix(v.release, c.version.release)
  }

  // -- Sets of versions ------------------------------------------------------------------

  type VersionSet = VypVersion -> bool

  function Full(): VersionSet {
    v => true
  }

  function HigherThan(bound: VypVersion): VersionSet {
    v => Compare(v, bound) != Less
  }

  function StrictlyHigherThan(bound: VypVersion): VersionSet {
    v => Compare(v, bound) == Greater
  }

  function LowerThan(bound: VypVersion): VersionSet {
    v => Compare(v, bound) != Greater
  }

  function StrictlyLowerThan(bound: VypVersion): VersionSet {
    v => Compare(v, bound) == Less
  }

  function Singleton(bound: VypVersion): VersionSet {
    v => Compare(v, bound).Equal?
  }

  function Complement(s: VersionSet): VersionSet {
    v => !s(v)
  }

  function Intersection(s: VersionSet, t: VersionSet): VersionSet {
    v => s(v) && t(v)
  }

  const LOCAL_MAX: seq<string> := ["zzzzzzzz"]

  /** Everything from the first development version of the prefix to that of the next one. */
  function WildcardSet(c: VypVersion): VersionSet {
    Intersection(HigherThan(c.(dev := Some(0))), StrictlyLowerThan(ReleaseOnly(Bumped(c.release)).(dev := Some(0))))
  }

  function ConstraintSet(c: VersionConstraint): VersionSet {
    var w := c.version;
    match c.op
    case Gte => HigherThan(w)
    case Gt =>
      if w.post.None? && w.dev.None? && w.local == [] then StrictlyHigherThan(w.(post := Some(MAX_U32)))
      else StrictlyHigherThan(w)
    case Lte => LowerThan(w.(local := LOCAL_MAX))
    case Lt =>
      if w.pre.None? && w.dev.None? && w.local == [] then StrictlyLowerThan(w.(dev := Some(0)))
      else StrictlyLowerThan(w)
    case Eq => Singleton(w)
    case NotEq => Complement(Singleton(w))
    case EqStar => WildcardSet(w)
    case NotEqStar => Complement(WildcardSet(w))
    case Compatible =>
      if |w.release| >= 2 then
        Intersection(HigherThan(w), StrictlyLowerThan(ReleaseOnly(Bumped(w.release[..|w.release| - 1]))))
      else HigherThan(w)
    case ArbitraryEq => Singleton(w)
  }

  /** The set of all versions inside the sets of all constraints. */
  method RequirementsToRange(constraints: seq<VersionConstraint>) returns (range: VersionSet)
    ensures forall v :: range(v) <==> forall c :: c in constraints ==> ConstraintSet(c)(v)
  {
    range := Full();
    for i := 0 to |constraints|
      invariant forall v :: range(v) <==> forall c :: c in constraints[..i] ==> ConstraintSet(c)(v)
    {
      assert constraints[..i + 1] == constraints[..i] + [constraints[i]];
      range := Intersection(range, ConstraintSet(constraints[i]));
    }
    assert constraints[..|constraints|] == constraints;
  }

  // -- Where the two agree ---------------------------------------------------------------

  predicate SameRelease(v: VypVersion, w: VypVersion) {
    v.epoch == w.epoch && CompareReleases(v.release, w.release).Equal?
  }

  /** Equal up to the local segments. */
  predicate SamePublic(v: VypVersion, w: VypVersion) {
    SameRelease(v, w) && v.pre == w.pre && v.post == w.post && v.dev == w.dev
  }

  /** A local label after eight times the last letter. */
  predicate BeyondLabels(local: seq<string>) {
    && local != []
    && (TextLess("zzzzzzzz", local[0]) || (local[0] == "zzzzzzzz" && |local| > 1))
  }

  /** The versions on which the set of a constraint and the direct check differ, by the fields
      of the version and the constraint. */
  predicate Differs(c: VersionConstraint, v: VypVersion) {
    var w := c.version;
    match c.op
    case Gte => false
    case Compatible => false
    case Gt =>
      // later than the bound, but only by a post-release or a local label
      && w.post.None? && w.dev.None? && w.local == []
      && SameRelease(v, w) && v.pre == w.pre
      && (v.post.Some? || (v.dev.None? && v.local != []))
      && !(v.post == Some(MAX_U32) && v.dev.None? && v.local != [])
    case Lte =>
      // the bound itself with a later local label, or one that goes beyond all usual labels
      SamePublic(v, w) && (CompareLocals(v.local, w.local).Greater? != BeyondLabels(v.local))
    case Lt =>
      // a development version of the bound
      && w.pre.None? && w.dev.None? && w.local == []
      && SameRelease(v, w) && v.pre.None? && v.post == w.post && v.dev.Some?
    case Eq => EqualDiffers(v, w)
    case NotEq => EqualDiffers(v, w)
    case ArbitraryEq =>
      && SamePublic(v, w) && CompareLocals(v.local, w.local).Equal?
      && (|v.release| != |w.release| || v.local != w.local)
    case EqStar => WildcardDiffers(v, w)
    case NotEqStar => WildcardDiffers(v, w)
  }

  /** A local label where none is asked for, or one that compares equal but is another. */
  predicate EqualDiffers(v: VypVersion, w: VypVersion) {
    && SamePublic(v, w) && v.local != w.local
    && (w.local == [] || CompareLocals(v.local, w.local).Equal?)
  }

  predicate LastIsLargest(release: seq<nat>) {
    release != [] && release[|release| - 1] == MAX_U32
  }

  /** Before the first development version of `w`, by what follows the release. */
  predicate RestBefore(v: VypVersion, w: VypVersion) {
    || ComparePre(v.pre, w.pre).Less?
    || (v.pre == w.pre && ComparePost(v.post, w.post).Less?)
    || (v.pre == w.pre && v.post == w.post && v.dev == Some(0) && CompareLocals(v.local, w.local).Less?)
  }

  /** Outside epoch 0, and for a last number that wraps, the set is empty. Otherwise the two differ
      on a release too short for the prefix but equal to it up to zeros, unless it is left out for
      what follows the release; on a release of the prefix that is left out for that; and on the
      pre-releases of the next prefix, which are let in. */
  predicate WildcardDiffers(v: VypVersion, w: VypVersion) {
    if v.epoch != 0 || w.epoch != 0 || LastIsLargest(w.release) then HasPrefix(v.release, w.release)
    else if SameRelease(v, w) then
      if w.release == [] then v.pre.None? || RestBefore(v, w)
      else RestBefore(v, w) <==> |v.release| >= |w.release|
    else if CompareReleases(v.release, Bumped(w.release)).Equal? then v.pre.Some?
    else w.release == []
  }
}
