/** The set of versions a requirement is converted to, against the direct check. */
module RangeConversions {
  import opened Numerals
  import opened Options
  import opened Requirements
  import opened Texts
  import opened Versions
  import opened VersionOrders
  import opened VersionRoundTrips

  // -- Comparisons by parts --------------------------------------------------------------

  /** The comparison of what follows the release. */
  function CompareRest(v: VypVersion, w: VypVersion): Ordering {
    ComparePre(v.pre, w.pre)
      .Then(ComparePost(v.post, w.post))
      .Then(CompareDev(v.dev, w.dev))
      .Then(CompareLocals(v.local, w.local))
  }

  function CompareFront(v: VypVersion, w: VypVersion): Ordering {
    CompareNumbers(v.epoch, w.epoch).Then(CompareReleases(v.release, w.release))
  }

  lemma CompareSplits(v: VypVersion, w: VypVersion)
    ensures Compare(v, w) == CompareFront(v, w).Then(CompareRest(v, w))
    ensures CompareFront(v, w).Equal? <==> SameRelease(v, w)
  {
    hide CompareReleases, ComparePre, ComparePost, CompareDev, CompareLocals;
  }

  lemma {:induction false} LocalsReflexive(a: seq<string>)
    ensures CompareLocals(a, a).Equal?
  {
    if a != [] {
      LocalsReflexive(a[1..]);
    }
  }

  lemma SameExact(v: VypVersion, w: VypVersion)
    ensures Same(v, w) <==> SamePublic(v, w) && v.local == w.local
    ensures Compare(v, w).Equal? <==> SamePublic(v, w) && CompareLocals(v.local, w.local).Equal?
  {
    hide Compare, CompareReleases, ComparePre, ComparePost, CompareDev, CompareLocals, Padded;
    EqualParts(v, w);
    ReleasesFit(v.release, w.release, []);
    PreFits(v.pre, w.pre, None);
    PostAndDevFit(v.post, w.post, None);
    PostAndDevFit(v.dev, w.dev, None);
  }

  lemma EqualExact(c: VersionConstraint, v: VypVersion)
    ensures Compare(v, c.version).Equal? != EqualTo(c.version, v) <==> EqualDiffers(v, c.version)
  {
    SameExact(v, c.version);
    SameExact(WithoutLocal(v), WithoutLocal(c.version));
    LocalsReflexive(v.local);
    assert c.version.local == [] ==> (CompareLocals(v.local, c.version.local).Equal? <==> v.local == []);
    hide Compare, Same, CompareReleases, CompareLocals;
  }

  lemma GtExact(v: VypVersion, w: VypVersion)
    requires InWidth(v) && w.post.None? && w.dev.None? && w.local == []
    ensures Compare(v, w.(post := Some(MAX_U32))).Greater? != Compare(v, w).Greater? <==>
            Differs(VersionConstraint(Gt, w), v)
  {
    hide Compare, CompareReleases, ComparePre, InWidth;
    CompareSplits(v, w);
    CompareSplits(v, w.(post := Some(MAX_U32)));
    PreFits(v.pre, w.pre, None);
    assert v.post.Some? ==> v.post.value <= MAX_U32 by { PostInWidth(v); }
  }

  lemma PostInWidth(v: VypVersion)
    requires InWidth(v)
    ensures v.post.Some? ==> v.post.value <= MAX_U32
  {
  }

  lemma LtExact(v: VypVersion, w: VypVersion)
    requires w.pre.None? && w.dev.None? && w.local == []
    ensures Compare(v, w.(dev := Some(0))).Less? != Compare(v, w).Less? <==> Differs(VersionConstraint(Lt, w), v)
  {
    hide Compare, CompareReleases, ComparePost;
    CompareSplits(v, w);
    CompareSplits(v, w.(dev := Some(0)));
    PostAndDevFit(v.post, w.post, None);
  }

  lemma LabelLast()
    ensures ParseNumber("zzzzzzzz", MAX_U64) == None
  {
    assert "zzzzzzzz"[0] in "zzzzzzzz";
  }

  lemma BeyondExact(local: seq<string>)
    ensures CompareLocals(local, LOCAL_MAX).Greater? <==> BeyondLabels(local)
  {
    hide TextLess, ParseNumber;
    LabelLast();
    if local != [] {
      assert LOCAL_MAX[0] == "zzzzzzzz" && LOCAL_MAX[1..] == [];
      TextLessFits(local[0], "zzzzzzzz", local[0]);
      assert CompareLocals(local, LOCAL_MAX)
          == CompareSegments(local[0], LOCAL_MAX[0]).Then(CompareLocals(local[1..], []));
    }
  }

  /** Local labels that begin with a digit or with a letter before the last one. */
  predicate UsualLabel(local: seq<string>) {
    local != [] ==> local[0] != "" && (IsDigit(local[0][0]) || 'a' <= local[0][0] < 'z')
  }

  /** An inclusive upper bound lets in the bound itself with any usual local label. */
  lemma LteKeepsLocals(v: VypVersion, w: VypVersion)
    requires SamePublic(v, w) && UsualLabel(v.local)
    ensures ConstraintSet(VersionConstraint(Lte, w))(v)
  {
    hide Compare, CompareReleases, ComparePre, ComparePost, CompareDev, CompareLocals;
    CompareSplits(v, w.(local := LOCAL_MAX));
    PreFits(v.pre, w.pre, None);
    PostAndDevFit(v.post, w.post, None);
    PostAndDevFit(v.dev, w.dev, None);
    BeyondExact(v.local);
  }

  lemma LteExact(v: VypVersion, w: VypVersion)
    ensures Compare(v, w.(local := LOCAL_MAX)).Greater? != Compare(v, w).Greater? <==>
            Differs(VersionConstraint(Lte, w), v)
  {
    hide Compare, CompareReleases, ComparePre, ComparePost, CompareDev, CompareLocals, BeyondLabels;
    CompareSplits(v, w);
    CompareSplits(v, w.(local := LOCAL_MAX));
    PreFits(v.pre, w.pre, None);
    PostAndDevFit(v.post, w.post, None);
    PostAndDevFit(v.dev, w.dev, None);
    BeyondExact(v.local);
  }

  // -- Wildcards -------------------------------------------------------------------------

  function Zeros(n: nat): seq<nat> {
    seq(n, i => 0)
  }

  lemma {:induction false} NotBelowZeros(x: seq<nat>, n: nat)
    requires |x| == n
    ensures CompareTuples(x, Zeros(n)) != Less
  {
    if n > 0 {
      assert Zeros(n)[1..] == Zeros(n - 1);
      NotBelowZeros(x[1..], n - 1);
    }
  }

  lemma BumpedRest(prefix: seq<nat>)
    requires |prefix| > 1
    ensures Bumped(prefix)[1..] == Bumped(prefix[1..]) && Bumped(prefix)[0] == prefix[0]
  {
    var last := |prefix| - 1;
    assert prefix[..last][1..] == prefix[1..][..last - 1];
  }

  lemma {:induction false} TupleInWildcard(x: seq<nat>, prefix: seq<nat>, n: nat)
    requires |x| == |prefix| + n && prefix != [] && prefix[|prefix| - 1] < MAX_U32
    ensures CompareTuples(x, prefix + Zeros(n)) != Less && CompareTuples(x, Bumped(prefix) + Zeros(n)) == Less
            <==> x[..|prefix|] == prefix
  {
    var low, high := prefix + Zeros(n), Bumped(prefix) + Zeros(n);
    if |prefix| == 1 {
      assert low[1..] == Zeros(n) && high[1..] == Zeros(n);
      NotBelowZeros(x[1..], n);
      assert x[..1] == [x[0]];
    } else {
      assert low[1..] == prefix[1..] + Zeros(n);
      BumpedRest(prefix);
      assert high[1..] == Bumped(prefix)[1..] + Zeros(n);
      hide Bumped, Zeros;
      TupleInWildcard(x[1..], prefix[1..], n);
      assert x[..|prefix|] == [x[0]] + x[1..][..|prefix| - 1];
      assert prefix == [prefix[0]] + prefix[1..];
    }
  }

  lemma PaddedIsZeros(r: seq<nat>, length: nat)
    requires |r| <= length
    ensures Padded(r, length) == r + Zeros(length - |r|)
  {
  }

  /** Between a prefix and the next one lie the releases that begin with it, up to zeros. */
  lemma ReleaseInWildcard(r: seq<nat>, prefix: seq<nat>)
    requires prefix != [] && prefix[|prefix| - 1] < MAX_U32
    ensures CompareReleases(r, prefix) != Less && CompareReleases(r, Bumped(prefix)) == Less
            <==> Padded(r, Longer(r, prefix))[..|prefix|] == prefix
  {
    var length := Longer(r, prefix);
    PaddedIsZeros(prefix, length);
    PaddedIsZeros(Bumped(prefix), length);
    TupleInWildcard(Padded(r, length), prefix, length - |prefix|);
    assert Longer(r, Bumped(prefix)) == length;
  }

  lemma PrefixOfPadded(r: seq<nat>, prefix: seq<nat>)
    ensures Padded(r, Longer(r, prefix))[..|prefix|] == prefix <==>
            HasPrefix(r, prefix) || (|r| < |prefix| && CompareReleases(r, prefix).Equal?)
  {
    var length := Longer(r, prefix);
    ReleasesFit(r, prefix, []);
    assert Padded(prefix, length)[..|prefix|] == prefix;
    if |r| < |prefix| {
      assert Padded(r, length)[..|prefix|] == Padded(r, length) && Padded(prefix, length) == prefix;
    } else {
      assert Padded(r, length) == r;
    }
  }

  lemma NextRelease(r: seq<nat>, prefix: seq<nat>)
    requires prefix != [] && prefix[|prefix| - 1] < MAX_U32
    ensures CompareReleases(r, prefix).Equal? ==>
            CompareReleases(r, Bumped(prefix)) == Less && (|r| >= |prefix| ==> HasPrefix(r, prefix))
    ensures CompareReleases(r, Bumped(prefix)).Equal? ==> CompareReleases(r, prefix) == Greater && !HasPrefix(r, prefix)
  {
    ReleaseInWildcard(r, prefix);
    ReleaseInWildcard(prefix, prefix);
    PrefixOfPadded(r, prefix);
    var length := Longer(r, prefix);
    ReleasesFit(r, prefix, []);
    assert Padded(prefix, Longer(prefix, prefix))[..|prefix|] == prefix;
    assert CompareReleases(prefix, Bumped(prefix)) == Less;
    ReleasesFit(r, prefix, Bumped(prefix));
    ReleasesFit(r, Bumped(prefix), prefix);
    ReleasesFit(prefix, Bumped(prefix), []);
    if |r| >= |prefix| {
      assert Padded(r, length) == r;
    }
  }

  /** Against the first development version of `w`, and against the bound above. */
  lemma RestOfBounds(v: VypVersion, w: VypVersion, release: seq<nat>)
    ensures CompareRest(v, w.(dev := Some(0))) == Less <==> RestBefore(v, w)
    ensures CompareRest(v, ReleaseOnly(release).(dev := Some(0))) == Less <==> v.pre.Some?
  {
    PreFits(v.pre, w.pre, None);
    PostAndDevFit(v.post, w.post, None);
    assert CompareLocals(v.local, []) != Less;
    hide ComparePre, ComparePost, CompareLocals;
    NoPreIsLast(v);
  }

  lemma NoPreIsLast(v: VypVersion)
    ensures ComparePre(v.pre, None) == Less <==> v.pre.Some?
    ensures v.pre.None? ==>
              ComparePre(v.pre, None).Equal? && ComparePost(v.post, None) != Less && CompareDev(v.dev, Some(0)) != Less
  {
  }

  /** The bounds of a wildcard, by parts. */
  lemma WildcardBounds(v: VypVersion, w: VypVersion)
    ensures WildcardSet(w)(v) <==>
            && v.epoch == 0 && w.epoch == 0
            && (CompareReleases(v.release, w.release) == Greater || (SameRelease(v, w) && !RestBefore(v, w)))
            && (CompareReleases(v.release, Bumped(w.release)) == Less
                || (CompareReleases(v.release, Bumped(w.release)).Equal? && v.pre.Some?))
  {
    hide Compare, CompareReleases, CompareRest, RestBefore, Bumped;
    var low, high := w.(dev := Some(0)), ReleaseOnly(Bumped(w.release)).(dev := Some(0));
    CompareSplits(v, low);
    CompareSplits(v, high);
    RestOfBounds(v, w, Bumped(w.release));
  }

  /** A last number that wraps leaves nothing between the bounds. */
  lemma WrappedIsBelow(r: seq<nat>, prefix: seq<nat>)
    requires LastIsLargest(prefix)
    ensures CompareReleases(r, prefix) != Less ==> CompareReleases(r, Bumped(prefix)) == Greater
  {
    var front := prefix[..|prefix| - 1];
    assert prefix == front + [MAX_U32] && Bumped(prefix) == front + [0];
    assert Padded(prefix, |prefix|) == prefix && Padded(Bumped(prefix), |prefix|) == Bumped(prefix);
    LastDecides(front, 0, MAX_U32);
    ReleasesFit(r, prefix, Bumped(prefix));
    ReleasesFit(Bumped(prefix), prefix, []);
    hide CompareReleases, CompareTuples, Bumped;
  }

  lemma {:induction false} LastDecides(front: seq<nat>, low: nat, high: nat)
    requires low < high
    ensures CompareTuples(front + [low], front + [high]) == Less
  {
    if front != [] {
      assert (front + [low])[1..] == front[1..] + [low] && (front + [high])[1..] == front[1..] + [high];
      LastDecides(front[1..], low, high);
    }
  }

  lemma WildcardExact(v: VypVersion, w: VypVersion)
    requires InWidth(w)
    ensures WildcardSet(w)(v) != HasPrefix(v.release, w.release) <==> WildcardDiffers(v, w)
  {
    WildcardBounds(v, w);
    if LastIsLargest(w.release) {
      WrappedIsBelow(v.release, w.release);
    } else if w.release != [] {
      assert w.release[|w.release| - 1] in w.release;
      ReleaseInWildcard(v.release, w.release);
      PrefixOfPadded(v.release, w.release);
      NextRelease(v.release, w.release);
    }
    assert w.release == [] ==> Bumped(w.release) == w.release;
    hide CompareReleases, Padded, Bumped, RestBefore, WildcardSet;
  }

  // -- The two checks --------------------------------------------------------------------

  lemma TextsExact(v: VypVersion, w: VypVersion)
    requires InWidth(v) && InWidth(w)
    requires v.release != [] && w.release != [] && LocalPrintable(v) && LocalPrintable(w)
    ensures Print(v) == Print(w) <==> SamePublic(v, w) && v.local == w.local && |v.release| == |w.release|
  {
    hide Print, Parse, LocalPrintable, InWidth;
    RoundTripExact(v);
    RoundTripExact(w);
    SameExact(v, w);
    if SamePublic(v, w) && v.local == w.local && |v.release| == |w.release| {
      assert Padded(v.release, |v.release|) == v.release && Padded(w.release, |w.release|) == w.release;
      assert v == w;
    }
    if v == w {
      SameItself(v);
    }
  }

  lemma SameItself(v: VypVersion)
    ensures Same(v, v)
  {
  }

  /** A version on which the set of a constraint and the direct check differ is exactly one
      that `Differs` describes. */
  lemma ConstraintExact(c: VersionConstraint, v: VypVersion)
    requires InWidth(v) && InWidth(c.version) && !c.op.ArbitraryEq?
    ensures ConstraintSet(c)(v) != SatisfiedBy(c, v) <==> Differs(c, v)
  {
    match c.op
    case Gte =>
    case Compatible =>
    case Gt =>
      if c.version.post.None? && c.version.dev.None? && c.version.local == [] {
        GtExact(v, c.version);
      }
    case Lte => LteExact(v, c.version);
    case Lt =>
      if c.version.pre.None? && c.version.dev.None? && c.version.local == [] {
        LtExact(v, c.version);
      }
    case Eq => EqualExact(c, v);
    case NotEq => EqualExact(c, v);
    case EqStar => WildcardExact(v, c.version);
    case NotEqStar => WildcardExact(v, c.version);
  }

  lemma ArbitraryEqualExact(c: VersionConstraint, v: VypVersion)
    requires InWidth(v) && InWidth(c.version) && c.op.ArbitraryEq?
    requires v.release != [] && c.version.release != [] && LocalPrintable(v) && LocalPrintable(c.version)
    ensures ConstraintSet(c)(v) != SatisfiedBy(c, v) <==> Differs(c, v)
  {
    hide Compare, Same, Print, LocalPrintable, InWidth, WildcardSet, WildcardDiffers, SamePublic, CompareLocals;
    SameExact(v, c.version);
    LocalsReflexive(v.local);
    TextsExact(v, c.version);
    assert ConstraintSet(c)(v) == Compare(v, c.version).Equal?;
    assert SatisfiedBy(c, v) == (Print(v) == Print(c.version));
  }

  /** A final release: nothing but the release numbers. */
  predicate IsFinal(v: VypVersion) {
    v == ReleaseOnly(v.release) && InWidth(v)
  }

  predicate FinalConstraint(c: VersionConstraint, v: VypVersion) {
    && IsFinal(c.version) && !c.op.ArbitraryEq?
    && (c.op.EqStar? || c.op.NotEqStar? ==> !LastIsLargest(c.version.release) && 0 < |c.version.release| <= |v.release|)
  }

  /** For final releases the converted set contains a version if and only if the version
      satisfies every constraint directly. */
  lemma FinalRefines(constraints: seq<VersionConstraint>, v: VypVersion)
    requires IsFinal(v) && forall c :: c in constraints ==> FinalConstraint(c, v)
    ensures (forall c :: c in constraints ==> ConstraintSet(c)(v)) <==>
            (forall c :: c in constraints ==> SatisfiedBy(c, v))
  {
    forall c | c in constraints ensures ConstraintSet(c)(v) == SatisfiedBy(c, v) {
      FinalNeverDiffers(c, v);
      ConstraintExact(c, v);
    }
  }

  lemma FinalNeverDiffers(c: VersionConstraint, v: VypVersion)
    requires IsFinal(v) && FinalConstraint(c, v)
    ensures !Differs(c, v)
  {
    assert CompareLocals([], LOCAL_MAX) == Less && CompareLocals([], []) == Equal;
  }

  lemma {:induction false} NotBelowPrefix(x: seq<nat>, k: nat)
    requires k <= |x|
    ensures CompareTuples(x, x[..k] + Zeros(|x| - k)) != Less
  {
    if k == 0 {
      assert x[..k] + Zeros(|x| - k) == Zeros(|x|);
      NotBelowZeros(x, |x|);
    } else {
      assert (x[..k] + Zeros(|x| - k))[1..] == x[1..][..k - 1] + Zeros(|x[1..]| - (k - 1));
      NotBelowPrefix(x[1..], k - 1);
    }
  }

  lemma ReleaseNotBelowPrefix(release: seq<nat>, k: nat)
    requires k <= |release|
    ensures CompareReleases(release, release[..k]) != Less
  {
    NotBelowPrefix(release, k);
    PaddedIsZeros(release[..k], |release|);
    PaddedIsZeros(release, |release|);
    assert release + Zeros(0) == release;
  }

  /** A compatible release is not below the bound and begins with all its numbers but the last,
      up to zeros. */
  lemma CompatibleIsPrefix(w: VypVersion, v: VypVersion)
    requires IsFinal(v) && IsFinal(w) && |w.release| >= 2 && w.release[|w.release| - 2] < MAX_U32
    ensures var prefix := w.release[..|w.release| - 1];
            ConstraintSet(VersionConstraint(Compatible, w))(v) <==>
              && CompareReleases(v.release, w.release) != Less
              && Padded(v.release, Longer(v.release, prefix))[..|prefix|] == prefix
  {
    var prefix := w.release[..|w.release| - 1];
    hide CompareReleases, Bumped;
    ReleaseInWildcard(v.release, prefix);
    ReleaseNotBelowPrefix(w.release, |prefix|);
    ReleasesFit(v.release, w.release, prefix);
    FinalsByRelease(v, w);
    FinalsByRelease(v, ReleaseOnly(Bumped(prefix)));
  }

  lemma FinalsByRelease(v: VypVersion, w: VypVersion)
    requires v == ReleaseOnly(v.release) && w == ReleaseOnly(w.release)
    ensures Compare(v, w) == CompareReleases(v.release, w.release)
  {
    hide CompareReleases;
  }

  /** A strict upper bound lets the pre-releases of the bound in. */
  lemma LtKeepsPreReleases(w: VypVersion, pre: PreRelease)
    requires w.pre.None?
    ensures ConstraintSet(VersionConstraint(Lt, w))(ReleaseOnly(w.release).(epoch := w.epoch, pre := Some(pre)))
  {
    hide Compare, CompareReleases;
    var v := ReleaseOnly(w.release).(epoch := w.epoch, pre := Some(pre));
    ReleasesFit(w.release, w.release, []);
    CompareSplits(v, w);
    CompareSplits(v, w.(dev := Some(0)));
  }
}
