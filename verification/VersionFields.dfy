/** The order of versions by their fields: which version comes first, and why. */
module VersionFields {
  import opened Numerals
  import opened Options
  import opened Texts
  import opened VersionOrders
  import opened Versions

  // -- The order of each field -----------------------------------------------------------

  /** At the first place where the two differ, the first has the smaller number. */
  ghost predicate ReleaseBefore(a: seq<nat>, b: seq<nat>) {
    exists i: nat :: At(a, i) < At(b, i) && forall j: nat :: j < i ==> At(a, j) == At(b, j)
  }

  /** They differ in trailing zeros at most. */
  ghost predicate ReleaseAlike(a: seq<nat>, b: seq<nat>) {
    forall i: nat :: At(a, i) == At(b, i)
  }

  predicate KindBefore(a: PreReleaseKind, b: PreReleaseKind) {
    (a == Alpha && b == Beta) || (a == Alpha && b == Rc) || (a == Beta && b == Rc)
  }

  /** Alphas, betas, release candidates, and then the release itself. */
  predicate PreBefore(a: Option<PreRelease>, b: Option<PreRelease>) {
    && a.Some?
    && (b.None? || KindBefore(a.value.kind, b.value.kind)
        || (a.value.kind == b.value.kind && a.value.number < b.value.number))
  }

  /** The release itself, and then its post-releases. */
  predicate PostBefore(a: Option<nat>, b: Option<nat>) {
    b.Some? && (a.None? || a.value < b.value)
  }

  /** The development versions, and then what they lead to. */
  predicate DevBefore(a: Option<nat>, b: Option<nat>) {
    a.Some? && (b.None? || a.value < b.value)
  }

  /** The value of an optional plus sign and digits. */
  predicate IsNumber(s: string, n: nat) {
    var digits := if s != "" && s[0] == '+' then s[1..] else s;
    digits != "" && (forall c :: c in digits ==> IsDigit(c)) && ValueOf(digits) == n && n <= MAX_U64
  }

  ghost predicate SegmentBefore(a: string, b: string) {
    if exists x, y :: IsNumber(a, x) && IsNumber(b, y) then exists x, y :: IsNumber(a, x) && IsNumber(b, y) && x < y
    else TextBefore(a, b)
  }

  ghost predicate SegmentAlike(a: string, b: string) {
    a == b || exists x :: IsNumber(a, x) && IsNumber(b, x)
  }

  /** At the first place where the two differ the first has the smaller segment, or ends. */
  ghost predicate LocalBefore(a: seq<string>, b: seq<string>) {
    exists i: nat :: DiffersAt(a, b, i)
  }

  ghost predicate DiffersAt(a: seq<string>, b: seq<string>, i: nat) {
    && i <= |a| && i < |b| && (forall j :: 0 <= j < i ==> SegmentAlike(a[j], b[j]))
    && (i == |a| || SegmentBefore(a[i], b[i]))
  }

  /** The first field in which the two differ decides, whatever the later ones are. */
  ghost predicate Before(a: VypVersion, b: VypVersion) {
    || a.epoch < b.epoch
    || (a.epoch == b.epoch &&
        (|| ReleaseBefore(a.release, b.release)
         || (ReleaseAlike(a.release, b.release) &&
             (|| PreBefore(a.pre, b.pre)
              || (a.pre == b.pre &&
                  (|| PostBefore(a.post, b.post)
                   || (a.post == b.post &&
                       (|| DevBefore(a.dev, b.dev)
                        || (a.dev == b.dev && LocalBefore(a.local, b.local))))))))))
  }

  // -- Field by field --------------------------------------------------------------------

  /** A place of a comparison of tuples. */
  lemma {:induction false} TuplesByPlace(a: seq<nat>, b: seq<nat>)
    requires |a| == |b|
    ensures CompareTuples(a, b).Less? <==>
              exists i :: 0 <= i < |a| && a[i] < b[i] && forall j :: 0 <= j < i ==> a[j] == b[j]
  {
    if a != [] {
      TuplesByPlace(a[1..], b[1..]);
      if a[0] == b[0] {
        if i :| 0 <= i < |a| && a[i] < b[i] && forall j :: 0 <= j < i ==> a[j] == b[j] {
          assert a[1..][i - 1] < b[1..][i - 1];
          assert forall j :: 0 <= j < i - 1 ==> a[1..][j] == a[j + 1] && b[1..][j] == b[j + 1];
        }
        if i :| 0 <= i < |a[1..]| && a[1..][i] < b[1..][i] && forall j :: 0 <= j < i ==> a[1..][j] == b[1..][j] {
          assert a[i + 1] < b[i + 1];
          assert forall j :: 1 <= j < i + 1 ==> a[j] == a[1..][j - 1] && b[j] == b[1..][j - 1];
        }
      }
    }
  }

  lemma ReleasesByPlace(a: seq<nat>, b: seq<nat>)
    ensures CompareReleases(a, b).Less? <==> ReleaseBefore(a, b)
    ensures CompareReleases(a, b).Equal? <==> ReleaseAlike(a, b)
  {
    var length := Longer(a, b);
    var x, y := Padded(a, length), Padded(b, length);
    PaddedAt(a, length);
    PaddedAt(b, length);
    TuplesByPlace(x, y);
    TuplesFit(x, y, []);
    hide CompareTuples, Padded, At;
    if CompareReleases(a, b).Less? {
      var i :| 0 <= i < length && x[i] < y[i] && forall j :: 0 <= j < i ==> x[j] == y[j];
      assert At(a, i) < At(b, i) && forall j: nat :: j < i ==> At(a, j) == x[j] && At(b, j) == y[j];
    }
    if ReleaseBefore(a, b) {
      var i: nat :| At(a, i) < At(b, i) && forall j: nat :: j < i ==> At(a, j) == At(b, j);
      assert i < length && x[i] < y[i] && forall j :: 0 <= j < i ==> x[j] == At(a, j) && y[j] == At(b, j);
    }
    assert x == y <==> forall i :: 0 <= i < length ==> x[i] == y[i];
  }

  lemma PreByKind(a: Option<PreRelease>, b: Option<PreRelease>)
    ensures ComparePre(a, b).Less? <==> PreBefore(a, b)
    ensures ComparePre(a, b).Equal? <==> a == b
  {
  }

  lemma PostAndDevByNumber(a: Option<nat>, b: Option<nat>)
    ensures ComparePost(a, b).Less? <==> PostBefore(a, b)
    ensures CompareDev(a, b).Less? <==> DevBefore(a, b)
    ensures (ComparePost(a, b).Equal? <==> a == b) && (CompareDev(a, b).Equal? <==> a == b)
  {
  }

  // -- Local segments --------------------------------------------------------------------

  lemma NumbersRead(s: string)
    ensures ParseNumber(s, MAX_U64).Some? <==> exists n: nat :: IsNumber(s, n)
    ensures forall n: nat :: IsNumber(s, n) <==> ParseNumber(s, MAX_U64) == Some(n)
  {
    if ParseNumber(s, MAX_U64).Some? {
      assert IsNumber(s, ParseNumber(s, MAX_U64).value);
    }
  }

  lemma SegmentsByValue(a: string, b: string)
    ensures CompareSegments(a, b).Less? <==> SegmentBefore(a, b)
    ensures CompareSegments(a, b).Equal? <==> SegmentAlike(a, b)
  {
    hide ParseNumber, TextLess, TextBefore, IsNumber;
    NumbersRead(a);
    NumbersRead(b);
    TextsByPlace(a, b);
    TextLessFits(a, b, a);
  }

  lemma {:induction false} LocalsByPlace(a: seq<string>, b: seq<string>)
    ensures CompareLocals(a, b).Less? <==> LocalBefore(a, b)
  {
    hide CompareSegments, SegmentAlike, SegmentBefore;
    if a != [] && b != [] {
      SegmentsByValue(a[0], b[0]);
      LocalsByPlace(a[1..], b[1..]);
      LocalsShift(a, b);
      hide LocalBefore;
    } else if b != [] {
      assert DiffersAt(a, b, 0);
    }
  }

  lemma LocalsShift(a: seq<string>, b: seq<string>)
    requires a != [] && b != []
    ensures LocalBefore(a, b) <==>
              SegmentBefore(a[0], b[0]) || (SegmentAlike(a[0], b[0]) && LocalBefore(a[1..], b[1..]))
  {
    hide SegmentAlike, SegmentBefore;
    if i: nat :| DiffersAt(a, b, i) {
      if i > 0 {
        assert SegmentAlike(a[0], b[0]) && DiffersAt(a[1..], b[1..], i - 1);
      }
    }
    if SegmentBefore(a[0], b[0]) {
      assert DiffersAt(a, b, 0);
    }
    if i: nat :| SegmentAlike(a[0], b[0]) && DiffersAt(a[1..], b[1..], i) {
      assert forall j :: 1 <= j < i + 1 ==> a[j] == a[1..][j - 1] && b[j] == b[1..][j - 1];
      assert DiffersAt(a, b, i + 1);
    }
  }

  // -- The whole comparison --------------------------------------------------------------

  /** A version is less than another if and only if the fields say so. */
  lemma LessExact(a: VypVersion, b: VypVersion)
    ensures Compare(a, b).Less? <==> Before(a, b)
  {
    hide CompareReleases, ComparePre, ComparePost, CompareDev, CompareLocals, ReleaseBefore, ReleaseAlike, PreBefore,
      PostBefore, DevBefore, LocalBefore;
    ReleasesByPlace(a.release, b.release);
    PreByKind(a.pre, b.pre);
    PostAndDevByNumber(a.post, b.post);
    PostAndDevByNumber(a.dev, b.dev);
    LocalsByPlace(a.local, b.local);
  }

  /** The comparison turned around says the opposite, for all versions. */
  lemma GreaterExact(a: VypVersion, b: VypVersion)
    ensures Compare(a, b).Greater? <==> Before(b, a)
  {
    hide Compare, Before;
    LessExact(b, a);
    VersionsReverse(a, b);
  }

  /** The stages of a release in their order, whatever their post and development parts are. */
  lemma StagesInOrder(v: VypVersion, w: VypVersion, m: nat, n: nat)
    requires v.epoch == w.epoch && ReleaseAlike(v.release, w.release)
    ensures var at := (u: VypVersion, kind, k) => u.(pre := Some(PreRelease(kind, k)));
            && Compare(at(v, Alpha, m), at(w, Beta, n)).Less? && Compare(at(v, Alpha, m), at(w, Rc, n)).Less?
            && Compare(at(v, Beta, m), at(w, Rc, n)).Less?
            && Compare(at(v, Rc, m), w.(pre := None)).Less?
            && forall kind :: m < n ==> Compare(at(v, kind, m), at(w, kind, n)).Less?
  {
    hide ReleaseAlike, ReleaseBefore, LocalBefore, Compare;
    var at := (u: VypVersion, kind, k) => u.(pre := Some(PreRelease(kind, k)));
    LessExact(at(v, Alpha, m), at(w, Beta, n));
    LessExact(at(v, Alpha, m), at(w, Rc, n));
    LessExact(at(v, Beta, m), at(w, Rc, n));
    LessExact(at(v, Rc, m), w.(pre := None));
    forall kind | m < n ensures Compare(at(v, kind, m), at(w, kind, n)).Less? {
      LessExact(at(v, kind, m), at(w, kind, n));
    }
  }
}
