/** The order of versions. */
module VersionOrders {
  import opened Numerals
  import opened Options
  import opened Texts
  import opened Versions

  datatype Ordering = Less | Equal | Greater {
    /** The next comparison decides if this one does not. */
    function Then(next: Ordering): Ordering {
      if Equal? then next else this
    }

    function Reverse(): Ordering {
      match this
      case Less => Greater
      case Equal => Equal
      case Greater => Less
    }
  }

  // -- Comparing the parts ---------------------------------------------------------------

  function CompareNumbers(a: nat, b: nat): Ordering {
    if a < b then Less else if a == b then Equal else Greater
  }

  /** Number by number; of two tuples with a common start the shorter one is less. */
  function CompareTuples(a: seq<nat>, b: seq<nat>): Ordering {
    if a == [] && b == [] then Equal
    else if a == [] then Less
    else if b == [] then Greater
    else CompareNumbers(a[0], b[0]).Then(CompareTuples(a[1..], b[1..]))
  }

  function CompareReleases(a: seq<nat>, b: seq<nat>): Ordering {
    CompareTuples(Padded(a, Longer(a, b)), Padded(b, Longer(a, b)))
  }

  function Rank(kind: PreReleaseKind): nat {
    match kind
    case Alpha => 0
    case Beta => 1
    case Rc => 2
  }

  /** No pre-release comes after every pre-release. */
  function ComparePre(a: Option<PreRelease>, b: Option<PreRelease>): Ordering {
    match (a, b)
    case (None, None) => Equal
    case (None, Some(_)) => Greater
    case (Some(_), None) => Less
    case (Some(x), Some(y)) => CompareNumbers(Rank(x.kind), Rank(y.kind)).Then(CompareNumbers(x.number, y.number))
  }

  /** No post-release comes before every post-release. */
  function ComparePost(a: Option<nat>, b: Option<nat>): Ordering {
    match (a, b)
    case (None, None) => Equal
    case (None, Some(_)) => Less
    case (Some(_), None) => Greater
    case (Some(x), Some(y)) => CompareNumbers(x, y)
  }

  function CompareDev(a: Option<nat>, b: Option<nat>): Ordering {
    match (a, b)
    case (None, None) => Equal
    case (None, Some(_)) => Greater
    case (Some(_), None) => Less
    case (Some(x), Some(y)) => CompareNumbers(x, y)
  }

  function CompareTexts(a: string, b: string): Ordering {
    if a == b then Equal else if TextLess(a, b) then Less else Greater
  }

  /** Two numerals by their values, other segments by their texts. */
  function CompareSegments(a: string, b: string): Ordering {
    match (ParseNumber(a, MAX_U64), ParseNumber(b, MAX_U64))
    case (Some(x), Some(y)) => CompareNumbers(x, y)
    case _ => CompareTexts(a, b)
  }

  function CompareLocals(a: seq<string>, b: seq<string>): Ordering {
    if a == [] && b == [] then Equal
    else if a == [] then Less
    else if b == [] then Greater
    else CompareSegments(a[0], b[0]).Then(CompareLocals(a[1..], b[1..]))
  }

  function Compare(a: VypVersion, b: VypVersion): Ordering {
    CompareNumbers(a.epoch, b.epoch)
      .Then(CompareReleases(a.release, b.release))
      .Then(ComparePre(a.pre, b.pre))
      .Then(ComparePost(a.post, b.post))
      .Then(CompareDev(a.dev, b.dev))
      .Then(CompareLocals(a.local, b.local))
  }

  /** Equality disregards trailing zeros of the release. */
  predicate Same(a: VypVersion, b: VypVersion) {
    && a.epoch == b.epoch
    && Padded(a.release, Longer(a.release, b.release)) == Padded(b.release, Longer(a.release, b.release))
    && a.pre == b.pre && a.post == b.post && a.dev == b.dev && a.local == b.local
  }

  /** What is hashed of a version: its release with trailing zeros, of one number at least. */
  function HashInput(v: VypVersion): VypVersion {
    v.(release := Padded(v.release, Longer(v.release, [0])))
  }

  /** Versions are hashed alike if and only if they are equal and their releases are equally long. */
  lemma HashExact(a: VypVersion, b: VypVersion)
    ensures HashInput(a) == HashInput(b) <==> Same(a, b) && Longer(a.release, [0]) == Longer(b.release, [0])
  {
    var x, y := HashInput(a).release, HashInput(b).release;
    var length := Longer(a.release, b.release);
    if HashInput(a) == HashInput(b) {
      assert |x| == |y|;
      assert Padded(a.release, length) == x[..length];
      assert Padded(b.release, length) == y[..length];
    }
    if Same(a, b) && |x| == |y| {
      forall i | 0 <= i < |x| ensures x[i] == y[i] {
        if i < length {
          assert Padded(a.release, length)[i] == Padded(b.release, length)[i];
        }
      }
      assert x == y;
    }
  }

  // -- Order laws, part by part ----------------------------------------------------------

  /** The three comparisons among three things fit together. */
  predicate Fits(xy: Ordering, yz: Ordering, xz: Ordering) {
    && (xy.Equal? ==> xz == yz)
    && (yz.Equal? ==> xz == xy)
    && (xy == yz ==> xz == xy)
  }

  lemma ThenFits(xy: Ordering, yz: Ordering, xz: Ordering, xy': Ordering, yz': Ordering, xz': Ordering)
    requires Fits(xy, yz, xz) && (xy.Equal? && yz.Equal? ==> Fits(xy', yz', xz'))
    ensures Fits(xy.Then(xy'), yz.Then(yz'), xz.Then(xz'))
  {
  }

  lemma {:induction false} TuplesFit(a: seq<nat>, b: seq<nat>, c: seq<nat>)
    ensures CompareTuples(a, b) == CompareTuples(b, a).Reverse()
    ensures CompareTuples(a, b).Equal? <==> a == b
    ensures Fits(CompareTuples(a, b), CompareTuples(b, c), CompareTuples(a, c))
  {
    if a != [] && b != [] {
      var c' := if c == [] then [] else c[1..];
      TuplesFit(a[1..], b[1..], c');
      assert a == [a[0]] + a[1..] && b == [b[0]] + b[1..];
    }
  }

  /** Padding both tuples further does not change the comparison. */
  lemma {:induction false} ZerosCompare(a: seq<nat>, b: seq<nat>)
    requires |a| == |b|
    ensures CompareTuples(a + [0], b + [0]) == CompareTuples(a, b)
  {
    if a != [] {
      ZerosCompare(a[1..], b[1..]);
      assert (a + [0])[1..] == a[1..] + [0] && (b + [0])[1..] == b[1..] + [0];
    }
  }

  lemma {:induction false} PaddedCompare(a: seq<nat>, b: seq<nat>, length: nat)
    requires Longer(a, b) <= length
    ensures CompareTuples(Padded(a, length), Padded(b, length)) == CompareReleases(a, b)
    decreases length
  {
    if Longer(a, b) < length {
      PaddedCompare(a, b, length - 1);
      ZerosCompare(Padded(a, length - 1), Padded(b, length - 1));
      assert Padded(a, length) == Padded(a, length - 1) + [0];
      assert Padded(b, length) == Padded(b, length - 1) + [0];
    }
  }

  lemma ReleasesFit(a: seq<nat>, b: seq<nat>, c: seq<nat>)
    ensures CompareReleases(a, b) == CompareReleases(b, a).Reverse()
    ensures CompareReleases(a, b).Equal? <==> Padded(a, Longer(a, b)) == Padded(b, Longer(a, b))
    ensures Fits(CompareReleases(a, b), CompareReleases(b, c), CompareReleases(a, c))
  {
    var length := |a| + |b| + |c|;
    PaddedCompare(a, b, length);
    PaddedCompare(b, a, length);
    PaddedCompare(b, c, length);
    PaddedCompare(a, c, length);
    TuplesFit(Padded(a, length), Padded(b, length), Padded(c, length));
    TuplesFit(Padded(a, Longer(a, b)), Padded(b, Longer(a, b)), []);
  }

  lemma PreFits(a: Option<PreRelease>, b: Option<PreRelease>, c: Option<PreRelease>)
    ensures ComparePre(a, b) == ComparePre(b, a).Reverse()
    ensures ComparePre(a, b).Equal? <==> a == b
    ensures Fits(ComparePre(a, b), ComparePre(b, c), ComparePre(a, c))
  {
  }

  lemma PostAndDevFit(a: Option<nat>, b: Option<nat>, c: Option<nat>)
    ensures ComparePost(a, b) == ComparePost(b, a).Reverse() && CompareDev(a, b) == CompareDev(b, a).Reverse()
    ensures (ComparePost(a, b).Equal? <==> a == b) && (CompareDev(a, b).Equal? <==> a == b)
    ensures Fits(ComparePost(a, b), ComparePost(b, c), ComparePost(a, c))
    ensures Fits(CompareDev(a, b), CompareDev(b, c), CompareDev(a, c))
  {
  }

  // -- Local segments --------------------------------------------------------------------

  lemma TextsFit(a: string, b: string, c: string)
    ensures CompareTexts(a, b) == CompareTexts(b, a).Reverse()
    ensures Fits(CompareTexts(a, b), CompareTexts(b, c), CompareTexts(a, c))
  {
    TextLessFits(a, b, c);
    TextLessFits(b, a, c);
    TextLessFits(b, c, a);
    TextLessFits(a, c, b);
    TextLessFits(c, b, a);
  }

  /** A numeral in the form in which numbers are printed. */
  predicate IsNumeral(s: string) {
    s != "" && (forall c :: c in s ==> IsDigit(c)) && (s == "0" || s[0] != '0') && ValueOf(s) <= MAX_U64
  }

  const NINES: string := "9999999999999999999"

  /** Texts that all numerals up to some value precede and all others follow. */
  predicate SortsApart(s: string) {
    || s == "" || s[0] <= '0' || '9' < s[0]
    || (s[0] == '1' && |s| > 1 && s[1] < '0')
    || (s[0] == '9' && TextLess(NINES, s))
  }

  /** Numerals without leading zeros, and texts that are no numbers and sort apart from them:
      above all those that begin with a letter. */
  predicate IsPlainSegment(s: string) {
    IsNumeral(s) || (ParseNumber(s, MAX_U64) == None && SortsApart(s))
  }

  lemma NumeralValue(s: string)
    requires IsPlainSegment(s)
    ensures ParseNumber(s, MAX_U64) == if IsNumeral(s) then Some(ValueOf(s)) else None
  {
    if IsNumeral(s) {
      assert s[0] in s;
    }
  }

  lemma {:induction false} ValuesDiffer(a: string, b: string)
    requires IsNumeral(a) && IsNumeral(b) && ValueOf(a) == ValueOf(b)
    ensures a == b
  {
    NumeralIsDecimal(a);
    NumeralIsDecimal(b);
  }

  lemma {:induction false} NumeralIsDecimal(s: string)
    requires s != "" && (forall c :: c in s ==> IsDigit(c)) && (s == "0" || s[0] != '0')
    ensures s == Decimal(ValueOf(s)) && (s != "0" ==> ValueOf(s) > 0)
  {
    var front, last := s[..|s| - 1], s[|s| - 1];
    assert last in s && s[0] in s && s == front + [last];
    if front == "" {
      assert ValueOf(s) == DigitValue(last);
    } else {
      assert front[0] == s[0];
      NumeralIsDecimal(front);
      assert ValueOf(s) == 10 * ValueOf(front) + DigitValue(last);
      assert ValueOf(s) / 10 == ValueOf(front) && ValueOf(s) % 10 == DigitValue(last);
    }
  }

  // -- Numerals against texts ------------------------------------------------------------

  /** A numeral before `t` has all smaller ones before `t`. */
  ghost predicate Agrees(t: string) {
    forall m, n :: IsNumeral(m) && IsNumeral(n) && ValueOf(m) < ValueOf(n) && TextLess(n, t) ==> TextLess(m, t)
  }

  function Power(n: nat): nat {
    if n == 0 then 1 else 10 * Power(n - 1)
  }

  lemma TwentyDigits()
    ensures Power(19) == 10_000_000_000_000_000_000
  {
    assert Power(5) == 100000;
    assert Power(10) == 100000 * 100000;
    assert Power(15) == 100000 * 100000 * 100000;
  }

  /** The first digit and the number of digits bound the value. */
  lemma {:induction false} DigitsBound(s: string)
    requires s != "" && forall c :: c in s ==> IsDigit(c)
    ensures s[0] in s && DigitValue(s[0]) * Power(|s| - 1) <= ValueOf(s) < (DigitValue(s[0]) + 1) * Power(|s| - 1)
  {
    var front, last := s[..|s| - 1], s[|s| - 1];
    assert s[0] in s && last in s;
    if front == "" {
      assert ValueOf(s) == DigitValue(last);
    } else {
      assert front[0] == s[0];
      DigitsBound(front);
      assert ValueOf(s) == 10 * ValueOf(front) + DigitValue(last);
      OneMoreDigit(DigitValue(s[0]), Power(|front| - 1), ValueOf(front), DigitValue(last));
      hide ValueOf;
    }
  }

  lemma OneMoreDigit(d: nat, p: nat, value: nat, last: nat)
    requires d * p <= value < (d + 1) * p && last < 10
    ensures d * (10 * p) <= 10 * value + last < (d + 1) * (10 * p)
  {
    assert d * (10 * p) == 10 * (d * p) && (d + 1) * (10 * p) == 10 * ((d + 1) * p);
  }

  lemma {:induction false} PowerGrows(m: nat, n: nat)
    requires m <= n
    ensures Power(m) <= Power(n)
    decreases n
  {
    if m < n {
      PowerGrows(m, n - 1);
    }
  }

  lemma NineMeansShort(s: string)
    requires IsNumeral(s) && s[0] == '9'
    ensures |s| <= 19
  {
    hide Power, ValueOf;
    DigitsBound(s);
    TwentyDigits();
    assert DigitValue(s[0]) == 9;
    if |s| > 19 {
      PowerGrows(19, |s| - 1);
    }
  }

  lemma {:induction false} NinesAreLast(s: string, nines: string)
    requires |s| <= |nines| && (forall c :: c in s ==> IsDigit(c)) && (forall c :: c in nines ==> c == '9')
    ensures s == nines || TextLess(s, nines)
  {
    if s != "" {
      assert s[0] in s && nines[0] in nines;
      assert forall i :: 1 <= i < |s| ==> s[i] in s;
      assert forall i :: 1 <= i < |nines| ==> nines[i] in nines;
      NinesAreLast(s[1..], nines[1..]);
      assert s == [s[0]] + s[1..] && nines == [nines[0]] + nines[1..];
    }
  }

  lemma AllBelowNines(s: string)
    requires IsNumeral(s)
    ensures s == NINES || TextLess(s, NINES)
  {
    if s[0] == '9' {
      NineMeansShort(s);
      NinesAreLast(s, NINES);
    } else {
      assert s[0] in s;
    }
  }

  lemma ApartAgrees(t: string)
    requires ParseNumber(t, MAX_U64) == None && SortsApart(t)
    ensures Agrees(t)
  {
    forall m, n | IsNumeral(m) && IsNumeral(n) && ValueOf(m) < ValueOf(n) && TextLess(n, t) ensures TextLess(m, t) {
      SmallerIsBefore(m, n, t);
    }
  }

  lemma SmallerIsBefore(m: string, n: string, t: string)
    requires ParseNumber(t, MAX_U64) == None && SortsApart(t)
    requires IsNumeral(m) && IsNumeral(n) && ValueOf(m) < ValueOf(n) && TextLess(n, t)
    ensures TextLess(m, t)
  {
    assert m[0] in m && n[0] in n;
    DigitIsNumeral('0');
    if t != "" && t[0] == '9' {
      AllBelowNines(m);
      TextLessFits(m, NINES, t);
    } else if t != "" && t[0] == '1' {
      OnlyZeroAndOne(m, n, t);
    }
  }

  lemma OnlyZeroAndOne(m: string, n: string, t: string)
    requires IsNumeral(m) && IsNumeral(n) && ValueOf(m) < ValueOf(n)
    requires |t| > 1 && t[0] == '1' && t[1] < '0' && TextLess(n, t)
    ensures TextLess(m, t)
  {
    hide IsNumeral, ValueOf;
    AtMostOne(n, t);
    BelowOne(m);
  }

  lemma AtMostOne(n: string, t: string)
    requires IsNumeral(n) && |t| > 1 && t[0] == '1' && t[1] < '0' && TextLess(n, t)
    ensures ValueOf(n) <= 1
  {
    if |n| > 1 {
      TwoDigitsAreAfter(n, t);
    } else {
      assert n == [n[0]] && n[0] in n;
      DigitIsNumeral(n[0]);
    }
  }

  lemma BelowOne(m: string)
    requires IsNumeral(m)
    ensures m != "" && (ValueOf(m) < 1 ==> m[0] == '0')
  {
    hide ValueOf, Power;
    assert m[0] in m;
    if m[0] != '0' {
      DigitsBound(m);
      PowerGrows(0, |m| - 1);
    }
  }

  lemma TwoDigitsAreAfter(n: string, t: string)
    requires IsNumeral(n) && |n| > 1 && |t| > 1 && t[0] == '1' && t[1] < '0'
    ensures !TextLess(n, t)
  {
    assert n[0] in n && n[1] in n;
    assert n[1..][0] == n[1] && t[1..][0] == t[1];
  }

  lemma SegmentsFit(a: string, b: string, c: string)
    requires IsPlainSegment(a) && IsPlainSegment(b) && IsPlainSegment(c)
    ensures CompareSegments(a, b) == CompareSegments(b, a).Reverse()
    ensures CompareSegments(a, b).Equal? <==> a == b
    ensures Fits(CompareSegments(a, b), CompareSegments(b, c), CompareSegments(a, c))
  {
    hide ParseNumber, TextLess, ValueOf, SortsApart, IsNumeral, IsPlainSegment;
    NumeralValue(a);
    NumeralValue(b);
    NumeralValue(c);
    TextsFit(a, b, c);
    SameNumerals(a, b);
    SameNumerals(b, c);
    SameNumerals(a, c);
    if IsNumeral(a) && IsNumeral(b) && !IsNumeral(c) {
      TwoNumerals(a, b, c);
    } else if IsNumeral(a) && !IsNumeral(b) && IsNumeral(c) {
      TwoNumerals(a, c, b);
    } else if !IsNumeral(a) && IsNumeral(b) && IsNumeral(c) {
      TwoNumerals(b, c, a);
    }
  }

  lemma SameNumerals(a: string, b: string)
    ensures IsNumeral(a) && IsNumeral(b) && ValueOf(a) == ValueOf(b) ==> a == b
  {
    if IsNumeral(a) && IsNumeral(b) && ValueOf(a) == ValueOf(b) {
      ValuesDiffer(a, b);
    }
  }

  /** A text does not stand between two numerals the wrong way round. */
  lemma TwoNumerals(m: string, n: string, t: string)
    requires IsNumeral(m) && IsNumeral(n) && IsPlainSegment(t) && !IsNumeral(t)
    ensures CompareTexts(m, t) == CompareTexts(t, m).Reverse() && CompareTexts(n, t) == CompareTexts(t, n).Reverse()
    ensures ValueOf(m) < ValueOf(n) && TextLess(n, t) ==> TextLess(m, t)
    ensures ValueOf(n) < ValueOf(m) && TextLess(m, t) ==> TextLess(n, t)
    ensures m != t && n != t
  {
    ApartAgrees(t);
    TextsFit(m, t, m);
    TextsFit(n, t, n);
  }

  // -- No other segments -----------------------------------------------------------------

  /** The three segments compare as in a total order. */
  predicate Ordered(a: string, b: string, c: string) {
    && CompareSegments(a, b) == CompareSegments(b, a).Reverse()
    && (CompareSegments(a, b).Equal? <==> a == b)
    && Fits(CompareSegments(a, b), CompareSegments(b, c), CompareSegments(a, c))
  }

  /** The segment has its place among the numerals. */
  ghost predicate JoinsNumerals(s: string) {
    forall a, b, c :: (a == s || IsNumeral(a)) && (b == s || IsNumeral(b)) && (c == s || IsNumeral(c)) ==>
        Ordered(a, b, c)
  }

  /** A plain numeral is the printed form of its value. */
  lemma {:induction false} DecimalIsNumeral(n: nat)
    requires n <= MAX_U64
    ensures IsNumeral(Decimal(n)) && ValueOf(Decimal(n)) == n
  {
    ValueOfDecimal(n);
    NoLeadingZero(n);
  }

  lemma {:induction false} NoLeadingZero(n: nat)
    ensures n > 0 ==> Decimal(n)[0] != '0'
  {
    if n >= 10 {
      NoLeadingZero(n / 10);
    }
  }

  lemma {:induction false} OneAndZeros(n: nat)
    ensures var s := "1" + seq(n, i => '0'); (forall c :: c in s ==> IsDigit(c)) && ValueOf(s) == Power(n)
  {
    var s := "1" + seq(n, i => '0');
    if n > 0 {
      OneAndZeros(n - 1);
      assert s[..|s| - 1] == "1" + seq(n - 1, i => '0');
    } else {
      assert s == "1" && s[..0] == "";
    }
  }

  lemma {:induction false} AllNines(n: nat)
    ensures var s := seq(n, i => '9'); (forall c :: c in s ==> IsDigit(c)) && ValueOf(s) == Power(n) - 1
  {
    var s := seq(n, i => '9');
    if n > 0 {
      AllNines(n - 1);
      assert s[..|s| - 1] == seq(n - 1, i => '9');
    }
  }

  /** The larger of these two numerals comes first as a text. */
  lemma LargeNumerals() returns (large: string)
    ensures IsNumeral(NINES) && IsNumeral(large) && ValueOf(NINES) < ValueOf(large) && large[0] == '1'
  {
    hide ValueOf, Power;
    large := "1" + seq(19, i => '0');
    OneAndZeros(19);
    AllNines(19);
    TwentyDigits();
    assert NINES == seq(19, i => '9');
  }

  /** One digit. */
  lemma DigitIsNumeral(c: char)
    requires IsDigit(c)
    ensures IsNumeral([c]) && ValueOf([c]) == DigitValue(c)
  {
    assert [c][..0] == "";
  }

  lemma TenIsNumeral()
    ensures IsNumeral("10") && ValueOf("10") == 10
  {
    DigitIsNumeral('1');
    assert "10"[..1] == "1";
  }

  /** A larger numeral before `s` and a smaller one after it. */
  lemma Circle(m: string, n: string, s: string)
    requires IsNumeral(m) && IsNumeral(n) && ValueOf(m) < ValueOf(n)
    requires ParseNumber(s, MAX_U64) == None && TextLess(n, s) && TextLess(s, m)
    ensures !Ordered(n, s, m)
  {
    assert m[0] in m && n[0] in n;
    TextLessFits(n, s, m);
    TextLessFits(s, m, n);
  }

  lemma NotApart(s: string)
    requires ParseNumber(s, MAX_U64) == None && !SortsApart(s)
    ensures exists m, n :: IsNumeral(m) && IsNumeral(n) && !Ordered(n, s, m)
  {
    if s[0] == '9' {
      var large := LargeNumerals();
      TextLessFits(s, NINES, s);
      Parsable(NINES);
      assert TextLess(large, s);
      hide *;
      Circle(NINES, large, s);
    } else {
      AroundTen(s);
    }
  }

  lemma AfterTen(s: string)
    requires |s| > 1 && s[0] == '1' && s[1] >= '0' && (s[1] == '0' ==> |s| > 2)
    ensures TextLess("10", s)
  {
    assert "10"[1..] == "0" && s[1..][0] == s[1] && "0"[1..] == "";
    assert TextLess("0", s[1..]) by {
      if s[1] == '0' {
        assert |s[1..][1..]| > 0;
      }
    }
  }

  /** The numeral 10 comes before the text, the next larger digit after it. */
  lemma AroundTen(s: string)
    requires ParseNumber(s, MAX_U64) == None && s != "" && '1' <= s[0] < '9' && (s[0] == '1' && |s| > 1 ==> s[1] >= '0')
    ensures exists m, n :: IsNumeral(m) && IsNumeral(n) && !Ordered(n, s, m)
  {
    var next := (s[0] as int + 1) as char;
    TenIsNumeral();
    DigitIsNumeral(next);
    assert TextLess(s, [next]);
    assert TextLess("10", s) by {
      if s[0] == '1' {
        DigitIsNumeral('1');
        Parsable([s[0]]);
        Parsable("10");
        assert s == [s[0]] + s[1..];
        assert |s| == 2 && s[1] == '0' ==> s == "10";
        AfterTen(s);
      }
    }
    hide *;
    Circle([next], "10", s);
  }

  lemma Parsable(s: string)
    requires IsNumeral(s)
    ensures ParseNumber(s, MAX_U64) == Some(ValueOf(s))
  {
    assert s[0] in s;
  }

  /** Exactly the plain segments have a place among the numerals, and they all have one
      among each other. */
  lemma PlainExact(s: string)
    ensures IsPlainSegment(s) <==> JoinsNumerals(s)
    ensures IsPlainSegment(s) <==>
            forall a, b :: IsPlainSegment(a) && IsPlainSegment(b) ==>
                Ordered(a, b, s) && Ordered(b, s, a) && Ordered(s, a, b)
  {
    if IsPlainSegment(s) {
      forall a, b, c | IsPlainSegment(a) && IsPlainSegment(b) && IsPlainSegment(c) ensures Ordered(a, b, c) {
        SegmentsFit(a, b, c);
      }
      hide Ordered, SortsApart;
    } else if ParseNumber(s, MAX_U64).Some? {
      var n := ParseNumber(s, MAX_U64).value;
      DecimalIsNumeral(n);
      Parsable(Decimal(n));
      assert !Ordered(s, Decimal(n), s) && !Ordered(s, Decimal(n), Decimal(n));
      assert IsPlainSegment(Decimal(n));
    } else {
      NotApart(s);
      hide Ordered, SortsApart;
    }
  }

  predicate PlainLocal(v: VypVersion) {
    forall i :: 0 <= i < |v.local| ==> IsPlainSegment(v.local[i])
  }

  lemma {:induction false} LocalsFit(a: seq<string>, b: seq<string>, c: seq<string>)
    requires forall i :: 0 <= i < |a| ==> IsPlainSegment(a[i])
    requires forall i :: 0 <= i < |b| ==> IsPlainSegment(b[i])
    requires forall i :: 0 <= i < |c| ==> IsPlainSegment(c[i])
    ensures CompareLocals(a, b) == CompareLocals(b, a).Reverse()
    ensures CompareLocals(a, b).Equal? <==> a == b
    ensures Fits(CompareLocals(a, b), CompareLocals(b, c), CompareLocals(a, c))
  {
    if a != [] && b != [] {
      var c' := if c == [] then [] else c[1..];
      LocalsFit(a[1..], b[1..], c');
      SegmentsFit(a[0], b[0], if c == [] then a[0] else c[0]);
      assert a == [a[0]] + a[1..] && b == [b[0]] + b[1..];
    }
  }

  // -- The order of versions -------------------------------------------------------------

  lemma NumbersFit(a: nat, b: nat, c: nat)
    ensures Fits(CompareNumbers(a, b), CompareNumbers(b, c), CompareNumbers(a, c))
  {
  }

  lemma VersionsFit(a: VypVersion, b: VypVersion, c: VypVersion)
    requires PlainLocal(a) && PlainLocal(b) && PlainLocal(c)
    ensures Fits(Compare(a, b), Compare(b, c), Compare(a, c))
  {
    hide CompareReleases, ComparePre, ComparePost, CompareDev, CompareLocals, CompareNumbers, Padded, IsPlainSegment,
      Fits, Ordering.Then;
    NumbersFit(a.epoch, b.epoch, c.epoch);
    ReleasesFit(a.release, b.release, c.release);
    PreFits(a.pre, b.pre, c.pre);
    PostAndDevFit(a.post, b.post, c.post);
    PostAndDevFit(a.dev, b.dev, c.dev);
    LocalsFit(a.local, b.local, c.local);
    var xy, yz, xz := CompareNumbers(a.epoch, b.epoch), CompareNumbers(b.epoch, c.epoch),
        CompareNumbers(a.epoch, c.epoch);
    var rxy, ryz, rxz := CompareReleases(a.release, b.release), CompareReleases(b.release, c.release),
        CompareReleases(a.release, c.release);
    ThenFits(xy, yz, xz, rxy, ryz, rxz);
    xy, yz, xz := xy.Then(rxy), yz.Then(ryz), xz.Then(rxz);
    var pxy, pyz, pxz := ComparePre(a.pre, b.pre), ComparePre(b.pre, c.pre), ComparePre(a.pre, c.pre);
    ThenFits(xy, yz, xz, pxy, pyz, pxz);
    xy, yz, xz := xy.Then(pxy), yz.Then(pyz), xz.Then(pxz);
    var oxy, oyz, oxz := ComparePost(a.post, b.post), ComparePost(b.post, c.post), ComparePost(a.post, c.post);
    ThenFits(xy, yz, xz, oxy, oyz, oxz);
    xy, yz, xz := xy.Then(oxy), yz.Then(oyz), xz.Then(oxz);
    var dxy, dyz, dxz := CompareDev(a.dev, b.dev), CompareDev(b.dev, c.dev), CompareDev(a.dev, c.dev);
    ThenFits(xy, yz, xz, dxy, dyz, dxz);
    xy, yz, xz := xy.Then(dxy), yz.Then(dyz), xz.Then(dxz);
    ThenFits(xy, yz, xz, CompareLocals(a.local, b.local), CompareLocals(b.local, c.local),
        CompareLocals(a.local, c.local));
  }

  lemma SegmentsReverse(a: string, b: string)
    ensures CompareSegments(a, b) == CompareSegments(b, a).Reverse()
  {
    hide ParseNumber, TextLess;
    TextLessFits(a, b, a);
  }

  lemma {:induction false} LocalsReverse(a: seq<string>, b: seq<string>)
    ensures CompareLocals(a, b) == CompareLocals(b, a).Reverse()
  {
    hide CompareSegments;
    if a != [] && b != [] {
      SegmentsReverse(a[0], b[0]);
      LocalsReverse(a[1..], b[1..]);
    }
  }

  /** Turning a comparison around reverses it, for all versions. */
  lemma VersionsReverse(a: VypVersion, b: VypVersion)
    ensures Compare(a, b) == Compare(b, a).Reverse()
  {
    hide CompareReleases, ComparePre, ComparePost, CompareDev, CompareLocals, Padded;
    ReleasesFit(a.release, b.release, []);
    PreFits(a.pre, b.pre, None);
    PostAndDevFit(a.post, b.post, None);
    PostAndDevFit(a.dev, b.dev, None);
    LocalsReverse(a.local, b.local);
  }

  /** Only a comparison that finds no difference in any part is equal. */
  lemma EqualParts(a: VypVersion, b: VypVersion)
    ensures Compare(a, b).Equal? <==>
            && a.epoch == b.epoch && CompareReleases(a.release, b.release).Equal? && ComparePre(a.pre, b.pre).Equal?
            && ComparePost(a.post, b.post).Equal? && CompareDev(a.dev, b.dev).Equal?
                 && CompareLocals(a.local, b.local).Equal?
  {
    hide CompareReleases, ComparePre, ComparePost, CompareDev, CompareLocals;
  }

  /** With plain local segments the comparison is a total order up to equality: turning it
      around reverses it, only equal versions compare equal, and it is transitive. */
  lemma TotalOrder(a: VypVersion, b: VypVersion, c: VypVersion)
    requires PlainLocal(a) && PlainLocal(b) && PlainLocal(c)
    ensures Compare(a, b) == Compare(b, a).Reverse()
    ensures Compare(a, b).Equal? <==> Same(a, b)
    ensures Fits(Compare(a, b), Compare(b, c), Compare(a, c))
  {
    VersionsFit(a, b, c);
    VersionsReverse(a, b);
    EqualParts(a, b);
    ReleasesFit(a.release, b.release, []);
    PreFits(a.pre, b.pre, None);
    PostAndDevFit(a.post, b.post, None);
    PostAndDevFit(a.dev, b.dev, None);
    LocalsFit(a.local, b.local, []);
    hide Compare, CompareReleases, ComparePre, ComparePost, CompareDev, CompareLocals, Padded, IsPlainSegment,
      PlainLocal, Fits;
  }

  function Labelled(segment: string): VypVersion {
    VypVersion(0, [1], None, None, None, [segment])
  }

  predicate LocalsFrom(v: VypVersion, allowed: string -> bool) {
    forall i :: 0 <= i < |v.local| ==> allowed(v.local[i])
  }

  /** The three versions compare as in a total order up to equality. */
  predicate InTotalOrder(a: VypVersion, b: VypVersion, c: VypVersion) {
    && Compare(a, b) == Compare(b, a).Reverse()
    && (Compare(a, b).Equal? <==> Same(a, b))
    && Fits(Compare(a, b), Compare(b, c), Compare(a, c))
  }

  lemma LabelsCompare(a: string, b: string)
    ensures Compare(Labelled(a), Labelled(b)) == CompareSegments(a, b)
    ensures Same(Labelled(a), Labelled(b)) <==> a == b
  {
    assert CompareLocals([a][1..], [b][1..]) == Equal;
    ReleasesFit([1], [1], []);
  }

  lemma LabelsOrdered(a: string, b: string, c: string)
    ensures InTotalOrder(Labelled(a), Labelled(b), Labelled(c)) <==> Ordered(a, b, c)
  {
    hide Compare, Same, CompareSegments, Labelled;
    LabelsCompare(a, b);
    LabelsCompare(b, a);
    LabelsCompare(b, c);
    LabelsCompare(a, c);
  }

  /** Among the versions with local segments of some kind, numerals included, the comparison is
      a total order up to equality if and only if all segments of that kind are plain. */
  lemma OrderExact(allowed: string -> bool)
    requires forall s :: IsNumeral(s) ==> allowed(s)
    ensures (forall a, b, c ::
               LocalsFrom(a, allowed) && LocalsFrom(b, allowed) && LocalsFrom(c, allowed) ==> InTotalOrder(a, b, c))
            <==> forall s :: allowed(s) ==> IsPlainSegment(s)
  {
    hide InTotalOrder, Ordered, IsNumeral, IsPlainSegment;
    if forall s :: allowed(s) ==> IsPlainSegment(s) {
      forall a, b, c | LocalsFrom(a, allowed) && LocalsFrom(b, allowed) && LocalsFrom(c, allowed)
        ensures InTotalOrder(a, b, c)
      {
        PlainInOrder(a, b, c);
      }
    } else {
      var s :| allowed(s) && !IsPlainSegment(s);
      PlainExact(s);
      var a, b, c :| (a == s || IsNumeral(a)) && (b == s || IsNumeral(b)) && (c == s || IsNumeral(c))
                     && !Ordered(a, b, c);
      LabelsOrdered(a, b, c);
      assert LocalsFrom(Labelled(a), allowed) && LocalsFrom(Labelled(b), allowed) && LocalsFrom(Labelled(c), allowed);
    }
  }

  lemma PlainInOrder(a: VypVersion, b: VypVersion, c: VypVersion)
    requires PlainLocal(a) && PlainLocal(b) && PlainLocal(c)
    ensures InTotalOrder(a, b, c)
  {
    TotalOrder(a, b, c);
  }

  /** With a segment that is neither, the order runs in a circle. */
  lemma MixedSegmentsCycle()
    ensures Compare(Labelled("9"), Labelled("10")) == Less
    ensures Compare(Labelled("10"), Labelled("1a")) == Less
    ensures Compare(Labelled("1a"), Labelled("9")) == Less
  {
    assert Decimal(9) == "9" && Decimal(10) == Decimal(1) + Decimal(0) == "10";
    NumberOfDecimal(9, MAX_U64);
    NumberOfDecimal(10, MAX_U64);
    assert "1a"[1] in "1a";
    assert ParseNumber("1a", MAX_U64) == None;
    assert TextLess("0", "a") && TextLess("10", "1a") && TextLess("1a", "9");
  }
}
