/** Printing a version and parsing the text gives the version back, field by field. */
module VersionRoundTrips {
  import opened Numerals
  import opened Options
  import opened Texts
  import opened Versions

  // -- Characters of the parts -----------------------------------------------------------

  predicate InRelease(c: char) {
    IsDigit(c) || c == '.'
  }

  predicate InPre(c: char) {
    InRelease(c) || c == 'a' || c == 'b' || c == 'r' || c == 'c'
  }

  predicate InPost(c: char) {
    InPre(c) || c == 'p' || c == 'o' || c == 's' || c == 't'
  }

  predicate InPublic(c: char) {
    InPost(c) || c == 'd' || c == 'e' || c == 'v'
  }

  predicate All(s: string, p: char -> bool) {
    forall c :: c in s ==> p(c)
  }

  lemma {:induction false} JoinedDecimals(ns: seq<nat>)
    ensures All(Join(Decimals(ns), "."), InRelease)
    ensures ns != [] ==> Join(Decimals(ns), ".") != ""
    ensures ns != [] ==> IsDigit(Join(Decimals(ns), ".")[0])
    ensures ns != [] ==> IsDigit(Join(Decimals(ns), ".")[|Join(Decimals(ns), ".")| - 1])
  {
    if |ns| > 0 {
      assert Decimals(ns)[1..] == Decimals(ns[1..]);
      assert Decimal(ns[0])[0] in Decimal(ns[0]) && Decimal(ns[0])[|Decimal(ns[0])| - 1] in Decimal(ns[0]);
      JoinedDecimals(ns[1..]);
    }
  }

  lemma ReleaseLetters(v: VypVersion)
    ensures All(PrintRelease(v), InRelease)
    ensures v.release != [] ==> PrintRelease(v) != "" && IsDigit(PrintRelease(v)[0])
    ensures v.release != [] ==> IsDigit(PrintRelease(v)[|PrintRelease(v)| - 1])
  {
    JoinedDecimals(v.release);
  }

  function UpToPre(v: VypVersion): string {
    PrintRelease(v) + PrintPre(v)
  }

  function UpToPost(v: VypVersion): string {
    UpToPre(v) + PrintPost(v)
  }

  lemma PublicLetters(v: VypVersion)
    ensures All(UpToPre(v), InPre) && All(UpToPost(v), InPost) && All(PrintPublic(v), InPublic)
    ensures PrintPublic(v) == UpToPost(v) + PrintDev(v)
  {
    ReleaseLetters(v);
    assert All(PrintPre(v), InPre);
    assert All(PrintPost(v), InPost);
    assert All(PrintDev(v), InPublic);
  }

  lemma LoweredKeeps(s: string)
    ensures Lowered(s) == s <==> forall c :: c in s ==> !('A' <= c <= 'Z')
    ensures Lowered(Lowered(s)) == Lowered(s)
  {
    assert forall i :: 0 <= i < |s| ==> s[i] in s;
    if Lowered(s) == s {
      forall c | c in s ensures !('A' <= c <= 'Z') {
        var i :| 0 <= i < |s| && s[i] == c;
        assert Lowered(s)[i] == s[i];
      }
    }
  }

  // -- Taking the parts off --------------------------------------------------------------

  lemma DevTaken(front: string, v: VypVersion)
    requires All(front, InPost) && InWidth(v)
    ensures SplitDev(front + PrintDev(v)) == Split2(v.dev, front)
  {
    hide Decimal, ParseNumber, Find, FindLast;
    var s := front + PrintDev(v);
    LoweredKeeps(s);
    if v.dev.Some? {
      var n := Decimal(v.dev.value);
      assert s == front + ".dev" + n;
      FoundAfter(front, ".dev", n);
      assert s[..|front|] == front && s[|front| + 4..] == n;
      NumberOfDecimal(v.dev.value, MAX_U32);
    } else {
      assert s == front;
      NotFound(s, ".dev", 'd');
      NotFound(s, "dev", 'd');
    }
  }

  lemma PostTaken(front: string, v: VypVersion)
    requires All(front, InPre) && InWidth(v)
    ensures SplitPost(front + PrintPost(v)) == Split2(v.post, front)
  {
    var s := front + PrintPost(v);
    LoweredKeeps(s);
    if v.post.Some? {
      var n := Decimal(v.post.value);
      assert s == front + ".post" + n;
      FoundAfter(front, ".post", n);
      assert s[..|front|] == front && s[|front| + 5..] == n;
      NumberOfDecimal(v.post.value, MAX_U32);
    } else {
      assert s == front;
      NotFound(s, ".post", 'p');
      NotFound(s, "post", 'p');
    }
  }

  lemma TagMissing(s: string, tag: PreTag, c: char)
    requires All(s, InPre) && c in tag.text && c !in s
    ensures PreAt(s, tag) == None
  {
    LoweredKeeps(s);
    NotFound(s, tag.text, c);
  }

  lemma TagFound(front: string, tag: PreTag, n: nat)
    requires All(front, InRelease) && tag.text == Tag(tag.kind)
    ensures var s := front + tag.text + Decimal(n); Lowered(s) == s && FindLast(s, tag.text) == Some(|front|)
  {
    var s := front + tag.text + Decimal(n);
    assert All(s, InPre);
    LoweredKeeps(s);
    FoundLast(front, tag.text, Decimal(n));
  }

  lemma TagTaken(front: string, tag: PreTag, n: nat)
    requires All(front, InRelease) && front != "" && IsDigit(front[|front| - 1]) && n <= MAX_U32
    requires tag.text == Tag(tag.kind)
    ensures PreAt(front + tag.text + Decimal(n), tag) == Some((PreRelease(tag.kind, n), front))
  {
    hide Lowered, FindLast, Decimal, ParseNumber, Tag;
    var s := front + tag.text + Decimal(n);
    TagFound(front, tag, n);
    NumberOfDecimal(n, MAX_U32);
    ThreeParts(front, tag.text, Decimal(n));
  }

  lemma NoTags(s: string, tags: seq<PreTag>)
    requires forall tag :: tag in tags ==> PreAt(s, tag) == None
    ensures SplitPre(s, tags) == (None, s)
  {
  }

  lemma {:induction false} TagSkipped(s: string, tags: seq<PreTag>, k: nat)
    requires k <= |tags| && forall i :: 0 <= i < k ==> PreAt(s, tags[i]) == None
    ensures SplitPre(s, tags) == SplitPre(s, tags[k..])
  {
    if k > 0 {
      TagSkipped(s, tags[1..], k - 1);
      assert tags[1..][k - 1..] == tags[k..];
    } else {
      assert tags[0..] == tags;
    }
  }

  lemma NoPreTaken(s: string)
    requires All(s, InRelease)
    ensures SplitPre(s, PRE_TAGS) == (None, s)
  {
    forall tag | tag in PRE_TAGS ensures PreAt(s, tag) == None {
      assert tag.text[0] in tag.text;
      TagMissing(s, tag, tag.text[0]);
    }
    NoTags(s, PRE_TAGS);
  }

  function PlaceOf(kind: PreReleaseKind): nat {
    match kind
    case Rc => 0
    case Beta => 4
    case Alpha => 6
  }

  /** A letter of the tag that the text of an earlier looked for tag lacks. */
  lemma EarlierTagsMissing(front: string, kind: PreReleaseKind, n: nat)
    requires All(front, InRelease)
    ensures forall i :: 0 <= i < PlaceOf(kind) ==> PreAt(front + Tag(kind) + Decimal(n), PRE_TAGS[i]) == None
  {
    var s := front + Tag(kind) + Decimal(n);
    assert All(s, InPre);
    forall i | 0 <= i < PlaceOf(kind) ensures PreAt(s, PRE_TAGS[i]) == None {
      var c := if i < 2 then 'c' else if i < 4 then 'e' else if i == 4 then 'b' else 'l';
      assert c in PRE_TAGS[i].text;
      TagMissing(s, PRE_TAGS[i], c);
    }
  }

  lemma TaggedTaken(front: string, kind: PreReleaseKind, n: nat)
    requires All(front, InRelease) && front != "" && IsDigit(front[|front| - 1]) && n <= MAX_U32
    ensures SplitPre(front + Tag(kind) + Decimal(n), PRE_TAGS) == (Some(PreRelease(kind, n)), front)
  {
    var s := front + Tag(kind) + Decimal(n);
    var k := PlaceOf(kind);
    assert PRE_TAGS[k] == PreTag(Tag(kind), kind);
    EarlierTagsMissing(front, kind, n);
    TagTaken(front, PRE_TAGS[k], n);
    hide PreAt, Decimal, Tag, All;
    TagSkipped(s, PRE_TAGS, k);
  }

  lemma PreTaken(v: VypVersion)
    requires v.release != [] && InWidth(v)
    ensures SplitPre(UpToPre(v), PRE_TAGS) == (v.pre, PrintRelease(v))
  {
    hide SplitPre, PrintRelease, Decimal, Tag;
    ReleaseLetters(v);
    var front := PrintRelease(v);
    if v.pre.Some? {
      var kind, n := v.pre.value.kind, v.pre.value.number;
      assert front + (Tag(kind) + Decimal(n)) == front + Tag(kind) + Decimal(n);
      TaggedTaken(front, kind, n);
    } else {
      assert UpToPre(v) == front;
      NoPreTaken(front);
    }
  }

  lemma {:induction false} NoLeadingZero(n: nat)
    ensures n > 0 ==> Decimal(n)[0] != '0'
  {
    if n >= 10 {
      NoLeadingZero(n / 10);
    }
  }

  lemma SegmentRead(n: nat)
    requires n <= MAX_U32
    ensures ParseSegment(Decimal(n)) == Some(n)
  {
    var s := Decimal(n);
    NoLeadingZero(n);
    NumberOfDecimal(n, MAX_U32);
    if n == 0 {
      TakeWhileOf("0", "", IsZero);
      assert "0" + "" == s;
    } else {
      TakeWhileOf("", s, IsZero);
      assert "" + s == s;
    }
  }

  lemma {:induction false} SegmentsRead(ns: seq<nat>)
    requires forall n :: n in ns ==> n <= MAX_U32
    ensures ParseSegments(Decimals(ns)) == Some(ns)
  {
    if ns != [] {
      var texts := Decimals(ns);
      assert texts[1..] == Decimals(ns[1..]) && texts[0] == Decimal(ns[0]);
      assert ns[0] in ns && [ns[0]] + ns[1..] == ns;
      assert forall n :: n in ns[1..] ==> n in ns;
      SegmentRead(ns[0]);
      SegmentsRead(ns[1..]);
    }
  }

  lemma ReleaseRead(v: VypVersion)
    requires v.release != [] && InWidth(v)
    ensures ParseSegments(Split(Dotted(PrintRelease(v)), '.')) == Some(v.release)
  {
    ReleaseLetters(v);
    var s := PrintRelease(v);
    assert forall i :: 0 <= i < |s| ==> s[i] in s;
    assert Dotted(s) == s;
    SplitOfJoin(Decimals(v.release), '.');
    SegmentsRead(v.release);
  }

  lemma PublicRead(v: VypVersion, epoch: nat, local: seq<string>)
    requires v.release != [] && InWidth(v)
    ensures ParsePublic(epoch, PrintPublic(v), local) == Some(v.(epoch := epoch, local := local))
  {
    PublicLetters(v);
    DevTaken(UpToPost(v), v);
    PostTaken(UpToPre(v), v);
    PreTaken(v);
    ReleaseRead(v);
  }

  // -- The whole text --------------------------------------------------------------------

  /** Segments in lower case that contain no separator and whose text is not trimmed. */
  predicate LocalPrintable(v: VypVersion) {
    && (forall i :: 0 <= i < |v.local| ==>
          '.' !in v.local[i] && Lowered(v.local[i]) == v.local[i] && (v.epoch == 0 ==> '!' !in v.local[i]))
    && (v.local != [] ==> TrimEnd(v.local[|v.local| - 1]) == v.local[|v.local| - 1])
  }

  lemma PublicStarts(v: VypVersion)
    requires v.release != []
    ensures PrintPublic(v) != "" && IsDigit(PrintPublic(v)[0])
  {
    ReleaseLetters(v);
    assert PrintPublic(v) == PrintRelease(v) + (PrintPre(v) + PrintPost(v) + PrintDev(v));
  }

  lemma LocalSplits(v: VypVersion)
    ensures v.local != [] ==>
              (LoweredAll(Split(Join(v.local, "."), '.')) == v.local <==>
               forall i :: 0 <= i < |v.local| ==> '.' !in v.local[i] && Lowered(v.local[i]) == v.local[i])
  {
    if v.local != [] {
      var parts := Split(Join(v.local, "."), '.');
      if forall i :: 0 <= i < |v.local| ==> '.' !in v.local[i] && Lowered(v.local[i]) == v.local[i] {
        SplitOfJoin(v.local, '.');
        assert LoweredAll(v.local) == v.local;
      }
      if LoweredAll(parts) == v.local {
        forall i | 0 <= i < |v.local| ensures '.' !in v.local[i] && Lowered(v.local[i]) == v.local[i] {
          assert v.local[i] == LoweredAll(parts)[i] == Lowered(parts[i]);
          LoweredKeeps(parts[i]);
          assert parts[i] in parts;
          NoDotLowered(parts[i]);
        }
      }
    }
  }

  lemma NoDotLowered(s: string)
    requires '.' !in s
    ensures '.' !in Lowered(s)
  {
    forall i | 0 <= i < |s| ensures Lowered(s)[i] != '.' {
      assert s[i] in s;
    }
  }

  function PrintEpoch(v: VypVersion): string {
    if v.epoch != 0 then Decimal(v.epoch) + "!" else ""
  }

  /** All of the text in front of the local segments. */
  function Front(v: VypVersion): string {
    PrintEpoch(v) + (PrintPublic(v) + "+")
  }

  lemma PrintedFront(v: VypVersion)
    ensures v.local != [] ==> Print(v) == Front(v) + Join(v.local, ".")
    ensures v.local == [] ==> Print(v) == PrintEpoch(v) + PrintPublic(v)
  {
    if v.local != [] {
      var e, p, l := PrintEpoch(v), PrintPublic(v), Join(v.local, ".");
      assert e + (p + ("+" + l)) == e + (p + "+") + l;
    } else {
      assert PrintPublic(v) + PrintLocal(v) == PrintPublic(v);
    }
  }

  lemma FrontStarts(v: VypVersion, rest: string)
    requires v.release != []
    ensures var s := PrintEpoch(v) + (PrintPublic(v) + rest); s != "" && IsDigit(s[0])
  {
    PublicStarts(v);
    if v.epoch != 0 {
      assert Decimal(v.epoch)[0] in Decimal(v.epoch);
      assert (PrintEpoch(v) + (PrintPublic(v) + rest))[0] == Decimal(v.epoch)[0];
    }
  }

  lemma {:induction false} TrimEndOf(front: string, s: string)
    requires front != "" && !IsWhitespace(front[|front| - 1])
    ensures TrimEnd(front + s) == front + TrimEnd(s)
  {
    if s == "" {
      assert front + s == front;
    } else if IsWhitespace(s[|s| - 1]) {
      assert (front + s)[..|front + s| - 1] == front + s[..|s| - 1];
      TrimEndOf(front, s[..|s| - 1]);
    }
  }

  /** Blanks at the end are ignored, nothing else is. */
  lemma TrimmedFront(front: string, s: string)
    requires front != "" && IsDigit(front[0]) && !IsWhitespace(front[|front| - 1])
    ensures StripV(Trim(front + s)) == front + TrimEnd(s)
  {
    TakeWhileOf("", front + s, IsWhitespace);
    assert "" + (front + s) == front + s;
    TrimEndOf(front, s);
  }

  // -- Reading the whole text ------------------------------------------------------------

  lemma PlusRead(v: VypVersion, epoch: nat, l: string)
    requires v.release != [] && InWidth(v)
    ensures ParseRest(epoch, PrintPublic(v) + "+" + l) == Some(v.(epoch := epoch, local := LoweredAll(Split(l, '.'))))
  {
    PublicLetters(v);
    var p := PrintPublic(v);
    var s := p + ['+'] + l;
    CharFoundAfter(p, '+', l);
    assert s[..|p|] == p && s[|p| + 1..] == l;
    PublicRead(v, epoch, LoweredAll(Split(l, '.')));
  }

  lemma NoPlusRead(v: VypVersion, epoch: nat)
    requires v.release != [] && InWidth(v)
    ensures ParseRest(epoch, PrintPublic(v)) == Some(v.(epoch := epoch, local := []))
  {
    PublicLetters(v);
    NotFound(PrintPublic(v), "+", '+');
    PublicRead(v, epoch, []);
  }

  /** The epoch is read up to the exclamation mark. */
  lemma EpochRead(v: VypVersion, s: string)
    requires InWidth(v) && (v.epoch == 0 ==> '!' !in s)
    ensures var t := PrintEpoch(v) + s;
            match Find(t, "!")
            case None => v.epoch == 0 && t == s
            case Some(i) => ParseNumber(t[..i], MAX_U32) == Some(v.epoch) && t[i + 1..] == s
  {
    var t := PrintEpoch(v) + s;
    if v.epoch == 0 {
      assert t == s;
      NotFound(s, "!", '!');
    } else {
      var e := Decimal(v.epoch);
      assert t == e + ['!'] + s;
      CharFoundAfter(e, '!', s);
      assert t[..|e|] == e && t[|e| + 1..] == s;
      NumberOfDecimal(v.epoch, MAX_U32);
    }
  }

  lemma FrontEnds(v: VypVersion)
    requires v.release != []
    ensures Front(v) != "" && IsDigit(Front(v)[0]) && !IsWhitespace(Front(v)[|Front(v)| - 1])
  {
    FrontStarts(v, "+");
  }

  lemma LocalRead(v: VypVersion, l: string)
    requires v.release != [] && InWidth(v) && (v.epoch == 0 ==> '!' !in l)
    ensures Parse(Front(v) + l) == Some(v.(local := LoweredAll(Split(TrimEnd(l), '.'))))
  {
    FrontEnds(v);
    TrimmedFront(Front(v), l);
    var t := TrimEnd(l);
    TrimEndKeeps(l);
    FrontOf(v, t);
    NoBang(v, t);
    ReadAfterEpoch(v, Front(v) + l, PrintPublic(v) + "+" + t);
    PlusRead(v, v.epoch, t);
  }

  lemma FrontOf(v: VypVersion, t: string)
    ensures Front(v) + t == PrintEpoch(v) + (PrintPublic(v) + "+" + t)
  {
  }

  lemma NoBang(v: VypVersion, t: string)
    ensures '!' in PrintPublic(v) + "+" + t <==> '!' in t
    ensures '!' !in PrintPublic(v)
  {
    PublicLetters(v);
  }

  lemma ReadAfterEpoch(v: VypVersion, input: string, s: string)
    requires InWidth(v) && (v.epoch == 0 ==> '!' !in s)
    requires StripV(Trim(input)) == PrintEpoch(v) + s
    ensures Parse(input) == ParseRest(v.epoch, s)
  {
    hide StripV, Trim, PrintEpoch, Find, ParseNumber, ParseRest;
    EpochRead(v, s);
  }

  lemma {:induction false} TrimEndKeeps(s: string)
    ensures forall c :: c in TrimEnd(s) ==> c in s
    ensures forall c :: c in s && !IsWhitespace(c) ==> c in TrimEnd(s)
    ensures TrimEnd(TrimEnd(s)) == TrimEnd(s)
  {
    if s != "" && IsWhitespace(s[|s| - 1]) {
      TrimEndKeeps(s[..|s| - 1]);
      assert s == s[..|s| - 1] + [s[|s| - 1]];
    }
  }

  /** Without an epoch, the exclamation mark in a local segment is taken for its end. */
  lemma BangUnread(v: VypVersion, l: string)
    requires v.release != [] && InWidth(v) && v.epoch == 0 && '!' in l
    ensures Parse(Front(v) + l) == None
  {
    hide Front, PrintPublic, TrimEnd, StripV, Trim, Find;
    var front := Front(v);
    FrontEnds(v);
    TrimmedFront(front, l);
    TrimEndKeeps(l);
    FrontPlus(v);
    BangFound(front, TrimEnd(l));
    PlusBeforeBang(front, TrimEnd(l));
  }

  lemma FrontPlus(v: VypVersion)
    requires v.release != [] && InWidth(v) && v.epoch == 0
    ensures Front(v) != "" && '!' !in Front(v) && Front(v)[|Front(v)| - 1] == '+'
  {
    PublicLetters(v);
    assert Front(v) == PrintPublic(v) + "+";
  }

  /** A plus sign in front of the exclamation mark is no part of an epoch. */
  lemma PlusBeforeBang(front: string, l: string)
    requires front != "" && front[|front| - 1] == '+' && IsDigit(front[0])
    requires Find(front + l, "!").Some? && |front| <= Find(front + l, "!").value
    ensures ParseNumber((front + l)[..Find(front + l, "!").value], MAX_U32) == None
  {
    var t := front + l;
    var i := Find(t, "!").value;
    assert t[..i][|front| - 1] == '+' && t[..i][0] == front[0];
    NotNumber(t[..i], |front| - 1);
  }

  lemma {:induction false} BangFound(front: string, l: string)
    requires '!' !in front && '!' in l
    ensures Find(front + l, "!").Some? && |front| <= Find(front + l, "!").value
  {
    var s := front + l;
    if front != "" {
      assert s[1..] == front[1..] + l;
      BangFound(front[1..], l);
      assert s[0] == front[0] && s[..1] == [front[0]];
    } else {
      assert s == l;
      BangIsFound(l);
    }
  }

  lemma {:induction false} BangIsFound(l: string)
    requires '!' in l
    ensures Find(l, "!").Some?
  {
    if l[0] == '!' {
      assert l[..1] == "!";
    } else {
      BangIsFound(l[1..]);
    }
  }

  lemma NotNumber(s: string, i: nat)
    requires 0 < i < |s| && !IsDigit(s[i])
    ensures ParseNumber(s, MAX_U32) == None
  {
    assert s[1..][i - 1] == s[i];
    assert s[i] in s && s[i] in s[1..];
  }

  // -- The exact condition ---------------------------------------------------------------

  lemma PrintedRead(v: VypVersion)
    requires InWidth(v) && v.release != [] && LocalPrintable(v)
    ensures Parse(Print(v)) == Some(v)
  {
    hide Parse, Print, Front, Join, LoweredAll, InWidth;
    PrintedFront(v);
    if v.local == [] {
      PublicTrimmed(v);
      NoBang(v, "");
      ReadAfterEpoch(v, Print(v), PrintPublic(v));
      NoPlusRead(v, v.epoch);
    } else {
      var l := Join(v.local, ".");
      CharsOfJoin(v.local, '.', '!');
      LocalRead(v, l);
      LastTrimmed(v.local);
      LocalSplits(v);
    }
  }

  lemma PublicTrimmed(v: VypVersion)
    requires v.release != []
    ensures StripV(Trim(PrintEpoch(v) + PrintPublic(v))) == PrintEpoch(v) + PrintPublic(v)
  {
    FrontStarts(v, "");
    PublicStarts(v);
    assert PrintPublic(v) + "" == PrintPublic(v);
    PublicLetters(v);
    var t := PrintEpoch(v) + PrintPublic(v);
    assert t[|t| - 1] == PrintPublic(v)[|PrintPublic(v)| - 1] && t[|t| - 1] in PrintPublic(v);
    TrimmedFront(t, "");
    assert t + "" == t;
  }

  lemma {:induction false} LastTrimmed(parts: seq<string>)
    requires parts != [] && TrimEnd(parts[|parts| - 1]) == parts[|parts| - 1]
    ensures TrimEnd(Join(parts, ".")) == Join(parts, ".")
  {
    if |parts| > 1 {
      LastTrimmed(parts[1..]);
      TrimEndOf(parts[0] + ".", Join(parts[1..], "."));
    }
  }

  lemma {:induction false} SplitLastTrimmed(s: string)
    requires TrimEnd(s) == s
    ensures var parts := Split(s, '.'); TrimEnd(parts[|parts| - 1]) == parts[|parts| - 1]
  {
    if s != "" {
      TrimmedTail(s);
      SplitLastTrimmed(s[1..]);
      var more := Split(s[1..], '.');
      if s[0] != '.' && |more| == 1 {
        var last := [s[0]] + more[0];
        SplitWhole(s[1..], '.');
        assert last == s;
      }
    }
  }

  lemma {:induction false} SplitWhole(s: string, separator: char)
    ensures |Split(s, separator)| == 1 ==> Split(s, separator)[0] == s
  {
    if s != "" {
      SplitWhole(s[1..], separator);
      assert [s[0]] + s[1..] == s;
    }
  }

  lemma TrimmedTail(s: string)
    requires TrimEnd(s) == s && s != ""
    ensures TrimEnd(s[1..]) == s[1..]
  {
  }

  lemma LoweredTrimmed(s: string)
    requires TrimEnd(s) == s
    ensures TrimEnd(Lowered(s)) == Lowered(s)
  {
  }

  lemma NumberBounded(s: string)
    ensures OrZero(ParseNumber(s, MAX_U32)) <= MAX_U32
    ensures ParseSegment(s).Some? ==> ParseSegment(s).value <= MAX_U32
  {
  }

  lemma {:induction false} SegmentsBounded(parts: seq<string>)
    ensures ParseSegments(parts).Some? ==> forall n :: n in ParseSegments(parts).value ==> n <= MAX_U32
  {
    hide ParseSegment;
    if parts != [] {
      NumberBounded(parts[0]);
      SegmentsBounded(parts[1..]);
    }
  }

  predicate Bounded(n: Option<nat>) {
    n.Some? ==> n.value <= MAX_U32
  }

  lemma SplitsBounded(s: string)
    ensures Bounded(SplitDev(s).number) && Bounded(SplitPost(s).number)
  {
    hide Find, Lowered, TrimDots;
  }

  lemma PreBounded(s: string, tag: PreTag)
    ensures PreAt(s, tag).Some? ==> PreAt(s, tag).value.0.number <= MAX_U32
  {
    hide FindLast, Lowered;
  }

  lemma {:induction false} PresBounded(s: string, tags: seq<PreTag>)
    ensures SplitPre(s, tags).0.Some? ==> SplitPre(s, tags).0.value.number <= MAX_U32
  {
    hide PreAt;
    if tags != [] {
      PreBounded(s, tags[0]);
      PresBounded(s, tags[1..]);
    }
  }

  lemma PublicInWidth(epoch: nat, s: string, local: seq<string>)
    requires epoch <= MAX_U32
    ensures var v := ParsePublic(epoch, s, local); v.Some? ==> InWidth(v.value) && v.value.release != []
  {
    hide SplitDev, SplitPost, SplitPre, ParseSegments, Split, Versions.Dotted;
    var dev := SplitDev(s);
    var post := SplitPost(dev.front);
    SplitsBounded(s);
    SplitsBounded(dev.front);
    PresBounded(post.front, PRE_TAGS);
    SegmentsBounded(Split(Versions.Dotted(SplitPre(post.front, PRE_TAGS).1), '.'));
  }

  /** Whatever is read has release numbers, and all its numbers have 32 bits. */
  lemma ParsedInWidth(input: string)
    ensures Parse(input).Some? ==> InWidth(Parse(input).value) && Parse(input).value.release != []
  {
    hide ParsePublic, InWidth, StripV, Trim, Find, Split, LoweredAll;
    forall epoch: nat, s: string, local: seq<string> | epoch <= MAX_U32
      ensures var v := ParsePublic(epoch, s, local); v.Some? ==> InWidth(v.value) && v.value.release != []
    {
      PublicInWidth(epoch, s, local);
    }
  }

  /** A version survives printing and parsing if and only if it has release numbers and its
      local segments can be told apart in the text. */
  lemma RoundTripExact(v: VypVersion)
    requires InWidth(v)
    ensures Parse(Print(v)) == Some(v) <==> v.release != [] && LocalPrintable(v)
  {
    hide Parse, Print, LocalPrintable, InWidth;
    ParsedInWidth(Print(v));
    if v.release != [] && LocalPrintable(v) {
      PrintedRead(v);
    }
    if Parse(Print(v)) == Some(v) {
      ReadIsPrintable(v);
    }
  }

  lemma ReadIsPrintable(v: VypVersion)
    requires InWidth(v) && v.release != [] && Parse(Print(v)) == Some(v)
    ensures LocalPrintable(v)
  {
    hide Parse, Print, Join, Split, InWidth, Front, LoweredAll;
    if v.local != [] {
      PrintedFront(v);
      var l := Join(v.local, ".");
      CharsOfJoin(v.local, '.', '!');
      if v.epoch == 0 && '!' in l {
        BangUnread(v, l);
      } else {
        LocalRead(v, l);
        LocalOfParts(v.local, TrimEnd(l), l);
      }
    }
  }

  lemma LocalOfParts(local: seq<string>, t: string, l: string)
    requires t == TrimEnd(l) && local == LoweredAll(Split(t, '.'))
    ensures forall i :: 0 <= i < |local| ==> '.' !in local[i] && Lowered(local[i]) == local[i]
    ensures local != [] && TrimEnd(local[|local| - 1]) == local[|local| - 1]
  {
    TrimEndKeeps(l);
    var parts := Split(t, '.');
    SplitLastTrimmed(t);
    LoweredTrimmed(parts[|parts| - 1]);
    LoweredParts(parts, local);
  }

  lemma LoweredParts(parts: seq<string>, local: seq<string>)
    requires local == LoweredAll(parts) && forall part :: part in parts ==> '.' !in part
    ensures forall i :: 0 <= i < |local| ==> '.' !in local[i] && Lowered(local[i]) == local[i]
  {
    forall i | 0 <= i < |local| ensures '.' !in local[i] && Lowered(local[i]) == local[i] {
      assert parts[i] in parts;
      NoDotLowered(parts[i]);
      LoweredKeeps(parts[i]);
    }
  }
}
