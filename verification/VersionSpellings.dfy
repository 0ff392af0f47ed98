/** Every usual spelling of a version is read as the version that it stands for. */
module VersionSpellings {
  import opened Numerals
  import opened Options
  import opened Texts
  import opened VersionRoundTrips
  import opened Versions

  // -- Spellings -------------------------------------------------------------------------

  /** A number after a tag, or nothing, which counts as zero. Leading zeros do not count. */
  predicate IsNumberText(s: string) {
    (forall c :: c in s ==> IsDigit(c)) && ValueOf(s) <= MAX_U32
  }

  function NumberIn(s: string): nat
    requires IsNumberText(s)
  {
    ValueOf(s)
  }

  /** The tags in small letters, and what they stand for. */
  predicate SpellsKind(tag: string, kind: PreReleaseKind) {
    match kind
    case Alpha => tag == "a" || tag == "alpha"
    case Beta => tag == "b" || tag == "beta"
    case Rc => tag == "rc" || tag == "c" || tag == "preview"
  }

  datatype PreSpelling = PreSpelling(tag: string, kind: PreReleaseKind, number: string)

  datatype PartSpelling = PartSpelling(tag: string, number: string)

  /** The pieces of a text, each as it is spelled. */
  datatype Spelling = Spelling(
    lead: string,
    epoch: Option<string>,
    parts: seq<string>,
    separators: seq<char>,
    pre: Option<PreSpelling>,
    post: Option<PartSpelling>,
    dev: Option<PartSpelling>,
    local: Option<string>)

  predicate IsSeparator(c: char) {
    c == '.' || c == '-' || c == '_'
  }

  predicate PartsOk(parts: seq<string>) {
    forall i :: 0 <= i < |parts| ==> parts[i] != "" && IsNumberText(parts[i])
  }

  predicate SeparatorsOk(separators: seq<char>) {
    forall i :: 0 <= i < |separators| ==> IsSeparator(separators[i])
  }

  /** In any mixture of small and capital letters. A post-release may follow a hyphen or an
      underscore where there is no pre-release. */
  predicate SpellingOk(p: Spelling) {
    && (p.lead == "" || p.lead == "v" || p.lead == "V")
    && (p.epoch.Some? ==> p.epoch.value != "" && IsNumberText(p.epoch.value))
    && p.parts != [] && PartsOk(p.parts) && |p.separators| == |p.parts| - 1 && SeparatorsOk(p.separators)
    && (p.pre.Some? ==> SpellsKind(Lowered(p.pre.value.tag), p.pre.value.kind) && IsNumberText(p.pre.value.number))
    && (p.post.Some? ==> PostOk(p.post.value, p.pre.Some?))
    && (p.dev.Some? ==> Lowered(p.dev.value.tag) == ".dev" && IsNumberText(p.dev.value.number))
    && (p.local.Some? ==> TrimEnd(p.local.value) == p.local.value && (p.epoch.None? ==> '!' !in p.local.value))
  }

  predicate PostOk(post: PartSpelling, afterPre: bool) {
    var tag := Lowered(post.tag);
    && IsNumberText(post.number)
    && (tag == ".post" || tag == "post" || (!afterPre && (tag == "-post" || tag == "_post")))
  }

  // -- The text and the version ----------------------------------------------------------

  function ReleaseText(parts: seq<string>, separators: seq<char>): string
    requires |parts| >= 1 && |separators| == |parts| - 1
  {
    if |parts| == 1 then parts[0] else parts[0] + [separators[0]] + ReleaseText(parts[1..], separators[1..])
  }

  function PreText(pre: Option<PreSpelling>): string {
    if pre.Some? then pre.value.tag + pre.value.number else ""
  }

  function PartText(part: Option<PartSpelling>): string {
    if part.Some? then part.value.tag + part.value.number else ""
  }

  function PublicText(p: Spelling): string
    requires SpellingOk(p)
  {
    ReleaseText(p.parts, p.separators) + PreText(p.pre) + PartText(p.post) + PartText(p.dev)
  }

  function EpochText(p: Spelling): string {
    if p.epoch.Some? then p.epoch.value + "!" else ""
  }

  function LocalText(p: Spelling): string {
    if p.local.Some? then "+" + p.local.value else ""
  }

  function TextOf(p: Spelling): string
    requires SpellingOk(p)
  {
    p.lead + (EpochText(p) + (PublicText(p) + LocalText(p)))
  }

  function Values(parts: seq<string>): seq<nat>
    requires PartsOk(parts)
  {
    seq(|parts|, i requires 0 <= i < |parts| => NumberIn(parts[i]))
  }

  /** The version that the text stands for. */
  function VersionOf(p: Spelling): VypVersion
    requires SpellingOk(p)
  {
    VypVersion(
      if p.epoch.Some? then NumberIn(p.epoch.value) else 0,
      Values(p.parts),
      if p.pre.Some? then Some(PreRelease(p.pre.value.kind, NumberIn(p.pre.value.number))) else None,
      if p.post.Some? then Some(NumberIn(p.post.value.number)) else None,
      if p.dev.Some? then Some(NumberIn(p.dev.value.number)) else None,
      if p.local.Some? then LoweredAll(Split(p.local.value, '.')) else [])
  }

  // -- Numbers ---------------------------------------------------------------------------

  lemma NumberRead(s: string)
    requires IsNumberText(s)
    ensures OrZero(ParseNumber(s, MAX_U32)) == NumberIn(s)
    ensures s != "" ==> ParseNumber(s, MAX_U32) == Some(NumberIn(s))
  {
    if s != "" {
      assert s[0] in s;
    }
  }

  lemma {:induction false} ZerosDropped(s: string)
    requires forall c :: c in s ==> IsDigit(c)
    ensures var t := DropWhile(s, IsZero); (forall c :: c in t ==> IsDigit(c)) && ValueOf(t) == ValueOf(s)
  {
    if s != "" && s[0] == '0' {
      ZerosDropped(s[1..]);
      ZeroFirst(s[1..]);
      assert s == "0" + s[1..];
      assert DropWhile(s, IsZero) == DropWhile(s[1..], IsZero);
    } else {
      assert DropWhile(s, IsZero) == s;
    }
  }

  lemma {:induction false} ZeroFirst(s: string)
    requires forall c :: c in s ==> IsDigit(c)
    ensures ValueOf("0" + s) == ValueOf(s)
  {
    if s == "" {
      assert "0" + s == "0" && "0"[..0] == "";
    } else {
      var last := |s| - 1;
      assert ("0" + s)[..|s|] == "0" + s[..last];
      ZeroFirst(s[..last]);
    }
  }

  /** A number of digits is read by its value, and one that is too large is not read. */
  lemma PartExact(s: string)
    requires s != "" && forall c :: c in s ==> IsDigit(c)
    ensures ParseSegment(s) == if ValueOf(s) <= MAX_U32 then Some(ValueOf(s)) else None
  {
    hide DropWhile;
    ZerosDropped(s);
    var t := DropWhile(s, IsZero);
    if t == "" {
      assert "0"[..0] == "";
      assert ParseNumber("0", MAX_U32) == Some(0);
    } else {
      assert t[0] in t;
    }
  }

  lemma PartRead(s: string)
    requires s != "" && IsNumberText(s)
    ensures ParseSegment(s) == Some(NumberIn(s))
  {
    hide ParseSegment, ValueOf;
    PartExact(s);
  }

  lemma {:induction false} PartsRead(parts: seq<string>)
    requires PartsOk(parts)
    ensures ParseSegments(parts) == Some(Values(parts))
  {
    hide ParseSegment, IsNumberText;
    if parts != [] {
      PartRead(parts[0]);
      PartsRead(parts[1..]);
      assert Values(parts) == [NumberIn(parts[0])] + Values(parts[1..]);
    } else {
      assert Values(parts) == [];
    }
  }

  // -- The release -----------------------------------------------------------------------

  lemma {:induction false} ReleaseCharacters(parts: seq<string>, separators: seq<char>)
    requires |parts| >= 1 && |separators| == |parts| - 1 && PartsOk(parts) && SeparatorsOk(separators)
    ensures var r := ReleaseText(parts, separators);
            && r != "" && IsDigit(r[0]) && IsDigit(r[|r| - 1])
            && forall c :: c in r ==> IsDigit(c) || IsSeparator(c)
  {
    assert parts[0][0] in parts[0] && parts[0][|parts[0]| - 1] in parts[0];
    if |parts| > 1 {
      ReleaseCharacters(parts[1..], separators[1..]);
    }
  }

  lemma DottedConcat(a: string, b: string)
    ensures Versions.Dotted(a + b) == Versions.Dotted(a) + Versions.Dotted(b)
  {
  }

  lemma DottedDigits(s: string)
    requires forall c :: c in s ==> IsDigit(c)
    ensures Versions.Dotted(s) == s
  {
    assert forall i :: 0 <= i < |s| ==> s[i] in s;
  }

  lemma {:induction false} ReleaseDotted(parts: seq<string>, separators: seq<char>)
    requires |parts| >= 1 && |separators| == |parts| - 1 && PartsOk(parts) && SeparatorsOk(separators)
    ensures Versions.Dotted(ReleaseText(parts, separators)) == Join(parts, ".")
  {
    DottedDigits(parts[0]);
    if |parts| > 1 {
      ReleaseDotted(parts[1..], separators[1..]);
      var more := ReleaseText(parts[1..], separators[1..]);
      DottedConcat(parts[0] + [separators[0]], more);
      DottedConcat(parts[0], [separators[0]]);
      assert Versions.Dotted([separators[0]]) == ".";
      hide Versions.Dotted;
    }
  }

  /** A trailing separator makes an empty segment, which is skipped. */
  predicate IsTrail(trail: string) {
    trail == "" || trail == "-" || trail == "_"
  }

  /** Separators in a row count as one. */
  lemma {:induction false} EmptySkipped(front: seq<string>, back: seq<string>)
    ensures ParseSegments(front + [""] + back) == ParseSegments(front + back)
  {
    hide ParseSegment;
    if front == [] {
      assert front + [""] + back == [""] + back && front + back == back && ([""] + back)[1..] == back;
    } else {
      assert (front + [""] + back)[1..] == front[1..] + [""] + back && (front + back)[1..] == front[1..] + back;
      EmptySkipped(front[1..], back);
    }
  }

  lemma NumberHasNoDot(s: string)
    requires IsNumberText(s)
    ensures '.' !in s
  {
  }

  lemma JoinTrail(parts: seq<string>)
    requires parts != []
    ensures Join(parts + [""], ".") == Join(parts, ".") + "."
    decreases |parts|
  {
    if |parts| == 1 {
      assert (parts + [""])[1..] == [""];
    } else {
      assert (parts + [""])[1..] == parts[1..] + [""];
      JoinTrail(parts[1..]);
    }
  }

  lemma ReleaseIsRead(parts: seq<string>, separators: seq<char>, trail: string)
    requires |parts| >= 1 && |separators| == |parts| - 1 && PartsOk(parts) && SeparatorsOk(separators) && IsTrail(trail)
    ensures ParseSegments(Split(Versions.Dotted(ReleaseText(parts, separators) + trail), '.')) == Some(Values(parts))
  {
    hide ReleaseText, ParseSegments, Split, Join, IsNumberText, Versions.Dotted;
    forall part | part in parts ensures '.' !in part {
      var i :| 0 <= i < |parts| && parts[i] == part;
      NumberHasNoDot(parts[i]);
    }
    ReleaseDotted(parts, separators);
    DottedConcat(ReleaseText(parts, separators), trail);
    PartsRead(parts);
    TrailDotted(trail);
    if trail == "" {
      assert Join(parts, ".") + "" == Join(parts, ".");
      SplitOfJoin(parts, '.');
    } else {
      JoinTrail(parts);
      SplitOfJoin(parts + [""], '.');
      EmptySkipped(parts, []);
      assert parts + [""] + [] == parts + [""] && parts + [] == parts;
    }
  }

  lemma TrailDotted(trail: string)
    requires IsTrail(trail)
    ensures Versions.Dotted(trail) == if trail == "" then "" else "."
  {
  }

  // -- Taking the parts off --------------------------------------------------------------

  lemma DigitsLowered(s: string)
    requires forall c :: c in s ==> IsDigit(c) || IsSeparator(c)
    ensures Lowered(s) == s
  {
    assert forall i :: 0 <= i < |s| ==> s[i] in s;
  }

  lemma LoweredThree(a: string, b: string, c: string)
    ensures Lowered(a + b + c) == Lowered(a) + Lowered(b) + Lowered(c)
    ensures |Lowered(a)| == |a| && |Lowered(b)| == |b|
  {
    LoweredConcat(a + b, c);
    LoweredConcat(a, b);
  }

  lemma CutThree(a: string, b: string, c: string)
    ensures (a + b + c)[..|a|] == a && (a + b + c)[|a| + |b|..] == c
  {
  }

  lemma DevIsTaken(front: string, dev: Option<PartSpelling>)
    requires 'd' !in Lowered(front)
    requires dev.Some? ==> Lowered(dev.value.tag) == ".dev" && IsNumberText(dev.value.number)
    ensures SplitDev(front + PartText(dev)) ==
            Split2(if dev.Some? then Some(NumberIn(dev.value.number)) else None, front)
  {
    hide Lowered, ParseNumber, Find, NumberIn;
    if dev.Some? {
      var (tag, number) := (dev.value.tag, dev.value.number);
      var s := front + tag + number;
      assert front + PartText(dev) == s;
      DigitsLowered(number);
      LoweredThree(front, tag, number);
      FoundOnly(Lowered(front), ".dev", number, 1);
      CutThree(front, tag, number);
      NumberRead(number);
    } else {
      assert front + PartText(dev) == front;
      NotFound(Lowered(front), ".dev", 'd');
      NotFound(Lowered(front), "dev", 'd');
    }
  }

  /** The text in front of a post-release, with the separator that is not taken off. */
  function Trail(post: Option<PartSpelling>): string {
    if post.None? then ""
    else if Lowered(post.value.tag) == "-post" then "-"
    else if Lowered(post.value.tag) == "_post" then "_"
    else ""
  }

  predicate BeforePost(front: string) {
    front != "" && front[|front| - 1] != '.' && 'o' !in Lowered(front)
  }

  lemma PostIsTaken(front: string, post: Option<PartSpelling>)
    requires BeforePost(front) && (post.Some? ==> PostOk(post.value, false))
    ensures SplitPost(front + PartText(post)) ==
            Split2(if post.Some? then Some(NumberIn(post.value.number)) else None, front + Trail(post))
  {
    hide Lowered, ParseNumber, Find, NumberIn, TrimDots;
    if post.Some? {
      var (tag, number) := (post.value.tag, post.value.number);
      assert front + PartText(post) == front + tag + number;
      if Lowered(tag) == ".post" {
        DottedPost(front, tag, number);
        assert front + Trail(post) == front;
      } else if Lowered(tag) == "post" {
        UndottedPost(front, tag, number);
        assert front + Trail(post) == front;
      } else {
        TrailingPost(front, tag, number);
      }
    } else {
      assert front + PartText(post) == front && front + Trail(post) == front;
      NotFound(Lowered(front), ".post", 'o');
      NotFound(Lowered(front), "post", 'o');
    }
  }

  lemma DottedPost(front: string, tag: string, number: string)
    requires BeforePost(front) && Lowered(tag) == ".post" && IsNumberText(number)
    ensures SplitPost(front + tag + number) == Split2(Some(NumberIn(number)), front)
  {
    hide Lowered, ParseNumber, Find, NumberIn, TrimDots;
    DigitsLowered(number);
    LoweredThree(front, tag, number);
    FoundOnly(Lowered(front), ".post", number, 2);
    CutThree(front, tag, number);
    NumberRead(number);
  }

  /** Without a dot in front of it. */
  lemma UndottedPost(front: string, tag: string, number: string)
    requires BeforePost(front) && Lowered(tag) == "post" && IsNumberText(number)
    ensures SplitPost(front + tag + number) == Split2(Some(NumberIn(number)), front)
  {
    hide Lowered, ParseNumber, Find, NumberIn;
    DigitsLowered(number);
    LoweredThree(front, tag, number);
    FoundOnly(Lowered(front), "post", number, 1);
    NoDotBefore(front, number);
    CutThree(front, tag, number);
    NumberRead(number);
    assert TrimDots(front) == front;
    assert |front| > 0;
  }

  lemma LoweredDot(s: string)
    ensures |Lowered(s)| == |s| && forall i :: 0 <= i < |s| ==> (Lowered(s)[i] == '.' <==> s[i] == '.')
  {
  }

  lemma NoDotBefore(front: string, number: string)
    requires BeforePost(front) && IsNumberText(number)
    ensures Find(Lowered(front) + "post" + number, ".post") == None
  {
    hide Find, Lowered;
    var f := Lowered(front);
    var s := f + "post" + number;
    LoweredDot(front);
    FindExact(s, ".post");
    forall i: nat ensures !Occurs(s, ".post", i) {
      if i + 2 != |f| + 1 {
        if i + 2 < |s| {
          OnlyThere(f, "post", number, 1, i + 2);
        }
        OtherCharacter(s, ".post", i, 2);
      } else {
        assert s[i] == f[|f| - 1];
        OtherCharacter(s, ".post", i, 0);
      }
    }
  }

  lemma OtherCharacter(s: string, part: string, i: nat, k: nat)
    requires k < |part| && (i + k < |s| ==> s[i + k] != part[k])
    ensures !Occurs(s, part, i)
  {
  }

  /** After a hyphen or an underscore, which stays. */
  lemma TrailingPost(front: string, tag: string, number: string)
    requires BeforePost(front) && (Lowered(tag) == "-post" || Lowered(tag) == "_post") && IsNumberText(number)
    ensures SplitPost(front + tag + number) == Split2(Some(NumberIn(number)), front + Lowered(tag)[..1])
  {
    var longer := front + tag[..1];
    assert tag[0] == Lowered(tag)[0] && tag == tag[..1] + tag[1..] && Lowered(tag[1..]) == Lowered(tag)[1..];
    LoweredConcat(front, tag[..1]);
    hide Lowered, SplitPost;
    assert tag[..1] == Lowered(tag)[..1];
    assert front + tag + number == longer + tag[1..] + number;
    UndottedPost(longer, tag[1..], number);
  }

  // -- Pre-releases ----------------------------------------------------------------------

  /** The place of a tag in the list of tags. */
  function PlaceOfTag(tag: string): nat {
    if tag == "rc" then 0 else if tag == "c" then 1 else if tag == "preview" then 2 else if tag == "beta" then 3
    else if tag == "b" then 4 else if tag == "alpha" then 5 else 6
  }

  /** A character that the tag at one place has and the tag at another does not. */
  function Telling(i: nat, tag: string): char {
    if i == 0 then (if tag == "c" then 'r' else 'c')
    else if i == 1 then 'c'
    else if i == 2 then 'v'
    else if i == 3 then 'e'
    else if i == 4 then 'b'
    else 'l'
  }

  lemma TagsDiffer(tag: string, kind: PreReleaseKind)
    requires SpellsKind(tag, kind)
    ensures PlaceOfTag(tag) < |PRE_TAGS| && PRE_TAGS[PlaceOfTag(tag)] == PreTag(tag, kind)
    ensures forall i :: 0 <= i < PlaceOfTag(tag) ==>
              var c := Telling(i, tag); c in PRE_TAGS[i].text && c !in tag && !IsDigit(c) && !IsSeparator(c)
  {
    assert tag == "preview" ==> forall k :: 0 <= k < |tag| ==> tag[k] != 'c';
  }

  predicate IsRelease(r: string) {
    r != "" && IsDigit(r[|r| - 1]) && forall c :: c in r ==> IsDigit(c) || IsSeparator(c)
  }

  lemma TagNotAt(r: string, tag: string, number: string, other: PreTag, c: char)
    requires IsRelease(r) && IsNumberText(number) && c in other.text
    requires c !in Lowered(tag) && !IsDigit(c) && !IsSeparator(c)
    ensures PreAt(r + tag + number, other) == None
  {
    hide Lowered, FindLast;
    DigitsLowered(r);
    DigitsLowered(number);
    LoweredThree(r, tag, number);
    NotFound(r + Lowered(tag) + number, other.text, c);
  }

  /** A character of the tag that it has only once. */
  function Single(tag: string): nat {
    if tag == "alpha" || tag == "preview" then 1 else 0
  }

  lemma SingleOnce(tag: string, kind: PreReleaseKind)
    requires SpellsKind(tag, kind)
    ensures Single(tag) < |tag| && !IsDigit(tag[Single(tag)]) && !IsSeparator(tag[Single(tag)])
    ensures forall m :: 0 <= m < |tag| && m != Single(tag) ==> tag[m] != tag[Single(tag)]
  {
  }

  lemma TagIsTaken(r: string, tag: string, kind: PreReleaseKind, number: string)
    requires IsRelease(r) && IsNumberText(number) && SpellsKind(Lowered(tag), kind)
    ensures PreAt(r + tag + number, PreTag(Lowered(tag), kind)) == Some((PreRelease(kind, NumberIn(number)), r))
  {
    hide Lowered, FindLast, ParseNumber, NumberIn, SpellsKind;
    DigitsLowered(r);
    DigitsLowered(number);
    LoweredThree(r, tag, number);
    SingleOnce(Lowered(tag), kind);
    FoundOnly(r, Lowered(tag), number, Single(Lowered(tag)));
    CutThree(r, tag, number);
    NumberRead(number);
    NoNumber();
    DigitNoDot(r);
  }

  lemma NoNumber()
    ensures IsNumberText("") && NumberIn("") == 0
  {
  }

  lemma DigitNoDot(r: string)
    requires IsRelease(r)
    ensures r[|r| - 1] != '.'
  {
  }

  lemma PreIsTaken(r: string, pre: Option<PreSpelling>)
    requires IsRelease(r)
    requires pre.Some? ==> SpellsKind(Lowered(pre.value.tag), pre.value.kind) && IsNumberText(pre.value.number)
    ensures SplitPre(r + PreText(pre), PRE_TAGS) ==
            (if pre.Some? then Some(PreRelease(pre.value.kind, NumberIn(pre.value.number))) else None, r)
  {
    hide SplitPre, PreAt, Lowered, NumberIn;
    if pre.Some? {
      var (tag, kind, number) := (pre.value.tag, pre.value.kind, pre.value.number);
      var s := r + tag + number;
      assert r + PreText(pre) == s;
      var k := PlaceOfTag(Lowered(tag));
      TagsDiffer(Lowered(tag), kind);
      forall i | 0 <= i < k ensures PreAt(s, PRE_TAGS[i]) == None {
        TagNotAt(r, tag, number, PRE_TAGS[i], Telling(i, Lowered(tag)));
      }
      TagIsTaken(r, tag, kind, number);
      TagSkipped(s, PRE_TAGS, k);
      FirstTaken(s, PRE_TAGS[k..]);
    } else {
      assert r + PreText(pre) == r;
      NoTagAt(r);
    }
  }

  lemma FirstTaken(s: string, tags: seq<PreTag>)
    requires tags != [] && PreAt(s, tags[0]).Some?
    ensures var (pre, front) := PreAt(s, tags[0]).value; SplitPre(s, tags) == (Some(pre), front)
  {
    hide PreAt;
  }

  lemma NoTagAt(r: string)
    requires forall c :: c in r ==> IsDigit(c) || IsSeparator(c)
    ensures SplitPre(r, PRE_TAGS) == (None, r)
  {
    DigitsLowered(r);
    forall tag | tag in PRE_TAGS ensures PreAt(r, tag) == None {
      assert tag.text[0] in tag.text;
      NotFound(r, tag.text, tag.text[0]);
    }
    NoTags(r, PRE_TAGS);
  }

  // -- The whole text --------------------------------------------------------------------

  /** What stands in front of each part has none of the characters that mark the part. */
  lemma Characters(p: Spelling)
    requires SpellingOk(p)
    ensures var r := ReleaseText(p.parts, p.separators);
            && IsRelease(r) && IsDigit(r[0])
            && BeforePost(r + PreText(p.pre)) && 'd' !in Lowered(r + PreText(p.pre) + PartText(p.post))
  {
    var r := ReleaseText(p.parts, p.separators);
    ReleaseCharacters(p.parts, p.separators);
    DigitsLowered(r);
    LoweredConcat(r, PreText(p.pre));
    LoweredConcat(r + PreText(p.pre), PartText(p.post));
    PreCharacters(p);
    PostCharacters(p);
    hide Lowered, SpellingOk, ReleaseText;
    LastOfPre(r, p);
  }

  lemma PreCharacters(p: Spelling)
    requires SpellingOk(p)
    ensures 'o' !in Lowered(PreText(p.pre)) && 'd' !in Lowered(PreText(p.pre))
    ensures PreText(p.pre) != "" ==> PreText(p.pre)[|PreText(p.pre)| - 1] != '.'
  {
    if p.pre.Some? {
      var (tag, number) := (p.pre.value.tag, p.pre.value.number);
      LoweredConcat(tag, number);
      DigitsLowered(number);
      LoweredDot(tag);
      KindCharacters(Lowered(tag), p.pre.value.kind);
      hide Lowered, SpellsKind;
      assert number != "" ==> number[|number| - 1] in number;
      assert Lowered(tag) != "" ==> Lowered(tag)[|tag| - 1] in Lowered(tag);
    }
  }

  lemma KindCharacters(tag: string, kind: PreReleaseKind)
    requires SpellsKind(tag, kind)
    ensures 'o' !in tag && 'd' !in tag && '.' !in tag && tag != ""
  {
  }

  lemma PostCharacters(p: Spelling)
    requires SpellingOk(p)
    ensures 'd' !in Lowered(PartText(p.post))
  {
    if p.post.Some? {
      var (tag, number) := (p.post.value.tag, p.post.value.number);
      LoweredConcat(tag, number);
      DigitsLowered(number);
      hide Lowered;
    }
  }

  lemma LastOfPre(r: string, p: Spelling)
    requires IsRelease(r) && (PreText(p.pre) != "" ==> PreText(p.pre)[|PreText(p.pre)| - 1] != '.')
    ensures r + PreText(p.pre) != "" && (r + PreText(p.pre))[|r + PreText(p.pre)| - 1] != '.'
  {
    hide PreText;
    if PreText(p.pre) == "" {
      assert r + PreText(p.pre) == r;
    }
  }

  /** The public part is read field by field. */
  lemma PublicIsRead(p: Spelling, epoch: nat, local: seq<string>)
    requires SpellingOk(p)
    ensures ParsePublic(epoch, PublicText(p), local) == Some(VersionOf(p).(epoch := epoch, local := local))
  {
    hide SplitDev, SplitPost, SplitPre, ParseSegments, Split, Versions.Dotted, ReleaseText, PreText, PartText, Lowered,
      NumberIn, LoweredAll, Values, BeforePost, IsRelease;
    var r := ReleaseText(p.parts, p.separators);
    Characters(p);
    TrailOk(p);
    DevIsTaken(r + PreText(p.pre) + PartText(p.post), p.dev);
    PostIsTaken(r + PreText(p.pre), p.post);
    PreWithTrail(r, p.pre, Trail(p.post));
    ReleaseIsRead(p.parts, p.separators, Trail(p.post));
    ValuesNotEmpty(p.parts);
  }

  lemma ValuesNotEmpty(parts: seq<string>)
    requires parts != [] && PartsOk(parts)
    ensures Values(parts) != []
  {
  }

  lemma TrailOk(p: Spelling)
    requires SpellingOk(p)
    ensures IsTrail(Trail(p.post)) && (p.pre.Some? ==> Trail(p.post) == "")
    ensures p.post.Some? ==> PostOk(p.post.value, false)
  {
    hide Lowered;
  }

  lemma PreWithTrail(r: string, pre: Option<PreSpelling>, trail: string)
    requires IsRelease(r) && IsTrail(trail) && (pre.Some? ==> trail == "")
    requires pre.Some? ==> SpellsKind(Lowered(pre.value.tag), pre.value.kind) && IsNumberText(pre.value.number)
    ensures SplitPre(r + PreText(pre) + trail, PRE_TAGS) ==
            (if pre.Some? then Some(PreRelease(pre.value.kind, NumberIn(pre.value.number))) else None, r + trail)
  {
    hide SplitPre, Lowered, NumberIn;
    if trail == "" {
      assert r + PreText(pre) + trail == r + PreText(pre) && r + trail == r;
      PreIsTaken(r, pre);
    } else {
      assert r + PreText(pre) + trail == r + trail;
      NoTagAt(r + trail);
    }
  }

  lemma LeadStripped(lead: string, s: string)
    requires (lead == "" || lead == "v" || lead == "V") && s != "" && IsDigit(s[0])
    ensures StripV(lead + s) == s
  {
    if lead == "" {
      assert lead + s == s;
    }
  }

  /** The text begins with a digit or the lead, and does not end in white space. */
  lemma WholeTrimmed(p: Spelling)
    requires SpellingOk(p)
    ensures var s := EpochText(p) + (PublicText(p) + LocalText(p));
            TextOf(p) == p.lead + s && s != "" && IsDigit(s[0]) && Trim(TextOf(p)) == TextOf(p)
  {
    hide EpochText, PublicText, LocalText, Trim, IsWhitespace, PartsOk, SeparatorsOk, SpellsKind, PostOk, Lowered;
    var s := EpochText(p) + (PublicText(p) + LocalText(p));
    WholeStarts(p);
    WholeEnds(p);
    LeadTrimmed(p.lead, s);
  }

  lemma LeadTrimmed(lead: string, s: string)
    requires (lead == "" || lead == "v" || lead == "V") && s != "" && IsDigit(s[0]) && EndsDark(s)
    ensures Trim(lead + s) == lead + s
  {
    var t := lead + s;
    assert t[0] == 'v' || t[0] == 'V' || IsDigit(t[0]);
    TakeWhileOf("", t, IsWhitespace);
    assert "" + t == t;
    assert t[|t| - 1] == s[|s| - 1];
  }

  lemma PublicStartsWithDigit(p: Spelling)
    requires SpellingOk(p)
    ensures PublicText(p) != "" && IsDigit(PublicText(p)[0])
  {
    hide ReleaseText, PreText, PartText;
    ReleaseCharacters(p.parts, p.separators);
  }

  lemma WholeStarts(p: Spelling)
    requires SpellingOk(p)
    ensures var s := EpochText(p) + (PublicText(p) + LocalText(p)); s != "" && IsDigit(s[0])
  {
    hide PublicText, LocalText;
    PublicStartsWithDigit(p);
    if p.epoch.Some? {
      assert p.epoch.value[0] in p.epoch.value;
    } else {
      assert EpochText(p) + (PublicText(p) + LocalText(p)) == PublicText(p) + LocalText(p);
    }
  }

  predicate EndsDark(s: string) {
    s != "" && !IsWhitespace(s[|s| - 1])
  }

  lemma WholeEnds(p: Spelling)
    requires SpellingOk(p)
    ensures EndsDark(EpochText(p) + (PublicText(p) + LocalText(p)))
  {
    hide PublicText;
    PublicEnds(p);
    if p.local.Some? {
      var l := p.local.value;
      if l == "" {
        assert (PublicText(p) + "+")[|PublicText(p)|] == '+';
      } else {
        LastIsDark(l);
      }
    } else {
      assert PublicText(p) + LocalText(p) == PublicText(p);
    }
  }

  lemma LastIsDark(l: string)
    requires TrimEnd(l) == l && l != ""
    ensures !IsWhitespace(l[|l| - 1])
  {
  }

  lemma PublicEnds(p: Spelling)
    requires SpellingOk(p)
    ensures EndsDark(PublicText(p))
  {
    ReleaseCharacters(p.parts, p.separators);
    var r := ReleaseText(p.parts, p.separators);
    hide ReleaseText;
    PiecesEnd(p);
    hide PreText, PartText, SpellingOk;
    EndsKept(r, PreText(p.pre));
    EndsKept(r + PreText(p.pre), PartText(p.post));
    EndsKept(r + PreText(p.pre) + PartText(p.post), PartText(p.dev));
  }

  lemma EndsKept(a: string, b: string)
    requires EndsDark(a) && (b == "" || EndsDark(b))
    ensures EndsDark(a + b)
  {
    if b == "" {
      assert a + b == a;
    }
  }

  lemma PiecesEnd(p: Spelling)
    requires SpellingOk(p)
    ensures PreText(p.pre) == "" || EndsDark(PreText(p.pre))
    ensures PartText(p.post) == "" || EndsDark(PartText(p.post))
    ensures PartText(p.dev) == "" || EndsDark(PartText(p.dev))
  {
    if p.pre.Some? {
      TaggedEnds(p.pre.value.tag, p.pre.value.number);
    }
    if p.post.Some? {
      TaggedEnds(p.post.value.tag, p.post.value.number);
    }
    if p.dev.Some? {
      TaggedEnds(p.dev.value.tag, p.dev.value.number);
    }
  }

  lemma TaggedEnds(tag: string, number: string)
    requires IsNumberText(number) && tag != "" && IsLowercase(Lowered(tag)[|tag| - 1])
    ensures EndsDark(tag + number)
  {
    if number == "" {
      assert tag + number == tag;
    } else {
      assert number[|number| - 1] in number;
    }
  }

  lemma {:induction false} NoBangInPublic(p: Spelling)
    requires SpellingOk(p)
    ensures forall c :: c in PublicText(p) ==> c != '!' && c != '+'
  {
    hide ReleaseText, Lowered, SpellsKind, PartsOk, SeparatorsOk, IsNumberText;
    ReleaseCharacters(p.parts, p.separators);
    TagsHaveNoMarks(p);
    if p.pre.Some? {
      TaggedCharacters(p.pre.value.tag, p.pre.value.number);
    }
    if p.post.Some? {
      TaggedCharacters(p.post.value.tag, p.post.value.number);
    }
    if p.dev.Some? {
      TaggedCharacters(p.dev.value.tag, p.dev.value.number);
    }
    PiecesJoined(ReleaseText(p.parts, p.separators), PreText(p.pre), PartText(p.post), PartText(p.dev));
  }

  predicate NoMarks(s: string) {
    '!' !in s && '+' !in s
  }

  lemma PiecesJoined(a: string, b: string, c: string, d: string)
    requires NoMarks(a) && NoMarks(b) && NoMarks(c) && NoMarks(d)
    ensures NoMarks(a + b + c + d)
  {
  }

  lemma TagsHaveNoMarks(p: Spelling)
    requires SpellingOk(p)
    ensures p.pre.Some? ==> NoMarks(Lowered(p.pre.value.tag))
    ensures p.post.Some? ==> NoMarks(Lowered(p.post.value.tag))
    ensures p.dev.Some? ==> NoMarks(Lowered(p.dev.value.tag))
  {
    hide Lowered, PartsOk, SeparatorsOk;
  }

  lemma TaggedCharacters(tag: string, number: string)
    requires IsNumberText(number) && '!' !in Lowered(tag) && '+' !in Lowered(tag)
    ensures '!' !in tag + number && '+' !in tag + number
  {
    forall i | 0 <= i < |tag| ensures tag[i] != '!' && tag[i] != '+' {
      assert Lowered(tag)[i] in Lowered(tag);
    }
  }

  /** The local part is split off at the first plus sign. */
  lemma RestIsRead(p: Spelling, epoch: nat)
    requires SpellingOk(p)
    ensures ParseRest(epoch, PublicText(p) + LocalText(p)) == Some(VersionOf(p).(epoch := epoch))
  {
    hide ParsePublic, PublicText, SpellingOk, Find;
    NoBangInPublic(p);
    var s := PublicText(p);
    if p.local.Some? {
      var l := p.local.value;
      assert s + LocalText(p) == s + ['+'] + l;
      CharFoundAfter(s, '+', l);
      assert (s + ['+'] + l)[..|s|] == s && (s + ['+'] + l)[|s| + 1..] == l;
      PublicIsRead(p, epoch, LoweredAll(Split(l, '.')));
    } else {
      assert s + LocalText(p) == s;
      NotFound(s, "+", '+');
      PublicIsRead(p, epoch, []);
    }
  }

  /** Every spelling is read as the version that it stands for. */
  lemma SpellingRead(p: Spelling)
    requires SpellingOk(p)
    ensures Parse(TextOf(p)) == Some(VersionOf(p))
  {
    hide TextOf, Trim, StripV, EpochText, PublicText, LocalText, ParseRest, Find, SpellingOk, VersionOf;
    var s := EpochText(p) + (PublicText(p) + LocalText(p));
    WholeTrimmed(p);
    LeadOk(p);
    LeadStripped(p.lead, s);
    EpochIsRead(p);
    RestIsRead(p, VersionOf(p).epoch);
  }

  /** White space around a spelling does not count. */
  lemma SpellingReadAround(before: string, p: Spelling, after: string)
    requires SpellingOk(p) && IsBlank(before) && IsBlank(after)
    ensures Parse(before + TextOf(p) + after) == Some(VersionOf(p))
  {
    hide TextOf, Trim, StripV, ParseRest, Find, SpellingOk, VersionOf, IsWhitespace;
    var s := TextOf(p);
    SpellingRead(p);
    WholeTrimmed(p);
    TrimmedIsDark(s);
    TrimAround(before, s, after);
    TextNotEmpty(p);
  }

  lemma TextNotEmpty(p: Spelling)
    requires SpellingOk(p)
    ensures TextOf(p) != ""
  {
    hide PublicText;
    PublicStartsWithDigit(p);
  }

  lemma TrimmedIsDark(s: string)
    requires Trim(s) == s && s != ""
    ensures !IsWhitespace(s[0]) && !IsWhitespace(s[|s| - 1])
  {
    hide SkipWhitespace, TrimEnd, IsWhitespace;
    SkippedNothing(s);
    LastIsDark(s);
  }

  lemma SkippedNothing(s: string)
    ensures |SkipWhitespace(s)| == |s| ==> SkipWhitespace(s) == s
  {
    hide IsWhitespace;
  }

  lemma LeadOk(p: Spelling)
    requires SpellingOk(p)
    ensures p.lead == "" || p.lead == "v" || p.lead == "V"
  {
  }

  lemma EpochIsRead(p: Spelling)
    requires SpellingOk(p)
    ensures var s := EpochText(p) + (PublicText(p) + LocalText(p));
            match Find(s, "!")
            case None => VersionOf(p).epoch == 0 && s == PublicText(p) + LocalText(p)
            case Some(i) =>
              && ParseNumber(s[..i], MAX_U32) == Some(VersionOf(p).epoch)
              && s[i + 1..] == PublicText(p) + LocalText(p)
  {
    hide Find, ParseNumber, NumberIn, PublicText, Values;
    NoBangInPublic(p);
    var rest := PublicText(p) + LocalText(p);
    if p.epoch.Some? {
      var e := p.epoch.value;
      assert EpochText(p) + rest == e + ['!'] + rest;
      NoBangInDigits(e);
      CharFoundAfter(e, '!', rest);
      assert (e + ['!'] + rest)[..|e|] == e && (e + ['!'] + rest)[|e| + 1..] == rest;
      NumberRead(e);
    } else {
      assert EpochText(p) + rest == rest;
      assert '!' !in rest;
      NotFound(rest, "!", '!');
    }
  }

  lemma NoBangInDigits(s: string)
    requires IsNumberText(s)
    ensures '!' !in s
  {
  }

  /** Two spellings of one version are read alike, for one its printed text. */
  lemma SpellingIsNormal(p: Spelling)
    requires SpellingOk(p) && p.local.None?
    ensures Parse(TextOf(p)) == Parse(Print(VersionOf(p)))
  {
    hide Parse, Print, TextOf, InWidth;
    SpellingRead(p);
    WidthOf(p);
    RoundTripExact(VersionOf(p));
  }

  lemma WidthOf(p: Spelling)
    requires SpellingOk(p)
    ensures InWidth(VersionOf(p)) && VersionOf(p).release != []
    ensures p.local.None? ==> LocalPrintable(VersionOf(p))
  {
    hide NumberIn, Lowered, Values, LoweredAll;
    ValuesInWidth(p.parts);
    ValuesNotEmpty(p.parts);
    NumbersInWidth(p);
  }

  lemma NumbersInWidth(p: Spelling)
    requires SpellingOk(p)
    ensures p.epoch.Some? ==> NumberIn(p.epoch.value) <= MAX_U32
    ensures p.pre.Some? ==> NumberIn(p.pre.value.number) <= MAX_U32
    ensures p.post.Some? ==> NumberIn(p.post.value.number) <= MAX_U32
    ensures p.dev.Some? ==> NumberIn(p.dev.value.number) <= MAX_U32
  {
    hide Lowered;
  }

  lemma ValuesInWidth(parts: seq<string>)
    requires PartsOk(parts)
    ensures forall n :: n in Values(parts) ==> n <= MAX_U32
  {
  }
}
