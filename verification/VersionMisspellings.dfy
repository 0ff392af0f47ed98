/** Texts that are close to the usual spellings of versions: some are invalid, in others an
    unreadable number counts as zero. */
module VersionMisspellings {
  import opened Numerals
  import opened Options
  import opened Texts
  import opened VersionRoundTrips
  import opened VersionSpellings
  import opened Versions

  // -- Unreadable release numbers --------------------------------------------------------

  lemma {:induction false} BadSegment(parts: seq<string>, bad: string)
    requires bad != "" && ParseSegment(bad) == None
    ensures ParseSegments(parts + [bad]) == None
  {
    if parts == [] {
      assert parts + [bad] == [bad];
    } else {
      assert (parts + [bad])[1..] == parts[1..] + [bad];
      BadSegment(parts[1..], bad);
    }
  }

  lemma NotSegment(s: string, c: char)
    requires c in s && !IsDigit(c) && c != '+'
    ensures ParseSegment(s) == None
  {
    var t := DropWhile(s, IsZero);
    var zeros := TakeWhile(s, IsZero);
    assert s == zeros + t;
    assert c in t;
    if t[0] == '+' {
      assert t == ['+'] + t[1..];
    }
  }

  lemma {:induction false} JoinMore(parts: seq<string>, last: string)
    requires parts != []
    ensures Join(parts + [last], ".") == Join(parts, ".") + "." + last
  {
    if |parts| == 1 {
      assert (parts + [last])[1..] == [last];
    } else {
      assert (parts + [last])[1..] == parts[1..] + [last];
      JoinMore(parts[1..], last);
    }
  }

  /** Letters and digits, a letter first, and no letters of the other tags. */
  predicate IsTagged(s: string) {
    s != "" && IsLowercase(LowerChar(s[0])) && (forall c :: c in s ==> IsDigit(c) || IsLowercase(LowerChar(c)))
  }

  lemma TaggedDotted(s: string)
    requires IsTagged(s)
    ensures Versions.Dotted(s) == s && '.' !in s
  {
    assert forall i :: 0 <= i < |s| ==> s[i] in s;
  }

  /** A pre-release or the like after a separator makes the release unreadable. */
  lemma SeparatedSegmentsFail(parts: seq<string>, separators: seq<char>, separator: char, tagged: string)
    requires |parts| >= 1 && |separators| == |parts| - 1 && PartsOk(parts) && SeparatorsOk(separators)
    requires IsSeparator(separator) && IsTagged(tagged)
    ensures ParseSegments(Split(Versions.Dotted(ReleaseText(parts, separators) + [separator] + tagged), '.')) == None
  {
    hide ReleaseText, ParseSegments, ParseSegment, Split, Join, IsNumberText, Versions.Dotted;
    var all := parts + [tagged];
    TaggedDotted(tagged);
    forall part | part in all ensures '.' !in part {
      if part in parts {
        var i :| 0 <= i < |parts| && parts[i] == part;
        NumberHasNoDot(parts[i]);
      }
    }
    ReleaseDotted(parts, separators);
    DottedConcat(ReleaseText(parts, separators) + [separator], tagged);
    DottedConcat(ReleaseText(parts, separators), [separator]);
    SeparatorDotted(separator);
    JoinMore(parts, tagged);
    SplitOfJoin(all, '.');
    assert tagged[0] in tagged;
    LetterNoDigit(tagged[0]);
    NotSegment(tagged, tagged[0]);
    BadSegment(parts, tagged);
  }

  lemma SeparatorDotted(separator: char)
    requires IsSeparator(separator)
    ensures Versions.Dotted([separator]) == "."
  {
  }

  lemma LetterNoDigit(c: char)
    requires IsLowercase(LowerChar(c))
    ensures !IsDigit(c) && c != '+' && c != '!'
  {
  }

  /** A tag counts only directly after a digit. */
  lemma SeparatedTagMissed(r: string, separator: char, tag: string, number: string, other: PreTag)
    requires IsRelease(r) && IsSeparator(separator) && IsNumberText(number)
    requires tag != "" && (forall c :: c in tag ==> IsLowercase(LowerChar(c)))
    requires other.text != "" && IsLowercase(other.text[0])
    ensures PreAt(r + [separator] + tag + number, other) == None
  {
    hide FindLast, ParseNumber, Lowered, IsRelease, IsNumberText;
    var s := r + [separator] + tag + number;
    var l := Lowered(s);
    LoweredDot(s);
    FindLastExact(l, other.text);
    match FindLast(l, other.text)
    case None =>
    case Some(i) =>
      assert Occurs(l, other.text, i) && l[i + 0] == other.text[0];
      LettersInTag(r, separator, tag, number, i);
      if i > 0 {
        LettersInTag(r, separator, tag, number, i - 1);
      }
  }

  /** All letters are in the tag, and no digits are there or in front of it. */
  lemma LettersInTag(r: string, separator: char, tag: string, number: string, i: nat)
    requires IsRelease(r) && IsSeparator(separator) && IsNumberText(number)
    requires tag != "" && (forall c :: c in tag ==> IsLowercase(LowerChar(c)))
    requires i < |r + [separator] + tag + number|
    ensures var l := Lowered(r + [separator] + tag + number);
            && |l| == |r + [separator] + tag + number|
            && (i <= |r| || i >= |r| + 1 + |tag| ==> !IsLowercase(l[i]))
            && (|r| <= i < |r| + 1 + |tag| ==> !IsDigit(l[i]))
  {
    var s := r + [separator] + tag + number;
    if i < |r| {
      assert s[i] == r[i] && r[i] in r;
    } else if i == |r| {
      assert s[i] == separator;
    } else if i < |r| + 1 + |tag| {
      assert s[i] == tag[i - |r| - 1] && tag[i - |r| - 1] in tag;
    } else {
      assert s[i] == number[i - |r| - 1 - |tag|] && s[i] in number;
    }
  }

  /** A separator in front of a pre-release makes the whole text invalid. */
  lemma SeparatedPreUnread(parts: seq<string>, separators: seq<char>, separator: char, pre: PreSpelling)
    requires |parts| >= 1 && |separators| == |parts| - 1 && PartsOk(parts) && SeparatorsOk(separators)
    requires IsSeparator(separator) && SpellsKind(Lowered(pre.tag), pre.kind) && IsNumberText(pre.number)
    ensures Parse(ReleaseText(parts, separators) + [separator] + pre.tag + pre.number) == None
  {
    hide ReleaseText, SplitPre, ParseSegments, Split, Find, FindLast, Versions.Dotted, IsNumberText, PreAt, SplitDev,
      SplitPost, StripV, Trim, SpellsKind, IsTagged, Lowered, LowerChar, PartsOk, SeparatorsOk;
    var r := ReleaseText(parts, separators);
    var s := r + [separator] + pre.tag + pre.number;
    ReleaseCharacters(parts, separators);
    TagLetters(pre.tag, pre.kind);
    NumberDigits(pre.number);
    SeparatedTagged(pre.tag, pre.number);
    forall tag | tag in PRE_TAGS ensures PreAt(s, tag) == None {
      TagBegins(tag);
      SeparatedTagMissed(r, separator, pre.tag, pre.number, tag);
    }
    NoTags(s, PRE_TAGS);
    assert s == r + [separator] + (pre.tag + pre.number);
    SeparatedSegmentsFail(parts, separators, separator, pre.tag + pre.number);
    PlainText(r, separator, pre.tag, pre.number);
  }

  lemma TagBegins(tag: PreTag)
    requires tag in PRE_TAGS
    ensures tag.text != "" && IsLowercase(tag.text[0])
  {
  }

  lemma TagLetters(tag: string, kind: PreReleaseKind)
    requires SpellsKind(Lowered(tag), kind)
    ensures tag != ""
    ensures forall c :: c in tag ==> IsLowercase(LowerChar(c)) && LowerChar(c) != 'o' && LowerChar(c) != 'd'
  {
    LettersOf(Lowered(tag), kind);
    forall i | 0 <= i < |tag|
      ensures IsLowercase(LowerChar(tag[i])) && LowerChar(tag[i]) != 'o' && LowerChar(tag[i]) != 'd'
    {
      assert Lowered(tag)[i] == LowerChar(tag[i]) && Lowered(tag)[i] in Lowered(tag);
    }
  }

  lemma LettersOf(tag: string, kind: PreReleaseKind)
    requires SpellsKind(tag, kind)
    ensures tag != "" && forall c :: c in tag ==> IsLowercase(c) && c != 'o' && c != 'd'
  {
  }

  lemma NumberDigits(number: string)
    requires IsNumberText(number)
    ensures forall c :: c in number ==> IsDigit(c)
  {
  }

  lemma SeparatedTagged(tag: string, number: string)
    requires tag != "" && forall c :: c in tag ==> IsLowercase(LowerChar(c))
    requires forall c :: c in number ==> IsDigit(c)
    ensures IsTagged(tag + number)
  {
    assert tag[0] in tag;
  }

  /** Nothing of such a text is taken for another part. */
  lemma PlainText(r: string, separator: char, tag: string, number: string)
    requires IsRelease(r) && IsDigit(r[0]) && IsSeparator(separator) && (forall c :: c in number ==> IsDigit(c))
    requires tag != ""
    requires forall c :: c in tag ==> IsLowercase(LowerChar(c)) && LowerChar(c) != 'o' && LowerChar(c) != 'd'
    ensures var s := r + [separator] + tag + number;
            StripV(Trim(s)) == s && Find(s, "!") == None && Find(s, "+") == None && SplitDev(s) == Split2(None, s)
            && SplitPost(s) == Split2(None, s)
  {
    hide Find, FindLast, SplitDev, SplitPost, PlainCharacter, StripV, Trim, LowerChar, IsRelease;
    var s := r + [separator] + tag + number;
    forall i | 0 <= i < |s| ensures PlainCharacter(s[i]) {
      CharacterOf(r, separator, tag, number, i);
    }
    PlainFinds(s);
    PlainTrimmed(s);
    assert s[0] == r[0] by {
      ReleaseNotEmpty(r);
    }
  }

  lemma ReleaseNotEmpty(r: string)
    requires IsRelease(r)
    ensures r != ""
  {
  }

  lemma PlainTrimmed(s: string)
    requires forall i :: 0 <= i < |s| ==> PlainCharacter(s[i])
    ensures s != "" && IsDigit(s[0]) ==> StripV(Trim(s)) == s
  {
    if s != "" {
      TakeWhileOf("", s, IsWhitespace);
      assert "" + s == s;
    }
  }

  /** Neither white space, nor a mark, nor a letter that only later parts have. */
  predicate PlainCharacter(c: char) {
    IsDigit(c) || IsSeparator(c) || (IsLowercase(LowerChar(c)) && LowerChar(c) != 'o' && LowerChar(c) != 'd')
  }

  lemma CharacterOf(r: string, separator: char, tag: string, number: string, i: nat)
    requires IsRelease(r) && IsSeparator(separator) && (forall c :: c in number ==> IsDigit(c))
    requires forall c :: c in tag ==> IsLowercase(LowerChar(c)) && LowerChar(c) != 'o' && LowerChar(c) != 'd'
    requires i < |r + [separator] + tag + number|
    ensures PlainCharacter((r + [separator] + tag + number)[i])
  {
    var s := r + [separator] + tag + number;
    if i < |r| {
      assert s[i] == r[i] && r[i] in r;
    } else if |r| < i < |r| + 1 + |tag| {
      assert s[i] == tag[i - |r| - 1] && s[i] in tag;
    } else if i > |r| {
      assert s[i] == number[i - |r| - 1 - |tag|] && s[i] in number;
    }
  }

  lemma PlainFinds(s: string)
    requires forall i :: 0 <= i < |s| ==> PlainCharacter(s[i])
    ensures Find(s, "!") == None && Find(s, "+") == None
    ensures SplitDev(s) == Split2(None, s) && SplitPost(s) == Split2(None, s)
  {
    hide Find, Lowered, PlainCharacter;
    PlainLowered(s);
    NotFound(s, "!", '!');
    NotFound(s, "+", '+');
    NotFound(Lowered(s), ".dev", 'd');
    NotFound(Lowered(s), "dev", 'd');
    NotFound(Lowered(s), ".post", 'o');
    NotFound(Lowered(s), "post", 'o');
  }

  lemma PlainLowered(s: string)
    requires forall i :: 0 <= i < |s| ==> PlainCharacter(s[i])
    ensures '!' !in s && '+' !in s && 'o' !in Lowered(s) && 'd' !in Lowered(s)
  {
    assert forall i :: 0 <= i < |s| ==> Lowered(s)[i] != 'o' && Lowered(s)[i] != 'd';
  }

  lemma {:induction false} JoinLonger(parts: seq<string>, more: string)
    requires parts != []
    ensures Join(parts, ".") + more == Join(parts[..|parts| - 1] + [parts[|parts| - 1] + more], ".")
  {
    var longer := parts[..|parts| - 1] + [parts[|parts| - 1] + more];
    if |parts| > 1 {
      JoinLonger(parts[1..], more);
      assert longer[1..] == parts[1..][..|parts| - 2] + [parts[1..][|parts| - 2] + more];
      assert longer[0] == parts[0];
    } else {
      assert longer == [parts[0] + more];
    }
  }

  lemma TaggedReleaseFails(parts: seq<string>, separators: seq<char>, tagged: string)
    requires |parts| >= 1 && |separators| == |parts| - 1 && PartsOk(parts) && SeparatorsOk(separators)
    requires IsTagged(tagged)
    ensures ParseSegments(Split(Versions.Dotted(ReleaseText(parts, separators) + tagged), '.')) == None
  {
    hide ReleaseText, ParseSegments, ParseSegment, Split, Join, IsNumberText, Versions.Dotted;
    var last := parts[|parts| - 1] + tagged;
    var all := parts[..|parts| - 1] + [last];
    TaggedDotted(tagged);
    forall part | part in all ensures '.' !in part {
      var i :| 0 <= i < |all| && all[i] == part;
      NumberHasNoDot(parts[i]);
    }
    ReleaseDotted(parts, separators);
    DottedConcat(ReleaseText(parts, separators), tagged);
    JoinLonger(parts, tagged);
    SplitOfJoin(all, '.');
    assert tagged[0] in last;
    LetterNoDigit(tagged[0]);
    NotSegment(last, tagged[0]);
    BadSegment(parts[..|parts| - 1], last);
  }

  lemma UndottedDevMissed(r: string, tag: string, number: string)
    requires IsRelease(r) && Lowered(tag) == "dev" && IsNumberText(number)
    ensures SplitDev(r + tag + number) == Split2(None, r + tag + number)
    ensures SplitPost(r + tag + number) == Split2(None, r + tag + number)
  {
    hide Find, ParseNumber, Lowered;
    DigitsLowered(r);
    DigitsLowered(number);
    LoweredThree(r, tag, number);
    FoundOnly(r, "dev", number, 0);
    DigitNoDot(r);
    NoDotBeforeDev(r, number);
    NoPostThere(r, number);
  }

  lemma NoPostThere(r: string, number: string)
    requires IsRelease(r) && IsNumberText(number)
    ensures Find(r + "dev" + number, ".post") == None && Find(r + "dev" + number, "post") == None
  {
    hide Find;
    NotFound(r + "dev" + number, ".post", 'o');
    NotFound(r + "dev" + number, "post", 'o');
  }

  lemma NoDotBeforeDev(r: string, number: string)
    requires IsRelease(r) && IsNumberText(number)
    ensures Find(r + "dev" + number, ".dev") == None
  {
    hide Find;
    var s := r + "dev" + number;
    DigitNoDot(r);
    FindExact(s, ".dev");
    forall i: nat ensures !Occurs(s, ".dev", i) {
      if i + 1 != |r| {
        if i + 1 < |s| {
          OnlyThere(r, "dev", number, 0, i + 1);
        }
        OtherCharacter(s, ".dev", i, 1);
      } else {
        assert s[i] == r[|r| - 1];
        OtherCharacter(s, ".dev", i, 0);
      }
    }
  }

  /** A development part without the dot makes the whole text invalid. */
  lemma UndottedDevUnread(parts: seq<string>, separators: seq<char>, tag: string, number: string)
    requires |parts| >= 1 && |separators| == |parts| - 1 && PartsOk(parts) && SeparatorsOk(separators)
    requires Lowered(tag) == "dev" && IsNumberText(number)
    ensures Parse(ReleaseText(parts, separators) + tag + number) == None
  {
    hide ReleaseText, SplitPre, ParseSegments, Split, Find, FindLast, Versions.Dotted, IsNumberText, PreAt, SplitDev,
      SplitPost, StripV, Trim, IsTagged, Lowered, LowerChar, PartsOk, SeparatorsOk;
    var r := ReleaseText(parts, separators);
    var s := r + tag + number;
    ReleaseCharacters(parts, separators);
    UndottedDevMissed(r, tag, number);
    forall other | other in PRE_TAGS ensures PreAt(s, other) == None {
      TellingDev(other);
      TagNotAt(r, tag, number, other, other.text[0]);
    }
    NoTags(s, PRE_TAGS);
    DevTagged(tag, number);
    assert s == r + (tag + number);
    TaggedReleaseFails(parts, separators, tag + number);
    DevPlain(r, tag, number);
  }

  lemma TellingDev(other: PreTag)
    requires other in PRE_TAGS
    ensures other.text != "" && other.text[0] in other.text && other.text[0] !in "dev"
    ensures !IsDigit(other.text[0]) && !IsSeparator(other.text[0])
  {
  }

  lemma DevLetters(tag: string)
    requires Lowered(tag) == "dev"
    ensures tag != "" && forall c :: c in tag ==> IsLowercase(LowerChar(c))
  {
    forall i | 0 <= i < |tag| ensures IsLowercase(LowerChar(tag[i])) {
      assert Lowered(tag)[i] == LowerChar(tag[i]);
    }
  }

  lemma DevTagged(tag: string, number: string)
    requires Lowered(tag) == "dev" && IsNumberText(number)
    ensures IsTagged(tag + number)
  {
    hide Lowered, LowerChar;
    DevLetters(tag);
    NumberDigits(number);
    SeparatedTagged(tag, number);
  }

  lemma DevPlain(r: string, tag: string, number: string)
    requires IsRelease(r) && IsDigit(r[0]) && Lowered(tag) == "dev" && IsNumberText(number)
    ensures var s := r + tag + number; StripV(Trim(s)) == s && Find(s, "!") == None && Find(s, "+") == None
  {
    hide Find, StripV, Trim, Lowered, LowerChar;
    var s := r + tag + number;
    DevLetters(tag);
    NumberDigits(number);
    forall c | c in s ensures DevCharacter(c) {
    }
    NoMark(s);
    DevTrimmed(s);
    assert s[0] == r[0];
  }

  predicate DevCharacter(c: char) {
    IsDigit(c) || IsSeparator(c) || IsLowercase(LowerChar(c))
  }

  lemma NoMark(s: string)
    requires forall c :: c in s ==> DevCharacter(c)
    ensures Find(s, "!") == None && Find(s, "+") == None
  {
    hide Find;
    assert '!' !in s && '+' !in s;
    NotFound(s, "!", '!');
    NotFound(s, "+", '+');
  }

  lemma DevTrimmed(s: string)
    requires s != "" && IsDigit(s[0]) && forall c :: c in s ==> DevCharacter(c)
    ensures StripV(Trim(s)) == s
  {
    assert s[|s| - 1] in s;
    TakeWhileOf("", s, IsWhitespace);
    assert "" + s == s;
  }

  // -- Unreadable numbers after tags -----------------------------------------------------

  /** What follows the tag of a development or post-release is zero if it is no number. */
  lemma UnreadableCountsAsZero(front: string, tag: string, junk: string)
    requires ParseNumber(junk, MAX_U32) == None
    ensures Lowered(tag) == ".dev" && 'd' !in Lowered(front) && 'd' !in Lowered(junk) ==>
              SplitDev(front + tag + junk) == Split2(Some(0), front)
    ensures Lowered(tag) == ".post" && 's' !in Lowered(front) && 's' !in Lowered(junk) ==>
              SplitPost(front + tag + junk) == Split2(Some(0), front)
  {
    hide Lowered, ParseNumber, Find, TrimDots;
    LoweredThree(front, tag, junk);
    CutThree(front, tag, junk);
    if Lowered(tag) == ".dev" && 'd' !in Lowered(front) && 'd' !in Lowered(junk) {
      FoundOnly(Lowered(front), ".dev", Lowered(junk), 1);
    }
    if Lowered(tag) == ".post" && 's' !in Lowered(front) && 's' !in Lowered(junk) {
      FoundOnly(Lowered(front), ".post", Lowered(junk), 3);
    }
  }

  /** A letter that no tag has. */
  predicate IsForeign(c: char) {
    IsLowercase(LowerChar(c)) && LowerChar(c) !in "abcdehiloprstvw"
  }

  /** Such a letter, and digits and such letters after it. */
  predicate IsJunk(s: string) {
    s != "" && IsForeign(s[0]) && forall c :: c in s ==> IsForeign(c) || IsDigit(c)
  }

  lemma LettersOfTags(tag: PreTag)
    requires tag in PRE_TAGS
    ensures tag.text != "" && forall c :: c in tag.text ==> c in "abcdehiloprstvw"
  {
  }

  lemma NotForeign(c: char)
    requires c in "abcdehiloprstvw"
    ensures IsLowercase(c) && !IsForeign(c)
  {
  }

  lemma TagsAreNotForeign(tag: PreTag)
    requires tag in PRE_TAGS
    ensures tag.text != "" && forall c :: c in tag.text ==> IsLowercase(c) && !IsForeign(c)
  {
    hide IsForeign;
    LettersOfTags(tag);
    forall c | c in tag.text ensures IsLowercase(c) && !IsForeign(c) {
      NotForeign(c);
    }
  }

  lemma JunkLowered(s: string, i: nat)
    requires i < |s| && (IsForeign(s[i]) || IsDigit(s[i]))
    ensures IsForeign(Lowered(s)[i]) || IsDigit(Lowered(s)[i])
  {
  }

  lemma NotNumber(s: string, i: nat)
    requires i < |s| && IsForeign(s[i])
    ensures ParseNumber(s, MAX_U32) == None
  {
    LetterNoDigit(s[i]);
    assert s[i] in s;
    assert s[0] == '+' ==> s[i] == s[1..][i - 1] && s[i] in s[1..];
  }

  /** With such a letter behind it no tag counts. */
  lemma JunkMissed(front: string, junk: string, tag: PreTag)
    requires IsJunk(junk) && tag in PRE_TAGS
    ensures PreAt(front + junk, tag) == None
  {
    hide FindLast, ParseNumber, Lowered, IsForeign, IsDigit;
    var s := front + junk;
    var l := Lowered(s);
    LoweredConcat(front, junk);
    TagsAreNotForeign(tag);
    FindLastExact(l, tag.text);
    match FindLast(l, tag.text)
    case None =>
    case Some(i) =>
      JunkAfter(front, junk, tag, i);
      assert s[|front|] == junk[0];
      NotNumber(s[i + |tag.text|..], |front| - i - |tag.text|);
  }

  lemma LoweredLength(s: string)
    ensures |Lowered(s)| == |s|
  {
  }

  lemma NoTagLetter(l: string, tag: PreTag, i: nat, j: nat)
    requires tag in PRE_TAGS && Occurs(l, tag.text, i) && i <= j < i + |tag.text|
    ensures !IsForeign(l[j]) && !IsDigit(l[j])
  {
    hide IsForeign;
    TagsAreNotForeign(tag);
    assert l[i + (j - i)] == tag.text[j - i] && tag.text[j - i] in tag.text;
  }

  lemma JunkAfter(front: string, junk: string, tag: PreTag, i: nat)
    requires IsJunk(junk) && tag in PRE_TAGS && Occurs(Lowered(front + junk), tag.text, i)
    ensures |Lowered(front + junk)| == |front + junk| && i + |tag.text| <= |front|
  {
    hide Lowered, IsForeign, LowerChar;
    var s := front + junk;
    LoweredLength(s);
    if i + |tag.text| > |front| {
      var j := if i <= |front| then |front| else i;
      assert s[j] == junk[j - |front|] && s[j] in junk;
      JunkLowered(s, j);
      NoTagLetter(Lowered(s), tag, i, j);
    }
  }

  /** A pre-release with something unreadable after its number makes the whole text invalid. */
  lemma JunkAfterPreUnread(parts: seq<string>, separators: seq<char>, pre: PreSpelling, junk: string)
    requires |parts| >= 1 && |separators| == |parts| - 1 && PartsOk(parts) && SeparatorsOk(separators)
    requires SpellsKind(Lowered(pre.tag), pre.kind) && IsNumberText(pre.number) && IsJunk(junk)
    ensures Parse(ReleaseText(parts, separators) + pre.tag + pre.number + junk) == None
  {
    hide ReleaseText, SplitPre, ParseSegments, Split, Find, FindLast, Versions.Dotted, IsNumberText, PreAt, SplitDev,
      SplitPost, StripV, Trim, SpellsKind, IsTagged, Lowered, LowerChar, PartsOk, SeparatorsOk, IsJunk;
    var r := ReleaseText(parts, separators);
    var s := r + pre.tag + pre.number + junk;
    ReleaseCharacters(parts, separators);
    TagLetters(pre.tag, pre.kind);
    NumberDigits(pre.number);
    forall tag | tag in PRE_TAGS ensures PreAt(s, tag) == None {
      JunkMissed(r + pre.tag + pre.number, junk, tag);
    }
    NoTags(s, PRE_TAGS);
    assert s == r + (pre.tag + pre.number + junk);
    JunkRead(parts, separators, pre.tag, pre.number, junk);
  }

  lemma JunkRead(parts: seq<string>, separators: seq<char>, tag: string, number: string, junk: string)
    requires |parts| >= 1 && |separators| == |parts| - 1 && PartsOk(parts) && SeparatorsOk(separators)
    requires forall c :: c in tag ==> IsLowercase(LowerChar(c)) && LowerChar(c) != 'o' && LowerChar(c) != 'd'
    requires tag != "" && (forall c :: c in number ==> IsDigit(c)) && IsJunk(junk)
    ensures var s := ReleaseText(parts, separators) + tag + number + junk;
            && ParseSegments(Split(Versions.Dotted(s), '.')) == None
            && StripV(Trim(s)) == s && Find(s, "!") == None && Find(s, "+") == None && SplitDev(s) == Split2(None, s)
            && SplitPost(s) == Split2(None, s)
  {
    hide ReleaseText, ParseSegments, Split, Find, Versions.Dotted, SplitDev, SplitPost, StripV, Trim, IsTagged,
      LowerChar, PartsOk, SeparatorsOk, IsJunk, PlainCharacter;
    var r := ReleaseText(parts, separators);
    var s := r + tag + number + junk;
    ReleaseCharacters(parts, separators);
    ReleaseNotEmpty(r);
    JunkTagged(tag, number, junk);
    assert s == r + (tag + number + junk);
    TaggedReleaseFails(parts, separators, tag + number + junk);
    JunkPlain(r, tag, number, junk);
    PlainFinds(s);
    PlainTrimmed(s);
  }

  lemma JunkTagged(tag: string, number: string, junk: string)
    requires tag != "" && (forall c :: c in tag ==> IsLowercase(LowerChar(c))) && IsJunk(junk)
    requires forall c :: c in number ==> IsDigit(c)
    ensures IsTagged(tag + number + junk)
  {
    hide LowerChar;
    assert tag[0] in tag;
  }

  lemma JunkPlain(r: string, tag: string, number: string, junk: string)
    requires IsRelease(r) && (forall c :: c in number ==> IsDigit(c)) && IsJunk(junk)
    requires forall c :: c in tag ==> IsLowercase(LowerChar(c)) && LowerChar(c) != 'o' && LowerChar(c) != 'd'
    ensures var s := r + tag + number + junk; forall i :: 0 <= i < |s| ==> PlainCharacter(s[i])
  {
    hide LowerChar;
    var s := r + tag + number + junk;
    forall c | c in s ensures PlainCharacter(c) {
      if c in junk {
        assert IsForeign(c) || IsDigit(c);
      }
    }
  }

  // -- Unreadable epochs, and no release -------------------------------------------------

  /** What stands in front of an exclamation mark must be a number. */
  lemma BadEpochUnread(epoch: string, rest: string)
    requires '!' !in epoch && ParseNumber(epoch, MAX_U32) == None
    requires epoch != "" && !IsWhitespace(epoch[0]) && epoch[0] != 'v' && epoch[0] != 'V'
    requires rest != "" && !IsWhitespace(rest[|rest| - 1])
    ensures Parse(epoch + "!" + rest) == None
  {
    hide Find, ParseNumber, Trim, IsWhitespace, ParseRest;
    var s := epoch + "!" + rest;
    CharFoundAfter(epoch, '!', rest);
    assert s == epoch + ['!'] + rest;
    assert s[..|epoch|] == epoch && s[0] == epoch[0] && s[|s| - 1] == rest[|rest| - 1];
    TrimAround("", s, "");
    assert "" + s + "" == s;
  }

  lemma SeparatorsDotted(s: string)
    requires forall c :: c in s ==> IsSeparator(c)
    ensures forall i :: 0 <= i < |Versions.Dotted(s)| ==> Versions.Dotted(s)[i] == '.'
  {
    assert forall i :: 0 <= i < |s| ==> s[i] in s;
  }

  lemma {:induction false} DotsSplit(s: string)
    requires forall i :: 0 <= i < |s| ==> s[i] == '.'
    ensures ParseSegments(Split(s, '.')) == Some([])
  {
    if s != "" {
      DotsSplit(s[1..]);
      assert ([""] + Split(s[1..], '.'))[1..] == Split(s[1..], '.');
    } else {
      assert [""][1..] == [];
    }
  }

  lemma SeparatorsMissed(s: string, tag: PreTag)
    requires (forall c :: c in s ==> IsSeparator(c)) && tag in PRE_TAGS
    ensures PreAt(s, tag) == None
  {
    hide FindLast, Lowered;
    FindLastExact(Lowered(s), tag.text);
    TagsAreNotForeign(tag);
    SeparatorsLowered(s);
    match FindLast(Lowered(s), tag.text)
    case None =>
    case Some(i) =>
      assert i > 0 ==> IsSeparator(Lowered(s)[i - 1]);
  }

  lemma SeparatorsLowered(s: string)
    requires forall c :: c in s ==> IsSeparator(c)
    ensures |Lowered(s)| == |s| && forall i :: 0 <= i < |s| ==> IsSeparator(Lowered(s)[i])
  {
    assert forall i :: 0 <= i < |s| ==> s[i] in s;
  }

  /** Separators alone are no version. */
  lemma SeparatorsUnread(s: string)
    requires forall c :: c in s ==> IsSeparator(c)
    ensures Parse(s) == None
  {
    hide ParseSegments, Split, SplitPre, PreAt, Versions.Dotted, Find, SplitDev, SplitPost, Trim, Lowered;
    SeparatorsTrimmed(s);
    forall tag | tag in PRE_TAGS ensures PreAt(s, tag) == None {
      SeparatorsMissed(s, tag);
    }
    NoTags(s, PRE_TAGS);
    SeparatorsDotted(s);
    DotsSplit(Versions.Dotted(s));
    PlainSeparators(s);
    PlainFinds(s);
  }

  lemma PlainSeparators(s: string)
    requires forall c :: c in s ==> IsSeparator(c)
    ensures forall i :: 0 <= i < |s| ==> PlainCharacter(s[i])
  {
  }

  lemma SeparatorsTrimmed(s: string)
    requires forall c :: c in s ==> IsSeparator(c)
    ensures StripV(Trim(s)) == s
  {
    if s != "" {
      assert s[0] in s && s[|s| - 1] in s;
      TrimAround("", s, "");
      assert "" + s + "" == s;
    }
  }
}
