/** Text as the parsers and printers see it: sequences of Unicode characters. */
module Texts {
  import opened Options

  /** The characters with the Unicode property White_Space. */
  predicate IsWhitespace(c: char) {
    || '\t' <= c <= '\r' || c == ' ' || c == '\U{0085}' || c == '\U{00A0}' || c == '\U{1680}'
    || '\U{2000}' <= c <= '\U{200A}' || c == '\U{2028}' || c == '\U{2029}' || c == '\U{202F}'
    || c == '\U{205F}' || c == '\U{3000}'
  }

  predicate IsDigit(c: char) {
    '0' <= c <= '9'
  }

  predicate IsLowercase(c: char) {
    'a' <= c <= 'z'
  }

  /** ASCII letters and digits. */
  predicate IsAlphanumeric(c: char) {
    IsDigit(c) || IsLowercase(c) || 'A' <= c <= 'Z'
  }

  predicate StartsWith(s: string, prefix: string) {
    |prefix| <= |s| && s[..|prefix|] == prefix
  }

  lemma ThreeParts(a: string, b: string, c: string)
    ensures var s := a + b + c;
            && s[..|a|] == a && s[|a| + |b|..] == c
            && (a != "" ==> s[|a| - 1] == a[|a| - 1])
  {
  }

  // -- Leading characters ----------------------------------------------------------------

  /** The leading characters that have a property. */
  function TakeWhile(s: string, p: char -> bool): (taken: string)
    ensures |taken| <= |s| && taken == s[..|taken|]
    ensures forall c :: c in taken ==> p(c)
    ensures |taken| < |s| ==> !p(s[|taken|])
  {
    if s == "" || !p(s[0]) then "" else [s[0]] + TakeWhile(s[1..], p)
  }

  function DropWhile(s: string, p: char -> bool): (rest: string)
    ensures |rest| <= |s|
  {
    s[|TakeWhile(s, p)|..]
  }

  predicate StopsAt(rest: string, p: char -> bool) {
    rest == "" || !p(rest[0])
  }

  lemma {:induction false} TakeWhileOf(word: string, rest: string, p: char -> bool)
    requires (forall c :: c in word ==> p(c)) && StopsAt(rest, p)
    ensures TakeWhile(word + rest, p) == word && DropWhile(word + rest, p) == rest
  {
    if word != "" {
      assert word[0] in word && (word + rest)[1..] == word[1..] + rest;
      TakeWhileOf(word[1..], rest, p);
    } else {
      assert word + rest == rest;
    }
  }

  // -- White space -----------------------------------------------------------------------

  function SkipWhitespace(s: string): (rest: string)
    ensures |rest| <= |s|
    ensures rest != "" ==> !IsWhitespace(rest[0])
  {
    DropWhile(s, IsWhitespace)
  }

  function TrimEnd(s: string): (rest: string)
    ensures |rest| <= |s|
  {
    if s != "" && IsWhitespace(s[|s| - 1]) then TrimEnd(s[..|s| - 1]) else s
  }

  function Trim(s: string): string {
    TrimEnd(SkipWhitespace(s))
  }

  predicate IsBlank(s: string) {
    forall c :: c in s ==> IsWhitespace(c)
  }

  lemma {:induction false} TrimEndAround(word: string, after: string)
    requires word != "" && !IsWhitespace(word[|word| - 1]) && IsBlank(after)
    ensures TrimEnd(word + after) == word
  {
    if after == "" {
      assert word + after == word;
    } else {
      var last := |after| - 1;
      assert after[last] in after && (word + after)[..|word + after| - 1] == word + after[..last];
      TrimEndAround(word, after[..last]);
    }
  }

  /** White space is trimmed on both sides of what has none at its ends. */
  lemma TrimAround(before: string, word: string, after: string)
    requires IsBlank(before) && IsBlank(after)
    requires word != "" && !IsWhitespace(word[0]) && !IsWhitespace(word[|word| - 1])
    ensures SkipWhitespace(before + word + after) == word + after && Trim(before + word + after) == word
  {
    assert before + word + after == before + (word + after);
    TakeWhileOf(before, word + after, IsWhitespace);
    TrimEndAround(word, after);
  }

  predicate InWord(c: char) {
    !IsWhitespace(c)
  }

  predicate IsWord(s: string) {
    s != "" && forall c :: c in s ==> InWord(c)
  }

  /** The parts of a text between white space. */
  function Words(s: string): (words: seq<string>)
    ensures forall w :: w in words ==> IsWord(w)
    decreases |s|
  {
    var t := SkipWhitespace(s);
    if t == "" then []
    else
      var word := TakeWhile(t, InWord);
      assert word != "";
      [word] + Words(t[|word|..])
  }

  // -- Joining ---------------------------------------------------------------------------

  function Join(parts: seq<string>, separator: string): string {
    if |parts| == 0 then ""
    else if |parts| == 1 then parts[0]
    else parts[0] + separator + Join(parts[1..], separator)
  }

  /** Splitting at white space undoes joining with blanks exactly for lists of words. */
  lemma {:induction false} WordsOfJoin(words: seq<string>)
    ensures Words(Join(words, " ")) == words <==> forall w :: w in words ==> IsWord(w)
  {
    if forall w :: w in words ==> IsWord(w) {
      WordsOfJoinedWords(words);
    }
  }

  lemma WordsUnfold(word: string, rest: string)
    requires IsWord(word) && StopsAt(rest, InWord)
    ensures Words(word + rest) == [word] + Words(rest)
  {
    assert word[0] in word;
    TakeWhileOf(word, rest, InWord);
    TakeWhileOf("", word + rest, IsWhitespace);
    assert "" + (word + rest) == word + rest;
  }

  /** The text after the first part. */
  function AfterFirst(parts: seq<string>): string {
    if |parts| <= 1 then "" else " " + Join(parts[1..], " ")
  }

  lemma JoinFirst(parts: seq<string>)
    requires parts != []
    ensures Join(parts, " ") == parts[0] + AfterFirst(parts)
    ensures StopsAt(AfterFirst(parts), InWord)
  {
    if |parts| > 1 {
      var more := Join(parts[1..], " ");
      assert parts[0] + " " + more == parts[0] + (" " + more);
    }
  }

  lemma WordsAfterFirst(parts: seq<string>)
    requires parts != []
    ensures Words(AfterFirst(parts)) == Words(Join(parts[1..], " "))
  {
    if |parts| > 1 {
      SkipBlank(Join(parts[1..], " "));
    }
  }

  lemma {:induction false} WordsOfJoinedWords(words: seq<string>)
    requires forall w :: w in words ==> IsWord(w)
    ensures Words(Join(words, " ")) == words
  {
    if |words| > 0 {
      hide IsWord, Words, Join, AfterFirst, StopsAt;
      assert words[0] in words && forall w :: w in words[1..] ==> w in words;
      JoinFirst(words);
      WordsUnfold(words[0], AfterFirst(words));
      WordsAfterFirst(words);
      WordsOfJoinedWords(words[1..]);
      assert words == [words[0]] + words[1..];
    }
  }

  lemma BlankBefore(blank: string, s: string)
    requires IsBlank(blank)
    ensures SkipWhitespace(blank + s) == SkipWhitespace(s) && Words(blank + s) == Words(s)
  {
    hide SkipWhitespace, IsBlank, Words;
    BlankSkipped(blank, s);
    WordsSkip(blank + s, s);
  }

  lemma BlankSkipped(blank: string, s: string)
    requires IsBlank(blank)
    ensures SkipWhitespace(blank + s) == SkipWhitespace(s)
  {
    hide IsWhitespace;
    var t := TakeWhile(s, IsWhitespace);
    assert s == t + s[|t|..] && blank + s == (blank + t) + s[|t|..];
    TakeWhileOf(blank + t, s[|t|..], IsWhitespace);
  }

  lemma WordsSkip(s: string, t: string)
    requires SkipWhitespace(s) == SkipWhitespace(t)
    ensures Words(s) == Words(t)
  {
    hide SkipWhitespace;
  }

  lemma NoWords(s: string)
    requires SkipWhitespace(s) == ""
    ensures Words(s) == [] && IsBlank(s)
  {
    hide IsWhitespace;
    assert s == TakeWhile(s, IsWhitespace);
  }

  lemma BlankFirst(s: string) returns (blank: string)
    ensures s == blank + SkipWhitespace(s) && IsBlank(blank)
  {
    hide IsWhitespace;
    blank := TakeWhile(s, IsWhitespace);
  }

  /** The first word of a text, and what is around it. */
  lemma WordFirst(s: string) returns (blank: string, word: string, rest: string)
    requires SkipWhitespace(s) != ""
    ensures s == blank + (word + rest) && IsBlank(blank) && IsWord(word) && StopsAt(rest, InWord)
    ensures Words(s) == [word] + Words(rest)
  {
    hide SkipWhitespace, IsWhitespace, IsBlank;
    var t := SkipWhitespace(s);
    blank := BlankFirst(s);
    word := TakeWhile(t, InWord);
    rest := t[|word|..];
  }

  /** Texts with white space between them have the words of both. */
  lemma {:induction false} WordsApart(a: string, blank: string, b: string)
    requires blank != "" && IsBlank(blank)
    ensures Words(a + (blank + b)) == Words(a) + Words(b)
    decreases |a|
  {
    hide Words, SkipWhitespace, IsBlank, IsWord, StopsAt;
    BlankBefore(blank, b);
    if SkipWhitespace(a) == "" {
      NoWords(a);
      BlankBefore(a, blank + b);
    } else {
      var front, word, rest := WordFirst(a);
      assert a + (blank + b) == front + (word + (rest + (blank + b)));
      BlankBefore(front, word + (rest + (blank + b)));
      BlankStops(rest, blank, b);
      WordsUnfold(word, rest + (blank + b));
      WordNotEmpty(word);
      WordsApart(rest, blank, b);
    }
  }

  lemma WordNotEmpty(word: string)
    requires IsWord(word)
    ensures word != ""
  {
  }

  lemma BlankStops(rest: string, blank: string, b: string)
    requires StopsAt(rest, InWord) && blank != "" && IsBlank(blank)
    ensures StopsAt(rest + (blank + b), InWord)
  {
    assert blank[0] in blank;
    if rest == "" {
      assert rest + (blank + b) == blank + b;
    }
  }

  lemma SkipBlank(s: string)
    ensures SkipWhitespace(" " + s) == SkipWhitespace(s)
    ensures Words(" " + s) == Words(s)
  {
    hide SkipWhitespace;
    SkipFirst(s);
  }

  lemma SkipFirst(s: string)
    ensures SkipWhitespace(" " + s) == SkipWhitespace(s)
  {
    var t := TakeWhile(s, IsWhitespace);
    assert s == t + s[|t|..] && " " + s == (" " + t) + s[|t|..];
    TakeWhileOf(" " + t, s[|t|..], IsWhitespace);
  }

  // -- Splitting -------------------------------------------------------------------------

  /** The parts of a text between separators; there is always at least one. */
  function Split(s: string, separator: char): (parts: seq<string>)
    ensures parts != [] && forall part :: part in parts ==> separator !in part
  {
    if s == "" then [""]
    else if s[0] == separator then [""] + Split(s[1..], separator)
    else
      var more := Split(s[1..], separator);
      [[s[0]] + more[0]] + more[1..]
  }

  lemma {:induction false} SplitOne(s: string, separator: char)
    requires separator !in s
    ensures Split(s, separator) == [s]
  {
    if s != "" {
      SplitOne(s[1..], separator);
      assert [s[0]] + s[1..] == s;
    }
  }

  lemma {:induction false} SplitFirst(part: string, separator: char, rest: string)
    requires separator !in part
    ensures Split(part + [separator] + rest, separator) == [part] + Split(rest, separator)
  {
    var s := part + [separator] + rest;
    if part == "" {
      assert s[1..] == rest;
    } else {
      assert s[1..] == part[1..] + [separator] + rest;
      SplitFirst(part[1..], separator, rest);
      assert [part[0]] + part[1..] == part;
    }
  }

  lemma {:induction false} SplitOfJoin(parts: seq<string>, separator: char)
    requires parts != [] && forall part :: part in parts ==> separator !in part
    ensures Split(Join(parts, [separator]), separator) == parts
  {
    if |parts| == 1 {
      SplitOne(parts[0], separator);
    } else {
      SplitFirst(parts[0], separator, Join(parts[1..], [separator]));
      SplitOfJoin(parts[1..], separator);
    }
  }

  lemma {:induction false} CharsOfJoin(parts: seq<string>, separator: char, c: char)
    requires c != separator
    ensures c in Join(parts, [separator]) <==> exists i :: 0 <= i < |parts| && c in parts[i]
  {
    if |parts| > 1 {
      CharsOfJoin(parts[1..], separator, c);
      if i :| 0 <= i < |parts| && c in parts[i] {
        assert i == 0 || parts[i] == parts[1..][i - 1];
      }
    }
  }

  // -- Comparing and searching -----------------------------------------------------------

  /** The order of the code points, position by position. */
  predicate TextLess(a: string, b: string) {
    b != "" && (a == "" || a[0] < b[0] || (a[0] == b[0] && TextLess(a[1..], b[1..])))
  }

  /** It is a strict total order. */
  lemma {:induction false} TextLessFits(a: string, b: string, c: string)
    ensures !(TextLess(a, b) && TextLess(b, a))
    ensures a == b || TextLess(a, b) || TextLess(b, a)
    ensures !TextLess(a, a)
    ensures TextLess(a, b) && TextLess(b, c) ==> TextLess(a, c)
  {
    if a != [] {
      TextLessFits(a[1..], if b == "" then "" else b[1..], if c == "" then "" else c[1..]);
      assert a == [a[0]] + a[1..] && (b != "" ==> b == [b[0]] + b[1..]);
    }
  }

  /** At the first place where the two differ the first has the smaller character, or ends. */
  ghost predicate TextBefore(a: string, b: string) {
    exists i :: 0 <= i <= |a| && i < |b| && a[..i] == b[..i] && (i == |a| || a[i] < b[i])
  }

  lemma {:induction false} TextsByPlace(a: string, b: string)
    ensures TextLess(a, b) <==> TextBefore(a, b)
  {
    if a != "" && b != "" {
      TextsByPlace(a[1..], b[1..]);
      if i :| 1 <= i <= |a| && i < |b| && a[..i] == b[..i] && (i == |a| || a[i] < b[i]) {
        assert a[0] == a[..i][0] == b[..i][0] == b[0];
        assert a[1..][..i - 1] == a[..i][1..] && b[1..][..i - 1] == b[..i][1..];
        assert TextBefore(a[1..], b[1..]);
      }
      if a[0] == b[0] && TextBefore(a[1..], b[1..]) {
        var i :|
          && 0 <= i <= |a[1..]| && i < |b[1..]| && a[1..][..i] == b[1..][..i]
          && (i == |a[1..]| || a[1..][i] < b[1..][i]);
        assert a[..i + 1] == [a[0]] + a[1..][..i] && b[..i + 1] == [b[0]] + b[1..][..i];
        assert TextBefore(a, b);
      }
      if a[0] < b[0] {
        assert a[..0] == b[..0];
      }
    } else if b != "" {
      assert a[..0] == b[..0];
    }
  }

  predicate Contains(s: string, part: string) {
    exists i :: 0 <= i <= |s| && StartsWith(s[i..], part)
  }

  /** The first place of a part. */
  function Find(s: string, part: string): (i: Option<nat>)
    ensures i.Some? ==> i.value + |part| <= |s| && StartsWith(s[i.value..], part)
  {
    if StartsWith(s, part) then Some(0)
    else if s == "" then None
    else
      match Find(s[1..], part)
      case Some(i) => assert s[1..][i..] == s[i + 1..]; Some(i + 1)
      case None => None
  }

  /** The last place of a part. */
  function FindLast(s: string, part: string): (i: Option<nat>)
    ensures i.Some? ==> i.value + |part| <= |s| && StartsWith(s[i.value..], part)
  {
    if s == "" then if part == "" then Some(0) else None
    else
      match FindLast(s[1..], part)
      case Some(i) => assert s[1..][i..] == s[i + 1..]; Some(i + 1)
      case None => if StartsWith(s, part) then Some(0) else None
  }

  /** The part stands at a place. */
  predicate Occurs(s: string, part: string, i: nat) {
    i + |part| <= |s| && forall k :: 0 <= k < |part| ==> s[i + k] == part[k]
  }

  lemma OccursAtStart(s: string, part: string)
    ensures StartsWith(s, part) <==> Occurs(s, part, 0)
  {
    PrefixLetters(s, part);
    if Occurs(s, part, 0) {
      assert s[..|part|] == part;
    }
  }

  lemma OccursLater(s: string, part: string)
    requires s != ""
    ensures forall i: nat :: Occurs(s[1..], part, i) <==> Occurs(s, part, i + 1)
  {
    forall i: nat ensures Occurs(s[1..], part, i) <==> Occurs(s, part, i + 1) {
      if Occurs(s, part, i + 1) {
        forall k | 0 <= k < |part| ensures s[1..][i + k] == part[k] {
          assert s[i + 1 + k] == part[k];
        }
      }
    }
  }

  /** What is found is the first place, and nothing is found only if there is none. */
  lemma {:induction false} FindExact(s: string, part: string)
    requires part != ""
    ensures Find(s, part).None? ==> forall i: nat :: !Occurs(s, part, i)
    ensures Find(s, part).Some? ==> Occurs(s, part, Find(s, part).value)
    ensures Find(s, part).Some? ==> forall i: nat :: i < Find(s, part).value ==> !Occurs(s, part, i)
  {
    OccursAtStart(s, part);
    if s != "" && !StartsWith(s, part) {
      OccursLater(s, part);
      FindExact(s[1..], part);
      forall i: nat | Find(s, part).None? || i < Find(s, part).value ensures !Occurs(s, part, i) {
        if i > 0 {
          assert !Occurs(s[1..], part, i - 1);
        }
      }
    }
  }

  lemma {:induction false} FindLastExact(s: string, part: string)
    requires part != ""
    ensures FindLast(s, part).None? ==> forall i: nat :: !Occurs(s, part, i)
    ensures FindLast(s, part).Some? ==> Occurs(s, part, FindLast(s, part).value)
    ensures FindLast(s, part).Some? ==> forall i: nat :: i > FindLast(s, part).value ==> !Occurs(s, part, i)
  {
    OccursAtStart(s, part);
    if s != "" {
      OccursLater(s, part);
      FindLastExact(s[1..], part);
      forall i: nat | i > 0 && (FindLast(s, part).None? || i > FindLast(s, part).value) ensures !Occurs(s, part, i) {
        assert !Occurs(s[1..], part, i - 1);
      }
    }
  }

  /** The part stands between two texts, and a character of it stands nowhere else: there is one
      place only. */
  lemma OnlyPlace(front: string, part: string, rest: string, k: nat)
    requires k < |part| && part[k] !in front && part[k] !in rest
    requires forall m :: 0 <= m < |part| && m != k ==> part[m] != part[k]
    ensures Occurs(front + part + rest, part, |front|)
    ensures forall i: nat :: Occurs(front + part + rest, part, i) ==> i == |front|
  {
    var s := front + part + rest;
    forall j | 0 <= j < |s| && j != |front| + k ensures s[j] != part[k] {
      OnlyThere(front, part, rest, k, j);
    }
    forall i: nat | Occurs(s, part, i) ensures i == |front| {
      assert s[i + k] == part[k];
    }
  }

  lemma OnlyThere(front: string, part: string, rest: string, k: nat, j: nat)
    requires k < |part| && part[k] !in front && part[k] !in rest
    requires forall m :: 0 <= m < |part| && m != k ==> part[m] != part[k]
    requires j < |front + part + rest| && j != |front| + k
    ensures (front + part + rest)[j] != part[k]
  {
    if j >= |front| + |part| {
      assert (front + part + rest)[j] == rest[j - |front| - |part|];
    }
  }

  lemma FoundOnly(front: string, part: string, rest: string, k: nat)
    requires k < |part| && part[k] !in front && part[k] !in rest
    requires forall m :: 0 <= m < |part| && m != k ==> part[m] != part[k]
    ensures Find(front + part + rest, part) == Some(|front|) && FindLast(front + part + rest, part) == Some(|front|)
  {
    hide Find, FindLast, Occurs;
    OnlyPlace(front, part, rest, k);
    FindExact(front + part + rest, part);
    FindLastExact(front + part + rest, part);
  }

  lemma PrefixLetters(s: string, part: string)
    ensures StartsWith(s, part) ==> forall c :: c in part ==> c in s
    ensures StartsWith(s, part) ==> forall i :: 0 <= i < |part| ==> s[i] == part[i]
  {
    if StartsWith(s, part) {
      assert forall i :: 0 <= i < |part| ==> s[..|part|][i] == s[i];
    }
  }

  /** Without one of its characters a part is not found. */
  lemma {:induction false} NotFound(s: string, part: string, c: char)
    requires c in part && c !in s
    ensures Find(s, part) == None && FindLast(s, part) == None
  {
    PrefixLetters(s, part);
    if s != "" {
      NotFound(s[1..], part, c);
    }
  }

  /** The part is found where it stands if its second character does not occur before. */
  lemma {:induction false} FoundAfter(front: string, part: string, rest: string)
    requires |part| >= 2 && part[1] !in front && part[1] != part[0]
    ensures Find(front + part + rest, part) == Some(|front|)
  {
    var s := front + part + rest;
    if front == "" {
      assert s[..|part|] == part;
    } else {
      assert s[1..] == front[1..] + part + rest;
      FoundAfter(front[1..], part, rest);
      PrefixLetters(s, part);
      assert s[1] == (front + part)[1];
    }
  }

  lemma {:induction false} CharFoundAfter(front: string, c: char, rest: string)
    requires c !in front
    ensures Find(front + [c] + rest, [c]) == Some(|front|)
  {
    var s := front + [c] + rest;
    if front == "" {
      assert s[..1] == [c];
    } else {
      assert s[1..] == front[1..] + [c] + rest;
      CharFoundAfter(front[1..], c, rest);
      assert s[0] == front[0] && front[0] in front;
      assert s[..1] == [front[0]];
    }
  }

  /** The last place is where the part stands if its first character does not occur later. */
  lemma {:induction false} FoundLast(front: string, part: string, rest: string)
    requires part != "" && part[0] !in part[1..] + rest
    ensures FindLast(front + part + rest, part) == Some(|front|)
  {
    var s := front + part + rest;
    if front == "" {
      assert s[1..] == part[1..] + rest && s[..|part|] == part;
      NotFound(s[1..], part, part[0]);
    } else {
      assert s[1..] == front[1..] + part + rest;
      FoundLast(front[1..], part, rest);
    }
  }

  // -- Letter case -----------------------------------------------------------------------

  function LowerChar(c: char): char {
    if 'A' <= c <= 'Z' then (c as int + 32) as char else c
  }

  function Lowered(s: string): string {
    seq(|s|, i requires 0 <= i < |s| => LowerChar(s[i]))
  }

  lemma LoweredConcat(a: string, b: string)
    ensures Lowered(a + b) == Lowered(a) + Lowered(b)
  {
  }

  /** The same letter, or one in upper and one in lower case. */
  predicate SameLetter(a: char, b: char) {
    || a == b
    || ('a' <= a <= 'z' && 'A' <= b <= 'Z' && a as int - 'a' as int == b as int - 'A' as int)
    || ('A' <= a <= 'Z' && 'a' <= b <= 'z' && a as int - 'A' as int == b as int - 'a' as int)
  }

  predicate SameLetters(a: string, b: string) {
    |a| == |b| && forall i :: 0 <= i < |a| ==> SameLetter(a[i], b[i])
  }

  lemma LoweredExact(a: string, b: string)
    ensures Lowered(a) == Lowered(b) <==> SameLetters(a, b)
  {
    if Lowered(a) == Lowered(b) {
      forall i | 0 <= i < |a| ensures SameLetter(a[i], b[i]) {
        assert Lowered(a)[i] == Lowered(b)[i];
      }
    }
  }
}
