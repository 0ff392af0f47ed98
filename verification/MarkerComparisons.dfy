/** What the operators of markers mean, value by value. */
module MarkerComparisons {
  import opened MarkerMeanings
  import opened Markers
  import opened Numerals
  import opened Options
  import opened Texts

  // -- Tuples of numbers -----------------------------------------------------------------

  /** Number by number; at the first place where the two differ, the first has the smaller one. */
  ghost predicate NumbersBefore(a: seq<nat>, b: seq<nat>) {
    exists i: nat :: At(a, i) < At(b, i) && forall j: nat :: j < i ==> At(a, j) == At(b, j)
  }

  ghost predicate NumbersAlike(a: seq<nat>, b: seq<nat>) {
    forall i: nat :: At(a, i) == At(b, i)
  }

  lemma {:induction false} TupleLessByPlace(a: seq<nat>, b: seq<nat>)
    requires |a| == |b|
    ensures TupleLess(a, b) <==> exists i :: 0 <= i < |a| && a[i] < b[i] && forall j :: 0 <= j < i ==> a[j] == b[j]
  {
    if a != [] {
      TupleLessByPlace(a[1..], b[1..]);
      if i :| 1 <= i < |a| && a[i] < b[i] && forall j :: 0 <= j < i ==> a[j] == b[j] {
        assert a[1..][i - 1] < b[1..][i - 1];
        assert forall j :: 0 <= j < i - 1 ==> a[1..][j] == a[j + 1] && b[1..][j] == b[j + 1];
      }
      if i :|
        && a[0] == b[0] && 0 <= i < |a[1..]| && a[1..][i] < b[1..][i]
        && forall j :: 0 <= j < i ==> a[1..][j] == b[1..][j]
      {
        assert a[i + 1] < b[i + 1];
        assert forall j :: 1 <= j < i + 1 ==> a[j] == a[1..][j - 1] && b[j] == b[1..][j - 1];
      }
    }
  }

  lemma PaddedByPlace(a: seq<nat>, b: seq<nat>, length: nat)
    requires |a| <= length && |b| <= length
    ensures TupleLess(Padded(a, length), Padded(b, length)) <==> NumbersBefore(a, b)
    ensures Padded(a, length) == Padded(b, length) <==> NumbersAlike(a, b)
  {
    var x, y := Padded(a, length), Padded(b, length);
    PaddedAt(a, length);
    PaddedAt(b, length);
    TupleLessByPlace(x, y);
    hide TupleLess, Padded, At;
    if i :| 0 <= i < length && x[i] < y[i] && forall j :: 0 <= j < i ==> x[j] == y[j] {
      assert At(a, i) < At(b, i) && forall j: nat :: j < i ==> At(a, j) == x[j] && At(b, j) == y[j];
    }
    if i: nat :| At(a, i) < At(b, i) && forall j: nat :: j < i ==> At(a, j) == At(b, j) {
      assert i < length && x[i] < y[i] && forall j :: 0 <= j < i ==> x[j] == At(a, j) && y[j] == At(b, j);
    }
    assert x == y <==> forall i :: 0 <= i < length ==> x[i] == y[i];
  }

  /** The text with the part somewhere inside. */
  ghost predicate Inside(part: string, s: string) {
    exists before: string, after: string :: s == before + part + after
  }

  lemma ContainsInside(s: string, part: string)
    ensures Contains(s, part) <==> Inside(part, s)
  {
    if i :| 0 <= i <= |s| && StartsWith(s[i..], part) {
      assert s == s[..i] + part + s[i + |part|..] by {
        assert s[i..] == s[i..][..|part|] + s[i..][|part|..];
      }
    }
    if before: string, after: string :| s == before + part + after {
      assert s[|before|..] == part + after;
      assert StartsWith(s[|before|..], part);
    }
  }

  // -- Comparing versions ----------------------------------------------------------------

  /** What an operator says of two tuples of numbers. */
  ghost predicate VersionsMatch(l: seq<nat>, op: MarkerOp, r: seq<nat>) {
    match op
    case Lt => NumbersBefore(l, r)
    case Gt => NumbersBefore(r, l)
    case Lte => !NumbersBefore(r, l)
    case Gte => !NumbersBefore(l, r)
    case Eq => NumbersAlike(l, r)
    case NotEq => !NumbersAlike(l, r)
    case TildeEq =>
      // at least the version, and below the next of what comes before its last number
      && !NumbersBefore(l, r)
      && (|r| >= 2 ==>
            NumbersBefore(l, r[..|r| - 2] + [if r[|r| - 2] == MAX_U32 then 0 else r[|r| - 2] + 1]))
    case In => Inside(Dotted(l), Dotted(r))
    case NotIn => !Inside(Dotted(l), Dotted(r))
  }

  lemma TuplesMatch(l: seq<nat>, op: MarkerOp, r: seq<nat>)
    requires forall n :: n in r ==> n <= MAX_U32
    ensures CompareTuples(l, op, r) <==> VersionsMatch(l, op, r)
  {
    hide TupleLess, Padded, NumbersBefore, NumbersAlike, Dotted, Contains, Inside, Above;
    var length := Longer(l, r);
    PaddedByPlace(l, r, length);
    PaddedByPlace(r, l, length);
    ContainsInside(Dotted(r), Dotted(l));
    if |r| >= 2 {
      AboveWraps(r);
      PaddedByPlace(l, Above(r), length);
    }
  }

  lemma AboveWraps(r: seq<nat>)
    requires |r| >= 2 && forall n :: n in r ==> n <= MAX_U32
    ensures Above(r) == r[..|r| - 2] + [if r[|r| - 2] == MAX_U32 then 0 else r[|r| - 2] + 1]
  {
    assert r[|r| - 2] in r;
  }

  // -- Comparing texts -------------------------------------------------------------------

  ghost predicate TextsMatch(l: string, op: MarkerOp, r: string) {
    match op
    case Lt => TextBefore(l, r)
    case Gt => TextBefore(r, l)
    case Lte => l == r || TextBefore(l, r)
    case Gte => l == r || TextBefore(r, l)
    case Eq => l == r
    case NotEq => l != r
    case TildeEq => l == r
    case In => Inside(l, r)
    case NotIn => !Inside(l, r)
  }

  lemma TextsCompare(l: string, op: MarkerOp, r: string)
    ensures CompareTexts(l, op, r) <==> TextsMatch(l, op, r)
  {
    hide TextLess, TextBefore, Contains, Inside;
    TextsByPlace(l, r);
    TextsByPlace(r, l);
    TextLessFits(l, r, l);
    ContainsInside(r, l);
  }

  // -- Comparisons in an environment -----------------------------------------------------

  /** The numbers of a version are compared if one side is the variable of a version and both
      sides have any, otherwise the texts. */
  lemma ComparisonExact(lhs: MarkerValue, op: MarkerOp, rhs: MarkerValue, env: MarkerEnvironment)
    ensures var (l, r) := (env.Resolve(lhs), env.Resolve(rhs));
            EvaluateCompare(lhs, op, rhs, env) <==>
              if (IsVersionValue(lhs) || IsVersionValue(rhs)) && VersionTuple(l) != [] && VersionTuple(r) != [] then
                VersionsMatch(VersionTuple(l), op, VersionTuple(r))
              else TextsMatch(l, op, r)
  {
    hide VersionTuple, CompareTuples, CompareTexts, VersionsMatch, TextsMatch;
    var l, r := env.Resolve(lhs), env.Resolve(rhs);
    TupleBounded(r);
    TuplesMatch(VersionTuple(l), op, VersionTuple(r));
    TextsCompare(l, op, r);
  }

  // -- The numbers of a text -------------------------------------------------------------

  /** Digits, perhaps with white space around them. */
  ghost predicate IsPart(part: string, n: nat) {
    exists before: string, digits: string, after: string ::
      && part == before + digits + after && IsBlank(before) && IsBlank(after)
      && digits != "" && (forall c :: c in digits ==> IsDigit(c)) && ValueOf(digits) == n
  }

  lemma PartRead(part: string, n: nat)
    requires IsPart(part, n) && n <= MAX_U32
    ensures ParseNumber(Trim(part), MAX_U32) == Some(n)
  {
    hide Trim, IsBlank, ValueOf;
    var before: string, digits: string, after: string :|
      && part == before + digits + after && IsBlank(before) && IsBlank(after)
      && digits != "" && (forall c :: c in digits ==> IsDigit(c)) && ValueOf(digits) == n;
    assert digits[0] in digits && digits[|digits| - 1] in digits;
    TrimAround(before, digits, after);
  }

  /** The numbers among the parts in their order: a part counts if it is a number, and is left
      out if it has a character that is neither a digit, a sign nor white space. */
  lemma NumbersOfParts(front: seq<string>, part: string, back: seq<string>, n: nat)
    requires '.' !in part && (forall p :: p in front + back ==> '.' !in p)
    ensures IsPart(part, n) && n <= MAX_U32 ==>
              VersionTuple(Join(front + [part] + back, ".")) == Numbers(front) + [n] + Numbers(back)
    ensures (exists c :: c in part && !IsDigit(c) && c != '+' && !IsWhitespace(c)) ==>
              VersionTuple(Join(front + [part] + back, ".")) == Numbers(front) + Numbers(back)
  {
    hide Join, Split, Trim, ParseNumber, IsPart, IsWhitespace, IsDigit;
    var parts := front + [part] + back;
    JoinedNumbers(parts);
    NumbersConcat(front + [part], back);
    NumbersConcat(front, [part]);
    NumbersOfOne(part);
    if IsPart(part, n) && n <= MAX_U32 {
      PartRead(part, n);
    }
    if c :| c in part && !IsDigit(c) && c != '+' && !IsWhitespace(c) {
      NotRead(part, c);
      assert Numbers(front) + [] == Numbers(front);
    }
  }

  lemma JoinedNumbers(parts: seq<string>)
    requires parts != [] && forall p :: p in parts ==> '.' !in p
    ensures VersionTuple(Join(parts, ".")) == Numbers(parts)
  {
    SplitOfJoin(parts, '.');
  }

  lemma NumbersOfOne(part: string)
    ensures Numbers([part]) ==
            match ParseNumber(Trim(part), MAX_U32)
            case Some(n) => [n]
            case None => []
  {
    hide Trim, ParseNumber;
    assert [part][1..] == [] && Numbers([]) == [];
  }

  lemma NotRead(part: string, c: char)
    requires c in part && !IsDigit(c) && c != '+' && !IsWhitespace(c)
    ensures ParseNumber(Trim(part), MAX_U32) == None
  {
    SkipKeeps(part, c);
    TrimKeeps(SkipWhitespace(part), c);
    var s := Trim(part);
    if s[0] == '+' {
      assert s == ['+'] + s[1..];
      assert c in s[1..];
    }
  }

  lemma SkipKeeps(s: string, c: char)
    requires c in s && !IsWhitespace(c)
    ensures c in SkipWhitespace(s)
  {
    var t := TakeWhile(s, IsWhitespace);
    assert s == t + s[|t|..];
  }

  lemma {:induction false} TrimKeeps(s: string, c: char)
    requires c in s && !IsWhitespace(c)
    ensures c in TrimEnd(s)
  {
    if IsWhitespace(s[|s| - 1]) {
      assert s == s[..|s| - 1] + [s[|s| - 1]];
      TrimKeeps(s[..|s| - 1], c);
    }
  }

  lemma {:induction false} NumbersConcat(a: seq<string>, b: seq<string>)
    ensures Numbers(a + b) == Numbers(a) + Numbers(b)
  {
    if a == [] {
      assert a + b == b;
    } else {
      assert (a + b)[1..] == a[1..] + b;
      NumbersConcat(a[1..], b);
    }
  }

  // -- Extras and lists ------------------------------------------------------------------

  /** An extra is active under any spelling of its name in upper and lower case. */
  lemma ActiveExtra(name: string, equal: bool, env: MarkerEnvironment, extras: seq<string>)
    ensures Evaluate(Extra(name, equal), env, extras) <==> (equal <==> exists e :: e in extras && SameLetters(e, name))
  {
    hide Lowered, SameLetters;
    forall e | e in extras ensures Lowered(e) == Lowered(name) <==> SameLetters(e, name) {
      LoweredExact(e, name);
    }
    if e :| e in extras && SameLetters(e, name) {
      var i :| 0 <= i < |extras| && extras[i] == e;
      assert Lowered(extras[i]) == Lowered(name);
    }
  }

  /** A list holds the text of its variable exactly, or exactly does not; a list of `extra` holds
      the empty text only. */
  lemma ListExact(key: MarkerVar, versions: seq<string>, env: MarkerEnvironment, extras: seq<string>)
    ensures var text := if key != ExtraVar && key in env.texts then env.texts[key] else "";
            && (Evaluate(VersionIn(key, versions, false), env, extras) <==>
                exists i :: 0 <= i < |versions| && versions[i] == text)
            && (Evaluate(VersionIn(key, versions, true), env, extras) <==>
                forall i :: 0 <= i < |versions| ==> versions[i] != text)
  {
  }
}
