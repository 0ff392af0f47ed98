/** The markers that name the environments of a universal resolution, and when the merged
    entries are the right ones for markers as they are parsed and evaluated. */
module EnvironmentMarkers {
  import opened MarkerAtoms
  import opened MarkerGrammar
  import opened MarkerMeanings
  import opened MarkerRoundTrips
  import opened Markers
  import opened Numerals
  import opened Options
  import opened Texts
  import opened UniversalMerges

  const MAX_U8: nat := 255
  const NAME: string := "python_version"

  // -- Which markers are accepted --------------------------------------------------------

  /** Exactly two numbers of eight bits. */
  function MajorMinor(s: string): Option<(nat, nat)> {
    var parts := Split(s, '.');
    if |parts| != 2 then None
    else
      match (ParseNumber(parts[0], MAX_U8), ParseNumber(parts[1], MAX_U8))
      case (Some(major), Some(minor)) => Some((major, minor))
      case _ => None
  }

  predicate IsSpaceOrEqual(c: char) {
    c == ' ' || c == '='
  }

  /** What follows the variable, if the marker begins with it. */
  function Gap(marker: string): Option<string> {
    var m := Trim(marker);
    if StartsWith(m, NAME) then Some(m[|NAME|..]) else None
  }

  function Unquoted(s: string): Option<string> {
    if |s| < 2 || s[0] != '"' || s[|s| - 1] != '"' || '"' in s[1..|s| - 1] then None
    else Some(s[1..|s| - 1])
  }

  /** Any blanks and equal signs may stand between the variable and the version. */
  function PythonVersionOf(marker: string): Option<string> {
    match Gap(marker)
    case None => None
    case Some(gap) =>
      match Unquoted(Trim(DropWhile(gap, IsSpaceOrEqual)))
      case None => None
      case Some(quoted) => if MajorMinor(quoted).Some? then Some(quoted) else None
  }

  /** The environment of a Python version; what is not about Python is as given. */
  function ForPythonVersion(current: MarkerEnvironment, major: nat, minor: nat): MarkerEnvironment {
    var short, full := Dotted([major, minor]), Dotted([major, minor, 0]);
    MarkerEnvironment(current.texts[PythonVersion := short][PythonFullVersion := full][ImplementationVersion := full])
  }

  /** The Python version of the environment that is resolved for a marker. */
  function TargetOf(marker: string): Option<(nat, nat)> {
    match PythonVersionOf(marker)
    case Some(quoted) => MajorMinor(quoted)
    case None => None
  }

  function EnvironmentOf(current: MarkerEnvironment, marker: string): MarkerEnvironment {
    match TargetOf(marker)
    case Some((major, minor)) => ForPythonVersion(current, major, minor)
    case None => current
  }

  // -- How an accepted marker is read ----------------------------------------------------

  /** Exactly the operator `==` stands between the variable and the version. */
  predicate OperatorOnly(gap: string) {
    var s := SkipWhitespace(gap);
    StartsWith(s, "==") && (var t := SkipWhitespace(s[2..]); t != "" && t[0] == '"')
  }

  predicate WithOperator(marker: string) {
    Gap(marker).Some? && OperatorOnly(Gap(marker).value)
  }

  /** White space and equal signs, and then the rest. */
  predicate Reaches(s: string, rest: string) {
    s == rest || (s != "" && (IsWhitespace(s[0]) || s[0] == '=') && Reaches(s[1..], rest))
  }

  lemma {:induction false} ReachesPast(skipped: string, s: string, rest: string)
    requires (forall c :: c in skipped ==> IsWhitespace(c) || c == '=') && Reaches(s, rest)
    ensures Reaches(skipped + s, rest)
  {
    if skipped == "" {
      assert skipped + s == s;
    } else {
      assert skipped[0] in skipped && (skipped + s)[1..] == skipped[1..] + s;
      ReachesPast(skipped[1..], s, rest);
    }
  }

  lemma {:induction false} SkipReaches(s: string, rest: string)
    requires Reaches(s, rest) && rest != "" && rest[0] == '"'
    ensures Reaches(SkipWhitespace(s), rest)
    ensures SkipWhitespace(s) != "" && (SkipWhitespace(s)[0] == '=' || SkipWhitespace(s) == rest)
  {
    if s != rest && IsWhitespace(s[0]) {
      SkipReaches(s[1..], rest);
      assert SkipWhitespace(s) == SkipWhitespace(s[1..]);
    } else {
      assert SkipWhitespace(s) == s;
    }
  }

  predicate EndsBlank(s: string) {
    s == "" || IsWhitespace(s[|s| - 1])
  }

  lemma TrimmedEnd(s: string)
    requires !EndsBlank(s)
    ensures Trim(s) == SkipWhitespace(s)
  {
    var blank := TakeWhile(s, IsWhitespace);
    assert forall i :: 0 <= i < |blank| ==> s[i] in blank;
  }

  lemma {:induction false} TrimEndStops(s: string)
    ensures TrimEnd(s) != "" ==> !EndsBlank(TrimEnd(s))
  {
    if s != "" && IsWhitespace(s[|s| - 1]) {
      TrimEndStops(s[..|s| - 1]);
    }
  }

  lemma DropEnd(s: string)
    requires !EndsBlank(s)
    ensures DropWhile(s, IsSpaceOrEqual) != "" ==> !EndsBlank(DropWhile(s, IsSpaceOrEqual))
  {
  }

  lemma GapReaches(gap: string)
    requires !EndsBlank(gap) && DropWhile(gap, IsSpaceOrEqual) != ""
    ensures Reaches(gap, Trim(DropWhile(gap, IsSpaceOrEqual)))
  {
    var d := DropWhile(gap, IsSpaceOrEqual);
    DropEnd(gap);
    TrimmedEnd(d);
    Signs(gap);
    Blanks(d);
    hide *;
    ReachesRest(TakeWhile(gap, IsSpaceOrEqual), TakeWhile(d, IsWhitespace), SkipWhitespace(d));
  }

  lemma Signs(s: string)
    ensures s == TakeWhile(s, IsSpaceOrEqual) + DropWhile(s, IsSpaceOrEqual)
    ensures forall c :: c in TakeWhile(s, IsSpaceOrEqual) ==> c == ' ' || c == '='
  {
  }

  lemma Blanks(s: string)
    ensures s == TakeWhile(s, IsWhitespace) + SkipWhitespace(s)
    ensures forall c :: c in TakeWhile(s, IsWhitespace) ==> IsWhitespace(c)
  {
    hide IsWhitespace;
  }

  lemma ReachesRest(signs: string, blanks: string, rest: string)
    requires (forall c :: c in signs ==> c == ' ' || c == '=') && (forall c :: c in blanks ==> IsWhitespace(c))
    ensures Reaches(signs + (blanks + rest), rest)
  {
    assert Reaches(rest, rest) && IsWhitespace(' ');
    hide Reaches, IsWhitespace;
    ReachesPast(blanks, rest, rest);
    ReachesPast(signs, blanks + rest, rest);
  }

  /** Between the variable and the quoted version there are only blanks and equal signs. */
  lemma AcceptedText(marker: string, quoted: string)
    requires PythonVersionOf(marker) == Some(quoted)
    ensures Gap(marker).Some? && Trim(marker) == NAME + Gap(marker).value
    ensures Reaches(Gap(marker).value, "\"" + quoted + "\"")
    ensures '"' !in quoted && MajorMinor(quoted).Some?
  {
    hide Gap, Unquoted, MajorMinor, Trim, DropWhile, EndsBlank, Reaches, PythonVersionOf;
    AcceptedQuoted(marker, quoted);
    GapEnd(marker);
    var gap := Gap(marker).value;
    NothingTrimmed();
    GapReaches(gap);
  }

  lemma AcceptedQuoted(marker: string, quoted: string)
    requires PythonVersionOf(marker) == Some(quoted)
    ensures Gap(marker).Some? && Trim(DropWhile(Gap(marker).value, IsSpaceOrEqual)) == "\"" + quoted + "\""
    ensures '"' !in quoted && MajorMinor(quoted).Some?
  {
    hide Trim, DropWhile, Gap, MajorMinor;
  }

  lemma NothingTrimmed()
    ensures Trim("") == "" && DropWhile("", IsSpaceOrEqual) == ""
  {
  }

  lemma GapEnd(marker: string)
    ensures Gap(marker).Some? ==> Trim(marker) == NAME + Gap(marker).value
    ensures Gap(marker).Some? && Gap(marker).value != "" ==> !EndsBlank(Gap(marker).value)
  {
    TrimEndStops(SkipWhitespace(marker));
    var m := Trim(marker);
    assert m != "" ==> !EndsBlank(m);
    hide Trim;
    if StartsWith(m, NAME) {
      assert m == NAME + m[|NAME|..];
      assert m[|NAME|..] != "" ==> m[|NAME|..][|m| - |NAME| - 1] == m[|m| - 1];
    }
  }

  lemma NameRead(gap: string)
    requires gap == "" || !InIdentifier(gap[0])
    ensures ParseValue(NAME + gap) == Parsed(Some(Variable(PythonVersion)), gap)
  {
    assert PrintVar(PythonVersion) == NAME;
    VarPrinted(PythonVersion, gap);
  }

  lemma QuotedRead(s: string, quoted: string)
    requires SkipWhitespace(s) == "\"" + quoted + "\"" && '"' !in quoted
    ensures ParseValue(s) == Parsed(Some(Text(quoted)), "")
  {
    var v := SkipWhitespace(s);
    assert Quoted(quoted) + "" == v && SkipWhitespace(v) == v;
    QuotedPrinted(quoted, "");
    hide SkipWhitespace;
    assert ParseValue(s) == ParseValue(v);
  }

  lemma NoValue(s: string)
    requires SkipWhitespace(s) != "" && SkipWhitespace(s)[0] == '='
    ensures ParseValue(s).value.None?
  {
  }

  lemma OperatorRead(s: string, rest: string)
    requires Reaches(s, rest) && rest != "" && rest[0] == '"'
    ensures var t := SkipWhitespace(s);
            ParseOp(s) == if StartsWith(t, "==") then Parsed(Some(MarkerOp.Eq), t[2..]) else Parsed(None, t)
  {
    hide Reaches, SkipWhitespace, AtNotIn, AtIn, SymbolOp;
    SkipReaches(s, rest);
    SymbolRead(SkipWhitespace(s));
  }

  lemma SymbolRead(t: string)
    requires t != "" && (t[0] == '=' || t[0] == '"')
    ensures !AtNotIn(t) && !AtIn(t)
    ensures SymbolOp(t) == if StartsWith(t, "==") then Parsed(Some(MarkerOp.Eq), t[2..]) else Parsed(None, t)
  {
    hide SkipWhitespace, WordOpEnds;
    assert |t| >= 2 ==> t[..2][0] == t[0];
    assert |t| >= 3 ==> t[..3][0] == t[0];
    assert t[..1][0] == t[0];
  }

  lemma WholeAtom(s: string)
    requires s != "" && !IsWhitespace(s[0]) && s[0] != '('
    ensures SkipWhitespace(s) == s && SkipWhitespace("") == "" && ParseAtom(s) == ParseComparison(s)
  {
    hide ParseComparison, ParseOr, IsWhitespace;
    TakeWhileOf("", s, IsWhitespace);
    assert "" + s == s;
  }

  lemma NothingMore(children: seq<MarkerTree>)
    ensures AndRest(children, "") == Parsed(Some(children), "") && OrRest(children, "") == Parsed(Some(children), "")
  {
    assert SkipWhitespace("") == "";
  }

  /** A comparison that is the whole text is the tree, and without one there is no condition. */
  lemma WholeText(s: string)
    requires s != "" && !IsWhitespace(s[0]) && s[0] != '('
    requires ParseComparison(s).value.Some? ==> ParseComparison(s).rest == ""
    ensures ParseOr(s).value == ParseComparison(s).value
  {
    hide ParseComparison, SkipWhitespace, IsWhitespace, ParseAtom, AndRest, OrRest;
    WholeAtom(s);
    if ParseAtom(s).value.Some? {
      NothingMore([ParseAtom(s).value.value]);
    }
    assert ParseAnd(s).value == ParseAtom(s).value;
  }

  /** What is read of an accepted marker. */
  function ReadAs(marker: string, quoted: string): MarkerTree {
    if WithOperator(marker) then Compare(Variable(PythonVersion), MarkerOp.Eq, Text(quoted)) else True
  }

  /** The comparison after the variable. */
  lemma GapRead(gap: string, quoted: string)
    requires Reaches(gap, "\"" + quoted + "\"") && '"' !in quoted
    ensures var op := ParseOp(gap);
            if OperatorOnly(gap) then op.value == Some(MarkerOp.Eq)
                && ParseValue(op.rest) == Parsed(Some(Text(quoted)), "")
            else op.value.None? || ParseValue(op.rest).value.None?
  {
    hide ParseValue, ParseOp, SkipWhitespace, Reaches;
    var v := "\"" + quoted + "\"";
    OperatorRead(gap, v);
    SkipReaches(gap, v);
    var t := SkipWhitespace(gap);
    if StartsWith(t, "==") {
      AfterOperator(t, quoted);
    }
  }

  lemma AfterOperator(t: string, quoted: string)
    requires StartsWith(t, "==") && Reaches(t, "\"" + quoted + "\"") && '"' !in quoted
    ensures var s := SkipWhitespace(t[2..]);
            if s != "" && s[0] == '"' then ParseValue(t[2..]) == Parsed(Some(Text(quoted)), "")
            else ParseValue(t[2..]).value.None?
  {
    var v := "\"" + quoted + "\"";
    assert t[0] == t[..2][0] && t[1] == t[..2][1] && v[0] == '"';
    assert t[1..][0] == t[1] && t[1..][1..] == t[2..];
    assert Reaches(t[1..], v);
    assert Reaches(t[2..], v);
    SkipReaches(t[2..], v);
    hide ParseValue, SkipWhitespace, Reaches;
    if SkipWhitespace(t[2..]) == v {
      QuotedRead(t[2..], quoted);
    } else {
      NoValue(t[2..]);
    }
  }

  lemma AcceptedComparison(marker: string, quoted: string)
    requires PythonVersionOf(marker) == Some(quoted)
    ensures var r := ParseComparison(Trim(marker));
            && r.value == (if WithOperator(marker) then Some(ReadAs(marker, quoted)) else None)
            && (r.value.Some? ==> r.rest == "")
  {
    hide PythonVersionOf, Gap, Trim, Reaches;
    AcceptedText(marker, quoted);
    var gap := Gap(marker).value;
    GapStarts(gap, quoted);
    NameRead(gap);
    GapRead(gap, quoted);
    ComparisonOf(Trim(marker), gap, quoted, OperatorOnly(gap));
  }

  lemma ComparisonOf(s: string, gap: string, quoted: string, operator: bool)
    requires ParseValue(s) == Parsed(Some(Variable(PythonVersion)), gap)
    requires operator ==>
               && ParseOp(gap).value == Some(MarkerOp.Eq)
               && ParseValue(ParseOp(gap).rest) == Parsed(Some(Text(quoted)), "")
    requires !operator ==> ParseOp(gap).value.None? || ParseValue(ParseOp(gap).rest).value.None?
    ensures var r := ParseComparison(s);
            if operator then r == Parsed(Some(Compare(Variable(PythonVersion), MarkerOp.Eq, Text(quoted))), "")
                else r.value.None?
  {
    hide ParseValue, ParseOp, Words;
  }

  lemma GapStarts(gap: string, quoted: string)
    requires Reaches(gap, "\"" + quoted + "\"")
    ensures gap != "" && !InIdentifier(gap[0])
  {
  }

  /** An accepted marker without the operator is read as one that always holds. */
  lemma AcceptedRead(marker: string, quoted: string)
    requires PythonVersionOf(marker) == Some(quoted)
    ensures Parse(marker) == ReadAs(marker, quoted)
  {
    hide PythonVersionOf, WithOperator, ParseOr, ParseComparison, Trim, IsWhitespace, ReadAs;
    StartsLikeName(marker, quoted);
    AcceptedComparison(marker, quoted);
    WholeText(Trim(marker));
    TrueWithout(marker, quoted);
  }

  lemma StartsLikeName(marker: string, quoted: string)
    requires PythonVersionOf(marker) == Some(quoted)
    ensures Trim(marker) != "" && !IsWhitespace(Trim(marker)[0]) && Trim(marker)[0] != '('
  {
    hide PythonVersionOf, Trim, Gap, Reaches, MajorMinor;
    AcceptedText(marker, quoted);
    assert Trim(marker)[0] == 'p';
  }

  lemma TrueWithout(marker: string, quoted: string)
    ensures !WithOperator(marker) ==> ReadAs(marker, quoted) == True
  {
    hide WithOperator;
  }

  /** With any blanks and equal signs in between a marker is accepted. */
  lemma AcceptedForm(signs: string, quoted: string)
    requires (forall c :: c in signs ==> IsSpaceOrEqual(c)) && '"' !in quoted && MajorMinor(quoted).Some?
    ensures Gap(NAME + (signs + Quoted(quoted))) == Some(signs + Quoted(quoted))
    ensures PythonVersionOf(NAME + (signs + Quoted(quoted))) == Some(quoted)
  {
    var v := Quoted(quoted);
    TakeWhileOf(signs, v, IsSpaceOrEqual);
    assert SkipWhitespace(v) == v;
    TrimmedEnd(v);
    GapOf(signs + v);
    assert v[1..|v| - 1] == quoted;
    hide Trim, SkipWhitespace, DropWhile, MajorMinor, Gap, Quoted;
    assert Unquoted(v) == Some(quoted);
  }

  lemma GapOf(gap: string)
    requires !EndsBlank(gap)
    ensures Gap(NAME + gap) == Some(gap)
  {
    var m := NAME + gap;
    assert m[0] == 'p' && SkipWhitespace(m) == m;
    assert m[|m| - 1] == gap[|gap| - 1];
    TrimmedEnd(m);
    hide Trim, SkipWhitespace;
    assert m[|NAME|..] == gap && m[..|NAME|] == NAME;
  }

  /** The usual form, and one that is accepted but read as no condition. */
  lemma UsualForm(quoted: string)
    requires '"' !in quoted && MajorMinor(quoted).Some?
    ensures var m := NAME + (" == " + Quoted(quoted)); PythonVersionOf(m) == Some(quoted) && WithOperator(m)
    ensures var m := NAME + (" = " + Quoted(quoted));
            PythonVersionOf(m) == Some(quoted) && !WithOperator(m) && Parse(m) == True
  {
    hide PythonVersionOf, Parse, Gap, OperatorOnly, MajorMinor, Quoted;
    AcceptedForm(" == ", quoted);
    AcceptedForm(" = ", quoted);
    AcceptedRead(NAME + (" = " + Quoted(quoted)), quoted);
    QuotedStarts(quoted);
    TwoSigns(Quoted(quoted));
    OneSign(Quoted(quoted));
  }

  lemma QuotedStarts(s: string)
    ensures Quoted(s) != "" && Quoted(s)[0] == '"'
  {
  }

  lemma TwoSigns(v: string)
    requires v != "" && v[0] == '"'
    ensures OperatorOnly(" == " + v)
  {
    var t := "== " + v;
    assert " == " + v == " " + t && t[..2] == "==" && t[2..] == " " + v;
    SkipOne(t);
    SkipOne(v);
  }

  lemma OneSign(v: string)
    requires v != "" && v[0] == '"'
    ensures !OperatorOnly(" = " + v)
  {
    var t := "= " + v;
    assert " = " + v == " " + t && t[..2][1] == ' ';
    SkipOne(t);
  }

  // -- When it holds ---------------------------------------------------------------------

  lemma NumberTrimmed(s: string, n: nat)
    requires ParseNumber(s, MAX_U8) == Some(n)
    ensures ParseNumber(Trim(s), MAX_U32) == Some(n)
  {
    hide Trim, IsWhitespace;
    NumberFirm(s, n);
    TrimAround("", s, "");
    assert "" + s + "" == s;
  }

  lemma NumberFirm(s: string, n: nat)
    requires ParseNumber(s, MAX_U8) == Some(n)
    ensures s != "" && !IsWhitespace(s[0]) && !IsWhitespace(s[|s| - 1])
  {
    var last := |s| - 1;
    assert s[0] in s && s[last] in s;
    assert forall i :: 1 <= i < |s| ==> s[i] in s[1..];
    assert forall c :: c in s ==> IsDigit(c) || c == '+';
  }

  lemma VersionRead(s: string, target: (nat, nat))
    requires MajorMinor(s) == Some(target)
    ensures VersionTuple(s) == [target.0, target.1] && target.0 <= MAX_U8 && target.1 <= MAX_U8
  {
    var parts := Split(s, '.');
    NumberTrimmed(parts[0], target.0);
    NumberTrimmed(parts[1], target.1);
    hide ParseNumber, Split, Trim;
    assert parts[1..] == [parts[1]] && parts[1..][1..] == [];
    assert Numbers([]) == [];
    assert Numbers(parts[1..]) == [target.1];
  }

  /** An accepted marker holds in the environment of another exactly if it lacks the operator or
      is about the same Python version. */
  lemma HoldsExact(current: MarkerEnvironment, marker: string, other: string)
    requires TargetOf(marker).Some? && TargetOf(other).Some?
    ensures Evaluate(Parse(marker), EnvironmentOf(current, other), []) <==>
            !WithOperator(marker) || TargetOf(marker) == TargetOf(other)
  {
    hide PythonVersionOf, MajorMinor, WithOperator, Parse, VersionTuple, Dotted, CompareTuples, CompareTexts, TargetOf,
      EnvironmentOf;
    TargetParts(marker);
    TargetParts(other);
    var quoted := PythonVersionOf(marker).value;
    var here, there := TargetOf(marker).value, TargetOf(other).value;
    AcceptedRead(marker, quoted);
    VersionRead(quoted, here);
    VersionRead(PythonVersionOf(other).value, there);
    TupleOfDotted([there.0, there.1]);
    EnvironmentIs(current, other);
    SameVersion(quoted, EnvironmentOf(current, other), here, there);
  }

  lemma TargetParts(marker: string)
    requires TargetOf(marker).Some?
    ensures PythonVersionOf(marker).Some? && MajorMinor(PythonVersionOf(marker).value) == TargetOf(marker)
  {
    hide PythonVersionOf, MajorMinor;
  }

  lemma EnvironmentIs(current: MarkerEnvironment, marker: string)
    requires TargetOf(marker).Some?
    ensures var (major, minor) := TargetOf(marker).value;
            EnvironmentOf(current, marker).Lookup(PythonVersion) == Dotted([major, minor])
  {
    hide TargetOf, Dotted;
    var (major, minor) := TargetOf(marker).value;
    LookupPython(current, major, minor);
  }

  /** In the environment of a marker the three variables about Python are read as its version, and
      all others as before. */
  lemma EnvironmentExact(current: MarkerEnvironment, marker: string, v: MarkerVar)
    requires TargetOf(marker).Some?
    ensures var env := EnvironmentOf(current, marker);
            var (major, minor) := TargetOf(marker).value;
            match v
            case PythonVersion => VersionTuple(env.Lookup(v)) == [major, minor]
            case PythonFullVersion => VersionTuple(env.Lookup(v)) == [major, minor, 0]
            case ImplementationVersion => VersionTuple(env.Lookup(v)) == [major, minor, 0]
            case _ => env.Lookup(v) == current.Lookup(v)
  {
    hide PythonVersionOf, MajorMinor, VersionTuple, Dotted, TargetOf;
    TargetParts(marker);
    VersionRead(PythonVersionOf(marker).value, TargetOf(marker).value);
    var (major, minor) := TargetOf(marker).value;
    TupleOfDotted([major, minor]);
    TupleOfDotted([major, minor, 0]);
  }

  lemma SameVersion(quoted: string, env: MarkerEnvironment, here: (nat, nat), there: (nat, nat))
    requires env.Lookup(PythonVersion) == Dotted([there.0, there.1])
    requires VersionTuple(quoted) == [here.0, here.1] && VersionTuple(Dotted([there.0, there.1])) == [there.0, there.1]
    ensures Evaluate(Compare(Variable(PythonVersion), MarkerOp.Eq, Text(quoted)), env, []) <==> here == there
  {
    hide VersionTuple, Dotted, CompareTuples, CompareTexts;
    SameTuple(here, there);
  }

  lemma LookupPython(current: MarkerEnvironment, major: nat, minor: nat)
    ensures ForPythonVersion(current, major, minor).Lookup(PythonVersion) == Dotted([major, minor])
  {
    hide Dotted;
  }

  lemma SameTuple(a: (nat, nat), b: (nat, nat))
    ensures CompareTuples([b.0, b.1], MarkerOp.Eq, [a.0, a.1]) <==> a == b
  {
    var l, r := Padded([b.0, b.1], 2), Padded([a.0, a.1], 2);
    assert l == [b.0, b.1] && r == [a.0, a.1];
    assert l == r <==> l[0] == r[0] && l[1] == r[1];
  }

  // -- Merging for such markers ----------------------------------------------------------

  /** Whether a marker holds in an environment of the resolution. */
  function HoldsIn(envs: seq<EnvResult>, current: MarkerEnvironment): (nat, Marker) -> bool {
    (j: nat, marker: Marker) => j < |envs| && Evaluate(Parse(marker), EnvironmentOf(current, envs[j].marker), [])
  }

  /** The resolution runs only if every marker is accepted. */
  predicate AllAccepted(envs: seq<EnvResult>) {
    forall i :: 0 <= i < |envs| ==> TargetOf(envs[i].marker).Some?
  }

  /** The marker has the operator, and is about another Python version. */
  predicate KeptApart(marker: string, other: string) {
    WithOperator(marker) && TargetOf(marker) != TargetOf(other)
  }

  predicate Apart(envs: seq<EnvResult>) {
    forall i, j :: 0 <= i < |envs| && 0 <= j < |envs| && i != j ==> KeptApart(envs[i].marker, envs[j].marker)
  }

  lemma ExclusiveExact(envs: seq<EnvResult>, current: MarkerEnvironment)
    requires AllAccepted(envs)
    ensures Exclusive(envs, HoldsIn(envs, current)) <==> Apart(envs)
  {
    forall i, j | 0 <= i < |envs| && 0 <= j < |envs|
      ensures HoldsIn(envs, current)(j, envs[i].marker) <==> !KeptApart(envs[i].marker, envs[j].marker)
    {
      hide WithOperator, TargetOf, Parse, EnvironmentOf;
      HoldsExact(current, envs[i].marker, envs[j].marker);
    }
    hide KeptApart, HoldsIn;
    forall i | 0 <= i < |envs| ensures !KeptApart(envs[i].marker, envs[i].marker) {
      NotFromItself(envs[i].marker);
    }
  }

  lemma NotFromItself(marker: string)
    ensures !KeptApart(marker, marker)
  {
  }

  /** For accepted markers that keep apart, the entries whose markers hold for a Python version
      are its resolution. */
  lemma MergeForPythonVersions(envs: seq<EnvResult>, current: MarkerEnvironment, j: nat, strategy: ForkStrategy)
    requires AllAccepted(envs) && Apart(envs) && j < |envs|
    ensures Reproduces(MergedEntries(envs, strategy), envs[j], j, HoldsIn(envs, current))
  {
    hide AllAccepted, Apart, Reproduces, MergedEntries, Exclusive;
    ExclusiveExact(envs, current);
    MergeReproduces(envs, HoldsIn(envs, current), j, strategy);
  }
}
