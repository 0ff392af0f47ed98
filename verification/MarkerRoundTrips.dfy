/** What is read back from a printed marker: the tree regrouped as an "or" of "and"s. */
module MarkerRoundTrips {
  import opened MarkerGrammar
  import opened Markers
  import opened Options
  import opened Texts

  // -- Printable trees -------------------------------------------------------------------

  /** Nothing in a text is escaped, so it must not contain the quote it is printed in. */
  predicate Clean(s: string) {
    '"' !in s
  }

  predicate CleanValue(v: MarkerValue) {
    v.Text? ==> Clean(v.text)
  }

  predicate CleanAtom(t: MarkerTree) {
    match t
    case Compare(lhs, _, rhs) => CleanValue(lhs) && CleanValue(rhs)
    case Extra(name, _) => Clean(name)
    case VersionIn(_, versions, _) => Clean(Join(versions, " "))
    case _ => false
  }

  /** The markers that are never or always true print as words that are no markers. */
  predicate CleanLeaf(t: MarkerTree) {
    t.True? || t.False? || CleanAtom(t)
  }

  /** Any nesting of "and" and "or" over clean leaves. */
  predicate Printable(t: MarkerTree) {
    match t
    case And(cs) => cs != [] && forall i :: 0 <= i < |cs| ==> Printable(cs[i])
    case Or(cs) => cs != [] && forall i :: 0 <= i < |cs| ==> Printable(cs[i])
    case _ => CleanLeaf(t)
  }

  // -- Regrouping ------------------------------------------------------------------------

  /** Alternatives, each a conjunction of leaves. */
  type Groups = seq<seq<MarkerTree>>

  predicate GroupsOk(gs: Groups) {
    && gs != []
    && (forall i :: 0 <= i < |gs| ==> gs[i] != [])
    && (forall i, j :: 0 <= i < |gs| && 0 <= j < |gs[i]| ==> CleanLeaf(gs[i][j]))
  }

  /** Text of `a`, then "and", then text of `b`: "and" binds the neighbours only. */
  function Chained(a: Groups, b: Groups): Groups {
    if a == [] || b == [] then a + b
    else a[..|a| - 1] + [a[|a| - 1] + b[0]] + b[1..]
  }

  function ChainAll(parts: seq<Groups>): Groups {
    if |parts| == 0 then []
    else if |parts| == 1 then parts[0]
    else Chained(parts[0], ChainAll(parts[1..]))
  }

  function ConcatAll(parts: seq<Groups>): Groups {
    if |parts| == 0 then [] else parts[0] + ConcatAll(parts[1..])
  }

  /** The grouping that the printed text of a tree has. */
  function Flattened(t: MarkerTree): Groups {
    match t
    case And(cs) => ChainAll(seq(|cs|, i requires 0 <= i < |cs| => Flattened(cs[i])))
    case Or(cs) => ConcatAll(seq(|cs|, i requires 0 <= i < |cs| => Flattened(cs[i])))
    case _ => [[t]]
  }

  /** The normal form of an atom, as the parser builds it. */
  function NormalAtom(t: MarkerTree): MarkerTree {
    match t
    case Compare(lhs, op, rhs) => Normalized(lhs, op, rhs)
    case Extra(name, equal) => Normalized(Variable(ExtraVar), if equal then Eq else NotEq, Text(name))
    case VersionIn(key, versions, negated) =>
      Normalized(Variable(key), if negated then NotIn else In, Text(Join(versions, " ")))
    case _ => t
  }

  /** What is read of a conjunction: a word in it is skipped. */
  function ReadAtoms(g: seq<MarkerTree>): seq<MarkerTree> {
    if g == [] then []
    else if IsAtom(g[0]) then [NormalAtom(g[0])] + ReadAtoms(g[1..])
    else ReadAtoms(g[1..])
  }

  function ReadClause(g: seq<MarkerTree>): MarkerTree {
    var atoms := ReadAtoms(g);
    if |atoms| == 1 then atoms[0] else And(atoms)
  }

  predicate BeginsWithAtom(g: seq<MarkerTree>) {
    g != [] && IsAtom(g[0])
  }

  /** A word as a whole alternative is skipped; at the beginning of a longer one it ends the
      reading, since no "or" follows it. */
  function ReadAlternatives(gs: Groups): seq<MarkerTree> {
    if gs == [] then []
    else if BeginsWithAtom(gs[0]) then [ReadClause(gs[0])] + ReadAlternatives(gs[1..])
    else if |gs[0]| == 1 then ReadAlternatives(gs[1..])
    else []
  }

  /** Text that begins with a word is no marker. */
  function ReadBack(gs: Groups): MarkerTree {
    if gs == [] || !BeginsWithAtom(gs[0]) then True
    else
      var alternatives := ReadAlternatives(gs);
      if |alternatives| == 1 then alternatives[0] else Or(alternatives)
  }

  // -- The text of a grouping ------------------------------------------------------------

  /** The next operand after a keyword. */
  function Then(keyword: string, s: string): string {
    " " + keyword + " " + s
  }

  /** The text of a conjunction, followed by `rest`. */
  function ClauseTo(g: seq<MarkerTree>, rest: string): string {
    if |g| == 0 then rest
    else if |g| == 1 then Print(g[0]) + rest
    else Print(g[0]) + Then("and", ClauseTo(g[1..], rest))
  }

  function GroupsTo(gs: Groups, rest: string): string {
    if |gs| == 0 then rest
    else if |gs| == 1 then ClauseTo(gs[0], rest)
    else ClauseTo(gs[0], Then("or", GroupsTo(gs[1..], rest)))
  }

  lemma {:induction false} ClauseToConcat(a: seq<MarkerTree>, b: seq<MarkerTree>, rest: string)
    requires a != [] && b != []
    ensures ClauseTo(a + b, rest) == ClauseTo(a, Then("and", ClauseTo(b, rest)))
  {
    if |a| == 1 {
      assert (a + b)[1..] == b;
    } else {
      assert (a + b)[1..] == a[1..] + b;
      ClauseToConcat(a[1..], b, rest);
    }
  }

  lemma {:induction false} GroupsToConcat(a: Groups, b: Groups, rest: string)
    requires a != [] && b != []
    ensures GroupsTo(a + b, rest) == GroupsTo(a, Then("or", GroupsTo(b, rest)))
  {
    if |a| == 1 {
      assert (a + b)[1..] == b;
    } else {
      assert (a + b)[1..] == a[1..] + b;
      GroupsToConcat(a[1..], b, rest);
    }
  }

  lemma {:induction false} ChainedTo(a: Groups, b: Groups, rest: string)
    requires a != [] && b != [] && a[|a| - 1] != [] && b[0] != []
    ensures GroupsTo(Chained(a, b), rest) == GroupsTo(a, Then("and", GroupsTo(b, rest)))
  {
    var c := Chained(a, b);
    if |a| == 1 {
      assert c == [a[0] + b[0]] + b[1..];
      assert c[1..] == b[1..];
      ClauseToConcat(a[0], b[0], if |b| == 1 then rest else Then("or", GroupsTo(b[1..], rest)));
    } else {
      ChainedTo(a[1..], b, rest);
      assert c == [a[0]] + Chained(a[1..], b);
      assert c[1..] == Chained(a[1..], b);
    }
  }

  lemma Reassociate(a: string, b: string, c: string, d: string)
    ensures a + b + c + d == a + (b + (c + d))
  {
  }

  // -- Flattening keeps the text ---------------------------------------------------------

  ghost predicate IsText(gs: Groups, text: string) {
    GroupsOk(gs) && forall rest: string :: text + rest == GroupsTo(gs, rest)
  }

  lemma ConcatOk(a: Groups, b: Groups)
    requires GroupsOk(a) && GroupsOk(b)
    ensures GroupsOk(a + b)
  {
  }

  lemma ChainedOk(a: Groups, b: Groups)
    requires GroupsOk(a) && GroupsOk(b)
    ensures GroupsOk(Chained(a, b))
  {
    var c := Chained(a, b);
    forall i, j | 0 <= i < |c| && 0 <= j < |c[i]| ensures CleanLeaf(c[i][j]) {
    }
  }

  lemma Continues(keyword: string, a: string, b: string, rest: string)
    ensures a + (" " + keyword + " ") + b + rest == a + Then(keyword, b + rest)
  {
    Reassociate(a, " " + keyword + " ", b, rest);
  }

  lemma ChainedIsText(a: Groups, s: string, b: Groups, t: string)
    requires IsText(a, s) && IsText(b, t)
    ensures IsText(Chained(a, b), s + " and " + t)
  {
    hide GroupsOk, Chained, GroupsTo, Then;
    ChainedOk(a, b);
    forall rest: string ensures s + " and " + t + rest == GroupsTo(Chained(a, b), rest) {
      ChainedText(a, s, b, t, rest);
    }
  }

  lemma ChainedText(a: Groups, s: string, b: Groups, t: string, rest: string)
    requires IsText(a, s) && IsText(b, t)
    ensures s + " and " + t + rest == GroupsTo(Chained(a, b), rest)
  {
    hide GroupsOk, Chained, GroupsTo, Then;
    EndsNotEmpty(a);
    EndsNotEmpty(b);
    Continues("and", s, t, rest);
    ChainedTo(a, b, rest);
  }

  lemma EndsNotEmpty(a: Groups)
    ensures GroupsOk(a) ==> a != [] && a[0] != [] && a[|a| - 1] != []
  {
  }

  lemma ConcatIsText(a: Groups, s: string, b: Groups, t: string)
    requires IsText(a, s) && IsText(b, t)
    ensures IsText(a + b, s + " or " + t)
  {
    ConcatOk(a, b);
    assert a != [] && b != [];
    hide GroupsOk, GroupsTo, Then;
    forall rest: string ensures s + " or " + t + rest == GroupsTo(a + b, rest) {
      ConcatText(a, s, b, t, rest);
    }
  }

  lemma ConcatText(a: Groups, s: string, b: Groups, t: string, rest: string)
    requires a != [] && b != [] && IsText(a, s) && IsText(b, t)
    ensures s + " or " + t + rest == GroupsTo(a + b, rest)
  {
    hide GroupsOk, GroupsTo, Then;
    Continues("or", s, t, rest);
    GroupsToConcat(a, b, rest);
  }

  lemma {:induction false} ChainAllText(parts: seq<Groups>, texts: seq<string>)
    requires |parts| == |texts| > 0 && forall i :: 0 <= i < |parts| ==> IsText(parts[i], texts[i])
    ensures IsText(ChainAll(parts), Join(texts, " and "))
  {
    hide IsText;
    if |parts| > 1 {
      ChainAllText(parts[1..], texts[1..]);
      ChainedIsText(parts[0], texts[0], ChainAll(parts[1..]), Join(texts[1..], " and "));
    }
  }

  lemma {:induction false} ConcatAllText(parts: seq<Groups>, texts: seq<string>)
    requires |parts| == |texts| > 0 && forall i :: 0 <= i < |parts| ==> IsText(parts[i], texts[i])
    ensures IsText(ConcatAll(parts), Join(texts, " or "))
  {
    hide IsText;
    if |parts| > 1 {
      ConcatAllText(parts[1..], texts[1..]);
      ConcatIsText(parts[0], texts[0], ConcatAll(parts[1..]), Join(texts[1..], " or "));
    } else {
      assert ConcatAll(parts[1..]) == [] && ConcatAll(parts) == parts[0];
    }
  }

  /** The printed text of a tree is the text of its grouping. */
  lemma {:induction false} PrintedText(t: MarkerTree)
    requires Printable(t)
    ensures IsText(Flattened(t), Print(t))
  {
    match t
    case And(cs) =>
      var parts := seq(|cs|, i requires 0 <= i < |cs| => Flattened(cs[i]));
      var texts := seq(|cs|, i requires 0 <= i < |cs| => Print(cs[i]));
      forall i | 0 <= i < |cs| ensures IsText(parts[i], texts[i]) {
        PrintedText(cs[i]);
      }
      ChainAllText(parts, texts);
      assert Flattened(t) == ChainAll(parts) && Print(t) == Join(texts, " and ");
    case Or(cs) =>
      var parts := seq(|cs|, i requires 0 <= i < |cs| => Flattened(cs[i]));
      var texts := seq(|cs|, i requires 0 <= i < |cs| => Print(cs[i]));
      forall i | 0 <= i < |cs| ensures IsText(parts[i], texts[i]) {
        PrintedText(cs[i]);
      }
      ConcatAllText(parts, texts);
      assert Flattened(t) == ConcatAll(parts) && Print(t) == Join(texts, " or ");
    case _ =>
  }

  // -- Reading atoms back ----------------------------------------------------------------

  lemma SkipNone(s: string)
    requires s == "" || !IsWhitespace(s[0])
    ensures SkipWhitespace(s) == s
  {
  }

  lemma SkipOne(s: string)
    requires s == "" || !IsWhitespace(s[0])
    ensures SkipWhitespace(" " + s) == s
  {
    SkipBlank(s);
  }

  predicate IsPlatform(v: MarkerVar) {
    v.PlatformSystem? || v.PlatformMachine? || v.PlatformRelease? || v.PlatformVersion?
  }

  predicate IsLetters(s: string) {
    s != "" && IsLowercase(s[0]) && forall i :: 0 <= i < |s| ==> InIdentifier(s[i])
  }

  lemma PlatformLetters(v: MarkerVar)
    requires IsPlatform(v)
    ensures IsLetters(PrintVar(v))
  {
  }

  lemma PythonLetters(v: MarkerVar)
    requires v.PythonVersion? || v.PythonFullVersion?
    ensures IsLetters(PrintVar(v))
  {
  }

  lemma ImplementationLetters(v: MarkerVar)
    requires v.PlatformPythonImplementation? || v.ImplementationVersion? || v.ImplementationName?
    ensures IsLetters(PrintVar(v))
  {
  }

  lemma OtherLetters(v: MarkerVar)
    requires v.OsName? || v.SysPlatform? || v.ExtraVar?
    ensures IsLetters(PrintVar(v))
  {
  }

  /** The letters of a variable name, character by character. */
  lemma VarLetters(v: MarkerVar)
    ensures PrintVar(v) != "" && IsLowercase(PrintVar(v)[0])
    ensures forall i :: 0 <= i < |PrintVar(v)| ==> InIdentifier(PrintVar(v)[i])
  {
    hide PrintVar, InIdentifier, IsLowercase;
    if IsPlatform(v) {
      PlatformLetters(v);
    } else if v.OsName? || v.SysPlatform? || v.ExtraVar? {
      OtherLetters(v);
    } else if v.PythonVersion? || v.PythonFullVersion? {
      PythonLetters(v);
    } else {
      ImplementationLetters(v);
    }
  }

  lemma PlatformNames(v: MarkerVar)
    requires IsPlatform(v)
    ensures VarNamed(PrintVar(v)) == Some(v)
  {
  }

  lemma PythonNames(v: MarkerVar)
    requires v.PythonVersion? || v.PythonFullVersion?
    ensures VarNamed(PrintVar(v)) == Some(v)
  {
  }

  lemma ImplementationNames(v: MarkerVar)
    requires v.PlatformPythonImplementation? || v.ImplementationVersion? || v.ImplementationName?
    ensures VarNamed(PrintVar(v)) == Some(v)
  {
  }

  lemma OtherNames(v: MarkerVar)
    requires v.OsName? || v.SysPlatform? || v.ExtraVar?
    ensures VarNamed(PrintVar(v)) == Some(v)
  {
  }

  lemma VarNames(v: MarkerVar)
    ensures VarNamed(PrintVar(v)) == Some(v)
  {
    hide PrintVar, VarNamed;
    if IsPlatform(v) {
      PlatformNames(v);
    } else if v.OsName? || v.SysPlatform? || v.ExtraVar? {
      OtherNames(v);
    } else if v.PythonVersion? || v.PythonFullVersion? {
      PythonNames(v);
    } else {
      ImplementationNames(v);
    }
  }

  /** Where a printed part ends: at the end of the text or at a blank. */
  predicate Ends(rest: string) {
    rest == "" || rest[0] == ' '
  }

  lemma VarPrinted(v: MarkerVar, rest: string)
    requires StopsAt(rest, InIdentifier)
    ensures ParseValue(PrintVar(v) + rest) == Parsed(Some(Variable(v)), rest)
  {
    hide VarNamed, PrintVar;
    VarLetters(v);
    VarNames(v);
    SkipNone(PrintVar(v) + rest);
    TakeWhileOf(PrintVar(v), rest, InIdentifier);
  }

  lemma QuotedPrinted(text: string, rest: string)
    requires Clean(text)
    ensures ParseValue(Quoted(text) + rest) == Parsed(Some(Text(text)), rest)
  {
    var s := Quoted(text) + rest;
    SkipNone(s);
    assert s[1..] == text + ("\"" + rest);
    TakeWhileOf(text, "\"" + rest, NotQuote('"'));
    assert s[1 + |text|..] == "\"" + rest;
    assert s[1 + |text|..][1..] == rest;
  }

  lemma ValuePrinted(v: MarkerValue, rest: string)
    requires CleanValue(v) && Ends(rest)
    ensures ParseValue(PrintValue(v) + rest) == Parsed(Some(v), rest)
    ensures PrintValue(v) != "" && !IsWhitespace(PrintValue(v)[0]) && PrintValue(v)[0] != '('
  {
    match v
    case Variable(x) =>
      VarPrinted(x, rest);
      VarLetters(x);
    case Text(text) =>
      QuotedPrinted(text, rest);
  }

  /** What may follow an operator so that it is read as it is. */
  predicate OpEnds(op: MarkerOp, rest: string) {
    if op.In? || op.NotIn? then WordOpEnds(rest) else rest == "" || rest[0] != '='
  }

  lemma OpPrinted(op: MarkerOp, rest: string)
    requires OpEnds(op, rest)
    ensures ParseOp(PrintOp(op) + rest) == Parsed(Some(op), rest)
  {
    hide AtNotIn, AtIn, SymbolOp, SkipWhitespace;
    OpUnskipped(op, rest);
    if op.NotIn? {
      NotInPrinted(rest);
    } else if op.In? {
      InPrinted(rest);
    } else {
      SymbolPrinted(op, rest);
    }
  }

  lemma OpUnskipped(op: MarkerOp, rest: string)
    ensures SkipWhitespace(PrintOp(op) + rest) == PrintOp(op) + rest
  {
    SkipNone(PrintOp(op) + rest);
  }

  lemma NotInPrinted(rest: string)
    requires WordOpEnds(rest)
    ensures AtNotIn("not in" + rest) && SkipWhitespace(("not in" + rest)[3..])[2..] == rest
  {
    hide SkipWhitespace, WordOpEnds;
    var s := "not in" + rest;
    assert s[..3] == "not" && s[3..] == " " + ("in" + rest);
    SkipOne("in" + rest);
    assert ("in" + rest)[..2] == "in" && ("in" + rest)[2..] == rest;
  }

  lemma InPrinted(rest: string)
    requires WordOpEnds(rest)
    ensures !AtNotIn("in" + rest) && AtIn("in" + rest) && ("in" + rest)[2..] == rest
  {
    var s := "in" + rest;
    assert s[..2] == "in" && s[2..] == rest;
    assert |s| >= 3 ==> s[..3][0] == 'i';
  }

  lemma SymbolPrinted(op: MarkerOp, rest: string)
    requires (rest == "" || rest[0] != '=') && !op.In? && !op.NotIn?
    ensures SymbolOp(PrintOp(op) + rest) == Parsed(Some(op), rest)
    ensures !AtNotIn(PrintOp(op) + rest) && !AtIn(PrintOp(op) + rest)
  {
    var s := PrintOp(op) + rest;
    assert s[0] == PrintOp(op)[0] && s[0] != 'n' && s[0] != 'i';
    assert |s| >= 3 ==> s[..3][0] == s[0];
    assert |s| >= 2 ==> s[..2][0] == s[0];
    assert !AtNotIn(s) && !AtIn(s);
    SymbolTaken(op, rest);
  }

  lemma SymbolTaken(op: MarkerOp, rest: string)
    requires (rest == "" || rest[0] != '=') && !op.In? && !op.NotIn?
    ensures SymbolOp(PrintOp(op) + rest) == Parsed(Some(op), rest)
  {
    var s := PrintOp(op) + rest;
    assert s[|PrintOp(op)|..] == rest;
    if op.Gt? || op.Lt? {
      assert s[..1] == PrintOp(op) && (|s| >= 2 ==> s[1] == rest[0] && s[..2][1] == s[1]);
    } else {
      assert s[..2] == PrintOp(op);
    }
  }

  /** The three parts of an atom as printed. */
  function Parts(t: MarkerTree): (MarkerValue, MarkerOp, MarkerValue)
    requires IsAtom(t)
  {
    match t
    case Compare(lhs, op, rhs) => (lhs, op, rhs)
    case Extra(name, equal) => (Variable(ExtraVar), if equal then Eq else NotEq, Text(name))
    case VersionIn(key, versions, negated) => (Variable(key), if negated then NotIn else In, Text(Join(versions, " ")))
  }

  lemma AtomText(t: MarkerTree, rest: string)
    requires IsAtom(t)
    ensures var (lhs, op, rhs) := Parts(t);
            Print(t) + rest == PrintValue(lhs) + (" " + (PrintOp(op) + (" " + (PrintValue(rhs) + rest))))
    ensures var (lhs, op, rhs) := Parts(t); NormalAtom(t) == Normalized(lhs, op, rhs)
  {
    var (lhs, op, rhs) := Parts(t);
    var a, o, b := PrintValue(lhs), PrintOp(op), PrintValue(rhs);
    if t.Extra? {
      assert Print(t) == a + " " + o + " " + b;
    }
    assert Print(t) == a + " " + o + " " + b;
    Regroup(a, o, b, rest);
  }

  lemma Regroup(a: string, o: string, b: string, rest: string)
    ensures a + " " + o + " " + b + rest == a + (" " + (o + (" " + (b + rest))))
  {
    assert a + " " + o + " " + b + rest == a + (" " + o + " " + b + rest);
    assert " " + o + " " + b + rest == " " + (o + " " + b + rest);
    assert o + " " + b + rest == o + (" " + b + rest);
  }

  /** A printed atom is read back in its normal form, and no further. */
  lemma AtomPrinted(t: MarkerTree, rest: string)
    requires CleanAtom(t) && Ends(rest)
    ensures ParseAtom(Print(t) + rest) == Parsed(Some(NormalAtom(t)), rest)
    ensures Print(t) + rest != "" && !IsWhitespace((Print(t) + rest)[0])
  {
    hide Print, PrintValue, PrintOp, ParseValue, ParseOp, NormalAtom, Normalized;
    AtomText(t, rest);
    var (lhs, op, rhs) := Parts(t);
    var atRight := PrintValue(rhs) + rest;
    var atOp := PrintOp(op) + (" " + atRight);
    ValuePrinted(lhs, " " + atOp);
    ValuePrinted(rhs, rest);
    OpPrinted(op, " " + atRight);
    OpStart(op, " " + atRight);
    SkipNone(Print(t) + rest);
    ParseOpBlank(atOp);
    ParseValueBlank(atRight);
    assert ParseComparison(Print(t) + rest) == Parsed(Some(NormalAtom(t)), rest);
  }

  lemma OpStart(op: MarkerOp, rest: string)
    ensures PrintOp(op) + rest != "" && !IsWhitespace((PrintOp(op) + rest)[0])
  {
  }

  lemma ParseOpBlank(s: string)
    requires s != "" && !IsWhitespace(s[0])
    ensures ParseOp(" " + s) == ParseOp(s)
  {
    SkipOne(s);
    SkipNone(s);
  }

  lemma ParseValueBlank(s: string)
    requires s != "" && !IsWhitespace(s[0])
    ensures ParseValue(" " + s) == ParseValue(s)
  {
    SkipOne(s);
    SkipNone(s);
  }

  // -- Words -----------------------------------------------------------------------------

  /** What may follow a leaf. */
  predicate Follows(rest: string) {
    rest == "" || StartsWith(rest, " and ") || StartsWith(rest, " or ")
  }

  lemma FollowsStops(rest: string)
    requires Follows(rest)
    ensures Ends(rest) && ParseOp(rest) == Parsed(None, SkipWhitespace(rest))
  {
    if rest != "" {
      var n := if StartsWith(rest, " and ") then 5 else 4;
      assert rest[..n][0] == ' ' && (rest[..n][1] == 'a' || rest[..n][1] == 'o') && rest == " " + rest[1..];
      SkipOne(rest[1..]);
      NoOpAt(rest[1..]);
    }
  }

  lemma NoOpAt(s: string)
    requires s != "" && (s[0] == 'a' || s[0] == 'o')
    ensures !AtNotIn(s) && !AtIn(s) && SymbolOp(s) == Parsed(None, s)
  {
    assert forall prefix: string :: StartsWith(s, prefix) && prefix != "" ==> prefix[0] == s[0];
  }

  lemma WordLetters(t: MarkerTree)
    requires t.True? || t.False?
    ensures Print(t) != "" && IsLowercase(Print(t)[0]) && VarNamed(Print(t)) == None
    ensures forall c :: c in Print(t) ==> InIdentifier(c)
  {
  }

  lemma NameRead(name: string, rest: string)
    requires name != "" && IsLowercase(name[0]) && VarNamed(name) == None && Ends(rest)
    requires forall c :: c in name ==> InIdentifier(c)
    ensures ParseValue(name + rest) == Parsed(Some(Text(name)), rest)
  {
    hide VarNamed;
    SkipNone(name + rest);
    TakeWhileOf(name, rest, InIdentifier);
  }

  /** A word is no comparison: nothing is read, and only white space is skipped after it. */
  lemma WordFails(t: MarkerTree, rest: string)
    requires (t.True? || t.False?) && Follows(rest)
    ensures ParseAtom(Print(t) + rest) == Parsed(None, SkipWhitespace(rest))
    ensures Print(t) + rest != "" && !IsWhitespace((Print(t) + rest)[0])
  {
    hide Print, VarNamed, ParseOp, ParseValue, InIdentifier, IsWhitespace, SkipWhitespace, Follows, Ends;
    var s := Print(t) + rest;
    FollowsStops(rest);
    WordLetters(t);
    NameRead(Print(t), rest);
    assert s[0] == Print(t)[0];
    LowercaseFirm(s[0]);
    SkipNone(s);
  }

  lemma LowercaseFirm(c: char)
    requires IsLowercase(c)
    ensures !IsWhitespace(c) && c != '('
  {
  }

  // -- Reading trees back ----------------------------------------------------------------

  predicate CleanLeaves(g: seq<MarkerTree>) {
    forall i :: 0 <= i < |g| ==> CleanLeaf(g[i])
  }

  lemma LeafRead(t: MarkerTree, rest: string)
    requires CleanLeaf(t) && Follows(rest)
    ensures ParseAtom(Print(t) + rest) ==
            if IsAtom(t) then Parsed(Some(NormalAtom(t)), rest) else Parsed(None, SkipWhitespace(rest))
    ensures Print(t) + rest != "" && !IsWhitespace((Print(t) + rest)[0])
  {
    if IsAtom(t) {
      FollowsStops(rest);
      AtomPrinted(t, rest);
    } else {
      WordFails(t, rest);
    }
  }

  /** What may follow a conjunction: nothing, or the next alternative. */
  predicate AfterClause(rest: string) {
    rest == "" || StartsWith(rest, " or ")
  }

  lemma AfterClauseStops(rest: string)
    requires AfterClause(rest)
    ensures Ends(rest) && !AtKeyword(SkipWhitespace(rest), "and")
  {
    if rest != "" {
      assert rest[..4][0] == ' ' && rest[..4][1] == 'o' && rest == " " + rest[1..];
      SkipOne(rest[1..]);
    }
  }

  lemma KeywordAt(keyword: string, s: string)
    requires keyword == "and" || keyword == "or"
    requires s != "" && !IsWhitespace(s[0])
    ensures var t := SkipWhitespace(Then(keyword, s));
            AtKeyword(t, keyword) && SkipWhitespace(t[|keyword|..]) == s
  {
    var t := keyword + " " + s;
    assert Then(keyword, s) == " " + t;
    SkipOne(t);
    assert t == keyword + (" " + s) && t[|keyword|..] == " " + s;
    SkipOne(s);
  }

  lemma AndIsNotOr(s: string)
    ensures !AtKeyword(SkipWhitespace(Then("and", s)), "or")
  {
    var t := "and" + " " + s;
    assert Then("and", s) == " " + t;
    SkipOne(t);
    assert t[0] == 'a';
  }

  /** What follows the first operand of a conjunction. */
  function ClauseRest(g: seq<MarkerTree>, rest: string): string {
    if |g| <= 1 then rest else Then("and", ClauseTo(g[1..], rest))
  }

  lemma ClauseRestFollows(g: seq<MarkerTree>, rest: string)
    requires AfterClause(rest)
    ensures Follows(ClauseRest(g, rest))
  {
    if |g| > 1 {
      assert Then("and", ClauseTo(g[1..], rest))[..5] == " and ";
    }
  }

  lemma ClauseStarts(g: seq<MarkerTree>, rest: string)
    requires g != [] && CleanLeaves(g) && AfterClause(rest)
    ensures ClauseTo(g, rest) != "" && !IsWhitespace(ClauseTo(g, rest)[0])
    ensures ParseAtom(ClauseTo(g, rest)) ==
            if IsAtom(g[0]) then Parsed(Some(NormalAtom(g[0])), ClauseRest(g, rest))
            else Parsed(None, SkipWhitespace(ClauseRest(g, rest)))
  {
    ClauseRestFollows(g, rest);
    LeafRead(g[0], ClauseRest(g, rest));
  }

  lemma AndRestUnfolds(children: seq<MarkerTree>, s: string)
    ensures var t := SkipWhitespace(s);
            AndRest(children, s) ==
            if AtKeyword(t, "and") then
              var next := ParseAtom(SkipWhitespace(t[3..]));
              AndRest(if next.value.Some? then children + [next.value.value] else children, next.rest)
            else Parsed(Some(children), t)
  {
  }

  /** White space in front does not matter. */
  lemma AndRestSkips(children: seq<MarkerTree>, s: string)
    ensures AndRest(children, SkipWhitespace(s)) == AndRest(children, s)
  {
    AndRestUnfolds(children, s);
    AndRestUnfolds(children, SkipWhitespace(s));
    SkipNone(SkipWhitespace(s));
  }

  lemma ReadAtomsMore(children: seq<MarkerTree>, g: seq<MarkerTree>)
    ensures g == [] ==> children + ReadAtoms(g) == children
    ensures g != [] && IsAtom(g[0]) ==> children + ReadAtoms(g) == children + [NormalAtom(g[0])] + ReadAtoms(g[1..])
    ensures g != [] && IsAtom(g[0]) ==> ReadAtoms(g) == [NormalAtom(g[0])] + ReadAtoms(g[1..])
    ensures g != [] && !IsAtom(g[0]) ==> ReadAtoms(g) == ReadAtoms(g[1..])
  {
  }

  lemma {:induction false} AndRestPrinted(children: seq<MarkerTree>, g: seq<MarkerTree>, rest: string)
    requires CleanLeaves(g) && AfterClause(rest)
    ensures AndRest(children, if g == [] then rest else Then("and", ClauseTo(g, rest))) ==
            Parsed(Some(children + ReadAtoms(g)), SkipWhitespace(rest))
    decreases |g|
  {
    hide ParseAtom, AndRest, ClauseTo, NormalAtom, ReadAtoms, AtKeyword, SkipWhitespace, AfterClause, Then, CleanLeaf,
      IsAtom, IsWhitespace;
    AfterClauseStops(rest);
    ReadAtomsMore(children, g);
    if g == [] {
      AndRestUnfolds(children, rest);
    } else {
      var s := ClauseTo(g, rest);
      ClauseStarts(g, rest);
      KeywordAt("and", s);
      AndRestUnfolds(children, Then("and", s));
      var more := if IsAtom(g[0]) then children + [NormalAtom(g[0])] else children;
      AndRestSkips(more, ClauseRest(g, rest));
      AndRestPrinted(more, g[1..], rest);
    }
  }

  lemma ClausePrinted(g: seq<MarkerTree>, rest: string)
    requires g != [] && CleanLeaves(g) && AfterClause(rest)
    ensures ParseAnd(ClauseTo(g, rest)) ==
            if IsAtom(g[0]) then Parsed(Some(ReadClause(g)), SkipWhitespace(rest))
            else Parsed(None, SkipWhitespace(ClauseRest(g, rest)))
  {
    hide ParseAtom, AndRest, ClauseTo, NormalAtom, ReadAtoms, SkipWhitespace, AfterClause, CleanLeaf, IsAtom,
      IsWhitespace, Then;
    ReadAtomsMore([], g);
    ClauseStarts(g, rest);
    SkipNone(ClauseTo(g, rest));
    if IsAtom(g[0]) {
      AndRestPrinted([NormalAtom(g[0])], g[1..], rest);
    }
  }

  /** What follows the first alternative. */
  function MoreGroups(gs: Groups): string {
    if gs == [] then "" else Then("or", GroupsTo(gs, ""))
  }

  lemma GroupsStart(gs: Groups)
    requires GroupsOk(gs)
    ensures GroupsTo(gs, "") != "" && !IsWhitespace(GroupsTo(gs, "")[0])
    ensures ParseAnd(GroupsTo(gs, "")) ==
            if IsAtom(gs[0][0]) then Parsed(Some(ReadClause(gs[0])), SkipWhitespace(MoreGroups(gs[1..])))
            else Parsed(None, SkipWhitespace(ClauseRest(gs[0], MoreGroups(gs[1..]))))
  {
    hide IsAtom, CleanLeaf, ReadClause, SkipWhitespace;
    var rest := MoreGroups(gs[1..]);
    if |gs| > 1 {
      assert Then("or", GroupsTo(gs[1..], ""))[..4] == " or ";
    }
    assert AfterClause(rest);
    assert CleanLeaves(gs[0]);
    ClauseStarts(gs[0], rest);
    ClausePrinted(gs[0], rest);
    assert GroupsTo(gs, "") == ClauseTo(gs[0], rest);
  }

  lemma OrRestUnfolds(children: seq<MarkerTree>, s: string)
    ensures var t := SkipWhitespace(s);
            OrRest(children, s) ==
            if AtKeyword(t, "or") then
              var next := ParseAnd(SkipWhitespace(t[2..]));
              OrRest(if next.value.Some? then children + [next.value.value] else children, next.rest)
            else Parsed(Some(children), t)
  {
  }

  lemma OrRestSkips(children: seq<MarkerTree>, s: string)
    ensures OrRest(children, SkipWhitespace(s)) == OrRest(children, s)
  {
    OrRestUnfolds(children, s);
    OrRestUnfolds(children, SkipWhitespace(s));
    SkipNone(SkipWhitespace(s));
  }

  lemma ReadAlternativesMore(children: seq<MarkerTree>, gs: Groups)
    ensures gs == [] ==> children + ReadAlternatives(gs) == children
    ensures gs != [] && BeginsWithAtom(gs[0]) ==>
              children + ReadAlternatives(gs) == children + [ReadClause(gs[0])] + ReadAlternatives(gs[1..])
    ensures gs != [] && !BeginsWithAtom(gs[0]) ==>
              ReadAlternatives(gs) == if |gs[0]| == 1 then ReadAlternatives(gs[1..]) else []
  {
  }

  lemma {:induction false} OrRestPrinted(children: seq<MarkerTree>, gs: Groups)
    requires gs == [] || GroupsOk(gs)
    ensures OrRest(children, MoreGroups(gs)).value == Some(children + ReadAlternatives(gs))
    decreases |gs|
  {
    hide ParseAnd, OrRest, GroupsTo, ReadClause, ReadAlternatives, AtKeyword, SkipWhitespace, Then, GroupsOk,
      IsWhitespace, IsAtom, ClauseTo;
    OrRestUnfolds(children, MoreGroups(gs));
    ReadAlternativesMore(children, gs);
    if gs == [] {
      NoMoreGroups();
    } else {
      EndsNotEmpty(gs);
      var s := GroupsTo(gs, "");
      GroupsStart(gs);
      KeywordAt("or", s);
      TailOk(gs);
      var rest := MoreGroups(gs[1..]);
      if IsAtom(gs[0][0]) {
        var more := children + [ReadClause(gs[0])];
        OrRestSkips(more, rest);
        OrRestPrinted(more, gs[1..]);
      } else if |gs[0]| == 1 {
        OrRestSkips(children, rest);
        OrRestPrinted(children, gs[1..]);
      } else {
        OrRestSkips(children, ClauseRest(gs[0], rest));
        OrRestUnfolds(children, ClauseRest(gs[0], rest));
        AndIsNotOr(ClauseTo(gs[0][1..], rest));
        assert children + [] == children;
      }
    }
  }

  lemma NoMoreGroups()
    ensures SkipWhitespace("") == "" && !AtKeyword("", "or")
  {
  }

  lemma TailOk(gs: Groups)
    requires GroupsOk(gs)
    ensures gs[1..] == [] || GroupsOk(gs[1..])
  {
  }

  lemma GroupsPrinted(gs: Groups)
    requires GroupsOk(gs)
    ensures ParseOr(GroupsTo(gs, "")).value == if IsAtom(gs[0][0]) then Some(ReadBack(gs)) else None
  {
    hide ParseAnd, OrRest, GroupsTo, ReadClause, ReadAlternatives, SkipWhitespace, MoreGroups, IsAtom, ClauseRest;
    GroupsStart(gs);
    SkipNone(GroupsTo(gs, ""));
    if IsAtom(gs[0][0]) {
      var first := [ReadClause(gs[0])];
      TailOk(gs);
      OrRestSkips(first, MoreGroups(gs[1..]));
      OrRestPrinted(first, gs[1..]);
      ReadAlternativesMore([], gs);
      assert [] + ReadAlternatives(gs) == ReadAlternatives(gs) && [] + first == first;
    }
  }

  predicate EndsInText(s: string) {
    s != "" && !IsWhitespace(s[|s| - 1])
  }

  lemma ValueEnds(v: MarkerValue)
    ensures EndsInText(PrintValue(v))
  {
    if v.Variable? {
      VarLetters(v.variable);
    }
  }

  lemma LeafEnds(t: MarkerTree)
    requires CleanLeaf(t)
    ensures EndsInText(Print(t))
  {
    if IsAtom(t) {
      AtomEnds(t);
    }
  }

  lemma AtomEnds(t: MarkerTree)
    requires CleanAtom(t)
    ensures EndsInText(Print(t))
  {
    hide Print, PrintValue, PrintOp;
    AtomText(t, "");
    var (lhs, op, rhs) := Parts(t);
    ValueEnds(rhs);
    var front := PrintValue(lhs) + (" " + (PrintOp(op) + " "));
    assert Print(t) + "" == Print(t);
    assert Print(t) == front + PrintValue(rhs) by {
      assert PrintValue(rhs) + "" == PrintValue(rhs);
      Refront(PrintValue(lhs), PrintOp(op), PrintValue(rhs));
    }
  }

  lemma Refront(a: string, o: string, b: string)
    ensures a + (" " + (o + (" " + b))) == a + (" " + (o + " ")) + b
  {
  }

  lemma {:induction false} ClauseEnds(g: seq<MarkerTree>, rest: string)
    requires g != [] && CleanLeaves(g) && (rest == "" || EndsInText(rest))
    ensures EndsInText(ClauseTo(g, rest))
  {
    if |g| == 1 {
      LeafEnds(g[0]);
    } else {
      ClauseEnds(g[1..], rest);
    }
  }

  lemma {:induction false} GroupsEnd(gs: Groups)
    requires GroupsOk(gs)
    ensures EndsInText(GroupsTo(gs, ""))
  {
    assert CleanLeaves(gs[0]);
    if |gs| == 1 {
      ClauseEnds(gs[0], "");
    } else {
      GroupsEnd(gs[1..]);
      ClauseEnds(gs[0], Then("or", GroupsTo(gs[1..], "")));
    }
  }

  /** Printing any nesting of "and" and "or" and parsing the text gives the regrouped tree, with
      every atom in normal form, as far as the words for "always" and "never" let it be read. */
  lemma ParsePrinted(t: MarkerTree)
    requires Printable(t)
    ensures Parse(Print(t)) == ReadBack(Flattened(t))
  {
    PrintedText(t);
    var gs := Flattened(t);
    assert Print(t) + "" == GroupsTo(gs, "") && Print(t) + "" == Print(t);
    GroupsPrinted(gs);
    GroupsStart(gs);
    GroupsEnd(gs);
    SkipNone(Print(t));
    assert Trim(Print(t)) == Print(t);
  }
}
