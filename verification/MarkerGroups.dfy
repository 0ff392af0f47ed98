/** Markers written with parentheses are read as the trees that they stand for, in every usual
    spelling: with either quote or none, dotted variable names, and any white space. */
module MarkerGroups {
  import opened MarkerGrammar
  import opened MarkerNormalForms
  import opened MarkerQuotes
  import opened MarkerRoundTrips
  import opened Markers
  import opened Options
  import opened Texts

  // -- Spellings -------------------------------------------------------------------------

  datatype Quoting = Single | Double | Bare

  /** How each text is quoted, which variables are written with dots, and the white space around
      keywords, around symbols and inside parentheses. */
  datatype Style = Style(
    quoting: string -> Quoting,
    dotted: MarkerVar -> bool,
    gap: string,
    tight: string,
    pad: string)

  predicate StyleOk(st: Style) {
    st.gap != "" && IsBlank(st.gap) && IsBlank(st.tight) && IsBlank(st.pad)
  }

  function DottedName(v: MarkerVar): string {
    match v
    case OsName => "os.name"
    case SysPlatform => "sys.platform"
    case PlatformSystem => "platform.system"
    case PlatformMachine => "platform.machine"
    case PlatformRelease => "platform.release"
    case PlatformVersion => "platform.version"
    case PlatformPythonImplementation => "platform.python_implementation"
    case PythonVersion => "python.version"
    case PythonFullVersion => "python.full_version"
    case _ => PrintVar(v)
  }

  function SpelledText(quoting: Quoting, text: string): string {
    match quoting
    case Single => "'" + text + "'"
    case Double => "\"" + text + "\""
    case Bare => text
  }

  function Spelled(st: Style, v: MarkerValue): string {
    match v
    case Variable(x) => if st.dotted(x) then DottedName(x) else PrintVar(x)
    case Text(text) => SpelledText(st.quoting(text), text)
  }

  /** A quoted text lacks its quote; a bare one looks like a name, but of no variable. */
  predicate TextOk(quoting: Quoting, text: string) {
    match quoting
    case Single => '\'' !in text
    case Double => '"' !in text
    case Bare => text != "" && (forall c :: c in text ==> InIdentifier(c)) && VarNamed(text) == None
  }

  predicate ValueOk(st: Style, v: MarkerValue) {
    v.Text? ==> TextOk(st.quoting(v.text), v.text)
  }

  predicate AtomSpelledOk(st: Style, t: MarkerTree)
    requires IsAtom(t)
  {
    var (lhs, _, rhs) := Parts(t);
    ValueOk(st, lhs) && ValueOk(st, rhs)
  }

  // -- Writing ---------------------------------------------------------------------------

  function Around(st: Style, op: MarkerOp): string {
    if op.In? || op.NotIn? then st.gap else st.tight
  }

  /** In front of a quote no white space is needed. */
  function After(st: Style, op: MarkerOp, rhs: MarkerValue): string {
    if (op.In? || op.NotIn?) && (rhs.Variable? || st.quoting(rhs.text).Bare?) then st.gap else st.tight
  }

  /** Values and operator, followed by `rest`. */
  function ComparisonTo(st: Style, lhs: MarkerValue, op: MarkerOp, rhs: MarkerValue, rest: string): string {
    Spelled(st, lhs) + (Around(st, op) + (PrintOp(op) + (After(st, op, rhs) + (Spelled(st, rhs) + rest))))
  }

  function Keyword(st: Style, word: string): string {
    st.gap + word + st.gap
  }

  function InParentheses(st: Style, text: string): string {
    "(" + (st.pad + (text + (st.pad + ")")))
  }

  /** The marker on its own. */
  function Written(st: Style, t: MarkerTree): string
    decreases t, 0
  {
    match t
    case And(cs) => Join(seq(|cs|, i requires 0 <= i < |cs| => Operand(st, cs[i])), Keyword(st, "and"))
    case Or(cs) => Join(seq(|cs|, i requires 0 <= i < |cs| => Alternative(st, cs[i])), Keyword(st, "or"))
    case _ => if IsAtom(t) then var (lhs, op, rhs) := Parts(t); ComparisonTo(st, lhs, op, rhs, "") else ""
  }

  /** Inside an "and" every list is put in parentheses. */
  function Operand(st: Style, t: MarkerTree): string
    decreases t, 1
  {
    if t.And? || t.Or? then InParentheses(st, Written(st, t)) else Written(st, t)
  }

  /** Inside an "or" only another "or" is. */
  function Alternative(st: Style, t: MarkerTree): string
    decreases t, 1
  {
    if t.Or? then InParentheses(st, Written(st, t)) else Written(st, t)
  }

  /** Any nesting of lists of two or more over comparisons in normal form. */
  predicate Writable(st: Style, t: MarkerTree) {
    match t
    case And(cs) => |cs| >= 2 && forall i :: 0 <= i < |cs| ==> Writable(st, cs[i])
    case Or(cs) => |cs| >= 2 && forall i :: 0 <= i < |cs| ==> Writable(st, cs[i])
    case _ => IsAtom(t) && NormalAtomForm(t) && AtomSpelledOk(st, t)
  }

  // -- White space -----------------------------------------------------------------------

  lemma SkipTwice(s: string)
    ensures SkipWhitespace(SkipWhitespace(s)) == SkipWhitespace(s)
  {
    SkipNone(SkipWhitespace(s));
  }

  lemma SkipFirm(s: string)
    requires s != "" && !IsWhitespace(s[0])
    ensures SkipWhitespace(s) == s
  {
    SkipNone(s);
  }

  lemma AtomSkips(s: string)
    ensures ParseAtom(SkipWhitespace(s)) == ParseAtom(s)
  {
    hide ParseOr, ParseComparison, SkipWhitespace;
    SkipTwice(s);
  }

  lemma AndSkips(s: string)
    ensures ParseAnd(SkipWhitespace(s)) == ParseAnd(s)
  {
    hide ParseAtom, AndRest, SkipWhitespace;
    SkipTwice(s);
  }

  lemma OrSkips(s: string)
    ensures ParseOr(SkipWhitespace(s)) == ParseOr(s)
  {
    hide ParseAnd, OrRest, SkipWhitespace;
    SkipTwice(s);
  }

  // -- Values ----------------------------------------------------------------------------

  /** What may follow a value. */
  predicate Stops(rest: string) {
    rest == "" || !InIdentifier(rest[0])
  }

  lemma WhitespaceStops(c: char)
    requires IsWhitespace(c)
    ensures !InIdentifier(c) && c != '='
  {
  }

  lemma DottedPlatform(v: MarkerVar)
    requires IsPlatform(v)
    ensures VarNamed(DottedName(v)) == Some(v) && IsLetters(DottedName(v))
  {
  }

  lemma DottedPython(v: MarkerVar)
    requires v.PythonVersion? || v.PythonFullVersion?
    ensures VarNamed(DottedName(v)) == Some(v) && IsLetters(DottedName(v))
  {
  }

  lemma DottedImplementation(v: MarkerVar)
    requires v.PlatformPythonImplementation?
    ensures VarNamed(DottedName(v)) == Some(v) && IsLetters(DottedName(v))
  {
  }

  lemma DottedOther(v: MarkerVar)
    requires v.OsName? || v.SysPlatform?
    ensures VarNamed(DottedName(v)) == Some(v) && IsLetters(DottedName(v))
  {
  }

  lemma NamesRead(v: MarkerVar)
    ensures VarNamed(PrintVar(v)) == Some(v) && IsLetters(PrintVar(v))
    ensures VarNamed(DottedName(v)) == Some(v) && IsLetters(DottedName(v))
  {
    hide VarNamed, PrintVar, DottedName, InIdentifier, IsLowercase;
    VarNames(v);
    VarLetters(v);
    if IsPlatform(v) {
      DottedPlatform(v);
    } else if v.PlatformPythonImplementation? {
      DottedImplementation(v);
    } else if v.PythonVersion? || v.PythonFullVersion? {
      DottedPython(v);
    } else if v.OsName? || v.SysPlatform? {
      DottedOther(v);
    } else {
      UndottedName(v);
    }
  }

  lemma UndottedName(v: MarkerVar)
    requires v.ImplementationName? || v.ImplementationVersion? || v.ExtraVar?
    ensures DottedName(v) == PrintVar(v)
  {
    hide PrintVar;
  }

  lemma NameRead(name: string, rest: string)
    requires IsLetters(name) && Stops(rest)
    ensures ParseValue(name + rest).rest == rest
    ensures ParseValue(name + rest).value ==
            match VarNamed(name)
            case Some(v) => Some(Variable(v))
            case None => Some(Text(name))
  {
    hide VarNamed;
    SkipFirm(name + rest);
    TakeWhileOf(name, rest, InIdentifier);
  }

  lemma QuoteRead(quote: char, text: string, rest: string)
    requires IsQuote(quote) && quote !in text
    ensures ParseValue([quote] + text + [quote] + rest) == Parsed(Some(Text(text)), rest)
  {
    var s := [quote] + text + [quote] + rest;
    SkipFirm(s);
    assert s[1..] == text + ([quote] + rest);
    TakeWhileOf(text, [quote] + rest, NotQuote(quote));
    assert s[1 + |text|..] == [quote] + rest;
    assert s[1 + |text|..][1..] == rest;
  }

  /** Neither white space, nor a parenthesis, nor a part of an operator. */
  predicate StartsFirm(s: string) {
    s != "" && !IsWhitespace(s[0]) && s[0] != '(' && s[0] != '='
  }

  lemma BareRead(text: string, rest: string)
    requires TextOk(Bare, text) && Stops(rest)
    ensures ParseValue(text + rest) == Parsed(Some(Text(text)), rest)
    ensures StartsFirm(text)
  {
    hide VarNamed;
    assert text[0] in text;
    IdentifierFirm(text[0]);
    SkipFirm(text + rest);
    TakeWhileOf(text, rest, InIdentifier);
  }

  lemma IdentifierFirm(c: char)
    requires InIdentifier(c)
    ensures !IsWhitespace(c) && c != '(' && c != '=' && !IsQuote(c)
  {
  }

  lemma ValueRead(st: Style, v: MarkerValue, rest: string)
    requires ValueOk(st, v) && Stops(rest)
    ensures ParseValue(Spelled(st, v) + rest) == Parsed(Some(v), rest)
    ensures StartsFirm(Spelled(st, v))
  {
    hide ParseValue, VarNamed, PrintVar, DottedName, InIdentifier;
    match v
    case Variable(x) =>
      NamesRead(x);
      NameRead(Spelled(st, v), rest);
    case Text(text) =>
      if st.quoting(text).Single? {
        QuoteRead('\'', text, rest);
      } else if st.quoting(text).Double? {
        QuoteRead('"', text, rest);
      } else {
        BareRead(text, rest);
      }
  }

  // -- Comparisons -----------------------------------------------------------------------

  lemma ValueSkips(s: string)
    ensures ParseValue(SkipWhitespace(s)) == ParseValue(s)
  {
    SkipTwice(s);
  }

  lemma OpSkips(s: string)
    ensures ParseOp(SkipWhitespace(s)) == ParseOp(s)
  {
    hide SkipWhitespace, AtNotIn, AtIn, SymbolOp;
    SkipTwice(s);
  }

  /** White space, or a quote right after an operator that is a word. */
  predicate MayFollow(op: MarkerOp, after: string, rest: string) {
    IsBlank(after) && StartsFirm(rest) && (op.In? || op.NotIn? ==> after != "" || IsQuote(rest[0]))
  }

  lemma OpReadAround(st: Style, op: MarkerOp, after: string, rest: string)
    requires StyleOk(st) && MayFollow(op, after, rest)
    ensures var s := Around(st, op) + (PrintOp(op) + (after + rest));
            ParseOp(s) == Parsed(Some(op), after + rest) && Stops(s)
  {
    hide ParseOp, SkipWhitespace, Words, OpEnds;
    var blank := Around(st, op);
    OpFollowed(op, after, rest);
    OpPrinted(op, after + rest);
    OpSkips(blank + (PrintOp(op) + (after + rest)));
    OpSkips(PrintOp(op) + (after + rest));
    BlankBefore(blank, PrintOp(op) + (after + rest));
    OpStops(st, op, after + rest);
  }

  lemma OpFollowed(op: MarkerOp, after: string, rest: string)
    requires MayFollow(op, after, rest)
    ensures OpEnds(op, after + rest)
  {
    if after != "" {
      assert (after + rest)[0] == after[0] && after[0] in after;
      WhitespaceStops(after[0]);
    } else {
      assert after + rest == rest;
    }
  }

  lemma OpStops(st: Style, op: MarkerOp, rest: string)
    requires StyleOk(st)
    ensures Stops(Around(st, op) + (PrintOp(op) + rest))
  {
    var blank := Around(st, op);
    if blank != "" {
      assert blank[0] in blank;
      WhitespaceStops(blank[0]);
    } else {
      assert blank + (PrintOp(op) + rest) == PrintOp(op) + rest;
    }
  }

  /** A comparison is read in its normal form, in every spelling. */
  lemma ComparisonRead(st: Style, lhs: MarkerValue, op: MarkerOp, rhs: MarkerValue, rest: string)
    requires StyleOk(st) && ValueOk(st, lhs) && ValueOk(st, rhs) && Stops(rest)
    ensures var s := ComparisonTo(st, lhs, op, rhs, rest);
            StartsFirm(s) && ParseComparison(s) == Parsed(Some(Normalized(lhs, op, rhs)), rest)
  {
    hide ParseValue, ParseOp, PrintOp, Around, After, StyleOk, ValueOk, Stops, Spelled, Normalized, Words, MayFollow;
    var after := After(st, op, rhs);
    var right := Spelled(st, rhs) + rest;
    ValueRead(st, rhs, rest);
    ValueFollows(st, op, rhs, rest);
    OpReadAround(st, op, after, right);
    ValueRead(st, lhs, Around(st, op) + (PrintOp(op) + (after + right)));
    BlankBefore(after, right);
    ValueSkips(after + right);
    ValueSkips(right);
  }

  lemma ValueFollows(st: Style, op: MarkerOp, v: MarkerValue, rest: string)
    requires StyleOk(st) && StartsFirm(Spelled(st, v))
    ensures MayFollow(op, After(st, op, v), Spelled(st, v) + rest) && IsBlank(After(st, op, v))
  {
    hide PrintVar, DottedName;
  }

  lemma AtomRead(st: Style, t: MarkerTree, rest: string)
    requires StyleOk(st) && IsAtom(t) && NormalAtomForm(t) && AtomSpelledOk(st, t) && Stops(rest)
    ensures StartsFirm(Written(st, t))
    ensures ParseAtom(Written(st, t) + rest) == Parsed(Some(t), rest)
  {
    hide Written, ParseComparison, ParseOr, Normalized, NormalAtomForm, Stops, ComparisonTo, ValueOk;
    var (lhs, op, rhs) := Parts(t);
    WrittenAtom(st, t, rest);
    ComparisonRead(st, lhs, op, rhs, rest);
    NormalParts(t);
    SkipFirm(ComparisonTo(st, lhs, op, rhs, rest));
  }

  lemma NormalParts(t: MarkerTree)
    requires IsAtom(t) && NormalAtomForm(t)
    ensures var (lhs, op, rhs) := Parts(t); Normalized(lhs, op, rhs) == t
  {
    hide Normalized, NormalAtomForm, Join;
    NormalAtomExact(t);
  }

  lemma WrittenAtom(st: Style, t: MarkerTree, rest: string)
    requires IsAtom(t)
    ensures var (lhs, op, rhs) := Parts(t); Written(st, t) + rest == ComparisonTo(st, lhs, op, rhs, rest)
    ensures var (lhs, op, rhs) := Parts(t);
            Written(st, t) != "" && Spelled(st, lhs) != "" ==> Written(st, t)[0] == Spelled(st, lhs)[0]
  {
    hide Spelled, PrintOp, Around, After;
    var (lhs, op, rhs) := Parts(t);
    var a, b, o, b', c := Spelled(st, lhs), Around(st, op), PrintOp(op), After(st, op, rhs), Spelled(st, rhs);
    assert a + (b + (o + (b' + (c + "")))) + rest == a + (b + (o + (b' + (c + rest))));
  }

  // -- Where operands and alternatives end -----------------------------------------------

  /** No "and" follows. */
  predicate EndsOperands(rest: string) {
    Stops(rest) && !AtKeyword(SkipWhitespace(rest), "and")
  }

  /** Neither an "and" nor an "or" follows. */
  predicate EndsAlternatives(rest: string) {
    EndsOperands(rest) && !AtKeyword(SkipWhitespace(rest), "or")
  }

  ghost predicate ReadsAsOperand(st: Style, t: MarkerTree) {
    && BeginsFirm(Operand(st, t))
    && forall rest: string :: Stops(rest) ==> ParseAtom(Operand(st, t) + rest) == Parsed(Some(t), rest)
  }

  ghost predicate ReadsAsAlternative(st: Style, t: MarkerTree) {
    && BeginsFirm(Alternative(st, t))
    && forall rest: string :: EndsOperands(rest) ==>
         ParseAnd(Alternative(st, t) + rest) == Parsed(Some(t), SkipWhitespace(rest))
  }

  ghost predicate ReadsAlone(st: Style, t: MarkerTree) {
    && BeginsFirm(Written(st, t))
    && forall rest: string :: EndsAlternatives(rest) ==>
         ParseOr(Written(st, t) + rest) == Parsed(Some(t), SkipWhitespace(rest))
  }

  /** There is something, and it does not begin with white space. */
  predicate BeginsFirm(s: string) {
    s != "" && !IsWhitespace(s[0])
  }

  // -- Parentheses -----------------------------------------------------------------------

  lemma ClosedText(pad: string, rest: string)
    requires IsBlank(pad)
    ensures EndsAlternatives(pad + (")" + rest)) && SkipWhitespace(pad + (")" + rest)) == ")" + rest
  {
    hide IsWhitespace, SkipWhitespace, AtKeyword, InIdentifier, Words;
    BlankBefore(pad, ")" + rest);
    ClosingFirm(rest);
    if pad != "" {
      assert pad[0] in pad && (pad + (")" + rest))[0] == pad[0];
      WhitespaceStops(pad[0]);
    } else {
      assert pad + (")" + rest) == ")" + rest;
    }
    NoKeyword(")" + rest);
  }

  lemma ClosingFirm(rest: string)
    ensures SkipWhitespace(")" + rest) == ")" + rest && !InIdentifier(')')
  {
    hide SkipWhitespace;
    SkipFirm(")" + rest);
  }

  lemma NoKeyword(s: string)
    requires s != "" && s[0] == ')'
    ensures !AtKeyword(s, "and") && !AtKeyword(s, "or")
  {
    assert |s| >= 3 ==> s[..3][0] == s[0];
    assert |s| >= 2 ==> s[..2][0] == s[0];
  }

  /** What is in parentheses is read as one operand, and the closing one is taken. */
  lemma ParenthesesRead(st: Style, t: MarkerTree, rest: string)
    requires StyleOk(st) && ReadsAlone(st, t)
    ensures ParseAtom(InParentheses(st, Written(st, t)) + rest) == Parsed(Some(t), rest)
  {
    hide ParseOr, Written, SkipWhitespace, EndsAlternatives;
    var text := Written(st, t);
    var inner := text + (st.pad + (")" + rest));
    var s := InParentheses(st, text) + rest;
    assert s == "(" + (st.pad + inner);
    SkipFirm(s);
    assert s[1..] == st.pad + inner;
    ClosedText(st.pad, rest);
    OrSkips(st.pad + inner);
    OrSkips(inner);
    BlankBefore(st.pad, inner);
    SkipFirm(")" + rest);
    assert (")" + rest)[1..] == rest;
  }

  // -- Lists -----------------------------------------------------------------------------

  lemma JoinTo(texts: seq<string>, separator: string, rest: string)
    requires |texts| > 1
    ensures Join(texts, separator) + rest == texts[0] + (separator + (Join(texts[1..], separator) + rest))
  {
  }

  lemma JoinOne(texts: seq<string>, separator: string, rest: string)
    requires |texts| == 1
    ensures Join(texts, separator) + rest == texts[0] + rest
  {
  }

  function Operands(st: Style, cs: seq<MarkerTree>): seq<string> {
    seq(|cs|, i requires 0 <= i < |cs| => Operand(st, cs[i]))
  }

  function Alternatives(st: Style, cs: seq<MarkerTree>): seq<string> {
    seq(|cs|, i requires 0 <= i < |cs| => Alternative(st, cs[i]))
  }

  /** The keyword is read and white space after it skipped. */
  lemma KeywordRead(st: Style, word: string, s: string)
    requires StyleOk(st) && word != "" && !IsWhitespace(word[0])
    ensures Stops(Keyword(st, word) + s)
    ensures var t := SkipWhitespace(Keyword(st, word) + s);
            AtKeyword(t, word) && SkipWhitespace(t[|word|..]) == SkipWhitespace(s)
  {
    var after := word + (st.gap + s);
    assert Keyword(st, word) + s == st.gap + after;
    assert st.gap[0] in st.gap;
    WhitespaceStops(st.gap[0]);
    BlankBefore(st.gap, after);
    SkipFirm(after);
    assert after[..|word|] == word && after[|word|..] == st.gap + s;
    BlankBefore(st.gap, s);
  }

  /** The operands after the first ones are read one by one. */
  lemma {:induction false} OperandsRead(st: Style, done: seq<MarkerTree>, cs: seq<MarkerTree>, rest: string)
    requires StyleOk(st) && cs != [] && EndsOperands(rest)
    requires forall i :: 0 <= i < |cs| ==> ReadsAsOperand(st, cs[i])
    ensures var first := ParseAtom(Join(Operands(st, cs), Keyword(st, "and")) + rest);
            && first.value == Some(cs[0])
            && AndRest(done + [cs[0]], first.rest) == Parsed(Some(done + cs), SkipWhitespace(rest))
    decreases |cs|
  {
    hide ParseAtom, Operand, Keyword, AtKeyword, SkipWhitespace, BeginsFirm;
    var texts := Operands(st, cs);
    if |cs| == 1 {
      JoinOne(texts, Keyword(st, "and"), rest);
      assert ReadsAsOperand(st, cs[0]);
      assert done + [cs[0]] == done + cs;
      LastOperand(done + cs, rest);
    } else {
      var more := Join(Operands(st, cs[1..]), Keyword(st, "and")) + rest;
      assert texts[1..] == Operands(st, cs[1..]);
      JoinTo(texts, Keyword(st, "and"), rest);
      KeywordRead(st, "and", more);
      assert ReadsAsOperand(st, cs[0]);
      OperandsRead(st, done + [cs[0]], cs[1..], rest);
      NextOperand(done + [cs[0]], cs[1], Keyword(st, "and") + more, more);
      assert done + [cs[0]] + cs[1..] == done + cs;
      assert done + [cs[0]] + [cs[1..][0]] == done + [cs[0]] + [cs[1]];
    }
  }

  lemma LastOperand(children: seq<MarkerTree>, rest: string)
    requires EndsOperands(rest)
    ensures AndRest(children, rest) == Parsed(Some(children), SkipWhitespace(rest))
  {
    hide SkipWhitespace, AtKeyword;
  }

  lemma NextOperand(children: seq<MarkerTree>, next: MarkerTree, s: string, more: string)
    requires AtKeyword(SkipWhitespace(s), "and") && SkipWhitespace(SkipWhitespace(s)[3..]) == SkipWhitespace(more)
    requires ParseAtom(more).value == Some(next)
    ensures AndRest(children, s) == AndRest(children + [next], ParseAtom(more).rest)
  {
    hide SkipWhitespace, AtKeyword, ParseAtom;
    AtomSkips(more);
  }

  /** Conjunctions are read from their operands. */
  lemma AndRead(st: Style, cs: seq<MarkerTree>, rest: string)
    requires StyleOk(st) && |cs| >= 2 && EndsOperands(rest)
    requires forall i :: 0 <= i < |cs| ==> ReadsAsOperand(st, cs[i])
    ensures ParseAnd(Written(st, And(cs)) + rest) == Parsed(Some(And(cs)), SkipWhitespace(rest))
  {
    hide ParseAtom, AndRest, Operand, Keyword, ReadsAsOperand, EndsOperands, SkipWhitespace;
    OperandsRead(st, [], cs, rest);
    assert [] + [cs[0]] == [cs[0]] && [] + cs == cs;
    assert Written(st, And(cs)) == Join(Operands(st, cs), Keyword(st, "and"));
    AtomSkips(Written(st, And(cs)) + rest);
  }

  lemma {:induction false} AlternativesRead(st: Style, done: seq<MarkerTree>, cs: seq<MarkerTree>, rest: string)
    requires StyleOk(st) && cs != [] && EndsAlternatives(rest)
    requires forall i :: 0 <= i < |cs| ==> ReadsAsAlternative(st, cs[i])
    ensures var first := ParseAnd(Join(Alternatives(st, cs), Keyword(st, "or")) + rest);
            && first.value == Some(cs[0])
            && OrRest(done + [cs[0]], first.rest) == Parsed(Some(done + cs), SkipWhitespace(rest))
    decreases |cs|
  {
    hide ParseAnd, Alternative, Keyword, AtKeyword, SkipWhitespace, BeginsFirm;
    var texts := Alternatives(st, cs);
    if |cs| == 1 {
      JoinOne(texts, Keyword(st, "or"), rest);
      assert ReadsAsAlternative(st, cs[0]);
      assert done + [cs[0]] == done + cs;
      LastAlternative(done + cs, rest);
    } else {
      var more := Join(Alternatives(st, cs[1..]), Keyword(st, "or")) + rest;
      assert texts[1..] == Alternatives(st, cs[1..]);
      JoinTo(texts, Keyword(st, "or"), rest);
      OrFollows(st, more);
      assert ReadsAsAlternative(st, cs[0]);
      AlternativesRead(st, done + [cs[0]], cs[1..], rest);
      NextAlternative(done + [cs[0]], cs[1], SkipWhitespace(Keyword(st, "or") + more), more);
      assert done + [cs[0]] + cs[1..] == done + cs;
      assert done + [cs[0]] + [cs[1..][0]] == done + [cs[0]] + [cs[1]];
    }
  }

  lemma OrFollows(st: Style, more: string)
    requires StyleOk(st)
    ensures EndsOperands(Keyword(st, "or") + more)
    ensures var t := SkipWhitespace(Keyword(st, "or") + more);
            SkipWhitespace(t) == t && AtKeyword(t, "or") && SkipWhitespace(t[2..]) == SkipWhitespace(more)
  {
    hide SkipWhitespace, Keyword;
    KeywordRead(st, "or", more);
    var t := SkipWhitespace(Keyword(st, "or") + more);
    SkipTwice(Keyword(st, "or") + more);
    assert t[0] == t[..2][0];
    assert |t| >= 3 ==> t[..3][0] == t[0];
  }

  lemma LastAlternative(children: seq<MarkerTree>, rest: string)
    requires EndsAlternatives(rest)
    ensures OrRest(children, SkipWhitespace(rest)) == Parsed(Some(children), SkipWhitespace(rest))
  {
    hide SkipWhitespace, AtKeyword;
    SkipTwice(rest);
  }

  lemma NextAlternative(children: seq<MarkerTree>, next: MarkerTree, s: string, more: string)
    requires AtKeyword(SkipWhitespace(s), "or") && SkipWhitespace(SkipWhitespace(s)[2..]) == SkipWhitespace(more)
    requires ParseAnd(more).value == Some(next)
    ensures OrRest(children, s) == OrRest(children + [next], ParseAnd(more).rest)
  {
    hide SkipWhitespace, AtKeyword, ParseAnd;
    AndSkips(more);
  }

  lemma OrRead(st: Style, cs: seq<MarkerTree>, rest: string)
    requires StyleOk(st) && |cs| >= 2 && EndsAlternatives(rest)
    requires forall i :: 0 <= i < |cs| ==> ReadsAsAlternative(st, cs[i])
    ensures ParseOr(Written(st, Or(cs)) + rest) == Parsed(Some(Or(cs)), SkipWhitespace(rest))
  {
    hide ParseAnd, OrRest, Alternative, Keyword, ReadsAsAlternative, EndsAlternatives, SkipWhitespace;
    AlternativesRead(st, [], cs, rest);
    assert [] + [cs[0]] == [cs[0]] && [] + cs == cs;
    assert Written(st, Or(cs)) == Join(Alternatives(st, cs), Keyword(st, "or"));
    AndSkips(Written(st, Or(cs)) + rest);
  }

  // -- Single operands and alternatives --------------------------------------------------

  /** An operand on its own is an alternative. */
  lemma OperandAlone(st: Style, t: MarkerTree, text: string, rest: string)
    requires EndsOperands(rest) && ParseAtom(text + rest) == Parsed(Some(t), rest)
    ensures ParseAnd(text + rest) == Parsed(Some(t), SkipWhitespace(rest))
  {
    hide ParseAtom, AndRest, EndsOperands, SkipWhitespace;
    AtomSkips(text + rest);
    LastOperand([t], rest);
  }

  /** An alternative on its own is a marker. */
  lemma AlternativeAlone(st: Style, t: MarkerTree, text: string, rest: string)
    requires EndsAlternatives(rest) && ParseAnd(text + rest) == Parsed(Some(t), SkipWhitespace(rest))
    ensures ParseOr(text + rest) == Parsed(Some(t), SkipWhitespace(rest))
  {
    hide ParseAnd, OrRest, EndsAlternatives, SkipWhitespace;
    AndSkips(text + rest);
    LastAlternative([t], rest);
  }

  lemma JoinStarts(texts: seq<string>, separator: string)
    requires texts != [] && BeginsFirm(texts[0])
    ensures BeginsFirm(Join(texts, separator))
  {
  }

  // -- Every tree ------------------------------------------------------------------------

  lemma NothingStops()
    ensures Stops("")
  {
  }

  lemma AtomReads(st: Style, t: MarkerTree)
    requires StyleOk(st) && IsAtom(t) && Writable(st, t)
    ensures ReadsAsOperand(st, t) && ReadsAsAlternative(st, t) && ReadsAlone(st, t)
  {
    hide ParseAtom, ParseAnd, ParseOr, Written, NormalAtomForm, AtomSpelledOk, Stops, SkipWhitespace, AtKeyword;
    NothingStops();
    AtomRead(st, t, "");
    forall rest: string | Stops(rest) ensures ParseAtom(Written(st, t) + rest) == Parsed(Some(t), rest) {
      AtomRead(st, t, rest);
    }
    forall rest: string | EndsOperands(rest)
      ensures ParseAnd(Written(st, t) + rest) == Parsed(Some(t), SkipWhitespace(rest))
    {
      OperandAlone(st, t, Written(st, t), rest);
    }
    forall rest: string | EndsAlternatives(rest)
      ensures ParseOr(Written(st, t) + rest) == Parsed(Some(t), SkipWhitespace(rest))
    {
      AlternativeAlone(st, t, Written(st, t), rest);
    }
  }

  lemma AndReads(st: Style, cs: seq<MarkerTree>)
    requires StyleOk(st) && |cs| >= 2 && forall i :: 0 <= i < |cs| ==> ReadsAsOperand(st, cs[i])
    ensures ReadsAsOperand(st, And(cs)) && ReadsAsAlternative(st, And(cs)) && ReadsAlone(st, And(cs))
  {
    hide ParseAtom, ParseAnd, ParseOr, Keyword, Stops, SkipWhitespace, AtKeyword, StyleOk, Written;
    var t := And(cs);
    AndStarts(st, cs);
    forall rest: string | EndsOperands(rest)
      ensures ParseAnd(Written(st, t) + rest) == Parsed(Some(t), SkipWhitespace(rest))
    {
      AndRead(st, cs, rest);
    }
    forall rest: string | EndsAlternatives(rest)
      ensures ParseOr(Written(st, t) + rest) == Parsed(Some(t), SkipWhitespace(rest))
    {
      AndRead(st, cs, rest);
      AlternativeAlone(st, t, Written(st, t), rest);
    }
    assert ReadsAlone(st, t);
    forall rest: string | Stops(rest) ensures ParseAtom(Operand(st, t) + rest) == Parsed(Some(t), rest) {
      ParenthesesRead(st, t, rest);
    }
  }

  lemma AndStarts(st: Style, cs: seq<MarkerTree>)
    requires |cs| >= 2 && BeginsFirm(Operand(st, cs[0]))
    ensures BeginsFirm(Written(st, And(cs))) && BeginsFirm(Operand(st, And(cs)))
  {
    JoinStarts(Operands(st, cs), Keyword(st, "and"));
    hide Operand;
  }

  lemma OrReads(st: Style, cs: seq<MarkerTree>)
    requires StyleOk(st) && |cs| >= 2 && forall i :: 0 <= i < |cs| ==> ReadsAsAlternative(st, cs[i])
    ensures ReadsAsOperand(st, Or(cs)) && ReadsAsAlternative(st, Or(cs)) && ReadsAlone(st, Or(cs))
  {
    hide ParseAtom, ParseAnd, ParseOr, Keyword, Stops, SkipWhitespace, AtKeyword, StyleOk, Written;
    var t := Or(cs);
    OrStarts(st, cs);
    forall rest: string | EndsAlternatives(rest)
      ensures ParseOr(Written(st, t) + rest) == Parsed(Some(t), SkipWhitespace(rest))
    {
      OrRead(st, cs, rest);
    }
    assert ReadsAlone(st, t);
    forall rest: string | Stops(rest) ensures ParseAtom(Operand(st, t) + rest) == Parsed(Some(t), rest) {
      ParenthesesRead(st, t, rest);
    }
    forall rest: string | EndsOperands(rest)
      ensures ParseAnd(Alternative(st, t) + rest) == Parsed(Some(t), SkipWhitespace(rest))
    {
      ParenthesesRead(st, t, rest);
      OperandAlone(st, t, Alternative(st, t), rest);
    }
  }

  lemma OrStarts(st: Style, cs: seq<MarkerTree>)
    requires |cs| >= 2 && BeginsFirm(Alternative(st, cs[0]))
    ensures BeginsFirm(Written(st, Or(cs))) && BeginsFirm(Operand(st, Or(cs))) && BeginsFirm(Alternative(st, Or(cs)))
  {
    JoinStarts(Alternatives(st, cs), Keyword(st, "or"));
    assert !IsWhitespace('(');
  }

  lemma {:induction false} TreeReads(st: Style, t: MarkerTree)
    requires StyleOk(st) && Writable(st, t)
    ensures ReadsAsOperand(st, t) && ReadsAsAlternative(st, t) && ReadsAlone(st, t)
  {
    hide ReadsAsOperand, ReadsAsAlternative, ReadsAlone, NormalAtomForm, AtomSpelledOk, StyleOk;
    if IsAtom(t) {
      AtomReads(st, t);
    } else {
      forall i | 0 <= i < |t.children|
        ensures ReadsAsOperand(st, t.children[i]) && ReadsAsAlternative(st, t.children[i])
      {
        TreeReads(st, t.children[i]);
      }
      if t.And? {
        AndReads(st, t.children);
      } else {
        OrReads(st, t.children);
      }
    }
  }

  // -- The end of the text ---------------------------------------------------------------

  predicate EndsFirm(s: string) {
    s != "" && !IsWhitespace(s[|s| - 1])
  }

  lemma {:induction false} JoinEnds(texts: seq<string>, separator: string)
    requires texts != [] && EndsFirm(texts[|texts| - 1])
    ensures EndsFirm(Join(texts, separator))
  {
    if |texts| > 1 {
      JoinEnds(texts[1..], separator);
    }
  }

  lemma NameEnds(name: string)
    requires name != "" && forall i :: 0 <= i < |name| ==> InIdentifier(name[i])
    ensures EndsFirm(name)
  {
    IdentifierFirm(name[|name| - 1]);
  }

  lemma SpelledEnds(st: Style, v: MarkerValue)
    requires ValueOk(st, v)
    ensures EndsFirm(Spelled(st, v))
  {
    hide PrintVar, DottedName, VarNamed, InIdentifier;
    match v
    case Variable(x) =>
      NamesRead(x);
      NameEnds(Spelled(st, v));
    case Text(text) =>
      if st.quoting(text).Bare? {
        assert forall i :: 0 <= i < |text| ==> text[i] in text;
        NameEnds(text);
      }
  }

  lemma ComparisonEnds(st: Style, lhs: MarkerValue, op: MarkerOp, rhs: MarkerValue)
    requires EndsFirm(Spelled(st, rhs))
    ensures EndsFirm(ComparisonTo(st, lhs, op, rhs, ""))
  {
    hide Spelled, PrintOp, Around, After, IsWhitespace;
    var a, b, o, b', c := Spelled(st, lhs), Around(st, op), PrintOp(op), After(st, op, rhs), Spelled(st, rhs);
    assert a + (b + (o + (b' + (c + "")))) == (a + (b + (o + b'))) + c;
  }

  lemma {:induction false} WrittenEnds(st: Style, t: MarkerTree)
    requires Writable(st, t)
    ensures EndsFirm(Written(st, t))
  {
    hide EndsFirm, NormalAtomForm, Keyword, AtomSpelledOk, ComparisonTo, Spelled, InParentheses;
    if IsAtom(t) {
      AtomEnds(st, t);
    } else {
      var last := t.children[|t.children| - 1];
      WrittenEnds(st, last);
      ParenthesesEnd(st, last);
      if t.And? {
        JoinEnds(Operands(st, t.children), Keyword(st, "and"));
      } else {
        JoinEnds(Alternatives(st, t.children), Keyword(st, "or"));
      }
    }
  }

  lemma AtomEnds(st: Style, t: MarkerTree)
    requires IsAtom(t) && AtomSpelledOk(st, t)
    ensures EndsFirm(Written(st, t))
  {
    hide EndsFirm, ComparisonTo, ValueOk, Spelled;
    var (lhs, op, rhs) := Parts(t);
    SpelledEnds(st, rhs);
    ComparisonEnds(st, lhs, op, rhs);
  }

  lemma ParenthesesEnd(st: Style, t: MarkerTree)
    ensures EndsFirm(InParentheses(st, Written(st, t)))
  {
    hide Written;
  }

  /** A marker written with parentheses is read as its tree, whatever the nesting, in every
      spelling, with white space around it. */
  lemma WrittenRead(st: Style, t: MarkerTree, before: string, after: string)
    requires StyleOk(st) && Writable(st, t) && IsBlank(before) && IsBlank(after)
    ensures Parse(before + Written(st, t) + after) == t
  {
    hide ParseOr, Written, Writable, SkipWhitespace, Trim, StyleOk, IsBlank, IsWhitespace, ReadsAsOperand,
      ReadsAsAlternative;
    var text := Written(st, t);
    TreeReads(st, t);
    WrittenEnds(st, t);
    TrimAround(before, text, after);
    NothingFollows();
    assert text + "" == text;
  }

  lemma NothingFollows()
    ensures EndsAlternatives("")
  {
  }

  // -- The program's own printing --------------------------------------------------------

  /** Double quotes, no dots, single blanks. */
  const USUAL: Style := Style(text => Double, v => false, " ", " ", "")

  lemma UsualAtom(t: MarkerTree)
    requires IsAtom(t)
    ensures Written(USUAL, t) == Print(t)
  {
    AtomText(t, "");
    assert Print(t) + "" == Print(t);
  }

  lemma UsualClause(t: MarkerTree)
    requires NormalClauseForm(t)
    ensures Written(USUAL, t) == Print(t)
  {
    if t.And? {
      var cs := t.children;
      forall i | 0 <= i < |cs| ensures Operands(USUAL, cs)[i] == Print(cs[i]) {
        UsualAtom(cs[i]);
      }
      assert Operands(USUAL, cs) == seq(|cs|, i requires 0 <= i < |cs| => Print(cs[i]));
      assert Keyword(USUAL, "and") == " and ";
    } else {
      UsualAtom(t);
    }
  }

  /** Where no parentheses are needed they make no difference. */
  lemma UsualNormal(t: MarkerTree)
    requires NormalForm(t)
    ensures Written(USUAL, t) == Print(t)
  {
    if t.Or? {
      var cs := t.children;
      forall i | 0 <= i < |cs| ensures Alternatives(USUAL, cs)[i] == Print(cs[i]) {
        UsualClause(cs[i]);
      }
      assert Alternatives(USUAL, cs) == seq(|cs|, i requires 0 <= i < |cs| => Print(cs[i]));
      assert Keyword(USUAL, "or") == " or ";
    } else {
      UsualClause(t);
    }
  }

  lemma UsualStyle()
    ensures StyleOk(USUAL)
  {
  }

  lemma {:induction false} UsualWritable(t: MarkerTree)
    requires NormalForm(t) && CleanTexts(t)
    ensures Writable(USUAL, t)
  {
    if t.And? || t.Or? {
      forall i | 0 <= i < |t.children| ensures Writable(USUAL, t.children[i]) {
        UsualWritable(t.children[i]);
      }
    } else {
      CleanAtomSpelled(t);
    }
  }

  lemma CleanAtomSpelled(t: MarkerTree)
    requires IsAtom(t) && CleanAtom(t)
    ensures AtomSpelledOk(USUAL, t)
  {
  }

  /** Parentheses around the printed text of an "or" keep it together inside an "and". */
  lemma ParenthesesKept(o: MarkerTree, a: MarkerTree)
    requires NormalForm(o) && o.Or? && CleanTexts(o) && IsAtom(a) && NormalAtomForm(a) && CleanAtom(a)
    ensures Parse("(" + Print(o) + ") and " + Print(a)) == And([o, a])
  {
    var t := And([o, a]);
    UsualStyle();
    UsualWritable(o);
    UsualWritable(a);
    WrittenRead(USUAL, t, "", "");
    UsualNormal(o);
    UsualAtom(a);
    hide Parse, Written, Writable, Print, NormalForm, CleanTexts;
    OrInAnd(o, a);
  }

  lemma OrInAnd(o: MarkerTree, a: MarkerTree)
    requires o.Or? && IsAtom(a)
    ensures "" + Written(USUAL, And([o, a])) + "" == "(" + Written(USUAL, o) + ") and " + Written(USUAL, a)
  {
    var w, x := Written(USUAL, o), Written(USUAL, a);
    var texts := Operands(USUAL, [o, a]);
    GroupText(w, x);
    assert texts[0] == InParentheses(USUAL, w) && texts[1] == x && texts[1..] == [x];
    assert Join(texts[1..], " and ") == x;
    assert Keyword(USUAL, "and") == " and ";
    assert Written(USUAL, And([o, a])) == Join(texts, " and ");
  }

  lemma GroupText(w: string, x: string)
    ensures "" + (InParentheses(USUAL, w) + " and " + x) + "" == "(" + w + ") and " + x
  {
  }
}
