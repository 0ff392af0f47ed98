/** What the parser makes of texts that are no well-formed markers: it skips operands without an
    operator, closes what is left open, and stops at what it cannot read. */
module MarkerLeniency {
  import opened MarkerGrammar
  import opened MarkerGroups
  import opened MarkerNormalForms
  import opened MarkerQuotes
  import opened MarkerRoundTrips
  import opened Markers
  import opened Options
  import opened Texts

  // -- What follows a marker -------------------------------------------------------------

  lemma TrimsToItself(s: string)
    requires BeginsFirm(s) && EndsFirm(s)
    ensures Trim(s) == s
  {
    TrimAround("", s, "");
    assert "" + s + "" == s;
  }

  lemma EndsTogether(a: string, b: string)
    requires EndsFirm(a) && (b == "" || EndsFirm(b))
    ensures EndsFirm(a + b)
  {
    if b == "" {
      assert a + b == a;
    }
  }

  /** Text after a marker that is no keyword is ignored. */
  lemma TrailingIgnored(st: Style, t: MarkerTree, rest: string)
    requires StyleOk(st) && Writable(st, t) && EndsAlternatives(rest) && (rest == "" || EndsFirm(rest))
    ensures Parse(Written(st, t) + rest) == t
  {
    hide ParseOr, Written, Writable, SkipWhitespace, Trim, StyleOk, IsWhitespace, ReadsAsOperand, ReadsAsAlternative,
      EndsAlternatives, EndsFirm;
    TreeReads(st, t);
    WrittenEnds(st, t);
    EndsTogether(Written(st, t), rest);
    TrimsToItself(Written(st, t) + rest);
  }

  /** A keyword does not count in front of anything but white space, a closing parenthesis or the
      end, not even in front of an opening parenthesis: the marker ends there. */
  lemma GluedKeywordIgnored(st: Style, t: MarkerTree, word: string, c: char, more: string)
    requires StyleOk(st) && Writable(st, t) && (word == "and" || word == "or")
    requires !IsWhitespace(c) && c != ')' && (more == "" || EndsFirm(more))
    ensures Parse(Written(st, t) + (st.gap + (word + ([c] + more)))) == t
  {
    hide Parse, Written, Writable, IsWhitespace, EndsAlternatives, StyleOk;
    var rest := st.gap + (word + ([c] + more));
    GluedEnds(st, word, c, more);
    EndsAfter(st.gap + word, [c] + more);
    assert rest == (st.gap + word) + ([c] + more);
    TrailingIgnored(st, t, rest);
  }

  lemma GluedEnds(st: Style, word: string, c: char, more: string)
    requires StyleOk(st) && (word == "and" || word == "or") && !IsWhitespace(c) && c != ')'
    requires more == "" || EndsFirm(more)
    ensures EndsAlternatives(st.gap + (word + ([c] + more))) && EndsFirm([c] + more)
  {
    hide IsWhitespace, SkipWhitespace, InIdentifier, Words;
    var s := word + ([c] + more);
    WordFirm(word);
    SkipFirm(s);
    BlankBefore(st.gap, s);
    assert st.gap[0] in st.gap;
    WhitespaceStops(st.gap[0]);
    assert s[0] == word[0] && s[|word|] == c;
    assert |s| >= 3 && s[..2] == [s[0], s[1]] && s[..3] == [s[0], s[1], s[2]];
  }

  lemma WordFirm(word: string)
    requires word == "and" || word == "or"
    ensures !IsWhitespace(word[0])
  {
  }

  // -- What is left open -----------------------------------------------------------------

  lemma UnclosedRead(st: Style, t: MarkerTree)
    requires StyleOk(st) && ReadsAlone(st, t)
    ensures ParseAtom("(" + (st.pad + Written(st, t))) == Parsed(Some(t), "")
  {
    hide ParseOr, Written, SkipWhitespace, EndsAlternatives;
    var text := Written(st, t);
    var s := "(" + (st.pad + text);
    SkipFirm(s);
    assert s[1..] == st.pad + text;
    NothingFollows();
    assert text + "" == text;
    OrSkips(st.pad + text);
    OrSkips(text);
    BlankBefore(st.pad, text);
    NothingSkipped();
  }

  lemma NothingSkipped()
    ensures SkipWhitespace("") == ""
  {
  }

  /** The parenthesis at the end can be left out. */
  lemma UnclosedGroup(st: Style, t: MarkerTree)
    requires StyleOk(st) && Writable(st, t)
    ensures Parse("(" + (st.pad + Written(st, t))) == t
  {
    hide ParseAtom, ParseAnd, ParseOr, Written, Writable, SkipWhitespace, Trim, StyleOk, IsWhitespace, ReadsAsOperand,
      ReadsAsAlternative, ReadsAlone, EndsAlternatives, EndsOperands;
    TreeReads(st, t);
    WrittenEnds(st, t);
    var s := "(" + (st.pad + Written(st, t));
    UnclosedRead(st, t);
    assert s + "" == s;
    EndsAll();
    OperandAlone(st, t, s, "");
    AlternativeAlone(st, t, s, "");
    Opens(st.pad + Written(st, t));
    assert s == ("(" + st.pad) + Written(st, t);
    EndsAfter("(" + st.pad, Written(st, t));
    TrimsToItself(s);
  }

  lemma EndsAll()
    ensures EndsOperands("") && EndsAlternatives("")
  {
  }

  lemma Opens(s: string)
    ensures BeginsFirm("(" + s)
  {
  }

  lemma EndsAfter(a: string, b: string)
    requires EndsFirm(b)
    ensures EndsFirm(a + b)
  {
  }

  // -- Operands without an operator ------------------------------------------------------

  lemma NoOperator(word: string, s: string)
    requires word == "and" || word == "or" || word == ""
    requires word == "" ==> s == ""
    ensures ParseOp(word + s) == Parsed(None, word + s)
  {
    var t := word + s;
    if word != "" {
      SkipFirm(t);
      assert t[0] == word[0];
      assert |t| >= 3 ==> t[..3][0] == t[0];
      assert |t| >= 2 ==> t[..2][0] == t[0];
      assert t[..1][0] == t[0];
    }
  }

  /** Nothing is read, and the keyword or the end is left. */
  lemma LoneRead(st: Style, v: MarkerValue, word: string, s: string)
    requires StyleOk(st) && ValueOk(st, v) && (word == "and" || word == "or")
    ensures var rest := Keyword(st, word) + s;
            ParseAtom(Spelled(st, v) + rest) == Parsed(None, SkipWhitespace(rest))
  {
    hide ParseValue, ParseOp, ParseOr, Spelled, SkipWhitespace, ValueOk, Stops, Normalized;
    var rest := Keyword(st, word) + s;
    KeywordRead(st, word, s);
    ValueRead(st, v, rest);
    SkipFirm(Spelled(st, v) + rest);
    OpSkips(rest);
    SkipsToWord(st, word, s);
    NoOperator(word, st.gap + s);
  }

  lemma SkipsToWord(st: Style, word: string, s: string)
    requires StyleOk(st) && (word == "and" || word == "or")
    ensures SkipWhitespace(Keyword(st, word) + s) == word + (st.gap + s)
  {
    hide SkipWhitespace, IsWhitespace, Words;
    assert Keyword(st, word) + s == st.gap + (word + (st.gap + s));
    BlankBefore(st.gap, word + (st.gap + s));
    WordFirm(word);
    SkipFirm(word + (st.gap + s));
  }

  /** An operand without an operator between two others counts for nothing. */
  lemma LoneOperandSkipped(st: Style, a: MarkerTree, v: MarkerValue, b: MarkerTree)
    requires StyleOk(st) && Writable(st, a) && Writable(st, b) && ValueOk(st, v)
    ensures var word := Keyword(st, "and");
            Parse(Operand(st, a) + (word + (Spelled(st, v) + (word + Operand(st, b))))) == And([a, b])
  {
    hide ParseAnd, ParseOr, ParseAtom, Operand, Writable, SkipWhitespace, Trim, StyleOk, IsWhitespace,
      ReadsAsAlternative, ReadsAlone, EndsAlternatives, EndsOperands, Keyword, Spelled, ValueOk, Stops;
    var word := Keyword(st, "and");
    var last := word + Operand(st, b);
    var s := Operand(st, a) + (word + (Spelled(st, v) + last));
    TreeReads(st, a);
    TreeReads(st, b);
    OperandsAround(st, a, v, b);
    EndsAll();
    assert s + "" == s;
    AlternativeAlone(st, And([a, b]), s, "");
    OperandEnds(st, b);
    assert s == (Operand(st, a) + (word + (Spelled(st, v) + word))) + Operand(st, b);
    EndsAfter(Operand(st, a) + (word + (Spelled(st, v) + word)), Operand(st, b));
    TrimsToItself(s);
  }

  lemma OperandEnds(st: Style, t: MarkerTree)
    requires Writable(st, t)
    ensures EndsFirm(Operand(st, t)) && EndsFirm(Alternative(st, t))
  {
    hide Written, EndsFirm, Writable, InParentheses;
    WrittenEnds(st, t);
    ParenthesesEnd(st, t);
  }

  lemma OperandsAround(st: Style, a: MarkerTree, v: MarkerValue, b: MarkerTree)
    requires StyleOk(st) && ValueOk(st, v) && ReadsAsOperand(st, a) && ReadsAsOperand(st, b)
    ensures var word := Keyword(st, "and");
            ParseAnd(Operand(st, a) + (word + (Spelled(st, v) + (word + Operand(st, b)))))
            == Parsed(Some(And([a, b])), "")
  {
    hide ParseAtom, Operand, SkipWhitespace, StyleOk, Keyword, Spelled, ValueOk, Stops, BeginsFirm, AtKeyword, AndRest;
    var word := Keyword(st, "and");
    var lone := Spelled(st, v) + (word + Operand(st, b));
    var s := Operand(st, a) + (word + lone);
    KeywordRead(st, "and", lone);
    assert ParseAtom(s) == Parsed(Some(a), word + lone);
    AtomSkips(s);
    LoneRead(st, v, "and", Operand(st, b));
    SkippedOperand([a], word + lone, lone);
    KeywordRead(st, "and", Operand(st, b));
    NothingStops();
    assert Operand(st, b) + "" == Operand(st, b);
    AndRestSkips([a], word + Operand(st, b));
    NextOperand([a], b, word + Operand(st, b), Operand(st, b));
    EndsAll();
    assert [a] + [b] == [a, b];
    LastOperand([a, b], "");
    NothingSkipped();
  }

  lemma SkippedOperand(children: seq<MarkerTree>, s: string, more: string)
    requires AtKeyword(SkipWhitespace(s), "and") && SkipWhitespace(SkipWhitespace(s)[3..]) == SkipWhitespace(more)
    requires ParseAtom(more).value == None
    ensures AndRest(children, s) == AndRest(children, ParseAtom(more).rest)
  {
    hide SkipWhitespace, AtKeyword, ParseAtom;
    AtomSkips(more);
  }

  lemma AndRestSkips(children: seq<MarkerTree>, s: string)
    ensures AndRest(children, SkipWhitespace(s)) == AndRest(children, s)
  {
    hide SkipWhitespace, AtKeyword, ParseAtom;
    SkipTwice(s);
  }

  /** The same between alternatives. */
  lemma LoneAlternativeSkipped(st: Style, a: MarkerTree, v: MarkerValue, b: MarkerTree)
    requires StyleOk(st) && Writable(st, a) && Writable(st, b) && ValueOk(st, v)
    ensures var word := Keyword(st, "or");
            Parse(Alternative(st, a) + (word + (Spelled(st, v) + (word + Alternative(st, b))))) == Or([a, b])
  {
    hide ParseAnd, ParseOr, Alternative, Writable, SkipWhitespace, Trim, StyleOk, IsWhitespace,
      ReadsAsOperand, ReadsAlone, EndsAlternatives, EndsOperands, Keyword, Spelled, ValueOk, Stops;
    var word := Keyword(st, "or");
    var last := word + Alternative(st, b);
    var s := Alternative(st, a) + (word + (Spelled(st, v) + last));
    TreeReads(st, a);
    TreeReads(st, b);
    AlternativesAround(st, a, v, b);
    OperandEnds(st, b);
    assert s == (Alternative(st, a) + (word + (Spelled(st, v) + word))) + Alternative(st, b);
    EndsAfter(Alternative(st, a) + (word + (Spelled(st, v) + word)), Alternative(st, b));
    TrimsToItself(s);
  }

  lemma AlternativesAround(st: Style, a: MarkerTree, v: MarkerValue, b: MarkerTree)
    requires StyleOk(st) && ValueOk(st, v) && ReadsAsAlternative(st, a) && ReadsAsAlternative(st, b)
    ensures var word := Keyword(st, "or");
            ParseOr(Alternative(st, a) + (word + (Spelled(st, v) + (word + Alternative(st, b)))))
            == Parsed(Some(Or([a, b])), "")
  {
    hide ParseAnd, Alternative, SkipWhitespace, StyleOk, Keyword, Spelled, ValueOk, EndsOperands, BeginsFirm, AtKeyword,
      OrRest;
    var word := Keyword(st, "or");
    var lone := Spelled(st, v) + (word + Alternative(st, b));
    var s := Alternative(st, a) + (word + lone);
    OrFollows(st, lone);
    assert ParseAnd(s) == Parsed(Some(a), SkipWhitespace(word + lone));
    AndSkips(s);
    LoneAlternative(st, v, "or", Alternative(st, b));
    SkippedAlternative([a], word + lone, lone);
    OrFollows(st, Alternative(st, b));
    EndsAll();
    assert Alternative(st, b) + "" == Alternative(st, b);
    OrRestSkips([a], word + lone);
    NextAlternative([a], b, SkipWhitespace(word + Alternative(st, b)), Alternative(st, b));
    assert [a] + [b] == [a, b];
    LastAlternative([a, b], "");
    NothingSkipped();
  }

  lemma LoneAlternative(st: Style, v: MarkerValue, word: string, s: string)
    requires StyleOk(st) && ValueOk(st, v) && (word == "and" || word == "or")
    ensures var rest := Keyword(st, word) + s;
            ParseAnd(Spelled(st, v) + rest) == Parsed(None, SkipWhitespace(rest))
  {
    hide ParseAtom, SkipWhitespace, StyleOk, ValueOk, Keyword, Spelled;
    var rest := Keyword(st, word) + s;
    LoneRead(st, v, word, s);
    AtomSkips(Spelled(st, v) + rest);
  }

  lemma SkippedAlternative(children: seq<MarkerTree>, s: string, more: string)
    requires AtKeyword(SkipWhitespace(s), "or") && SkipWhitespace(SkipWhitespace(s)[2..]) == SkipWhitespace(more)
    requires ParseAnd(more).value == None
    ensures OrRest(children, s) == OrRest(children, ParseAnd(more).rest)
  {
    hide SkipWhitespace, AtKeyword, ParseAnd;
    AndSkips(more);
  }

  lemma OrRestSkips(children: seq<MarkerTree>, s: string)
    ensures OrRest(children, SkipWhitespace(s)) == OrRest(children, s)
  {
    hide SkipWhitespace, AtKeyword, ParseAnd;
    SkipTwice(s);
  }

  /** A text without an operator is read as no condition. */
  lemma LoneOperandTrue(st: Style, v: MarkerValue)
    requires ValueOk(st, v)
    ensures Parse(Spelled(st, v)) == True
  {
    hide ParseAtom, ParseAnd, Trim, Spelled, SkipWhitespace, ValueOk, EndsFirm, IsWhitespace;
    var s := Spelled(st, v);
    LoneAtom(st, v);
    SpelledEnds(st, v);
    TrimsToItself(s);
    NoAlternative(s);
  }

  lemma NoAlternative(s: string)
    requires ParseAtom(s).value == None
    ensures ParseOr(s).value == None
  {
    hide ParseAtom, AndRest, OrRest, SkipWhitespace;
    AtomSkips(s);
    AndSkips(s);
    assert ParseAnd(s).value == None;
  }

  lemma LoneAtom(st: Style, v: MarkerValue)
    requires ValueOk(st, v)
    ensures ParseAtom(Spelled(st, v)) == Parsed(None, "") && BeginsFirm(Spelled(st, v))
  {
    hide ParseValue, ParseOp, Spelled, SkipWhitespace, ValueOk, Stops, ParseOr, Normalized;
    var s := Spelled(st, v);
    NothingStops();
    ValueRead(st, v, "");
    assert s + "" == s;
    SkipFirm(s);
    NoOperator("", "");
    assert "" + "" == "";
    FirmBegins(s);
  }

  /** Before a closing parenthesis a keyword counts, and nothing is missing after it. */
  lemma DanglingAnd(st: Style, t: MarkerTree, rest: string)
    requires StyleOk(st) && Writable(st, t)
    ensures ParseAtom("(" + (Operand(st, t) + (st.gap + ("and" + (")" + rest))))) == Parsed(Some(t), rest)
  {
    hide ParseAtom, ParseAnd, Operand, SkipWhitespace, StyleOk, Stops, Writable, AtKeyword, AndRest, OrRest,
      IsWhitespace, ReadsAsAlternative, ReadsAlone, BeginsFirm;
    TreeReads(st, t);
    var tail := ")" + rest;
    var s := Operand(st, t) + (st.gap + ("and" + tail));
    DanglingKeyword(st, "and", rest);
    assert ParseAtom(s) == Parsed(Some(t), st.gap + ("and" + tail));
    NothingToRead(rest);
    SkippedOperand([t], st.gap + ("and" + tail), tail);
    ClosingEnds([t], rest);
    AndAlone(s, t, st.gap + ("and" + tail), tail);
    AndSkips(s);
    assert ParseOr(s) == Parsed(Some(t), tail);
    Closed(s, t, rest);
  }

  lemma AndAlone(s: string, t: MarkerTree, more: string, rest: string)
    requires ParseAtom(s) == Parsed(Some(t), more) && AndRest([t], more) == Parsed(Some([t]), rest)
    ensures ParseAnd(s) == Parsed(Some(t), rest)
  {
    hide ParseAtom, AndRest, SkipWhitespace;
    AtomSkips(s);
  }

  lemma DanglingOr(st: Style, t: MarkerTree, rest: string)
    requires StyleOk(st) && Writable(st, t)
    ensures ParseAtom("(" + (Alternative(st, t) + (st.gap + ("or" + (")" + rest))))) == Parsed(Some(t), rest)
  {
    hide ParseAtom, ParseAnd, Alternative, SkipWhitespace, StyleOk, EndsOperands, Writable, AtKeyword, AndRest, OrRest,
      IsWhitespace, ReadsAsOperand, ReadsAlone, BeginsFirm;
    TreeReads(st, t);
    var tail := ")" + rest;
    var gapped := st.gap + ("or" + tail);
    var s := Alternative(st, t) + gapped;
    DanglingKeyword(st, "or", rest);
    assert ParseAnd(s) == Parsed(Some(t), SkipWhitespace(gapped));
    AndSkips(s);
    NothingToRead(rest);
    SkipTwice(gapped);
    SkippedAlternative([t], SkipWhitespace(gapped), tail);
    ClosingEnds([t], rest);
    assert ParseOr(s) == Parsed(Some(t), tail);
    Closed(s, t, rest);
  }

  lemma DanglingKeyword(st: Style, word: string, rest: string)
    requires StyleOk(st) && (word == "and" || word == "or")
    ensures var s := st.gap + (word + (")" + rest));
            && Stops(s) && (word == "or" ==> EndsOperands(s))
            && AtKeyword(SkipWhitespace(s), word)
            && SkipWhitespace(SkipWhitespace(s)[|word|..]) == SkipWhitespace(")" + rest)
  {
    hide IsWhitespace, SkipWhitespace, InIdentifier, Words;
    var tail := word + (")" + rest);
    WordFirm(word);
    SkipFirm(tail);
    BlankBefore(st.gap, tail);
    assert st.gap[0] in st.gap;
    WhitespaceStops(st.gap[0]);
    assert tail[..|word|] == word && tail[|word|..] == ")" + rest;
    assert tail[0] == word[0];
    assert |tail| >= 3 && tail[..3] == [tail[0], tail[1], tail[2]];
  }

  lemma NothingToRead(rest: string)
    ensures ParseAtom(")" + rest) == Parsed(None, ")" + rest) && ParseAnd(")" + rest) == Parsed(None, ")" + rest)
  {
    var s := ")" + rest;
    ClosingFirm(rest);
    hide SkipWhitespace, ParseOp, Normalized;
    TakeWhileOf("", s, InIdentifier);
    assert "" + s == s;
  }

  lemma ClosingEnds(children: seq<MarkerTree>, rest: string)
    ensures AndRest(children, ")" + rest) == Parsed(Some(children), ")" + rest)
    ensures OrRest(children, ")" + rest) == Parsed(Some(children), ")" + rest)
  {
    ClosingFirm(rest);
    NoKeyword(")" + rest);
    hide SkipWhitespace, AtKeyword, ParseAtom, ParseAnd;
  }

  lemma Closed(s: string, t: MarkerTree, rest: string)
    requires ParseOr(s) == Parsed(Some(t), ")" + rest)
    ensures ParseAtom("(" + s) == Parsed(Some(t), rest)
  {
    hide ParseOr, SkipWhitespace;
    ClosingFirm(rest);
    OpeningFirm(s);
    assert ("(" + s)[1..] == s && (")" + rest)[1..] == rest;
  }

  lemma OpeningFirm(s: string)
    ensures SkipWhitespace("(" + s) == "(" + s
  {
    SkipFirm("(" + s);
  }

  /** A word that only begins like an operator is none, and nothing is read. */
  lemma GluedOperatorUnread(st: Style, v: MarkerValue, word: string, c: char, more: string)
    requires StyleOk(st) && ValueOk(st, v) && (word == "in" || word == "not in") && InIdentifier(c)
    ensures ParseComparison(Spelled(st, v) + (st.gap + (word + ([c] + more)))).value == None
  {
    hide ParseValue, ParseOp, Spelled, SkipWhitespace, ValueOk, Normalized, StyleOk, Words;
    var s := word + ([c] + more);
    GapStops(st, s);
    ValueRead(st, v, st.gap + s);
    GluedOperator(word, c, more);
    OpSkips(st.gap + s);
    OpSkips(s);
    BlankBefore(st.gap, s);
  }

  lemma GapStops(st: Style, s: string)
    requires StyleOk(st)
    ensures Stops(st.gap + s) && IsBlank(st.gap)
  {
    assert st.gap[0] in st.gap;
    WhitespaceStops(st.gap[0]);
  }

  lemma NoSymbol(s: string)
    requires s != "" && IsLowercase(s[0])
    ensures SymbolOp(s) == Parsed(None, s)
  {
    hide StartsWith;
    PrefixLetters(s, "~=");
    PrefixLetters(s, ">=");
    PrefixLetters(s, "<=");
    PrefixLetters(s, "!=");
    PrefixLetters(s, "==");
    PrefixLetters(s, ">");
    PrefixLetters(s, "<");
  }

  lemma GluedIn(s: string)
    requires s != "" && InIdentifier(s[0])
    ensures !AtIn("in" + s) && SkipWhitespace("in" + s) == "in" + s
  {
    IdentifierFirm(s[0]);
    hide InIdentifier;
    assert ("in" + s)[2..] == s;
    SkipFirm("in" + s);
  }

  lemma GluedNotIn(s: string)
    requires s != "" && InIdentifier(s[0])
    ensures !AtNotIn("not in" + s)
  {
    IdentifierFirm(s[0]);
    GluedIn(s);
    hide InIdentifier, IsWhitespace, SkipWhitespace, AtIn, Words;
    var t := "not in" + s;
    assert t[..3] == "not" && t[3..] == " " + ("in" + s);
    OneBlank();
    BlankBefore(" ", "in" + s);
    assert ("in" + s)[2..] == s;
  }

  lemma OneBlank()
    ensures IsBlank(" ")
  {
  }

  lemma FirstLetters(s: string)
    ensures !AtNotIn("in" + s) && !AtIn("not in" + s)
  {
    hide SkipWhitespace, WordOpEnds;
    assert |s| >= 1 ==> ("in" + s)[..3][0] == 'i';
    assert ("not in" + s)[..2][0] == 'n';
  }

  lemma GluedOperator(word: string, c: char, more: string)
    requires (word == "in" || word == "not in") && InIdentifier(c)
    ensures ParseOp(word + ([c] + more)).value == None
  {
    hide AtIn, AtNotIn, SymbolOp, SkipWhitespace, InIdentifier;
    var s := [c] + more;
    GluedIn(s);
    GluedNotIn(s);
    FirstLetters(s);
    LowercaseFirm(word[0]);
    SkipFirm(word + s);
    NoSymbol(word + s);
  }

  /** A name or bare word ends at any other character. */
  lemma PunctuationEnds(st: Style, v: MarkerValue, c: char, rest: string)
    requires ValueOk(st, v) && c in "!\"#$%&'()*+,-/:;<=>?@[\\]^`{|}~"
    ensures ParseValue(Spelled(st, v) + ([c] + rest)) == Parsed(Some(v), [c] + rest)
  {
    hide ParseValue, Spelled, ValueOk;
    Punctuation(c);
    ValueRead(st, v, [c] + rest);
  }

  lemma Punctuation(c: char)
    requires c in "!\"#$%&'()*+,-/:;<=>?@[\\]^`{|}~"
    ensures !InIdentifier(c)
  {
  }

  // -- Texts without the quote at the end ------------------------------------------------

  lemma QuoteIsFirm(quote: char)
    requires IsQuote(quote)
    ensures !IsWhitespace(quote)
  {
  }

  /** A text that is left open goes to the end of the input. */
  lemma OpenTextRead(quote: char, text: string)
    requires IsQuote(quote) && quote !in text
    ensures ParseValue([quote] + text) == Parsed(Some(Text(text)), "")
  {
    hide SkipWhitespace, IsWhitespace, InIdentifier, VarNamed, TakeWhile;
    var s := [quote] + text;
    QuoteIsFirm(quote);
    SkipFirm(s);
    assert s[1..] == text && text + "" == text;
    TakeWhileOf(text, "", NotQuote(quote));
    assert s[1 + |text|..] == "";
  }

  /** A comparison whose text is left open is read as with the quote. */
  lemma UnclosedQuote(st: Style, v: MarkerVar, op: MarkerOp, quote: char, text: string)
    requires StyleOk(st) && IsQuote(quote) && quote !in text && (text == "" || EndsFirm(text))
    ensures var start := Spelled(st, Variable(v)) + (Around(st, op) + (PrintOp(op) + Around(st, op)));
            && Parse(start + ([quote] + text)) == Normalized(Variable(v), op, Text(text))
            && Parse(start + ([quote] + text + [quote])) == Normalized(Variable(v), op, Text(text))
  {
    hide ParseValue, Trim, Spelled, SkipWhitespace, Around, PrintOp, Normalized, EndsFirm, Parse, IsQuote, StyleOk;
    OpenTextRead(quote, text);
    QuoteRead(quote, text, "");
    assert [quote] + text + [quote] + "" == [quote] + text + [quote];
    QuoteFirm(quote, text);
    ReadOver(st, v, op, [quote] + text, text);
    ReadOver(st, v, op, [quote] + text + [quote], text);
  }

  lemma QuoteFirm(quote: char, text: string)
    requires IsQuote(quote) && (text == "" || EndsFirm(text))
    ensures StartsFirm([quote] + text) && EndsFirm([quote] + text)
    ensures StartsFirm([quote] + text + [quote]) && EndsFirm([quote] + text + [quote])
  {
    if text == "" {
      assert [quote] + text == [quote];
    }
  }

  lemma ReadOver(st: Style, v: MarkerVar, op: MarkerOp, right: string, text: string)
    requires StyleOk(st) && StartsFirm(right) && EndsFirm(right) && ParseValue(right) == Parsed(Some(Text(text)), "")
    ensures var start := Spelled(st, Variable(v)) + (Around(st, op) + (PrintOp(op) + Around(st, op)));
            Parse(start + right) == Normalized(Variable(v), op, Text(text))
  {
    hide ParseValue, ParseOp, Trim, Spelled, SkipWhitespace, Around, PrintOp, Normalized, EndsFirm, Stops, AtKeyword,
      StyleOk, IsWhitespace, BeginsFirm, ParseAnd, ParseOr, ParseComparison, EndsOperands, EndsAlternatives;
    var name, blank := Spelled(st, Variable(v)), Around(st, op);
    var s := name + (blank + (PrintOp(op) + (blank + right)));
    assert name + (blank + (PrintOp(op) + blank)) + right == s;
    ComparisonOver(st, v, op, right, text);
    SkipFirm(s);
    EndsAll();
    assert s + "" == s;
    OperandAlone(st, Normalized(Variable(v), op, Text(text)), s, "");
    NothingSkipped();
    AlternativeAlone(st, Normalized(Variable(v), op, Text(text)), s, "");
    EndsAfter(name + (blank + (PrintOp(op) + blank)), right);
    FirmBegins(s);
    TrimsToItself(s);
  }

  lemma FirmBegins(s: string)
    ensures StartsFirm(s) ==> BeginsFirm(s)
  {
  }

  lemma AroundFollows(st: Style, op: MarkerOp, right: string)
    requires StyleOk(st) && StartsFirm(right)
    ensures MayFollow(op, Around(st, op), right) && IsBlank(Around(st, op))
  {
  }

  lemma ComparisonOver(st: Style, v: MarkerVar, op: MarkerOp, right: string, text: string)
    requires StyleOk(st) && StartsFirm(right) && ParseValue(right) == Parsed(Some(Text(text)), "")
    ensures var s := Spelled(st, Variable(v)) + (Around(st, op) + (PrintOp(op) + (Around(st, op) + right)));
            StartsFirm(s) && ParseComparison(s) == Parsed(Some(Normalized(Variable(v), op, Text(text))), "")
  {
    hide ParseValue, ParseOp, Spelled, SkipWhitespace, Around, PrintOp, Normalized, Stops, StyleOk, MayFollow, Words;
    var blank := Around(st, op);
    AroundFollows(st, op, right);
    OpReadAround(st, op, blank, right);
    ValueRead(st, Variable(v), blank + (PrintOp(op) + (blank + right)));
    BlankBefore(blank, right);
    ValueSkips(blank + right);
    ValueSkips(right);
  }
}
