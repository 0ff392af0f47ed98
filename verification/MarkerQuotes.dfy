/** Texts with double quotes are never read back as they were: each of them takes a single quote
    to be read that printing does not write. */
module MarkerQuotes {
  import opened MarkerGrammar
  import opened MarkerRoundTrips
  import opened Markers
  import opened Options
  import opened Texts

  /** No text contains the quote that texts are printed in. */
  predicate CleanTexts(t: MarkerTree) {
    match t
    case And(cs) => forall i :: 0 <= i < |cs| ==> CleanTexts(cs[i])
    case Or(cs) => forall i :: 0 <= i < |cs| ==> CleanTexts(cs[i])
    case _ => CleanLeaf(t)
  }

  // -- Counting single quotes ------------------------------------------------------------

  function Singles(s: string): nat {
    if s == "" then 0 else (if s[0] == '\'' then 1 else 0) + Singles(s[1..])
  }

  lemma {:induction false} SinglesOfConcat(a: string, b: string)
    ensures Singles(a + b) == Singles(a) + Singles(b)
  {
    if a == "" {
      assert a + b == b;
    } else {
      assert (a + b)[1..] == a[1..] + b;
      SinglesOfConcat(a[1..], b);
    }
  }

  lemma SinglesOfCut(s: string, k: nat)
    requires k <= |s|
    ensures Singles(s) == Singles(s[..k]) + Singles(s[k..])
  {
    assert s == s[..k] + s[k..];
    SinglesOfConcat(s[..k], s[k..]);
  }

  lemma {:induction false} NoSingles(s: string)
    requires '\'' !in s
    ensures Singles(s) == 0
  {
    if s != "" {
      NoSingles(s[1..]);
    }
  }

  lemma SkipSingles(s: string)
    ensures Singles(SkipWhitespace(s)) <= Singles(s)
  {
    SinglesOfCut(s, |TakeWhile(s, IsWhitespace)|);
  }

  // -- The weight of a tree --------------------------------------------------------------

  function TextWeight(s: string): nat {
    Singles(s) + if Clean(s) then 0 else 1
  }

  function ValueWeight(v: MarkerValue): nat {
    if v.Text? then TextWeight(v.text) else 0
  }

  function LeafWeight(t: MarkerTree): nat {
    Singles(Print(t)) + if CleanLeaf(t) then 0 else 1
  }

  function WeightOf(weights: seq<nat>): nat {
    if weights == [] then 0 else weights[0] + WeightOf(weights[1..])
  }

  /** The single quotes of the printed text, and one for each leaf with a double quote. */
  function Weight(t: MarkerTree): nat {
    match t
    case And(cs) => WeightOf(seq(|cs|, i requires 0 <= i < |cs| => Weight(cs[i])))
    case Or(cs) => WeightOf(seq(|cs|, i requires 0 <= i < |cs| => Weight(cs[i])))
    case _ => LeafWeight(t)
  }

  function Weights(cs: seq<MarkerTree>): seq<nat> {
    seq(|cs|, i requires 0 <= i < |cs| => Weight(cs[i]))
  }

  lemma {:induction false} JoinWeight(texts: seq<string>, separator: string, weights: seq<nat>)
    requires |texts| == |weights| && '\'' !in separator && forall i :: 0 <= i < |texts| ==>
             Singles(texts[i]) <= weights[i]
    ensures Singles(Join(texts, separator)) <= WeightOf(weights)
    ensures (exists i :: 0 <= i < |texts| && Singles(texts[i]) < weights[i]) ==>
            Singles(Join(texts, separator)) < WeightOf(weights)
  {
    if |texts| > 1 {
      JoinWeight(texts[1..], separator, weights[1..]);
      SinglesOfConcat(texts[0] + separator, Join(texts[1..], separator));
      SinglesOfConcat(texts[0], separator);
      NoSingles(separator);
      if i :| 0 <= i < |texts| && Singles(texts[i]) < weights[i] {
        assert i == 0 || Singles(texts[1..][i - 1]) < weights[1..][i - 1];
      }
    }
  }

  /** Printing writes fewer single quotes than the weight where there is a double quote. */
  lemma {:induction false} PrintedWeight(t: MarkerTree)
    ensures Singles(Print(t)) <= Weight(t)
    ensures !CleanTexts(t) ==> Singles(Print(t)) < Weight(t)
  {
    if t.And? || t.Or? {
      var cs := t.children;
      var texts := seq(|cs|, i requires 0 <= i < |cs| => Print(cs[i]));
      forall i | 0 <= i < |cs|
        ensures Singles(texts[i]) <= Weights(cs)[i] && (!CleanTexts(cs[i]) ==> Singles(texts[i]) < Weights(cs)[i])
      {
        PrintedWeight(cs[i]);
      }
      JoinWeight(texts, if t.And? then " and " else " or ", Weights(cs));
    }
  }

  // -- Reading takes the whole weight ----------------------------------------------------

  lemma {:induction false} WordsLetters(s: string)
    ensures Singles(Join(Words(s), " ")) <= Singles(s)
    ensures Clean(s) ==> Clean(Join(Words(s), " "))
    decreases |s|
  {
    var t := SkipWhitespace(s);
    SkipSingles(s);
    CleanCut(s, |TakeWhile(s, IsWhitespace)|);
    if t != "" {
      var word := TakeWhile(t, InWord);
      var rest := t[|word|..];
      WordsLetters(rest);
      SinglesOfCut(t, |word|);
      CleanCut(t, |word|);
      assert Words(s) == [word] + Words(rest);
      hide Words, Join, Singles, SkipWhitespace, Clean;
      JoinOneMore(word, Words(rest));
    }
  }

  lemma CleanCut(s: string, k: nat)
    requires k <= |s|
    ensures Clean(s) ==> Clean(s[..k]) && Clean(s[k..])
  {
  }

  lemma JoinOneMore(word: string, words: seq<string>)
    ensures Singles(Join([word] + words, " ")) == Singles(word) + Singles(Join(words, " "))
    ensures Clean(Join([word] + words, " ")) <==> Clean(word) && Clean(Join(words, " "))
  {
    var more := Join(words, " ");
    assert ([word] + words)[1..] == words;
    if words != [] {
      SinglesOfConcat(word + " ", more);
      SinglesOfConcat(word, " ");
    }
  }

  lemma CompareWeight(lhs: MarkerValue, op: MarkerOp, rhs: MarkerValue)
    ensures LeafWeight(Compare(lhs, op, rhs)) <= ValueWeight(lhs) + ValueWeight(rhs)
  {
    var a, o, b := PrintValue(lhs), PrintOp(op), PrintValue(rhs);
    SinglesOfConcat(a + " " + o + " ", b);
    SinglesOfConcat(a + " " + o, " ");
    SinglesOfConcat(a + " ", o);
    SinglesOfConcat(a, " ");
    NoSingles(o);
    PrintedValue(lhs);
    PrintedValue(rhs);
  }

  lemma PrintedValue(v: MarkerValue)
    ensures Singles(PrintValue(v)) == if v.Text? then Singles(v.text) else 0
  {
    match v
    case Variable(x) =>
      VarLetters(x);
      NoSingles(PrintVar(x));
    case Text(s) =>
      QuotedSingles(s);
  }

  lemma QuotedSingles(s: string)
    ensures Singles(Quoted(s)) == Singles(s)
  {
    SinglesOfConcat("\"" + s, "\"");
    SinglesOfConcat("\"", s);
  }

  lemma NormalizedWeight(lhs: MarkerValue, op: MarkerOp, rhs: MarkerValue)
    ensures Weight(Normalized(lhs, op, rhs)) <= ValueWeight(lhs) + ValueWeight(rhs)
  {
    hide LeafWeight, TextWeight, Words, Inverted, ExtraMarker;
    CompareWeight(lhs, op, rhs);
    CompareWeight(rhs, Inverted(op), lhs);
    if rhs.Text? {
      ExtraWeight(op, rhs.text);
      if lhs.Variable? {
        ListWeight(lhs.variable, rhs.text, op.NotIn?);
      }
    }
    if lhs.Text? {
      ExtraWeight(op, lhs.text);
    }
  }

  lemma ExtraWeight(op: MarkerOp, name: string)
    ensures Weight(ExtraMarker(op, name)) <= TextWeight(name)
  {
    var prefix := if op.Eq? then "extra == " else "extra != ";
    SinglesOfConcat(prefix, Quoted(name));
    QuotedSingles(name);
    NoSingles(prefix);
    NoSingles("true");
  }

  lemma ListWeight(key: MarkerVar, text: string, negated: bool)
    ensures Weight(VersionIn(key, Words(text), negated)) <= TextWeight(text)
  {
    hide Words, Join, Singles;
    var words, op := Words(text), if negated then NotIn else In;
    WordsLetters(text);
    CompareWeight(Variable(key), op, Text(Join(words, " ")));
    SamePrinted(key, words, negated);
  }

  lemma SamePrinted(key: MarkerVar, versions: seq<string>, negated: bool)
    ensures LeafWeight(VersionIn(key, versions, negated))
         == LeafWeight(Compare(Variable(key), if negated then NotIn else In, Text(Join(versions, " "))))
  {
    hide Join, Singles;
  }

  lemma ValueTakes(s0: string)
    ensures var r := ParseValue(s0);
            Singles(r.rest) + (if r.value.Some? then ValueWeight(r.value.value) else 0) <= Singles(s0)
  {
    var s := SkipWhitespace(s0);
    SkipSingles(s0);
    if s != "" && IsQuote(s[0]) {
      QuoteTakes(s);
    } else if s != "" {
      var name := TakeWhile(s, InIdentifier);
      SinglesOfCut(s, |name|);
      assert '"' !in name;
      NoSingles(name);
    }
  }

  lemma QuoteTakes(s: string)
    requires s != "" && IsQuote(s[0])
    ensures var inner := TakeWhile(s[1..], NotQuote(s[0]));
            var rest := s[1 + |inner|..];
            TextWeight(inner) + Singles(if rest == "" then rest else rest[1..]) <= Singles(s)
  {
    var inner := TakeWhile(s[1..], NotQuote(s[0]));
    SinglesOfCut(s[1..], |inner|);
    assert s[1..][|inner|..] == s[1 + |inner|..];
    assert s[0] !in inner;
    if s[0] == '\'' {
      NoSingles(inner);
    }
  }

  lemma OpTakes(s0: string)
    ensures Singles(ParseOp(s0).rest) <= Singles(s0)
  {
    var s := SkipWhitespace(s0);
    SkipSingles(s0);
    if AtNotIn(s) {
      NotInTakes(s);
    } else if AtIn(s) {
      SinglesOfCut(s, 2);
    } else {
      SymbolTakes(s);
    }
    hide SkipWhitespace, AtNotIn, AtIn, SymbolOp, Singles;
  }

  lemma NotInTakes(s: string)
    requires AtNotIn(s)
    ensures Singles(SkipWhitespace(s[3..])[2..]) <= Singles(s)
  {
    SinglesOfCut(s, 3);
    SkipSingles(s[3..]);
    SinglesOfCut(SkipWhitespace(s[3..]), 2);
  }

  lemma SymbolTakes(s: string)
    ensures Singles(SymbolOp(s).rest) <= Singles(s)
  {
    var r := SymbolOp(s).rest;
    assert r == s[|s| - |r|..];
    SinglesOfCut(s, |s| - |r|);
  }

  lemma ComparisonTakes(s: string)
    ensures var r := ParseComparison(s);
            Singles(r.rest) + (if r.value.Some? then Weight(r.value.value) else 0) <= Singles(s)
  {
    hide ParseValue, ParseOp, Normalized, Weight, ValueWeight, Singles;
    var lhs := ParseValue(s);
    ValueTakes(s);
    OpTakes(lhs.rest);
    var op := ParseOp(lhs.rest);
    ValueTakes(op.rest);
    var rhs := ParseValue(op.rest);
    if lhs.value.Some? && op.value.Some? && rhs.value.Some? {
      NormalizedWeight(lhs.value.value, op.value.value, rhs.value.value);
    }
  }

  ghost predicate Takes(r: Parsed<MarkerTree>, s: string) {
    Singles(r.rest) + (if r.value.Some? then Weight(r.value.value) else 0) <= Singles(s)
  }

  lemma {:induction false} WeightAdded(ns: seq<nat>, n: nat)
    ensures WeightOf(ns + [n]) == WeightOf(ns) + n
  {
    if ns == [] {
      assert ns + [n] == [n] && [n][1..] == [];
    } else {
      WeightAdded(ns[1..], n);
      assert (ns + [n])[1..] == ns[1..] + [n];
    }
  }

  lemma OneMore(cs: seq<MarkerTree>, t: MarkerTree)
    ensures WeightOf(Weights(cs + [t])) == WeightOf(Weights(cs)) + Weight(t)
  {
    hide Weight, WeightOf;
    assert Weights(cs + [t]) == Weights(cs) + [Weight(t)];
    WeightAdded(Weights(cs), Weight(t));
  }

  lemma TreeWeight(cs: seq<MarkerTree>)
    ensures Weight(And(cs)) == WeightOf(Weights(cs)) && Weight(Or(cs)) == WeightOf(Weights(cs))
    ensures |cs| == 1 ==> WeightOf(Weights(cs)) == Weight(cs[0])
  {
    if |cs| == 1 {
      assert Weights(cs) == [Weight(cs[0])] && Weights(cs)[1..] == [];
    }
  }

  lemma OneChild(t: MarkerTree)
    ensures WeightOf(Weights([t])) == Weight(t)
  {
    OneMore([], t);
    assert [] + [t] == [t];
  }

  lemma {:induction false} OrTakes(s: string)
    ensures Takes(ParseOr(s), s)
    decreases |s|, 4
  {
    hide ParseAnd, OrRest, SkipWhitespace, Singles, Weight, Weights, WeightOf;
    SkipSingles(s);
    AndTakes(SkipWhitespace(s));
    var first := ParseAnd(SkipWhitespace(s));
    if first.value.Some? {
      OneChild(first.value.value);
      OrRestTakes([first.value.value], first.rest);
      TreeWeight(OrRest([first.value.value], first.rest).value.value);
    }
  }

  lemma {:induction false} OrRestTakes(children: seq<MarkerTree>, s: string)
    ensures var r := OrRest(children, s);
            Singles(r.rest) + WeightOf(Weights(r.value.value)) <= Singles(s) + WeightOf(Weights(children))
    decreases |s|, 3
  {
    var t := SkipWhitespace(s);
    SkipSingles(s);
    if AtKeyword(t, "or") {
      SinglesOfCut(t, 2);
      SkipSingles(t[2..]);
      AndTakes(SkipWhitespace(t[2..]));
      var next := ParseAnd(SkipWhitespace(t[2..]));
      if next.value.Some? {
        OneMore(children, next.value.value);
      }
      OrRestTakes(if next.value.Some? then children + [next.value.value] else children, next.rest);
    }
  }

  lemma {:induction false} AndTakes(s: string)
    ensures Takes(ParseAnd(s), s)
    decreases |s|, 2
  {
    hide ParseAtom, AndRest, SkipWhitespace, Singles, Weight, Weights, WeightOf;
    SkipSingles(s);
    AtomTakes(SkipWhitespace(s));
    var first := ParseAtom(SkipWhitespace(s));
    if first.value.Some? {
      OneChild(first.value.value);
      AndRestTakes([first.value.value], first.rest);
      TreeWeight(AndRest([first.value.value], first.rest).value.value);
    }
  }

  lemma {:induction false} AndRestTakes(children: seq<MarkerTree>, s: string)
    ensures var r := AndRest(children, s);
            Singles(r.rest) + WeightOf(Weights(r.value.value)) <= Singles(s) + WeightOf(Weights(children))
    decreases |s|, 1
  {
    var t := SkipWhitespace(s);
    SkipSingles(s);
    if AtKeyword(t, "and") {
      SinglesOfCut(t, 3);
      SkipSingles(t[3..]);
      AtomTakes(SkipWhitespace(t[3..]));
      var next := ParseAtom(SkipWhitespace(t[3..]));
      if next.value.Some? {
        OneMore(children, next.value.value);
      }
      AndRestTakes(if next.value.Some? then children + [next.value.value] else children, next.rest);
    }
  }

  lemma {:induction false} AtomTakes(s0: string)
    ensures Takes(ParseAtom(s0), s0)
    decreases |s0|, 0
  {
    var s := SkipWhitespace(s0);
    SkipSingles(s0);
    if s != "" && s[0] == '(' {
      SinglesOfCut(s, 1);
      OrTakes(s[1..]);
      var rest := ParseOr(s[1..]).rest;
      SkipSingles(rest);
      var t := SkipWhitespace(rest);
      if t != "" {
        SinglesOfCut(t, 1);
      }
    } else {
      ComparisonTakes(s);
    }
  }

  lemma TrimSingles(s: string)
    ensures Singles(Trim(s)) <= Singles(s)
  {
    SkipSingles(s);
    TrimEndSingles(SkipWhitespace(s));
  }

  lemma {:induction false} TrimEndSingles(s: string)
    ensures Singles(TrimEnd(s)) <= Singles(s)
  {
    if s != "" && IsWhitespace(s[|s| - 1]) {
      TrimEndSingles(s[..|s| - 1]);
      SinglesOfCut(s, |s| - 1);
    }
  }

  /** A tree with a double quote in a text is not read back. */
  lemma QuoteNotReadBack(t: MarkerTree)
    requires !CleanTexts(t)
    ensures Parse(Print(t)) != t
  {
    PrintedWeight(t);
    TrimSingles(Print(t));
    OrTakes(Trim(Print(t)));
    NoSingles("true");
    hide ParseOr, Print, Trim, Singles, CleanTexts;
    assert Print(True) == "true";
  }
}
