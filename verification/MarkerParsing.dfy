/** The recursive descent parser for markers. It moves a cursor over the input; every method
    computes the function of the grammar on what remains, and comes to an end. */
module MarkerParsing {
  import opened MarkerGrammar
  import opened Markers
  import opened Options
  import opened Texts

  class Cursor {
    const input: string
    var pos: nat

    constructor (input: string)
      ensures Valid() && this.input == input && Remaining() == input
    {
      this.input := input;
      pos := 0;
    }

    ghost predicate Valid()
      reads this
    {
      pos <= |input|
    }

    function Remaining(): string
      reads this
      requires Valid()
    {
      input[pos..]
    }

    method PeekChar() returns (c: Option<char>)
      requires Valid()
      ensures c == if Remaining() == "" then None else Some(Remaining()[0])
    {
      c := if pos < |input| then Some(input[pos]) else None;
    }

    method Advance(n: nat)
      requires Valid()
      modifies this
      ensures Valid()
      ensures Remaining() == if n <= |old(Remaining())| then old(Remaining())[n..] else ""
    {
      pos := if pos + n < |input| then pos + n else |input|;
    }

    /** Move over the characters with a property. */
    method Skip(p: char -> bool)
      requires Valid()
      modifies this
      ensures Valid() && old(pos) <= pos && input[old(pos)..pos] == TakeWhile(old(Remaining()), p)
      ensures Remaining() == DropWhile(old(Remaining()), p)
    {
      while pos < |input| && p(input[pos])
        invariant Valid() && old(pos) <= pos
        invariant forall c :: c in input[old(pos)..pos] ==> p(c)
        decreases |input| - pos
      {
        assert input[old(pos)..pos + 1] == input[old(pos)..pos] + [input[pos]];
        pos := pos + 1;
      }
      assert input[old(pos)..] == input[old(pos)..pos] + Remaining();
      TakeWhileOf(input[old(pos)..pos], Remaining(), p);
    }

    method EatWhitespace()
      requires Valid()
      modifies this
      ensures Valid() && Remaining() == SkipWhitespace(old(Remaining()))
    {
      Skip(IsWhitespace);
    }

    method EatKeyword(keyword: string) returns (eaten: bool)
      requires Valid()
      modifies this
      ensures Valid() && (eaten <==> AtKeyword(old(Remaining()), keyword))
      ensures Remaining() == if eaten then old(Remaining())[|keyword|..] else old(Remaining())
    {
      eaten := false;
      var rest := Remaining();
      if StartsWith(rest, keyword) {
        var after := pos + |keyword|;
        if after >= |input| || IsWhitespace(input[after]) || input[after] == ')' {
          Advance(|keyword|);
          eaten := true;
        }
      }
    }

    /** The text between quotes; an unterminated one reaches to the end. */
    method ParseQuotedString() returns (text: Option<string>)
      requires Valid()
      modifies this
      ensures Valid()
      ensures if old(Remaining()) != "" && IsQuote(old(Remaining())[0]) then
                text.Some? && Parsed(Some(Text(text.value)), Remaining()) == ParseValue(old(Remaining()))
              else text.None? && Remaining() == old(Remaining())
    {
      ghost var s := Remaining();
      var quote := PeekChar();
      if quote.None? || !IsQuote(quote.value) {
        return None;
      }
      SkipNothing(s);
      Advance(1);
      var start := pos;
      Skip(NotQuote(quote.value));
      var value := input[start..pos];
      if pos < |input| {
        Advance(1);
      }
      return Some(value);
    }

    method ParseIdentifier() returns (name: Option<string>)
      requires Valid()
      modifies this
      ensures Valid() && Remaining() == DropWhile(old(Remaining()), InIdentifier)
      ensures name == var word := TakeWhile(old(Remaining()), InIdentifier); if word == "" then None else Some(word)
    {
      var start := pos;
      Skip(InIdentifier);
      name := if pos > start then Some(input[start..pos]) else None;
    }

    method Value() returns (value: Option<MarkerValue>)
      requires Valid()
      modifies this
      ensures Valid() && Parsed(value, Remaining()) == ParseValue(old(Remaining()))
    {
      ghost var s := Remaining();
      EatWhitespace();
      SkipTwice(s);
      var c := PeekChar();
      if c.None? {
        return None;
      }
      if IsQuote(c.value) {
        var text := ParseQuotedString();
        return Some(Text(text.value));
      }
      var name := ParseIdentifier();
      if name.None? {
        return None;
      }
      match VarNamed(name.value)
      case Some(v) => return Some(Variable(v));
      case None => return Some(Text(name.value));
    }

    method Eat(prefix: string) returns (eaten: bool)
      requires Valid()
      modifies this
      ensures Valid() && (eaten <==> StartsWith(old(Remaining()), prefix))
      ensures Remaining() == if eaten then old(Remaining())[|prefix|..] else old(Remaining())
    {
      eaten := StartsWith(Remaining(), prefix);
      if eaten {
        Advance(|prefix|);
      }
    }

    /** The longer symbols are tried first. */
    method Symbol() returns (op: Option<MarkerOp>)
      requires Valid()
      modifies this
      ensures Valid() && Parsed(op, Remaining()) == SymbolOp(old(Remaining()))
    {
      for i := 0 to |SYMBOLS|
        invariant Valid() && Remaining() == old(Remaining())
        invariant forall k :: 0 <= k < i ==> !StartsWith(Remaining(), PrintOp(SYMBOLS[k]))
      {
        var eaten := Eat(PrintOp(SYMBOLS[i]));
        if eaten {
          FirstSymbol(old(Remaining()), i);
          return Some(SYMBOLS[i]);
        }
      }
      NoSymbol(Remaining());
      op := None;
    }

    method WordOp() returns (op: Option<MarkerOp>)
      requires Valid()
      modifies this
      ensures Valid() && (if op.Some? then Parsed(op, Remaining()) == ParseOp(old(Remaining())) else
                           Remaining() == SkipWhitespace(old(Remaining()))
                               && SymbolOp(Remaining()) == ParseOp(old(Remaining())))
    {
      EatWhitespace();
      var saved := pos;
      var eaten := Eat("not");
      if eaten {
        EatWhitespace();
        eaten := Eat("in");
        if eaten && WordOpEnds(Remaining()) {
          return Some(NotIn);
        }
        pos := saved;
      }
      eaten := Eat("in");
      if eaten {
        if WordOpEnds(Remaining()) {
          return Some(In);
        }
        pos := saved;
      }
      op := None;
    }

    method Op() returns (op: Option<MarkerOp>)
      requires Valid()
      modifies this
      ensures Valid() && Parsed(op, Remaining()) == ParseOp(old(Remaining()))
    {
      hide *;
      op := WordOp();
      if op.None? {
        op := Symbol();
      }
    }

    method Comparison() returns (tree: Option<MarkerTree>)
      requires Valid()
      modifies this
      ensures Valid() && Parsed(tree, Remaining()) == ParseComparison(old(Remaining()))
    {
      var lhs := Value();
      if lhs.None? {
        return None;
      }
      var op := Op();
      if op.None? {
        return None;
      }
      var rhs := Value();
      if rhs.None? {
        return None;
      }
      return Some(Normalized(lhs.value, op.value, rhs.value));
    }

    method Disjunction() returns (tree: Option<MarkerTree>)
      requires Valid()
      modifies this
      ensures Valid() && Parsed(tree, Remaining()) == ParseOr(old(Remaining()))
      decreases |Remaining()|, 2
    {
      ghost var s := Remaining();
      EatWhitespace();
      var first := Conjunction();
      if first.None? {
        return None;
      }
      var children := [first.value];
      var more := true;
      while more
        invariant Valid() && children != [] && |Remaining()| <= |s|
        invariant if more then OrRest(children, Remaining()) == OrRest([first.value], ParseAnd(SkipWhitespace(s)).rest)
                  else Parsed(Some(children), Remaining()) == OrRest([first.value], ParseAnd(SkipWhitespace(s)).rest)
        decreases more, |Remaining()|
      {
        EatWhitespace();
        more := EatKeyword("or");
        if more {
          EatWhitespace();
          var next := Conjunction();
          if next.Some? {
            children := children + [next.value];
          }
        }
      }
      return Some(if |children| == 1 then children[0] else Or(children));
    }

    method Conjunction() returns (tree: Option<MarkerTree>)
      requires Valid()
      modifies this
      ensures Valid() && Parsed(tree, Remaining()) == ParseAnd(old(Remaining()))
      decreases |Remaining()|, 1
    {
      ghost var s := Remaining();
      EatWhitespace();
      var first := Atom();
      if first.None? {
        return None;
      }
      var children := [first.value];
      var more := true;
      while more
        invariant Valid() && children != [] && |Remaining()| <= |s|
        invariant if more then AndRest(children, Remaining())
                  == AndRest([first.value], ParseAtom(SkipWhitespace(s)).rest)
                  else Parsed(Some(children), Remaining()) == AndRest([first.value], ParseAtom(SkipWhitespace(s)).rest)
        decreases more, |Remaining()|
      {
        EatWhitespace();
        more := EatKeyword("and");
        if more {
          EatWhitespace();
          var next := Atom();
          if next.Some? {
            children := children + [next.value];
          }
        }
      }
      return Some(if |children| == 1 then children[0] else And(children));
    }

    method Atom() returns (tree: Option<MarkerTree>)
      requires Valid()
      modifies this
      ensures Valid() && Parsed(tree, Remaining()) == ParseAtom(old(Remaining()))
      decreases |Remaining()|, 0
    {
      hide ParseOr, ParseComparison, SkipWhitespace;
      EatWhitespace();
      var c := PeekChar();
      if c == Some('(') {
        Advance(1);
        tree := Disjunction();
        if tree.Some? {
          EatWhitespace();
          c := PeekChar();
          if c == Some(')') {
            Advance(1);
          }
        }
      } else {
        tree := Comparison();
      }
    }
  }

  const SYMBOLS: seq<MarkerOp> := [TildeEq, Gte, Lte, NotEq, Eq, Gt, Lt]

  lemma FirstSymbol(s: string, i: nat)
    requires i < |SYMBOLS| && StartsWith(s, PrintOp(SYMBOLS[i]))
    requires forall k :: 0 <= k < i ==> !StartsWith(s, PrintOp(SYMBOLS[k]))
    ensures SymbolOp(s) == Parsed(Some(SYMBOLS[i]), s[|PrintOp(SYMBOLS[i])|..])
  {
    SymbolTexts();
  }

  lemma NoSymbol(s: string)
    requires forall k :: 0 <= k < |SYMBOLS| ==> !StartsWith(s, PrintOp(SYMBOLS[k]))
    ensures SymbolOp(s) == Parsed(None, s)
  {
    SymbolTexts();
  }

  lemma SymbolTexts()
    ensures SYMBOLS == [TildeEq, Gte, Lte, NotEq, Eq, Gt, Lt]
    ensures PrintOp(SYMBOLS[0]) == "~=" && PrintOp(SYMBOLS[1]) == ">=" && PrintOp(SYMBOLS[2]) == "<="
    ensures PrintOp(SYMBOLS[3]) == "!=" && PrintOp(SYMBOLS[4]) == "==" && PrintOp(SYMBOLS[5]) == ">"
    ensures PrintOp(SYMBOLS[6]) == "<"
  {
  }

  lemma SkipNothing(s: string)
    requires s != "" && IsQuote(s[0])
    ensures SkipWhitespace(s) == s
  {
  }

  lemma SkipTwice(s: string)
    ensures SkipWhitespace(SkipWhitespace(s)) == SkipWhitespace(s)
  {
  }

  method ParseMarker(input: string) returns (tree: MarkerTree)
    ensures tree == Parse(input)
  {
    var s := Trim(input);
    if s == "" {
      return True;
    }
    var cursor := new Cursor(s);
    var parsed := cursor.Disjunction();
    return if parsed.Some? then parsed.value else True;
  }
}
