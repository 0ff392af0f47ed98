/** Which comparisons keep their meaning when they are printed and parsed, by their fields. */
module MarkerAtoms {
  import opened MarkerGrammar
  import opened MarkerMeanings
  import opened MarkerRoundTrips
  import opened Markers
  import opened Numerals
  import opened Options
  import opened Texts

  ghost predicate SameFor(t: MarkerTree, env: MarkerEnvironment, extras: seq<string>) {
    Evaluate(NormalAtom(t), env, extras) == Evaluate(t, env, extras)
  }

  /** In every environment and for all extras. */
  ghost predicate KeepsMeaning(t: MarkerTree) {
    forall env, extras :: SameFor(t, env, extras)
  }

  // -- The condition ---------------------------------------------------------------------

  /** `extra op "name"`: only equality is about the extras; the other operators become always
      true, and were comparisons with the empty text. */
  predicate ExtraLeftOk(op: MarkerOp, name: string) {
    match op
    case Lte => true
    case In => true
    case Gte => name == ""
    case TildeEq => name == ""
    case Lt => name != ""
    case _ => false
  }

  predicate ExtraRightOk(name: string, op: MarkerOp) {
    match op
    case Gte => true
    case Lte => name == ""
    case TildeEq => name == ""
    case In => name == ""
    case Gt => name != ""
    case NotIn => name != ""
    case _ => false
  }

  /** `"text" op variable`: containment and compatible releases cannot be turned around. */
  predicate TurnedOk(text: string, op: MarkerOp, v: MarkerVar) {
    !op.In? && !op.NotIn? && (op.TildeEq? && v.IsVersion() ==> VersionTuple(text) == [])
  }

  predicate AtomOk(t: MarkerTree) {
    match t
    case Compare(lhs, op, rhs) =>
      if lhs == Variable(ExtraVar) && rhs.Text? then ExtraLeftOk(op, rhs.text)
      else if rhs == Variable(ExtraVar) && lhs.Text? then ExtraRightOk(lhs.text, op)
      else if (op.In? || op.NotIn?) && IsVersionValue(lhs) && rhs.Text? && Words(rhs.text) != [] then false
      else if lhs.Text? && rhs.Variable? then TurnedOk(lhs.text, op, rhs.variable)
      else true
    case Extra(_, _) => true
    case VersionIn(key, versions, negated) =>
      if key == ExtraVar then negated <==> "" !in versions
      else versions == [""] || (key.IsVersion() && versions != [] && forall w :: w in versions ==> IsWord(w))
    case _ => false
  }

  // -- Comparisons with `extra` ----------------------------------------------------------

  lemma ContainsAll(s: string)
    ensures Contains(s, "") && Contains(s, s)
    ensures forall l :: Contains(s, l) ==> |l| <= |s|
  {
    assert StartsWith(s[0..], "") && StartsWith(s[0..], s);
  }

  lemma EmptyContains(s: string)
    ensures Contains("", s) <==> s == ""
  {
    ContainsAll("");
  }

  /** Some extras decide an equality one way, some the other. */
  lemma ExtraVaries(name: string, equal: bool, env: MarkerEnvironment)
    ensures Evaluate(Extra(name, equal), env, []) != Evaluate(Extra(name, equal), env, [name])
  {
    assert Lowered([name][0]) == Lowered(name);
  }

  lemma ExtraLeftExact(op: MarkerOp, name: string)
    ensures KeepsMeaning(Compare(Variable(ExtraVar), op, Text(name))) <==> ExtraLeftOk(op, name)
  {
    var t := Compare(Variable(ExtraVar), op, Text(name));
    ContainsAll(name);
    forall env, extras ensures Evaluate(t, env, extras) == CompareTexts("", op, name) {
    }
    ExtraExact(t, op, name, CompareTexts("", op, name));
  }

  lemma ExtraRightExact(name: string, op: MarkerOp)
    ensures KeepsMeaning(Compare(Text(name), op, Variable(ExtraVar))) <==> ExtraRightOk(name, op)
  {
    hide KeepsMeaning, VersionTuple, CompareTuples, CompareTexts, ExtraRightOk;
    var t := Compare(Text(name), op, Variable(ExtraVar));
    ExtraRightTexts(name, op);
    forall env, extras ensures Evaluate(t, env, extras) == CompareTexts(name, op, "") {
    }
    ExtraExact(t, op, name, CompareTexts(name, op, ""));
  }

  lemma ExtraRightTexts(name: string, op: MarkerOp)
    ensures ExtraRightOk(name, op) <==> !op.Eq? && !op.NotEq? && CompareTexts(name, op, "")
  {
    EmptyContains(name);
    hide Contains;
  }

  /** A comparison that is constant, and becomes an equality with an extra, or true. */
  lemma ExtraExact(t: MarkerTree, op: MarkerOp, name: string, value: bool)
    requires NormalAtom(t) == ExtraMarker(op, name)
    requires forall env, extras :: Evaluate(t, env, extras) == value
    ensures KeepsMeaning(t) <==> !op.Eq? && !op.NotEq? && value
  {
    var env := MarkerEnvironment(map[]);
    if op.Eq? || op.NotEq? {
      ExtraVaries(name, op.Eq?, env);
      assert !SameFor(t, env, []) || !SameFor(t, env, [name]);
    } else if !value {
      assert !SameFor(t, env, []);
    }
  }

  // -- Version lists ---------------------------------------------------------------------

  lemma EmptyTuple()
    ensures VersionTuple("") == []
  {
    EmptyText();
  }

  lemma ListingChanges(v: MarkerVar, op: MarkerOp, text: string)
    requires (op.In? || op.NotIn?) && v.IsVersion() && Words(text) != []
    ensures !KeepsMeaning(Compare(Variable(v), op, Text(text)))
  {
    var t := Compare(Variable(v), op, Text(text));
    var env := MarkerEnvironment(map[v := ""]);
    ListingBecomesList(v, op, text);
    EmptyIsContained(v, op, text, env);
    hide *;
    assert !SameFor(t, env, []) by {
      NotSame(t, env, []);
    }
    ChangesMeaning(t, env, []);
  }

  lemma NotSame(t: MarkerTree, env: MarkerEnvironment, extras: seq<string>)
    requires Evaluate(NormalAtom(t), env, extras) != Evaluate(t, env, extras)
    ensures !SameFor(t, env, extras)
  {
  }

  lemma ChangesMeaning(t: MarkerTree, env: MarkerEnvironment, extras: seq<string>)
    requires !SameFor(t, env, extras)
    ensures !KeepsMeaning(t)
  {
  }

  lemma ListingBecomesList(v: MarkerVar, op: MarkerOp, text: string)
    requires (op.In? || op.NotIn?) && v.IsVersion() && Words(text) != []
    ensures NormalAtom(Compare(Variable(v), op, Text(text))) == VersionIn(v, Words(text), op.NotIn?)
    ensures Evaluate(VersionIn(v, Words(text), op.NotIn?), MarkerEnvironment(map[v := ""]), []) == op.NotIn?
  {
    hide Words, VersionTuple, CompareTuples, CompareTexts;
    WordsAreNotEmpty(text);
  }

  lemma WordsAreNotEmpty(text: string)
    ensures "" !in Words(text)
  {
  }

  lemma EmptyIsContained(v: MarkerVar, op: MarkerOp, text: string, env: MarkerEnvironment)
    requires (op.In? || op.NotIn?) && env.Lookup(v) == ""
    ensures Evaluate(Compare(Variable(v), op, Text(text)), env, []) == op.In?
  {
    hide VersionTuple, CompareTuples, Contains;
    EmptyTuple();
    ContainsAll(text);
  }

  // -- Turned comparisons ----------------------------------------------------------------

  lemma {:induction false} NumbersOfDecimals(t: seq<nat>)
    requires forall n :: n in t ==> n <= MAX_U32
    ensures Numbers(seq(|t|, i requires 0 <= i < |t| => Decimal(t[i]))) == t
  {
    hide Decimal, Trim, ParseNumber;
    var parts := seq(|t|, i requires 0 <= i < |t| => Decimal(t[i]));
    if t != [] {
      assert parts[1..] == seq(|t| - 1, i requires 0 <= i < |t| - 1 => Decimal(t[1..][i]));
      assert t[0] in t && forall n :: n in t[1..] ==> n in t;
      NumbersOfDecimals(t[1..]);
      NumberOfDecimal(t[0], MAX_U32);
      DecimalTrimmed(t[0]);
      assert t == [t[0]] + t[1..];
    }
  }

  lemma DecimalTrimmed(n: nat)
    ensures Trim(Decimal(n)) == Decimal(n)
  {
    var d := Decimal(n);
    assert d[0] in d && d[|d| - 1] in d;
    SkipNone(d);
  }

  lemma TupleOfDotted(t: seq<nat>)
    requires t != [] && forall n :: n in t ==> n <= MAX_U32
    ensures VersionTuple(Dotted(t)) == t
  {
    var parts := seq(|t|, i requires 0 <= i < |t| => Decimal(t[i]));
    SplitOfJoin(parts, '.');
    NumbersOfDecimals(t);
  }

  lemma {:induction false} CommonFront(front: seq<nat>, a: seq<nat>, b: seq<nat>)
    ensures TupleLess(front + a, front + b) <==> TupleLess(a, b)
  {
    if front != [] {
      assert (front + a)[1..] == front[1..] + a && (front + b)[1..] == front[1..] + b;
      CommonFront(front[1..], a, b);
    } else {
      assert front + a == a && front + b == b;
    }
  }

  /** One more number makes a version compatible with another, but not the other way round. */
  lemma LongerIsCompatible(a: seq<nat>)
    requires a != [] && (|a| >= 2 ==> a[|a| - 2] < MAX_U32)
    ensures CompareTuples(a + [1], TildeEq, a) && !CompareTuples(a, TildeEq, a + [1])
  {
    var b := a + [1];
    assert Padded(b, |b|) == b && Padded(a, |b|) == a + [0];
    CommonFront(a, [1], [0]);
    CommonFront(a, [0], [1]);
    if |a| >= 2 {
      var front := a[..|a| - 2];
      var up := Padded(front + [a[|a| - 2] + 1], |b|);
      assert b == front + [a[|a| - 2], a[|a| - 1], 1] && up == front + [a[|a| - 2] + 1, 0, 0];
      CommonFront(front, [a[|a| - 2], a[|a| - 1], 1], [a[|a| - 2] + 1, 0, 0]);
    }
  }

  lemma {:induction false} NothingBelowZeros(a: seq<nat>, n: nat)
    requires |a| == n
    ensures !TupleLess(a, seq(n, i => 0)) && ((exists i :: 0 <= i < n && a[i] > 0) ==> TupleLess(seq(n, i => 0), a))
  {
    if n > 0 {
      assert seq(n, i => 0)[1..] == seq(n - 1, i => 0);
      NothingBelowZeros(a[1..], n - 1);
      if i :| 0 <= i < n && a[i] > 0 {
        assert i == 0 || a[1..][i - 1] > 0;
      }
    }
  }

  /** Where the number wraps no version is compatible. */
  lemma WrappedIsIncompatible(a: seq<nat>)
    requires |a| >= 2 && a[|a| - 2] == MAX_U32
    ensures CompareTuples(a, TildeEq, [0]) && !CompareTuples([0], TildeEq, a)
  {
    assert Padded(a, |a|) == a && Padded([0], |a|) == seq(|a|, i => 0);
    NothingBelowZeros(a, |a|);
  }

  lemma CompatibleChanges(text: string, v: MarkerVar)
    requires v.IsVersion() && VersionTuple(text) != []
    ensures !KeepsMeaning(Compare(Text(text), TildeEq, Variable(v)))
  {
    hide VersionTuple, CompareTuples, Dotted, CompareTexts;
    var a := VersionTuple(text);
    var wraps := |a| >= 2 && a[|a| - 2] == MAX_U32;
    var b := if wraps then [0] else a + [1];
    TupleBounded(text);
    TupleOfDotted(b);
    if wraps {
      WrappedIsIncompatible(a);
    } else {
      assert |a| >= 2 ==> a[|a| - 2] in a;
      LongerIsCompatible(a);
    }
    var env := MarkerEnvironment(map[v := Dotted(b)]);
    CompatibleDiffers(text, v, env);
    assert !SameFor(Compare(Text(text), TildeEq, Variable(v)), env, []);
  }

  lemma CompatibleDiffers(text: string, v: MarkerVar, env: MarkerEnvironment)
    requires v.IsVersion() && VersionTuple(text) != [] && VersionTuple(env.Lookup(v)) != []
    requires CompareTuples(VersionTuple(env.Lookup(v)), TildeEq, VersionTuple(text))
          != CompareTuples(VersionTuple(text), TildeEq, VersionTuple(env.Lookup(v)))
    ensures var t := Compare(Text(text), TildeEq, Variable(v)); Evaluate(NormalAtom(t), env, []) != Evaluate(t, env, [])
  {
    hide VersionTuple, CompareTuples, CompareTexts;
  }

  lemma ContainmentChanges(text: string, op: MarkerOp, v: MarkerVar)
    requires v != ExtraVar && (op.In? || op.NotIn?)
    ensures !KeepsMeaning(Compare(Text(text), op, Variable(v)))
  {
    hide VersionTuple, CompareTuples, Contains;
    var value := if text == "" then "x" else "";
    var env := MarkerEnvironment(map[v := value]);
    EmptyTuple();
    ContainsAll(text);
    ContainsAll(value);
    EmptyContains(text);
    EmptyContains(value);
    assert env.Lookup(v) == value;
    assert !SameFor(Compare(Text(text), op, Variable(v)), env, []);
  }

  lemma TurnedExact(text: string, op: MarkerOp, v: MarkerVar)
    requires v != ExtraVar
    ensures KeepsMeaning(Compare(Text(text), op, Variable(v))) <==> TurnedOk(text, op, v)
  {
    var t := Compare(Text(text), op, Variable(v));
    if op.In? || op.NotIn? {
      ContainmentChanges(text, op, v);
    } else if op.TildeEq? && v.IsVersion() && VersionTuple(text) != [] {
      CompatibleChanges(text, v);
    } else {
      forall env, extras ensures SameFor(t, env, extras) {
        TurnedSame(text, op, v, env);
      }
    }
  }

  lemma TurnedSame(text: string, op: MarkerOp, v: MarkerVar, env: MarkerEnvironment)
    requires v != ExtraVar && TurnedOk(text, op, v)
    ensures EvaluateCompare(Variable(v), Inverted(op), Text(text), env)
            == EvaluateCompare(Text(text), op, Variable(v), env)
  {
    hide CompareTexts, CompareTuples, VersionTuple, Inverted;
    if op.TildeEq? && v.IsVersion() {
      CompatibleTexts(text, env.Lookup(v));
    } else {
      ComparisonTurned(text, env.Lookup(v), op, v.IsVersion());
    }
  }

  lemma CompatibleTexts(l: string, r: string)
    ensures CompareTexts(r, Inverted(TildeEq), l) == CompareTexts(l, TildeEq, r)
  {
  }

  // -- Version lists again ---------------------------------------------------------------

  lemma {:induction false} JoinedLength(words: seq<string>, w: string)
    requires w in words
    ensures |Join(words, " ")| >= |w| + |words| - 1
  {
    if |words| > 1 {
      if w == words[0] {
        JoinedLength(words[1..], words[1]);
      } else {
        assert w in words[1..];
        JoinedLength(words[1..], w);
      }
    }
  }

  lemma BlankTuple(s: string)
    requires Words(s) == []
    ensures VersionTuple(s) == []
  {
    assert SkipWhitespace(s) == "" && TakeWhile(s, IsWhitespace) == s;
    assert '.' !in s;
    SplitOne(s, '.');
    assert ParseNumber("", MAX_U32) == None && Numbers([]) == [];
  }

  /** The listing is read back as a containment in the joined text. */
  lemma ListingToContainment(key: MarkerVar, versions: seq<string>, negated: bool, env: MarkerEnvironment,
                             extras: seq<string>)
    requires key != ExtraVar && (key.IsVersion() ==> Words(Join(versions, " ")) == [])
    ensures var r := Join(versions, " ");
            Evaluate(NormalAtom(VersionIn(key, versions, negated)), env, extras) <==>
                (negated <==> !Contains(r, env.Lookup(key)))
  {
    var r := Join(versions, " ");
    var op := if negated then NotIn else In;
    assert NormalAtom(VersionIn(key, versions, negated)) == Compare(Variable(key), op, Text(r));
    if key.IsVersion() {
      BlankTuple(r);
    }
    hide VersionTuple, CompareTuples, Contains, Join, NormalAtom, Words;
  }

  /** A text that is listed but not contained, or contained but not listed. */
  lemma ContainmentDiffers(versions: seq<string>) returns (l: string)
    requires versions != [""]
    ensures l in versions <==> !Contains(Join(versions, " "), l)
  {
    var r := Join(versions, " ");
    ContainsAll(r);
    l := if "" in versions then r else "";
    if r in versions {
      JoinedLength(versions, r);
      assert |versions| == 1 && versions == [versions[0]];
    }
  }

  lemma ListingExact(key: MarkerVar, versions: seq<string>, negated: bool)
    ensures KeepsMeaning(VersionIn(key, versions, negated)) <==> AtomOk(VersionIn(key, versions, negated))
  {
    var t := VersionIn(key, versions, negated);
    if key == ExtraVar {
      assert NormalAtom(t) == True;
      assert forall env, extras :: Evaluate(t, env, extras) <==> (negated <==> "" !in versions);
      assert SameFor(t, MarkerEnvironment(map[]), []) <==> (negated <==> "" !in versions);
    } else if key.IsVersion() && Words(Join(versions, " ")) != [] {
      WordListingExact(key, versions, negated);
    } else {
      ContainmentExact(key, versions, negated);
    }
  }

  lemma WordListingExact(key: MarkerVar, versions: seq<string>, negated: bool)
    requires key.IsVersion() && Words(Join(versions, " ")) != []
    ensures KeepsMeaning(VersionIn(key, versions, negated)) <==> AtomOk(VersionIn(key, versions, negated))
  {
    hide NormalAtom, Words, Join, IsWord;
    var t, words := VersionIn(key, versions, negated), Words(Join(versions, " "));
    NormalListing(key, versions, negated);
    WordsOfJoin(versions);
    NoWords();
    if words != versions {
      var v :| v in versions && !IsWord(v);
      NotAmongWords(Join(versions, " "), v);
      var env := MarkerEnvironment(map[key := v]);
      assert env.Lookup(key) == v;
      assert !SameFor(t, env, []);
    }
  }

  lemma NormalListing(key: MarkerVar, versions: seq<string>, negated: bool)
    requires key.IsVersion() && Words(Join(versions, " ")) != []
    ensures NormalAtom(VersionIn(key, versions, negated)) == VersionIn(key, Words(Join(versions, " ")), negated)
  {
    hide Words, Join;
  }

  lemma NotAmongWords(s: string, v: string)
    requires !IsWord(v)
    ensures v !in Words(s)
  {
  }

  lemma NoWords()
    ensures Words(Join([""], " ")) == []
  {
    SkipNone("");
  }

  lemma ContainmentExact(key: MarkerVar, versions: seq<string>, negated: bool)
    requires key != ExtraVar && (key.IsVersion() ==> Words(Join(versions, " ")) == [])
    ensures KeepsMeaning(VersionIn(key, versions, negated)) <==> AtomOk(VersionIn(key, versions, negated))
  {
    var t := VersionIn(key, versions, negated);
    if versions == [""] {
      forall env, extras ensures SameFor(t, env, extras) {
        ListingToContainment(key, versions, negated, env, extras);
        EmptyContains(env.Lookup(key));
      }
    } else {
      ContainmentVaries(key, versions, negated);
      WordsOfJoin(versions);
      hide KeepsMeaning, Words, Join, IsWord;
    }
  }

  lemma ContainmentVaries(key: MarkerVar, versions: seq<string>, negated: bool)
    requires key != ExtraVar && (key.IsVersion() ==> Words(Join(versions, " ")) == []) && versions != [""]
    ensures !KeepsMeaning(VersionIn(key, versions, negated))
  {
    hide NormalAtom, Contains, Join, Words;
    var t := VersionIn(key, versions, negated);
    var l := ContainmentDiffers(versions);
    var env := MarkerEnvironment(map[key := l]);
    ListingToContainment(key, versions, negated, env, []);
    assert env.Lookup(key) == l;
    assert !SameFor(t, env, []);
  }

  /** An atom means the same after printing and parsing, in every environment and for all
      extras, if and only if its fields are as `AtomOk` says. */
  lemma AtomMeaningExact(t: MarkerTree)
    requires IsAtom(t)
    ensures KeepsMeaning(t) <==> AtomOk(t)
  {
    match t
    case Compare(lhs, op, rhs) =>
      if lhs == Variable(ExtraVar) && rhs.Text? {
        ExtraLeftExact(op, rhs.text);
      } else if rhs == Variable(ExtraVar) && lhs.Text? {
        ExtraRightExact(lhs.text, op);
      } else if (op.In? || op.NotIn?) && IsVersionValue(lhs) && rhs.Text? && Words(rhs.text) != [] {
        ListingChanges(lhs.variable, op, rhs.text);
      } else if lhs.Text? && rhs.Variable? {
        TurnedExact(lhs.text, op, rhs.variable);
      } else {
        assert NormalAtom(t) == t;
      }
    case Extra(_, _) =>
      assert NormalAtom(t) == t;
    case VersionIn(key, versions, negated) =>
      ListingExact(key, versions, negated);
  }
}
