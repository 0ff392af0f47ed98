/** What markers say about an environment, and what printing and parsing keep of it. */
module MarkerMeanings {
  import opened MarkerGrammar
  import opened MarkerRoundTrips
  import opened Markers
  import opened Numerals
  import opened Options
  import opened Texts

  /** The text of each variable; `extra` has none. */
  datatype MarkerEnvironment = MarkerEnvironment(texts: map<MarkerVar, string>) {
    function Lookup(v: MarkerVar): string {
      if v == ExtraVar || v !in texts then "" else texts[v]
    }

    function Resolve(v: MarkerValue): string {
      match v
      case Variable(x) => Lookup(x)
      case Text(s) => s
    }
  }

  // -- Comparing -------------------------------------------------------------------------

  /** The numbers among the dot-separated parts. */
  function Numbers(parts: seq<string>): seq<nat> {
    if parts == [] then []
    else
      var rest := Numbers(parts[1..]);
      match ParseNumber(Trim(parts[0]), MAX_U32)
      case Some(n) => [n] + rest
      case None => rest
  }

  function VersionTuple(s: string): seq<nat> {
    Numbers(Split(s, '.'))
  }

  lemma {:induction false} NumbersBounded(parts: seq<string>)
    ensures forall n :: n in Numbers(parts) ==> n <= MAX_U32
  {
    if parts != [] {
      NumbersBounded(parts[1..]);
    }
  }

  lemma TupleBounded(text: string)
    ensures forall n :: n in VersionTuple(text) ==> n <= MAX_U32
  {
    NumbersBounded(Split(text, '.'));
  }

  predicate TupleLess(a: seq<nat>, b: seq<nat>) {
    b != [] && (a == [] || a[0] < b[0] || (a[0] == b[0] && TupleLess(a[1..], b[1..])))
  }

  function Dotted(t: seq<nat>): string {
    Join(seq(|t|, i requires 0 <= i < |t| => Decimal(t[i])), ".")
  }

  /** The last number but one goes up by one, wrapping at 32 bits. */
  function Above(t: seq<nat>): seq<nat>
    requires |t| >= 2
  {
    t[..|t| - 2] + [(t[|t| - 2] + 1) % (MAX_U32 + 1)]
  }

  predicate CompareTuples(a: seq<nat>, op: MarkerOp, b: seq<nat>) {
    var l, r := Padded(a, Longer(a, b)), Padded(b, Longer(a, b));
    match op
    case Eq => l == r
    case NotEq => l != r
    case Gte => !TupleLess(l, r)
    case Lte => !TupleLess(r, l)
    case Gt => TupleLess(r, l)
    case Lt => TupleLess(l, r)
    case TildeEq =>
      !TupleLess(l, r) && (|b| < 2 || TupleLess(l, Padded(Above(b), Longer(a, b))))
    case In => Contains(Dotted(b), Dotted(a))
    case NotIn => !Contains(Dotted(b), Dotted(a))
  }

  predicate CompareTexts(l: string, op: MarkerOp, r: string) {
    match op
    case Eq => l == r
    case NotEq => l != r
    case Gte => !TextLess(l, r)
    case Lte => !TextLess(r, l)
    case Gt => TextLess(r, l)
    case Lt => TextLess(l, r)
    case TildeEq => l == r
    case In => Contains(r, l)
    case NotIn => !Contains(r, l)
  }

  predicate IsVersionValue(v: MarkerValue) {
    v.Variable? && v.variable.IsVersion()
  }

  predicate EvaluateCompare(lhs: MarkerValue, op: MarkerOp, rhs: MarkerValue, env: MarkerEnvironment) {
    var l, r := env.Resolve(lhs), env.Resolve(rhs);
    if (IsVersionValue(lhs) || IsVersionValue(rhs)) && VersionTuple(l) != [] && VersionTuple(r) != [] then
      CompareTuples(VersionTuple(l), op, VersionTuple(r))
    else CompareTexts(l, op, r)
  }

  predicate Evaluate(t: MarkerTree, env: MarkerEnvironment, extras: seq<string>) {
    match t
    case True => true
    case False => false
    case And(cs) => forall i :: 0 <= i < |cs| ==> Evaluate(cs[i], env, extras)
    case Or(cs) => exists i :: 0 <= i < |cs| && Evaluate(cs[i], env, extras)
    case Extra(name, equal) => equal <==> exists i :: 0 <= i < |extras| && Lowered(extras[i]) == Lowered(name)
    case VersionIn(key, versions, negated) => negated <==> env.Lookup(key) !in versions
    case Compare(lhs, op, rhs) => EvaluateCompare(lhs, op, rhs, env)
  }

  // -- Turning a comparison around -------------------------------------------------------

  /** A comparison of a variable keeps its meaning when it is turned around, whatever the text
      and the environment, exactly for the symmetric and the inverted operators: containment is
      turned around without being inverted, and so is the compatible release of a version. */
  lemma InvertedMeaning(v: MarkerVar, op: MarkerOp)
    requires v != ExtraVar
    ensures (forall text: string, env: MarkerEnvironment ::
               EvaluateCompare(Variable(v), Inverted(op), Text(text), env)
                   == EvaluateCompare(Text(text), op, Variable(v), env))
            <==> !op.In? && !op.NotIn? && !(op.TildeEq? && v.IsVersion())
  {
    hide CompareTexts, CompareTuples, VersionTuple;
    if op.In? || op.NotIn? {
      ContainmentTurned(v, op);
    } else if op.TildeEq? && v.IsVersion() {
      CompatibleTurned(v);
    } else {
      forall text: string, env: MarkerEnvironment
        ensures EvaluateCompare(Variable(v), Inverted(op), Text(text), env)
                == EvaluateCompare(Text(text), op, Variable(v), env)
      {
        ComparisonTurned(text, env.Lookup(v), op, v.IsVersion());
      }
    }
  }

  lemma ComparisonTurned(a: string, b: string, op: MarkerOp, isVersion: bool)
    requires !op.In? && !op.NotIn? && !(op.TildeEq? && isVersion)
    ensures CompareTexts(b, Inverted(op), a) == CompareTexts(a, op, b)
    ensures isVersion ==>
              CompareTuples(VersionTuple(b), Inverted(op), VersionTuple(a))
              == CompareTuples(VersionTuple(a), op, VersionTuple(b))
  {
    hide TextLess, TupleLess, Padded, VersionTuple;
    assert Longer(VersionTuple(a), VersionTuple(b)) == Longer(VersionTuple(b), VersionTuple(a));
  }

  lemma ContainmentTurned(v: MarkerVar, op: MarkerOp)
    requires v != ExtraVar && (op.In? || op.NotIn?)
    ensures exists text: string, env: MarkerEnvironment ::
              EvaluateCompare(Variable(v), Inverted(op), Text(text), env) != EvaluateCompare(Text(text), op,
                  Variable(v), env)
  {
    hide CompareTuples, TextLess, VersionTuple, Contains;
    var env := MarkerEnvironment(map[v := "x"]);
    EmptyText();
    assert EvaluateCompare(Variable(v), Inverted(op), Text(""), env) != EvaluateCompare(Text(""), op, Variable(v), env);
  }

  lemma EmptyText()
    ensures Contains("x", "") && !Contains("", "x")
    ensures VersionTuple("") == []
  {
    SplitOne("", '.');
    assert StartsWith("x"[0..], "");
    assert ParseNumber("", MAX_U32) == None;
    assert Numbers([]) == [];
  }

  lemma CompatibleTurned(v: MarkerVar)
    requires v.IsVersion()
    ensures exists text: string, env: MarkerEnvironment ::
              EvaluateCompare(Variable(v), TildeEq, Text(text), env) != EvaluateCompare(Text(text), TildeEq,
                  Variable(v), env)
  {
    hide VersionTuple, CompareTuples, CompareTexts;
    var env := MarkerEnvironment(map[v := "2"]);
    OneAndTwo();
    assert EvaluateCompare(Variable(v), TildeEq, Text("1"), env)
        != EvaluateCompare(Text("1"), TildeEq, Variable(v), env);
  }

  lemma OneAndTwo()
    ensures VersionTuple("1") == [1] && VersionTuple("2") == [2]
    ensures CompareTuples([2], TildeEq, [1]) && !CompareTuples([1], TildeEq, [2])
  {
    OneNumber(1);
    OneNumber(2);
    assert Decimal(1) == "1" && Decimal(2) == "2";
    hide VersionTuple, Decimal;
    assert Padded([1], 1) == [1] && Padded([2], 1) == [2];
  }

  lemma OneNumber(n: nat)
    requires n < 10
    ensures VersionTuple(Decimal(n)) == [n]
  {
    NumberOfDecimal(n, MAX_U32);
    SplitOne(Decimal(n), '.');
    assert Trim(Decimal(n)) == Decimal(n) by {
      SkipNone(Decimal(n));
    }
    assert Numbers([]) == [];
    assert Numbers([Decimal(n)]) == [n];
  }
}
