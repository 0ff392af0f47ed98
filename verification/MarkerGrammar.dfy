/** What the marker parser accepts and yields, as functions of the remaining input. */
module MarkerGrammar {
  import opened Markers
  import opened Options
  import opened Texts

  /** The outcome of one parsing function and the input it leaves. Failing may consume input. */
  datatype Parsed<T> = Parsed(value: Option<T>, rest: string)

  predicate InIdentifier(c: char) {
    IsAlphanumeric(c) || c == '_' || c == '.'
  }

  predicate IsQuote(c: char) {
    c == '\'' || c == '"'
  }

  // -- Tokens ----------------------------------------------------------------------------

  /** A keyword counts only in front of white space, a closing parenthesis or the end. */
  predicate AtKeyword(s: string, keyword: string) {
    && StartsWith(s, keyword)
    && (|s| == |keyword| || IsWhitespace(s[|keyword|]) || s[|keyword|] == ')')
  }

  /** What follows an operator that is a word. */
  predicate WordOpEnds(rest: string) {
    rest == "" || IsWhitespace(rest[0]) || IsQuote(rest[0])
  }

  function VarNamed(name: string): Option<MarkerVar> {
    if name == "os_name" || name == "os.name" then Some(OsName)
    else if name == "sys_platform" || name == "sys.platform" then Some(SysPlatform)
    else if name == "platform_system" || name == "platform.system" then Some(PlatformSystem)
    else if name == "platform_machine" || name == "platform.machine" then Some(PlatformMachine)
    else if name == "platform_release" || name == "platform.release" then Some(PlatformRelease)
    else if name == "platform_version" || name == "platform.version" then Some(PlatformVersion)
    else if name == "platform_python_implementation" || name == "platform.python_implementation" then
      Some(PlatformPythonImplementation)
    else if name == "implementation_name" then Some(ImplementationName)
    else if name == "python_version" || name == "python.version" then Some(PythonVersion)
    else if name == "python_full_version" || name == "python.full_version" then Some(PythonFullVersion)
    else if name == "implementation_version" then Some(ImplementationVersion)
    else if name == "extra" then Some(ExtraVar)
    else None
  }

  function NotQuote(quote: char): char -> bool {
    c => c != quote
  }

  /** A quoted text ends at the same quote, or at the end of the input. */
  function ParseValue(s0: string): (r: Parsed<MarkerValue>)
    ensures |r.rest| <= |s0| && (r.value.Some? ==> |r.rest| < |s0|)
  {
    var s := SkipWhitespace(s0);
    if s == "" then Parsed(None, s)
    else if IsQuote(s[0]) then
      var inner := TakeWhile(s[1..], NotQuote(s[0]));
      var rest := s[1 + |inner|..];
      Parsed(Some(Text(inner)), if rest == "" then rest else rest[1..])
    else
      var name := TakeWhile(s, InIdentifier);
      var rest := s[|name|..];
      if name == "" then Parsed(None, rest)
      else
        match VarNamed(name)
        case Some(v) => Parsed(Some(Variable(v)), rest)
        case None => Parsed(Some(Text(name)), rest)
  }

  function SymbolOp(s: string): (r: Parsed<MarkerOp>)
    ensures |r.rest| <= |s|
  {
    if StartsWith(s, "~=") then Parsed(Some(TildeEq), s[2..])
    else if StartsWith(s, ">=") then Parsed(Some(Gte), s[2..])
    else if StartsWith(s, "<=") then Parsed(Some(Lte), s[2..])
    else if StartsWith(s, "!=") then Parsed(Some(NotEq), s[2..])
    else if StartsWith(s, "==") then Parsed(Some(Eq), s[2..])
    else if StartsWith(s, ">") then Parsed(Some(Gt), s[1..])
    else if StartsWith(s, "<") then Parsed(Some(Lt), s[1..])
    else Parsed(None, s)
  }

  predicate AtNotIn(s: string) {
    StartsWith(s, "not") && StartsWith(SkipWhitespace(s[3..]), "in") && WordOpEnds(SkipWhitespace(s[3..])[2..])
  }

  predicate AtIn(s: string) {
    StartsWith(s, "in") && WordOpEnds(s[2..])
  }

  function ParseOp(s0: string): (r: Parsed<MarkerOp>)
    ensures |r.rest| <= |s0|
  {
    var s := SkipWhitespace(s0);
    if AtNotIn(s) then Parsed(Some(NotIn), SkipWhitespace(s[3..])[2..])
    else if AtIn(s) then Parsed(Some(In), s[2..])
    else SymbolOp(s)
  }

  // -- Comparisons -----------------------------------------------------------------------

  function Inverted(op: MarkerOp): MarkerOp {
    match op
    case Gte => Lte
    case Lte => Gte
    case Gt => Lt
    case Lt => Gt
    case _ => op
  }

  function ExtraMarker(op: MarkerOp, name: string): MarkerTree {
    match op
    case Eq => Extra(name, true)
    case NotEq => Extra(name, false)
    case _ => True
  }

  /** A parsed comparison in its normal form: a comparison with `extra` or a version list
      gets its own form, and a variable stands on the left. */
  function Normalized(lhs: MarkerValue, op: MarkerOp, rhs: MarkerValue): MarkerTree {
    if lhs == Variable(ExtraVar) && rhs.Text? then ExtraMarker(op, rhs.text)
    else if rhs == Variable(ExtraVar) && lhs.Text? then ExtraMarker(op, lhs.text)
    else if (op.In? || op.NotIn?) && lhs.Variable? && lhs.variable.IsVersion()
            && rhs.Text? && Words(rhs.text) != [] then
      VersionIn(lhs.variable, Words(rhs.text), op.NotIn?)
    else if lhs.Text? && rhs.Variable? then Compare(rhs, Inverted(op), lhs)
    else Compare(lhs, op, rhs)
  }

  function ParseComparison(s: string): (r: Parsed<MarkerTree>)
    ensures |r.rest| <= |s| && (r.value.Some? ==> |r.rest| < |s|)
  {
    var lhs := ParseValue(s);
    if lhs.value.None? then Parsed(None, lhs.rest)
    else
      var op := ParseOp(lhs.rest);
      if op.value.None? then Parsed(None, op.rest)
      else
        var rhs := ParseValue(op.rest);
        if rhs.value.None? then Parsed(None, rhs.rest)
        else Parsed(Some(Normalized(lhs.value.value, op.value.value, rhs.value.value)), rhs.rest)
  }

  // -- Trees -----------------------------------------------------------------------------

  function ParseOr(s: string): (r: Parsed<MarkerTree>)
    ensures |r.rest| <= |s|
    decreases |s|, 4
  {
    var first := ParseAnd(SkipWhitespace(s));
    if first.value.None? then first
    else
      var more := OrRest([first.value.value], first.rest);
      Parsed(Some(if |more.value.value| == 1 then more.value.value[0] else Or(more.value.value)), more.rest)
  }

  /** A disjunct that does not parse is left out; what follows it may still be one. */
  function OrRest(children: seq<MarkerTree>, s: string): (r: Parsed<seq<MarkerTree>>)
    ensures |r.rest| <= |s| && r.value.Some? && |r.value.value| >= |children|
    decreases |s|, 3
  {
    var t := SkipWhitespace(s);
    if AtKeyword(t, "or") then
      var next := ParseAnd(SkipWhitespace(t[2..]));
      OrRest(if next.value.Some? then children + [next.value.value] else children, next.rest)
    else Parsed(Some(children), t)
  }

  function ParseAnd(s: string): (r: Parsed<MarkerTree>)
    ensures |r.rest| <= |s|
    decreases |s|, 2
  {
    var first := ParseAtom(SkipWhitespace(s));
    if first.value.None? then first
    else
      var more := AndRest([first.value.value], first.rest);
      Parsed(Some(if |more.value.value| == 1 then more.value.value[0] else And(more.value.value)), more.rest)
  }

  function AndRest(children: seq<MarkerTree>, s: string): (r: Parsed<seq<MarkerTree>>)
    ensures |r.rest| <= |s| && r.value.Some? && |r.value.value| >= |children|
    decreases |s|, 1
  {
    var t := SkipWhitespace(s);
    if AtKeyword(t, "and") then
      var next := ParseAtom(SkipWhitespace(t[3..]));
      AndRest(if next.value.Some? then children + [next.value.value] else children, next.rest)
    else Parsed(Some(children), t)
  }

  /** The closing parenthesis is optional. */
  function ParseAtom(s0: string): (r: Parsed<MarkerTree>)
    ensures |r.rest| <= |s0|
    decreases |s0|, 0
  {
    var s := SkipWhitespace(s0);
    if s != "" && s[0] == '(' then
      var inner := ParseOr(s[1..]);
      if inner.value.None? then inner
      else
        var t := SkipWhitespace(inner.rest);
        Parsed(inner.value, if t != "" && t[0] == ')' then t[1..] else t)
    else ParseComparison(s)
  }

  /** Text that is no marker counts as always true; text after a marker is ignored. */
  function Parse(input: string): MarkerTree {
    var s := Trim(input);
    if s == "" then True
    else
      match ParseOr(s).value
      case Some(t) => t
      case None => True
  }
}
