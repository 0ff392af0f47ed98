/** Which markers survive printing and parsing: as trees, and in their meaning. */
module MarkerNormalForms {
  import opened MarkerAtoms
  import opened MarkerGrammar
  import opened MarkerMeanings
  import opened MarkerQuotes
  import opened MarkerRoundTrips
  import opened Markers
  import opened Options
  import opened Texts

  // -- Normal atoms ----------------------------------------------------------------------

  /** Not a comparison that has its own form, nor one with a text on the left of a variable. */
  predicate PlainComparison(lhs: MarkerValue, op: MarkerOp, rhs: MarkerValue) {
    && !(lhs.Text? && rhs.Variable?)
    && !(lhs == Variable(ExtraVar) && rhs.Text?)
    && !((op.In? || op.NotIn?) && IsVersionValue(lhs) && rhs.Text? && Words(rhs.text) != [])
  }

  predicate NormalAtomForm(t: MarkerTree) {
    match t
    case Compare(lhs, op, rhs) => PlainComparison(lhs, op, rhs)
    case Extra(_, _) => true
    case VersionIn(key, versions, _) => key.IsVersion() && versions != [] && forall w :: w in versions ==> IsWord(w)
    case _ => false
  }

  lemma NormalAtomExact(t: MarkerTree)
    requires IsAtom(t)
    ensures NormalAtom(t) == t <==> NormalAtomForm(t)
  {
    if t.VersionIn? {
      VersionInExact(t);
    }
  }

  /** A version list is read back if and only if it is a list of words. */
  lemma VersionInExact(t: MarkerTree)
    requires t.VersionIn?
    ensures NormalAtom(t) == t <==> NormalAtomForm(t)
  {
    hide Join, Words, IsWord, NormalAtom;
    var joined := Join(t.versions, " ");
    WordsOfJoin(t.versions);
    if t.key.IsVersion() && Words(joined) != [] {
      NormalListing(t.key, t.versions, t.negated);
    } else {
      NotListed(t);
    }
  }

  lemma NotListed(t: MarkerTree)
    requires t.VersionIn? && (t.key.IsVersion() ==> Words(Join(t.versions, " ")) == [])
    ensures !NormalAtom(t).VersionIn?
  {
    hide Join, Words;
  }

  // -- Normal trees ----------------------------------------------------------------------

  predicate NormalClauseForm(t: MarkerTree) {
    NormalAtomForm(t) || (t.And? && |t.children| >= 2 && forall i :: 0 <= i < |t.children| ==>
        NormalAtomForm(t.children[i]))
  }

  /** At least two alternatives, of at least two atoms each where there is an "and". */
  predicate NormalForm(t: MarkerTree) {
    NormalClauseForm(t) || (t.Or? && |t.children| >= 2 && forall i :: 0 <= i < |t.children| ==>
        NormalClauseForm(t.children[i]))
  }

  // -- Regrouping trees of atoms ---------------------------------------------------------

  predicate AtomsOnly(t: MarkerTree) {
    match t
    case And(cs) => forall i :: 0 <= i < |cs| ==> AtomsOnly(cs[i])
    case Or(cs) => forall i :: 0 <= i < |cs| ==> AtomsOnly(cs[i])
    case _ => IsAtom(t)
  }

  predicate AllAtoms(g: seq<MarkerTree>) {
    forall i :: 0 <= i < |g| ==> IsAtom(g[i])
  }

  predicate Pure(gs: Groups) {
    forall i :: 0 <= i < |gs| ==> AllAtoms(gs[i])
  }

  function NormalAtoms(g: seq<MarkerTree>): seq<MarkerTree> {
    seq(|g|, i requires 0 <= i < |g| => NormalAtom(g[i]))
  }

  function Conjoined(g: seq<MarkerTree>): MarkerTree {
    if |g| == 1 then NormalAtom(g[0]) else And(NormalAtoms(g))
  }

  function AllConjoined(gs: Groups): seq<MarkerTree> {
    seq(|gs|, i requires 0 <= i < |gs| => Conjoined(gs[i]))
  }

  function Regrouped(gs: Groups): MarkerTree {
    if |gs| == 1 then Conjoined(gs[0]) else Or(AllConjoined(gs))
  }

  lemma {:induction false} ReadAllAtoms(g: seq<MarkerTree>)
    requires AllAtoms(g)
    ensures ReadAtoms(g) == NormalAtoms(g)
  {
    if g != [] {
      ReadAllAtoms(g[1..]);
      assert NormalAtoms(g) == [NormalAtom(g[0])] + NormalAtoms(g[1..]);
    }
  }

  lemma {:induction false} ReadPure(gs: Groups)
    requires Pure(gs) && forall i :: 0 <= i < |gs| ==> gs[i] != []
    ensures ReadAlternatives(gs) == AllConjoined(gs)
  {
    hide AllAtoms, Conjoined, ReadClause, BeginsWithAtom;
    if gs != [] {
      assert AllAtoms(gs[0]);
      ReadPureClause(gs[0]);
      ReadPure(gs[1..]);
      assert AllConjoined(gs) == [Conjoined(gs[0])] + AllConjoined(gs[1..]);
    }
  }

  lemma ReadPureClause(g: seq<MarkerTree>)
    requires AllAtoms(g) && g != []
    ensures BeginsWithAtom(g) && ReadClause(g) == Conjoined(g)
  {
    hide NormalAtom;
    ReadAllAtoms(g);
  }

  /** Nothing is skipped where there are no words. */
  lemma ReadBackPure(gs: Groups)
    requires GroupsOk(gs) && Pure(gs)
    ensures ReadBack(gs) == Regrouped(gs)
  {
    assert AllAtoms(gs[0]);
    ReadPure(gs);
  }

  lemma PureChained(a: Groups, b: Groups)
    requires Pure(a) && Pure(b)
    ensures Pure(Chained(a, b)) && Pure(a + b)
  {
    var c := Chained(a, b);
    forall i, j | 0 <= i < |c| && 0 <= j < |c[i]| ensures IsAtom(c[i][j]) {
      if a != [] && b != [] {
        assert AllAtoms(a[|a| - 1]) && AllAtoms(b[0]);
        assert i < |a| - 1 ==> AllAtoms(a[i]);
        assert i > |a| - 1 ==> AllAtoms(b[i - |a| + 1]);
      }
    }
  }

  lemma {:induction false} PureAll(parts: seq<Groups>)
    requires forall i :: 0 <= i < |parts| ==> Pure(parts[i])
    ensures Pure(ChainAll(parts)) && Pure(ConcatAll(parts))
  {
    if |parts| > 1 {
      PureAll(parts[1..]);
      hide Pure;
      assert Pure(parts[0]);
      PureChained(parts[0], ChainAll(parts[1..]));
      PureChained(parts[0], ConcatAll(parts[1..]));
    } else if |parts| == 1 {
      assert ConcatAll(parts) == parts[0] + ConcatAll(parts[1..]);
    }
  }

  lemma {:induction false} FlattenedPure(t: MarkerTree)
    requires AtomsOnly(t)
    ensures Pure(Flattened(t))
  {
    if !IsAtom(t) {
      var cs := t.children;
      var parts := seq(|cs|, i requires 0 <= i < |cs| => Flattened(cs[i]));
      forall i | 0 <= i < |cs| ensures Pure(parts[i]) {
        FlattenedPure(cs[i]);
      }
      PureAll(parts);
    }
  }

  // -- Normal trees are regrouped into themselves ----------------------------------------

  function Singles(cs: seq<MarkerTree>): seq<Groups> {
    seq(|cs|, i requires 0 <= i < |cs| => [[cs[i]]])
  }

  lemma {:induction false} ChainSingles(cs: seq<MarkerTree>)
    requires cs != []
    ensures ChainAll(Singles(cs)) == [cs]
  {
    if |cs| > 1 {
      ChainSingles(cs[1..]);
      assert Singles(cs)[1..] == Singles(cs[1..]);
      assert [cs[0]] + cs[1..] == cs;
    } else {
      assert cs == [cs[0]];
    }
  }

  lemma AndOfAtoms(cs: seq<MarkerTree>)
    requires cs != [] && forall i :: 0 <= i < |cs| ==> IsAtom(cs[i])
    ensures Flattened(And(cs)) == [cs]
  {
    ChainSingles(cs);
    assert seq(|cs|, i requires 0 <= i < |cs| => Flattened(cs[i])) == Singles(cs);
  }

  /** The single group of an atom, or of an "and" of atoms. */
  predicate IsClause(t: MarkerTree) {
    IsAtom(t) || (t.And? && t.children != [] && forall i :: 0 <= i < |t.children| ==> IsAtom(t.children[i]))
  }

  function GroupOf(t: MarkerTree): seq<MarkerTree> {
    if t.And? then t.children else [t]
  }

  lemma ClauseFlattened(t: MarkerTree)
    requires IsClause(t)
    ensures Flattened(t) == [GroupOf(t)]
  {
    if t.And? {
      AndOfAtoms(t.children);
    }
  }

  function AllGroups(cs: seq<MarkerTree>): Groups {
    seq(|cs|, i requires 0 <= i < |cs| => GroupOf(cs[i]))
  }

  lemma {:induction false} ConcatClauses(cs: seq<MarkerTree>, parts: seq<Groups>)
    requires |parts| == |cs| && forall i :: 0 <= i < |cs| ==> parts[i] == [GroupOf(cs[i])]
    ensures ConcatAll(parts) == AllGroups(cs)
  {
    if cs != [] {
      ConcatClauses(cs[1..], parts[1..]);
      assert AllGroups(cs) == [GroupOf(cs[0])] + AllGroups(cs[1..]);
    }
  }

  lemma OrOfClauses(cs: seq<MarkerTree>)
    requires forall i :: 0 <= i < |cs| ==> IsClause(cs[i])
    ensures Flattened(Or(cs)) == AllGroups(cs)
  {
    var parts := seq(|cs|, i requires 0 <= i < |cs| => Flattened(cs[i]));
    forall i | 0 <= i < |cs| ensures parts[i] == [GroupOf(cs[i])] {
      ClauseFlattened(cs[i]);
    }
    ConcatClauses(cs, parts);
  }

  lemma ClauseRegrouped(t: MarkerTree)
    requires IsClause(t)
    ensures Conjoined(GroupOf(t)) == t <==> NormalClauseForm(t)
  {
    if t.And? {
      forall i | 0 <= i < |t.children|
        ensures NormalAtom(t.children[i]) == t.children[i] <==>
             NormalAtomForm(t.children[i])
      {
        NormalAtomExact(t.children[i]);
      }
      if |t.children| >= 2 {
        var normal := NormalAtoms(t.children);
        assert normal == t.children <==> forall i :: 0 <= i < |t.children| ==> normal[i] == t.children[i];
      } else {
        assert NormalAtom(t.children[0]) != t by {
          NormalAtomIsNoTree(t.children[0]);
        }
      }
    } else {
      NormalAtomExact(t);
    }
  }

  lemma NormalAtomIsNoTree(t: MarkerTree)
    requires IsAtom(t)
    ensures IsAtom(NormalAtom(t)) || NormalAtom(t).True?
  {
  }

  /** Regrouping leaves exactly the normal forms alone. */
  lemma FlatRegrouped(t: MarkerTree)
    requires IsClause(t) || (t.Or? && t.children != [] && forall i :: 0 <= i < |t.children| ==> IsClause(t.children[i]))
    ensures Regrouped(Flattened(t)) == t <==> NormalForm(t)
  {
    if IsClause(t) {
      ClauseFlattened(t);
      ClauseRegrouped(t);
    } else {
      var cs := t.children;
      OrOfClauses(cs);
      forall i | 0 <= i < |cs| ensures Conjoined(GroupOf(cs[i])) == cs[i] <==> NormalClauseForm(cs[i]) {
        ClauseRegrouped(cs[i]);
      }
      OrRegrouped(cs);
    }
  }

  lemma OrRegrouped(cs: seq<MarkerTree>)
    requires cs != [] && forall i :: 0 <= i < |cs| ==> IsClause(cs[i])
    ensures Regrouped(AllGroups(cs)) == Or(cs) <==> |cs| >= 2 && forall i :: 0 <= i < |cs| ==>
            Conjoined(GroupOf(cs[i])) == cs[i]
  {
    var gs := AllGroups(cs);
    if |cs| == 1 {
      if |GroupOf(cs[0])| == 1 {
        NormalAtomIsNoTree(GroupOf(cs[0])[0]);
      }
    } else {
      assert AllConjoined(gs) == cs <==> forall i :: 0 <= i < |cs| ==> AllConjoined(gs)[i] == cs[i];
    }
  }

  /** A regrouped tree is flat. */
  lemma RegroupedIsFlat(gs: Groups, t: MarkerTree)
    requires GroupsOk(gs) && Pure(gs) && AtomsOnly(t) && Regrouped(gs) == t
    ensures IsClause(t) || (t.Or? && t.children != [] && forall i :: 0 <= i < |t.children| ==> IsClause(t.children[i]))
  {
    if |gs| == 1 {
      assert AllAtoms(gs[0]);
      ConjoinedIsClause(gs[0], t);
    } else {
      forall i | 0 <= i < |gs| ensures IsClause(t.children[i]) {
        assert AllAtoms(gs[i]);
        assert t.children[i] == Conjoined(gs[i]);
        ConjoinedIsClause(gs[i], t.children[i]);
      }
    }
  }

  lemma ConjoinedIsClause(g: seq<MarkerTree>, t: MarkerTree)
    requires g != [] && AllAtoms(g) && AtomsOnly(t) && Conjoined(g) == t
    ensures IsClause(t)
  {
    if |g| == 1 {
      NormalAtomIsNoTree(g[0]);
    } else {
      forall i | 0 <= i < |g| ensures IsAtom(t.children[i]) {
        assert t.children[i] == NormalAtom(g[i]);
        NormalAtomIsNoTree(g[i]);
      }
    }
  }

  lemma AtomsExact(t: MarkerTree)
    requires Printable(t) && AtomsOnly(t)
    ensures Parse(Print(t)) == t <==> NormalForm(t)
  {
    ParsePrinted(t);
    PrintedText(t);
    FlattenedPure(t);
    ReadBackPure(Flattened(t));
    if Regrouped(Flattened(t)) == t {
      RegroupedIsFlat(Flattened(t), t);
      FlatRegrouped(t);
    }
    if NormalForm(t) {
      FlatRegrouped(t);
    }
  }

  // -- Counting leaves -------------------------------------------------------------------

  function Sum(ns: seq<nat>): nat {
    if ns == [] then 0 else ns[0] + Sum(ns[1..])
  }

  lemma {:induction false} SumMore(ns: seq<nat>, ms: seq<nat>)
    requires |ns| == |ms| && forall i :: 0 <= i < |ns| ==> ns[i] <= ms[i]
    ensures Sum(ns) <= Sum(ms)
    ensures (exists i :: 0 <= i < |ns| && ns[i] < ms[i]) ==> Sum(ns) < Sum(ms)
  {
    if ns != [] {
      SumMore(ns[1..], ms[1..]);
      if i :| 0 <= i < |ns| && ns[i] < ms[i] {
        assert i == 0 || ns[1..][i - 1] < ms[1..][i - 1];
      }
    }
  }

  function LeafCount(t: MarkerTree): nat {
    match t
    case And(cs) => Sum(seq(|cs|, i requires 0 <= i < |cs| => LeafCount(cs[i])))
    case Or(cs) => Sum(seq(|cs|, i requires 0 <= i < |cs| => LeafCount(cs[i])))
    case _ => 1
  }

  function AtomCount(t: MarkerTree): nat {
    match t
    case And(cs) => Sum(seq(|cs|, i requires 0 <= i < |cs| => AtomCount(cs[i])))
    case Or(cs) => Sum(seq(|cs|, i requires 0 <= i < |cs| => AtomCount(cs[i])))
    case _ => if IsAtom(t) then 1 else 0
  }

  lemma {:induction false} WordsAreNoAtoms(t: MarkerTree)
    ensures AtomCount(t) <= LeafCount(t)
    ensures !AtomsOnly(t) ==> AtomCount(t) < LeafCount(t)
  {
    if t.And? || t.Or? {
      var cs := t.children;
      var atoms := seq(|cs|, i requires 0 <= i < |cs| => AtomCount(cs[i]));
      var leaves := seq(|cs|, i requires 0 <= i < |cs| => LeafCount(cs[i]));
      forall i | 0 <= i < |cs| ensures atoms[i] <= leaves[i] && (!AtomsOnly(cs[i]) ==> atoms[i] < leaves[i]) {
        WordsAreNoAtoms(cs[i]);
      }
      SumMore(atoms, leaves);
    }
  }

  /** The atoms of a conjunction, and of a grouping. */
  function AtomsOf(g: seq<MarkerTree>): nat {
    |ReadAtoms(g)|
  }

  function AtomsOfAll(gs: Groups): nat {
    if gs == [] then 0 else AtomsOf(gs[0]) + AtomsOfAll(gs[1..])
  }

  lemma {:induction false} AtomsOfConcat(a: seq<MarkerTree>, b: seq<MarkerTree>)
    ensures AtomsOf(a + b) == AtomsOf(a) + AtomsOf(b)
  {
    if a == [] {
      assert a + b == b;
    } else {
      assert (a + b)[1..] == a[1..] + b;
      AtomsOfConcat(a[1..], b);
    }
  }

  lemma {:induction false} AtomsOfAllConcat(a: Groups, b: Groups)
    ensures AtomsOfAll(a + b) == AtomsOfAll(a) + AtomsOfAll(b)
  {
    if a == [] {
      assert a + b == b;
    } else {
      assert (a + b)[1..] == a[1..] + b;
      AtomsOfAllConcat(a[1..], b);
    }
  }

  lemma {:induction false} AtomsOfChained(a: Groups, b: Groups)
    ensures AtomsOfAll(Chained(a, b)) == AtomsOfAll(a) + AtomsOfAll(b)
  {
    if a == [] || b == [] {
      AtomsOfAllConcat(a, b);
    } else {
      var front, middle := a[..|a| - 1], a[|a| - 1] + b[0];
      assert Chained(a, b) == front + ([middle] + b[1..]) && a == front + [a[|a| - 1]];
      AtomsOfAllConcat(front, [middle] + b[1..]);
      AtomsOfAllConcat(front, [a[|a| - 1]]);
      AtomsOfConcat(a[|a| - 1], b[0]);
      assert ([middle] + b[1..])[1..] == b[1..] && [a[|a| - 1]][1..] == [];
    }
  }

  lemma {:induction false} AtomsOfParts(parts: seq<Groups>, counts: seq<nat>)
    requires |parts| == |counts| && forall i :: 0 <= i < |parts| ==> AtomsOfAll(parts[i]) == counts[i]
    ensures AtomsOfAll(ChainAll(parts)) == Sum(counts) && AtomsOfAll(ConcatAll(parts)) == Sum(counts)
  {
    if parts != [] {
      AtomsOfParts(parts[1..], counts[1..]);
      AtomsOfAllConcat(parts[0], ConcatAll(parts[1..]));
      if |parts| == 1 {
        assert parts[1..] == [] && Sum(counts) == counts[0];
      } else {
        AtomsOfChained(parts[0], ChainAll(parts[1..]));
      }
    }
  }

  lemma {:induction false} FlattenedAtoms(t: MarkerTree)
    ensures AtomsOfAll(Flattened(t)) == AtomCount(t)
  {
    if t.And? || t.Or? {
      var cs := t.children;
      var parts := seq(|cs|, i requires 0 <= i < |cs| => Flattened(cs[i]));
      var counts := seq(|cs|, i requires 0 <= i < |cs| => AtomCount(cs[i]));
      forall i | 0 <= i < |cs| ensures AtomsOfAll(parts[i]) == counts[i] {
        FlattenedAtoms(cs[i]);
      }
      AtomsOfParts(parts, counts);
    } else {
      assert Flattened(t) == [[t]];
      assert [[t]][0] == [t] && [[t]][1..] == [] && [t][0] == t && [t][1..] == [];
      assert ReadAtoms([]) == [] && AtomsOfAll([]) == 0;
      assert AtomsOfAll([[t]]) == AtomsOf([t]);
    }
  }

  lemma {:induction false} OnesSum(ns: seq<nat>)
    requires forall i :: 0 <= i < |ns| ==> ns[i] == 1
    ensures Sum(ns) == |ns|
  {
    if ns != [] {
      OnesSum(ns[1..]);
    }
  }

  lemma {:induction false} ReadAtomsAreLeaves(g: seq<MarkerTree>)
    ensures forall i :: 0 <= i < |ReadAtoms(g)| ==> LeafCount(ReadAtoms(g)[i]) == 1
  {
    if g != [] {
      ReadAtomsAreLeaves(g[1..]);
      if IsAtom(g[0]) {
        NormalAtomIsNoTree(g[0]);
      }
    }
  }

  lemma ReadClauseCount(g: seq<MarkerTree>)
    ensures LeafCount(ReadClause(g)) == AtomsOf(g)
  {
    ReadAtomsAreLeaves(g);
    var atoms := ReadAtoms(g);
    if |atoms| != 1 {
      var counts := seq(|atoms|, i requires 0 <= i < |atoms| => LeafCount(atoms[i]));
      OnesSum(counts);
    }
  }

  lemma {:induction false} ReadAlternativesCount(gs: Groups)
    ensures var cs := ReadAlternatives(gs);
            Sum(seq(|cs|, i requires 0 <= i < |cs| => LeafCount(cs[i]))) <= AtomsOfAll(gs)
  {
    if gs != [] {
      ReadAlternativesCount(gs[1..]);
      if BeginsWithAtom(gs[0]) {
        ReadClauseCount(gs[0]);
        var cs, more := ReadAlternatives(gs), ReadAlternatives(gs[1..]);
        var counts := seq(|cs|, i requires 0 <= i < |cs| => LeafCount(cs[i]));
        assert counts[1..] == seq(|more|, i requires 0 <= i < |more| => LeafCount(more[i]));
      }
    }
  }

  /** No more leaves are read back than atoms were printed. */
  lemma ReadBackCount(gs: Groups)
    ensures LeafCount(ReadBack(gs)) <= 1 || LeafCount(ReadBack(gs)) <= AtomsOfAll(gs)
  {
    ReadAlternativesCount(gs);
    var cs := ReadAlternatives(gs);
    if |cs| == 1 {
      var counts := seq(|cs|, i requires 0 <= i < |cs| => LeafCount(cs[i]));
      assert counts == [LeafCount(cs[0])] && Sum(counts) == counts[0] + Sum(counts[1..]);
    }
  }

  // -- What the parser can yield ---------------------------------------------------------

  /** Every list has two members at least, and nothing is never true. */
  predicate Shaped(t: MarkerTree) {
    match t
    case False => false
    case And(cs) => |cs| >= 2 && forall i :: 0 <= i < |cs| ==> Shaped(cs[i])
    case Or(cs) => |cs| >= 2 && forall i :: 0 <= i < |cs| ==> Shaped(cs[i])
    case _ => true
  }

  predicate AllShaped(cs: seq<MarkerTree>) {
    forall i :: 0 <= i < |cs| ==> Shaped(cs[i])
  }

  lemma TreesShaped(cs: seq<MarkerTree>)
    requires AllShaped(cs)
    ensures |cs| >= 2 ==> Shaped(Or(cs)) && Shaped(And(cs))
    ensures |cs| >= 1 ==> Shaped(cs[0])
  {
  }

  lemma {:induction false} OrShaped(s: string)
    ensures ParseOr(s).value.Some? ==> Shaped(ParseOr(s).value.value)
    decreases |s|, 4
  {
    hide Shaped, ParseAnd, OrRest, SkipWhitespace;
    AndShaped(SkipWhitespace(s));
    var first := ParseAnd(SkipWhitespace(s));
    if first.value.Some? {
      OrRestShaped([first.value.value], first.rest);
      TreesShaped(OrRest([first.value.value], first.rest).value.value);
    }
  }

  lemma {:induction false} OrRestShaped(children: seq<MarkerTree>, s: string)
    requires AllShaped(children)
    ensures AllShaped(OrRest(children, s).value.value)
    decreases |s|, 3
  {
    hide Shaped, ParseAnd, SkipWhitespace;
    var t := SkipWhitespace(s);
    if AtKeyword(t, "or") {
      AndShaped(SkipWhitespace(t[2..]));
      var next := ParseAnd(SkipWhitespace(t[2..]));
      OrRestShaped(if next.value.Some? then children + [next.value.value] else children, next.rest);
    }
  }

  lemma {:induction false} AndShaped(s: string)
    ensures ParseAnd(s).value.Some? ==> Shaped(ParseAnd(s).value.value)
    decreases |s|, 2
  {
    hide Shaped, ParseAtom, AndRest, SkipWhitespace;
    AtomShaped(SkipWhitespace(s));
    var first := ParseAtom(SkipWhitespace(s));
    if first.value.Some? {
      AndRestShaped([first.value.value], first.rest);
      TreesShaped(AndRest([first.value.value], first.rest).value.value);
    }
  }

  lemma {:induction false} AndRestShaped(children: seq<MarkerTree>, s: string)
    requires AllShaped(children)
    ensures AllShaped(AndRest(children, s).value.value)
    decreases |s|, 1
  {
    hide Shaped, ParseAtom, SkipWhitespace;
    var t := SkipWhitespace(s);
    if AtKeyword(t, "and") {
      AtomShaped(SkipWhitespace(t[3..]));
      var next := ParseAtom(SkipWhitespace(t[3..]));
      AndRestShaped(if next.value.Some? then children + [next.value.value] else children, next.rest);
    }
  }

  lemma {:induction false} AtomShaped(s0: string)
    ensures ParseAtom(s0).value.Some? ==> Shaped(ParseAtom(s0).value.value)
    decreases |s0|, 0
  {
    hide Shaped, ParseComparison;
    var s := SkipWhitespace(s0);
    if s != "" && s[0] == '(' {
      OrShaped(s[1..]);
    } else {
      ComparisonShaped(s);
    }
  }

  lemma ComparisonShaped(s: string)
    ensures ParseComparison(s).value.Some? ==> Shaped(ParseComparison(s).value.value)
  {
    hide ParseValue, ParseOp, Words;
  }

  lemma ParsedShaped(input: string)
    ensures Shaped(Parse(input))
  {
    OrShaped(Trim(input));
  }

  // -- The exact condition ---------------------------------------------------------------

  lemma {:induction false} ShapedPrintable(t: MarkerTree)
    requires CleanTexts(t) && Shaped(t)
    ensures Printable(t) && LeafCount(t) >= 1 && (t.And? || t.Or? ==> LeafCount(t) >= 2)
  {
    if t.And? || t.Or? {
      var cs := t.children;
      var counts := seq(|cs|, i requires 0 <= i < |cs| => LeafCount(cs[i]));
      forall i | 0 <= i < |cs| ensures Printable(cs[i]) && counts[i] >= 1 {
        ShapedPrintable(cs[i]);
      }
      assert Sum(counts) == counts[0] + (counts[1] + Sum(counts[1..][1..]));
    }
  }

  lemma NormalShaped(t: MarkerTree)
    requires NormalForm(t)
    ensures Shaped(t) && AtomsOnly(t)
  {
  }

  lemma WordsExact(t: MarkerTree)
    requires Printable(t) && Shaped(t) && CleanTexts(t) && !AtomsOnly(t)
    ensures Parse(Print(t)) == t <==> t.True?
  {
    ParsePrinted(t);
    ReadBackCount(Flattened(t));
    FlattenedAtoms(t);
    WordsAreNoAtoms(t);
    ShapedPrintable(t);
    if t.True? {
      assert Flattened(t) == [[t]];
    }
  }

  lemma CleanExact(t: MarkerTree)
    requires CleanTexts(t)
    ensures Parse(Print(t)) == t <==> NormalForm(t) || t.True?
  {
    ParsedShaped(Print(t));
    if NormalForm(t) {
      NormalShaped(t);
    }
    if Shaped(t) {
      ShapedPrintable(t);
      hide Parse, Print, NormalForm, Shaped, CleanTexts, Printable;
      if AtomsOnly(t) {
        AtomsExact(t);
      } else {
        WordsExact(t);
      }
    }
  }

  /** A tree is read back as it was if and only if it is always true, or a flat "or" of "and"s in
      normal form without double quotes in its texts. */
  lemma RoundTripExact(t: MarkerTree)
    ensures Parse(Print(t)) == t <==> t.True? || (NormalForm(t) && CleanTexts(t))
  {
    if CleanTexts(t) {
      CleanExact(t);
    } else {
      QuoteNotReadBack(t);
    }
  }

  // -- Meaning ---------------------------------------------------------------------------

  /** No alternatives inside an "and", where parentheses would be needed. */
  predicate NoNestedOr(t: MarkerTree) {
    match t
    case And(cs) => forall i :: 0 <= i < |cs| ==> NoNestedOr(cs[i]) && |Flattened(cs[i])| == 1
    case Or(cs) => forall i :: 0 <= i < |cs| ==> NoNestedOr(cs[i])
    case _ => true
  }

  predicate GroupHolds(g: seq<MarkerTree>, env: MarkerEnvironment, extras: seq<string>) {
    forall j :: 0 <= j < |g| ==> Evaluate(g[j], env, extras)
  }

  predicate GroupsHold(gs: Groups, env: MarkerEnvironment, extras: seq<string>) {
    exists i :: 0 <= i < |gs| && GroupHolds(gs[i], env, extras)
  }

  lemma OneGroup(g: seq<MarkerTree>, env: MarkerEnvironment, extras: seq<string>)
    ensures GroupsHold([g], env, extras) <==> GroupHolds(g, env, extras)
  {
    assert [g][0] == g;
  }

  lemma OneAtom(t: MarkerTree, env: MarkerEnvironment, extras: seq<string>)
    ensures GroupHolds([t], env, extras) <==> Evaluate(t, env, extras)
  {
    assert [t][0] == t;
  }

  lemma {:induction false} ChainHolds(parts: seq<Groups>, env: MarkerEnvironment, extras: seq<string>)
    requires parts != [] && forall i :: 0 <= i < |parts| ==> |parts[i]| == 1
    ensures |ChainAll(parts)| == 1
    ensures GroupsHold(ChainAll(parts), env, extras) <==> forall i :: 0 <= i < |parts| ==>
            GroupsHold(parts[i], env, extras)
  {
    if |parts| > 1 {
      ChainHolds(parts[1..], env, extras);
      var a, b := parts[0][0], ChainAll(parts[1..])[0];
      assert ChainAll(parts) == [a + b];
      GroupConcat(a, b, env, extras);
      assert forall i :: 1 <= i < |parts| ==> parts[i] == parts[1..][i - 1];
      OneGroup(a + b, env, extras);
      OneGroup(a, env, extras);
      OneGroup(b, env, extras);
      assert parts[0] == [a] && ChainAll(parts[1..]) == [b];
    }
  }

  lemma GroupConcat(a: seq<MarkerTree>, b: seq<MarkerTree>, env: MarkerEnvironment, extras: seq<string>)
    ensures GroupHolds(a + b, env, extras) <==> GroupHolds(a, env, extras) && GroupHolds(b, env, extras)
  {
    if GroupHolds(a + b, env, extras) {
      assert forall j :: 0 <= j < |a| ==> a[j] == (a + b)[j];
      assert forall j :: 0 <= j < |b| ==> b[j] == (a + b)[|a| + j];
    }
  }

  lemma {:induction false} ConcatHolds(parts: seq<Groups>, env: MarkerEnvironment, extras: seq<string>)
    ensures GroupsHold(ConcatAll(parts), env, extras) <==>
            exists i :: 0 <= i < |parts| && GroupsHold(parts[i], env, extras)
  {
    if parts != [] {
      var rest := ConcatAll(parts[1..]);
      ConcatHolds(parts[1..], env, extras);
      GroupsConcat(parts[0], rest, env, extras);
      if GroupsHold(rest, env, extras) {
        var i :| 0 <= i < |parts[1..]| && GroupsHold(parts[1..][i], env, extras);
        assert GroupsHold(parts[i + 1], env, extras);
      }
      if i :| 1 <= i < |parts| && GroupsHold(parts[i], env, extras) {
        assert parts[1..][i - 1] == parts[i];
      }
    }
  }

  lemma GroupsConcat(a: Groups, b: Groups, env: MarkerEnvironment, extras: seq<string>)
    ensures GroupsHold(a + b, env, extras) <==> GroupsHold(a, env, extras) || GroupsHold(b, env, extras)
  {
    if i :| 0 <= i < |a| && GroupHolds(a[i], env, extras) {
      assert (a + b)[i] == a[i];
    }
    if i :| 0 <= i < |b| && GroupHolds(b[i], env, extras) {
      assert (a + b)[|a| + i] == b[i];
    }
  }

  lemma {:induction false} FlattenedMeaning(t: MarkerTree, env: MarkerEnvironment, extras: seq<string>)
    requires Printable(t) && AtomsOnly(t) && NoNestedOr(t)
    ensures GroupsHold(Flattened(t), env, extras) <==> Evaluate(t, env, extras)
  {
    if IsAtom(t) {
      assert Flattened(t) == [[t]];
      OneGroup([t], env, extras);
      OneAtom(t, env, extras);
    } else {
      var cs := t.children;
      var parts := seq(|cs|, i requires 0 <= i < |cs| => Flattened(cs[i]));
      forall i | 0 <= i < |cs| ensures GroupsHold(parts[i], env, extras) <==> Evaluate(cs[i], env, extras) {
        FlattenedMeaning(cs[i], env, extras);
      }
      if t.And? {
        ChainHolds(parts, env, extras);
      } else {
        ConcatHolds(parts, env, extras);
      }
    }
  }

  ghost predicate AtomsKeepMeaning(gs: Groups, env: MarkerEnvironment, extras: seq<string>) {
    forall i, j :: 0 <= i < |gs| && 0 <= j < |gs[i]| ==>
      Evaluate(NormalAtom(gs[i][j]), env, extras) == Evaluate(gs[i][j], env, extras)
  }

  lemma ConjoinedMeaning(g: seq<MarkerTree>, env: MarkerEnvironment, extras: seq<string>)
    requires g != [] && forall j :: 0 <= j < |g| ==>
             Evaluate(NormalAtom(g[j]), env, extras) == Evaluate(g[j], env, extras)
    ensures Evaluate(Conjoined(g), env, extras) <==> GroupHolds(g, env, extras)
  {
    hide NormalAtom, EvaluateCompare;
    if |g| != 1 {
      var normal := NormalAtoms(g);
      assert forall j :: 0 <= j < |g| ==> Evaluate(normal[j], env, extras) == Evaluate(g[j], env, extras);
    }
  }

  lemma RegroupedMeaning(gs: Groups, env: MarkerEnvironment, extras: seq<string>)
    requires GroupsOk(gs) && AtomsKeepMeaning(gs, env, extras)
    ensures Evaluate(Regrouped(gs), env, extras) <==> GroupsHold(gs, env, extras)
  {
    hide Conjoined, EvaluateCompare, GroupHolds;
    forall i | 0 <= i < |gs| ensures Evaluate(Conjoined(gs[i]), env, extras) <==> GroupHolds(gs[i], env, extras) {
      ConjoinedMeaning(gs[i], env, extras);
    }
    if |gs| != 1 {
      var all := AllConjoined(gs);
      assert forall i :: 0 <= i < |gs| ==> Evaluate(all[i], env, extras) == GroupHolds(gs[i], env, extras);
    }
  }

  /** Every leaf is an atom that keeps its meaning. */
  predicate AtomsOk(t: MarkerTree) {
    match t
    case And(cs) => forall i :: 0 <= i < |cs| ==> AtomsOk(cs[i])
    case Or(cs) => forall i :: 0 <= i < |cs| ==> AtomsOk(cs[i])
    case _ => IsAtom(t) && AtomOk(t)
  }

  ghost predicate LeavesKeep(gs: Groups) {
    forall i, j :: 0 <= i < |gs| && 0 <= j < |gs[i]| ==> IsAtom(gs[i][j]) && KeepsMeaning(gs[i][j])
  }

  lemma ChainedKeep(a: Groups, b: Groups)
    requires LeavesKeep(a) && LeavesKeep(b)
    ensures LeavesKeep(Chained(a, b)) && LeavesKeep(a + b)
  {
    hide KeepsMeaning;
    var c := Chained(a, b);
    forall i, j | 0 <= i < |c| && 0 <= j < |c[i]| ensures IsAtom(c[i][j]) && KeepsMeaning(c[i][j]) {
    }
  }

  lemma {:induction false} AllKeep(parts: seq<Groups>)
    requires forall i :: 0 <= i < |parts| ==> LeavesKeep(parts[i])
    ensures LeavesKeep(ChainAll(parts)) && LeavesKeep(ConcatAll(parts))
  {
    if |parts| > 1 {
      AllKeep(parts[1..]);
      hide LeavesKeep;
      assert LeavesKeep(parts[0]);
      ChainedKeep(parts[0], ChainAll(parts[1..]));
      ChainedKeep(parts[0], ConcatAll(parts[1..]));
    } else if |parts| == 1 {
      assert ConcatAll(parts) == parts[0] + ConcatAll(parts[1..]);
    }
  }

  lemma {:induction false} FlattenedKeep(t: MarkerTree)
    requires AtomsOk(t)
    ensures AtomsOnly(t) && LeavesKeep(Flattened(t))
  {
    if IsAtom(t) {
      AtomMeaningExact(t);
      assert Flattened(t) == [[t]];
    } else {
      var cs := t.children;
      var parts := seq(|cs|, i requires 0 <= i < |cs| => Flattened(cs[i]));
      forall i | 0 <= i < |cs| ensures AtomsOnly(cs[i]) && LeavesKeep(parts[i]) {
        FlattenedKeep(cs[i]);
      }
      AllKeep(parts);
    }
  }

  lemma KeptInEnvironment(gs: Groups, env: MarkerEnvironment, extras: seq<string>)
    requires LeavesKeep(gs)
    ensures AtomsKeepMeaning(gs, env, extras)
  {
    forall i, j | 0 <= i < |gs| && 0 <= j < |gs[i]|
      ensures Evaluate(NormalAtom(gs[i][j]), env, extras) == Evaluate(gs[i][j], env, extras)
    {
      assert SameFor(gs[i][j], env, extras);
    }
  }

  /** Without an "or" inside an "and", and with atoms that keep their meaning, what is read back
      means the same in every environment and for all extras. */
  lemma RoundTripMeaning(t: MarkerTree, env: MarkerEnvironment, extras: seq<string>)
    requires Printable(t) && NoNestedOr(t) && AtomsOk(t)
    ensures Evaluate(Parse(Print(t)), env, extras) <==> Evaluate(t, env, extras)
  {
    var gs := Flattened(t);
    ParsePrinted(t);
    PrintedText(t);
    FlattenedKeep(t);
    FlattenedPure(t);
    ReadBackPure(gs);
    FlattenedMeaning(t, env, extras);
    KeptInEnvironment(gs, env, extras);
    RegroupedMeaning(gs, env, extras);
  }

  /** An "or" inside an "and" is read back as another condition. */
  lemma NestedOrChangesMeaning(env: MarkerEnvironment)
    ensures var t := And([Or([Extra("x", true), Extra("y", true)]), Extra("z", true)]);
            Printable(t) && !Evaluate(t, env, ["x"]) && Evaluate(Parse(Print(t)), env, ["x"])
  {
    hide Parse, Print;
    var x, y, z := Extra("x", true), Extra("y", true), Extra("z", true);
    var t := And([Or([x, y]), z]);
    assert Clean("x") && Clean("y") && Clean("z");
    assert Printable(x) && Printable(y) && Printable(z) && Printable(Or([x, y]));
    NestedOrReadBack(x, y, z);
    assert !Evaluate(t.children[1], env, ["x"]) by {
      assert Lowered("x")[0] == 'x' && Lowered("z")[0] == 'z';
    }
    assert Evaluate(x, env, ["x"]) by {
      assert Lowered(["x"][0]) == Lowered("x");
    }
    assert Or([x, And([y, z])]).children[0] == x;
  }

  lemma NestedOrReadBack(x: MarkerTree, y: MarkerTree, z: MarkerTree)
    requires Printable(And([Or([x, y]), z])) && NormalExtra(x) && NormalExtra(y) && NormalExtra(z)
    ensures Parse(Print(And([Or([x, y]), z]))) == Or([x, And([y, z])])
  {
    hide Flattened, Parse, Print, NormalAtom, Printable, ReadBack;
    var t, gs := And([Or([x, y]), z]), [[x], [y, z]];
    ParsePrinted(t);
    PrintedText(t);
    NestedOrFlattened(x, y, z);
    ReadBackPure(gs);
    assert NormalAtoms([y, z]) == [y, z];
    assert AllConjoined(gs) == [x, And([y, z])];
  }

  predicate NormalExtra(t: MarkerTree) {
    t.Extra? && NormalAtom(t) == t
  }

  lemma NestedOrFlattened(x: MarkerTree, y: MarkerTree, z: MarkerTree)
    requires IsAtom(x) && IsAtom(y) && IsAtom(z)
    ensures Flattened(And([Or([x, y]), z])) == [[x], [y, z]]
  {
    var cs := [Or([x, y]), z];
    OrOfClauses([x, y]);
    assert Flattened(cs[0]) == [[x], [y]];
    assert Flattened(cs[1]) == [[z]];
    var parts := seq(|cs|, i requires 0 <= i < |cs| => Flattened(cs[i]));
    assert parts[0] == [[x], [y]] && parts[1..] == [[[z]]];
    assert [[x], [y]][..1] == [[x]] && [y] + [z] == [y, z];
    assert Chained([[x], [y]], [[z]]) == [[x]] + [[y, z]] + [];
    assert Chained([[x], [y]], [[z]]) == [[x], [y, z]];
    assert ChainAll(parts[1..]) == [[z]];
    assert Flattened(And(cs)) == ChainAll(parts) == Chained(parts[0], ChainAll(parts[1..]));
  }

  /** The marker that is never true is read back as the one that is always true. */
  lemma FalseBecomesTrue(t: MarkerTree)
    requires t.False?
    ensures Parse(Print(t)).True?
  {
    ParsePrinted(t);
    assert Flattened(t) == [[t]];
  }
}
