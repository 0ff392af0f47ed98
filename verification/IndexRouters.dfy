/** Routing packages to named indexes along the dependency edges that the resolver walks. */
module IndexRouters {
  import opened Texts

  type Name = string
  type Edges = set<(Name, Name)>

  /** Letter case and separators do not distinguish packages. */
  function Normalized(name: string): Name {
    var lowered := Lowered(name);
    seq(|lowered|, i requires 0 <= i < |lowered| =>
      if lowered[i] == '-' || lowered[i] == '.' || lowered[i] == ' ' then '_' else lowered[i])
  }

  predicate IsSeparator(c: char) {
    c == '-' || c == '.' || c == '_' || c == ' '
  }

  /** Two names are the same package if and only if they differ in letter case and in which
      separators they use at most. */
  lemma NormalizedExact(a: string, b: string)
    ensures Normalized(a) == Normalized(b) <==>
              && |a| == |b|
              && forall i :: 0 <= i < |a| ==> SameLetter(a[i], b[i]) || (IsSeparator(a[i]) && IsSeparator(b[i]))
  {
    if Normalized(a) == Normalized(b) {
      assert |a| == |Normalized(a)| == |b|;
      forall i | 0 <= i < |a| ensures SameLetter(a[i], b[i]) || (IsSeparator(a[i]) && IsSeparator(b[i])) {
        assert Normalized(a)[i] == Normalized(b)[i];
      }
    }
  }

  function NormalizedAll(names: seq<string>): set<Name> {
    set i | 0 <= i < |names| :: Normalized(names[i])
  }

  /** The edges one propagation walks. */
  function EdgesOf(parent: string, deps: seq<string>): Edges {
    set i | 0 <= i < |deps| :: (Normalized(parent), Normalized(deps[i]))
  }

  // -- Reachability ----------------------------------------------------------------------

  predicate IsPath(edges: Edges, path: seq<Name>) {
    path != [] && forall i :: 0 <= i < |path| - 1 ==> (path[i], path[i + 1]) in edges
  }

  ghost predicate Reachable(seeds: set<Name>, edges: Edges, p: Name) {
    exists path :: IsPath(edges, path) && path[0] in seeds && path[|path| - 1] == p
  }

  lemma SeedReachable(seeds: set<Name>, edges: Edges, p: Name)
    requires p in seeds
    ensures Reachable(seeds, edges, p)
  {
    assert IsPath(edges, [p]);
  }

  lemma ReachableStep(seeds: set<Name>, edges: Edges, p: Name, q: Name)
    requires Reachable(seeds, edges, p) && (p, q) in edges
    ensures Reachable(seeds, edges, q)
  {
    var path :| IsPath(edges, path) && path[0] in seeds && path[|path| - 1] == p;
    assert IsPath(edges, path + [q]);
    assert (path + [q])[0] == path[0];
  }

  lemma ReachableInLarger(seeds: set<Name>, edges: Edges, seeds': set<Name>, edges': Edges, p: Name)
    requires Reachable(seeds, edges, p) && seeds <= seeds' && edges <= edges'
    ensures Reachable(seeds', edges', p)
  {
    var path :| IsPath(edges, path) && path[0] in seeds && path[|path| - 1] == p;
    assert IsPath(edges', path);
  }

  predicate ClosedUnder(members: set<Name>, edges: Edges) {
    forall e :: e in edges && e.0 in members ==> e.1 in members
  }

  lemma {:induction false} PathStaysInside(members: set<Name>, edges: Edges, path: seq<Name>)
    requires ClosedUnder(members, edges) && IsPath(edges, path) && path[0] in members
    ensures path[|path| - 1] in members
  {
    if |path| > 1 {
      assert (path[0], path[1]) in edges;
      assert forall i :: 0 <= i < |path| - 2 ==> (path[1..][i], path[1..][i + 1]) == (path[i + 1], path[i + 2]);
      PathStaysInside(members, edges, path[1..]);
    }
  }

  /** Between the seeds and what they reach. */
  ghost predicate WithinClosure(members: set<Name>, seeds: set<Name>, edges: Edges) {
    seeds <= members && forall p :: p in members ==> Reachable(seeds, edges, p)
  }

  /** A set between the seeds and their closure is the closure exactly when the edges lead
      nowhere outside it. */
  lemma ClosureReached(members: set<Name>, seeds: set<Name>, edges: Edges)
    requires WithinClosure(members, seeds, edges)
    ensures ClosedUnder(members, edges) <==> forall p :: Reachable(seeds, edges, p) ==> p in members
  {
    if ClosedUnder(members, edges) {
      forall p | Reachable(seeds, edges, p) ensures p in members {
        var path :| IsPath(edges, path) && path[0] in seeds && path[|path| - 1] == p;
        PathStaysInside(members, edges, path);
      }
    }
    if forall p :: Reachable(seeds, edges, p) ==> p in members {
      forall e | e in edges && e.0 in members ensures e.1 in members {
        ReachableStep(seeds, edges, e.0, e.1);
      }
    }
  }

  // -- The membership sets ---------------------------------------------------------------

  type Scopes = map<Name, set<Name>>

  function MembersOf(scopes: Scopes, index: Name): set<Name> {
    if index in scopes then scopes[index] else {}
  }

  /** What a set becomes when an edge bundle is walked once. */
  function Grown(members: set<Name>, parent: Name, deps: set<Name>): set<Name> {
    if parent in members then members + deps else members
  }

  lemma GrownWithin(members: set<Name>, seeds: set<Name>, edges: Edges, parent: string, deps: seq<string>)
    requires WithinClosure(members, seeds, edges)
    ensures WithinClosure(Grown(members, Normalized(parent), NormalizedAll(deps)), seeds, edges + EdgesOf(parent, deps))
  {
    var edges' := edges + EdgesOf(parent, deps);
    forall p | p in Grown(members, Normalized(parent), NormalizedAll(deps)) ensures Reachable(seeds, edges', p) {
      if p in members {
        ReachableInLarger(seeds, edges, seeds, edges', p);
      } else {
        var i :| 0 <= i < |deps| && p == Normalized(deps[i]);
        ReachableInLarger(seeds, edges, seeds, edges', Normalized(parent));
        assert (Normalized(parent), p) in edges';
        ReachableStep(seeds, edges', Normalized(parent), p);
      }
    }
  }

  lemma SeededWithin(members: set<Name>, seeds: set<Name>, edges: Edges, more: set<Name>)
    requires WithinClosure(members, seeds, edges)
    ensures WithinClosure(members + more, seeds + more, edges)
  {
    forall p | p in members + more ensures Reachable(seeds + more, edges, p) {
      if p in members {
        ReachableInLarger(seeds, edges, seeds + more, edges, p);
      } else {
        SeedReachable(seeds + more, edges, p);
      }
    }
  }

  /** What the sets are worth: every scope lies within the closure of its index's seeds, the
      default set within that of the default seeds. */
  ghost predicate RouterOk(scopes: Scopes, seeds: Scopes, defaults: set<Name>, defaultSeeds: set<Name>, edges: Edges) {
    && scopes.Keys == seeds.Keys
    && (forall index :: WithinClosure(MembersOf(scopes, index), MembersOf(seeds, index), edges))
    && WithinClosure(defaults, defaultSeeds, edges)
  }

  predicate Routes(scopes: Scopes, seeds: Scopes, defaults: set<Name>, index: Name, p: Name) {
    p in MembersOf(seeds, index) || (p in MembersOf(scopes, index) && p !in defaults)
  }

  /** Walking every edge again adds nothing. */
  ghost predicate Saturated(scopes: Scopes, defaults: set<Name>, edges: Edges) {
    (forall index :: index in scopes ==> ClosedUnder(scopes[index], edges)) && ClosedUnder(defaults, edges)
  }

  /** Once nothing is added any more, an index serves its own seeds, and the packages that are
      reachable from its seeds and not from the default seeds. */
  lemma RoutesByReachability(scopes: Scopes, seeds: Scopes, defaults: set<Name>, defaultSeeds: set<Name>, edges: Edges,
                             index: Name, p: Name)
    requires RouterOk(scopes, seeds, defaults, defaultSeeds, edges) && Saturated(scopes, defaults, edges)
    ensures Routes(scopes, seeds, defaults, index, p) <==>
            p in MembersOf(seeds, index) ||
            (Reachable(MembersOf(seeds, index), edges, p) && !Reachable(defaultSeeds, edges, p))
  {
    assert ClosedUnder(MembersOf(scopes, index), edges);
    ClosureReached(MembersOf(scopes, index), MembersOf(seeds, index), edges);
    ClosureReached(defaults, defaultSeeds, edges);
  }

  class IndexRouter {
    var scopes: Scopes
    var seeds: Scopes
    var defaultReachable: set<Name>
    // what the sets are compared with
    ghost var defaultSeeds: set<Name>
    ghost var edges: Edges

    ghost predicate Inv()
      reads this
    {
      RouterOk(scopes, seeds, defaultReachable, defaultSeeds, edges)
    }

    constructor ()
      ensures Inv() && scopes == map[] && seeds == map[] && defaultReachable == {} && defaultSeeds == {} && edges == {}
    {
      scopes, seeds, defaultReachable, defaultSeeds, edges := map[], map[], {}, {}, {};
    }

    /** Declare the root packages of an index. */
    method SeedIndex(index: Name, packages: seq<string>)
      requires Inv()
      modifies this`scopes, this`seeds
      ensures Inv()
      ensures scopes == Seeded(old(scopes), index, packages) && seeds == Seeded(old(seeds), index, packages)
    {
      hide Normalized, NormalizedAll, RouterOk, Seeded;
      NothingSeeded(scopes, index, packages);
      NothingSeeded(seeds, index, packages);
      for i := 0 to |packages|
        invariant scopes == Seeded(old(scopes), index, packages[..i])
                  && seeds == Seeded(old(seeds), index, packages[..i])
      {
        SeededMore(old(scopes), index, packages, i);
        SeededMore(old(seeds), index, packages, i);
        var n := Normalized(packages[i]);
        seeds := seeds[index := MembersOf(seeds, index) + {n}];
        scopes := scopes[index := MembersOf(scopes, index) + {n}];
      }
      assert packages[..|packages|] == packages;
      SeedIndexOk(old(scopes), old(seeds), defaultReachable, defaultSeeds, edges, index, packages);
    }

    /** Mark packages as reachable without any named index. */
    method SeedDefault(packages: seq<string>)
      requires Inv()
      modifies this`defaultReachable, this`defaultSeeds
      ensures Inv()
      ensures defaultReachable == old(defaultReachable) + NormalizedAll(packages)
      ensures defaultSeeds == old(defaultSeeds) + NormalizedAll(packages)
    {
      hide Normalized, NormalizedAll, RouterOk;
      assert packages[..0] == [];
      NormalizedNone();
      for i := 0 to |packages|
        invariant defaultReachable == old(defaultReachable) + NormalizedAll(packages[..i])
                  && defaultSeeds == old(defaultSeeds)
      {
        NormalizedMore(packages, i);
        defaultReachable := defaultReachable + {Normalized(packages[i])};
      }
      assert packages[..|packages|] == packages;
      defaultSeeds := defaultSeeds + NormalizedAll(packages);
      SeedDefaultOk(scopes, seeds, old(defaultReachable), old(defaultSeeds), edges, NormalizedAll(packages));
    }

    /** Walk the edges from a package to its dependencies. */
    method Propagate(parent: string, deps: seq<string>)
      requires Inv()
      modifies this`scopes, this`defaultReachable, this`edges
      ensures Inv() && edges == old(edges) + EdgesOf(parent, deps)
      ensures scopes.Keys == old(scopes).Keys
      ensures forall index :: index in scopes ==>
              scopes[index] == Grown(old(scopes)[index], Normalized(parent), NormalizedAll(deps))
      ensures defaultReachable == Grown(old(defaultReachable), Normalized(parent), NormalizedAll(deps))
    {
      hide Normalized, NormalizedAll, RouterOk, EdgesOf;
      edges := edges + EdgesOf(parent, deps);
      if deps == [] {
        NothingWalked(old(scopes), seeds, defaultReachable, defaultSeeds, old(edges), parent);
        return;
      }
      var p, names := Normalized(parent), NormalizedAll(deps);
      GrowScopes(p, names);
      if p in defaultReachable {
        defaultReachable := defaultReachable + names;
      }
      PropagatedOk(old(scopes), seeds, old(defaultReachable), defaultSeeds, old(edges), parent, deps, scopes);
    }

    /** Add names to every scope that holds a package; the order does not matter. */
    method GrowScopes(p: Name, names: set<Name>)
      modifies this`scopes
      ensures scopes.Keys == old(scopes).Keys
      ensures forall index :: index in scopes ==> scopes[index] == Grown(old(scopes)[index], p, names)
    {
      var todo := set index | index in scopes && p in scopes[index];
      ghost var scoped := todo;
      while todo != {}
        invariant todo <= scoped && scopes.Keys == old(scopes).Keys
        invariant forall index :: index in scopes && index in todo ==> scopes[index] == old(scopes)[index]
        invariant forall index :: index in scopes && index !in todo ==>
                  scopes[index] == Grown(old(scopes)[index], p, names)
        decreases |todo|
      {
        var index :| index in todo;
        scopes := scopes[index := scopes[index] + names];
        todo := todo - {index};
      }
    }

    method RoutesTo(index: Name, package: string) returns (routed: bool)
      requires Inv()
      ensures routed <==> Routes(scopes, seeds, defaultReachable, index, Normalized(package))
      ensures Saturated(scopes, defaultReachable, edges) ==>
                (routed <==>
                  var p := Normalized(package);
                  p in MembersOf(seeds, index) ||
                  (Reachable(MembersOf(seeds, index), edges, p) && !Reachable(defaultSeeds, edges, p)))
    {
      var p := Normalized(package);
      if index in seeds && p in seeds[index] {
        routed := true;
      } else if index in scopes {
        routed := p in scopes[index] && p !in defaultReachable;
      } else {
        routed := false;
      }
      if Saturated(scopes, defaultReachable, edges) {
        RoutesByReachability(scopes, seeds, defaultReachable, defaultSeeds, edges, index, p);
      }
    }
  }

  /** The sets of one index after packages were added to it. */
  function Seeded(sets: Scopes, index: Name, packages: seq<string>): Scopes {
    if packages == [] then sets else sets[index := MembersOf(sets, index) + NormalizedAll(packages)]
  }

  lemma NothingSeeded(sets: Scopes, index: Name, packages: seq<string>)
    ensures Seeded(sets, index, packages[..0]) == sets
  {
  }

  lemma SeededMore(sets: Scopes, index: Name, packages: seq<string>, i: nat)
    requires i < |packages|
    ensures var before := Seeded(sets, index, packages[..i]);
            before[index := MembersOf(before, index) + {Normalized(packages[i])}]
                == Seeded(sets, index, packages[..i + 1])
  {
    hide Normalized, NormalizedAll;
    NormalizedMore(packages, i);
    NormalizedNone();
    var before, after := Seeded(sets, index, packages[..i]), Seeded(sets, index, packages[..i + 1]);
    if i == 0 {
      assert packages[..i] == [];
    }
    assert MembersOf(before, index) + {Normalized(packages[i])}
        == MembersOf(sets, index) + NormalizedAll(packages[..i + 1]);
  }

  lemma NormalizedNone()
    ensures NormalizedAll([]) == {}
  {
  }

  lemma NormalizedMore(names: seq<string>, i: nat)
    requires i < |names|
    ensures NormalizedAll(names[..i + 1]) == NormalizedAll(names[..i]) + {Normalized(names[i])}
  {
    var more := names[..i + 1];
    assert more[i] == names[i] && forall k :: 0 <= k < i ==> more[k] == names[..i][k];
    forall n | n in NormalizedAll(names[..i]) ensures n in NormalizedAll(more) {
      var k :| 0 <= k < i && Normalized(names[..i][k]) == n;
      assert Normalized(more[k]) == n;
    }
    assert Normalized(more[i]) in NormalizedAll(more);
  }

  lemma SeedIndexOk(scopes: Scopes, seeds: Scopes, defaults: set<Name>, defaultSeeds: set<Name>, edges: Edges,
                    index: Name, packages: seq<string>)
    requires RouterOk(scopes, seeds, defaults, defaultSeeds, edges)
    ensures RouterOk(Seeded(scopes, index, packages), Seeded(seeds, index, packages), defaults, defaultSeeds, edges)
  {
    hide NormalizedAll, WithinClosure;
    SeededWithin(MembersOf(scopes, index), MembersOf(seeds, index), edges, NormalizedAll(packages));
    var scopes', seeds' := Seeded(scopes, index, packages), Seeded(seeds, index, packages);
    forall i ensures WithinClosure(MembersOf(scopes', i), MembersOf(seeds', i), edges) {
      assert WithinClosure(MembersOf(scopes, i), MembersOf(seeds, i), edges);
    }
  }

  lemma SeedDefaultOk(scopes: Scopes, seeds: Scopes, defaults: set<Name>, defaultSeeds: set<Name>, edges: Edges,
                      more: set<Name>)
    requires RouterOk(scopes, seeds, defaults, defaultSeeds, edges)
    ensures RouterOk(scopes, seeds, defaults + more, defaultSeeds + more, edges)
  {
    SeededWithin(defaults, defaultSeeds, edges, more);
  }

  lemma NothingWalked(scopes: Scopes, seeds: Scopes, defaults: set<Name>, defaultSeeds: set<Name>, edges: Edges,
                      parent: string)
    requires RouterOk(scopes, seeds, defaults, defaultSeeds, edges)
    ensures edges + EdgesOf(parent, []) == edges && NormalizedAll([]) == {}
    ensures forall index :: index in scopes ==> scopes[index] == Grown(scopes[index], Normalized(parent), {})
    ensures defaults == Grown(defaults, Normalized(parent), {})
  {
    assert EdgesOf(parent, []) == {};
  }

  lemma PropagatedOk(scopes: Scopes, seeds: Scopes, defaults: set<Name>, defaultSeeds: set<Name>, edges: Edges,
                     parent: string, deps: seq<string>, scopes': Scopes)
    requires RouterOk(scopes, seeds, defaults, defaultSeeds, edges)
    requires scopes'.Keys == scopes.Keys
    requires forall index :: index in scopes ==>
             scopes'[index] == Grown(scopes[index], Normalized(parent), NormalizedAll(deps))
    ensures RouterOk(scopes', seeds, Grown(defaults, Normalized(parent), NormalizedAll(deps)), defaultSeeds,
            edges + EdgesOf(parent, deps))
  {
    forall index
      ensures WithinClosure(MembersOf(scopes', index), MembersOf(seeds, index),
           edges + EdgesOf(parent, deps))
    {
      assert WithinClosure(MembersOf(scopes, index), MembersOf(seeds, index), edges);
      if index in scopes {
        GrownWithin(MembersOf(scopes, index), MembersOf(seeds, index), edges, parent, deps);
      }
    }
    GrownWithin(defaults, defaultSeeds, edges, parent, deps);
  }
}
