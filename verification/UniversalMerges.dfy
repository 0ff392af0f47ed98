/** Merging the resolutions of several environments into one list of lock entries. */
module UniversalMerges {
  import opened Options
  import opened Texts

  type PackageName = string
  type VersionText = string
  type Marker = string
  type Wheels = string

  datatype Pin = Pin(version: VersionText, wheels: Wheels)

  /** The packages resolved for one environment, which a marker describes. */
  datatype EnvResult = EnvResult(marker: Marker, packages: map<PackageName, Pin>)

  datatype Entry = Entry(name: PackageName, version: VersionText, marker: Option<Marker>, wheels: Wheels)

  datatype ForkStrategy = RequiresPython | Fewest

  // -- Sorting ---------------------------------------------------------------------------

  predicate MarkerLess(a: Option<Marker>, b: Option<Marker>) {
    b.Some? && (a.None? || TextLess(a.value, b.value))
  }

  predicate EntryLess(a: Entry, b: Entry) {
    TextLess(a.name, b.name) || (a.name == b.name && MarkerLess(a.marker, b.marker))
  }

  function Inserted(sorted: seq<Entry>, e: Entry): seq<Entry> {
    if sorted == [] || EntryLess(e, sorted[0]) then [e] + sorted else [sorted[0]] + Inserted(sorted[1..], e)
  }

  /** A stable sort by name, then by marker, unmarked entries first. */
  function Sorted(entries: seq<Entry>): seq<Entry> {
    if entries == [] then [] else Inserted(Sorted(entries[..|entries| - 1]), entries[|entries| - 1])
  }

  lemma {:induction false} InsertedKeeps(sorted: seq<Entry>, e: Entry)
    ensures multiset(Inserted(sorted, e)) == multiset(sorted) + multiset{e}
  {
    if !(sorted == [] || EntryLess(e, sorted[0])) {
      InsertedKeeps(sorted[1..], e);
      assert sorted == [sorted[0]] + sorted[1..];
    }
  }

  lemma {:induction false} SortedKeeps(entries: seq<Entry>)
    ensures multiset(Sorted(entries)) == multiset(entries)
  {
    if entries != [] {
      var last := |entries| - 1;
      SortedKeeps(entries[..last]);
      InsertedKeeps(Sorted(entries[..last]), entries[last]);
      assert entries == entries[..last] + [entries[last]];
    }
  }

  predicate InOrder(entries: seq<Entry>) {
    forall i, j :: 0 <= i < j < |entries| ==> !EntryLess(entries[j], entries[i])
  }

  /** By name, and for one name by marker, no marker first. */
  ghost predicate NotAfter(a: Entry, b: Entry) {
    && (a.name == b.name || TextBefore(a.name, b.name))
    && (a.name == b.name ==>
          a.marker.None? || (b.marker.Some? && (a.marker == b.marker || TextBefore(a.marker.value, b.marker.value))))
  }

  lemma InOrderExact(entries: seq<Entry>)
    ensures InOrder(entries) <==> forall i, j :: 0 <= i < j < |entries| ==> NotAfter(entries[i], entries[j])
  {
    forall i, j | 0 <= i < j < |entries|
      ensures !EntryLess(entries[j], entries[i]) <==> NotAfter(entries[i], entries[j])
    {
      EntryByText(entries[i], entries[j]);
    }
  }

  lemma EntryByText(a: Entry, b: Entry)
    ensures !EntryLess(b, a) <==> NotAfter(a, b)
  {
    hide TextLess, TextBefore;
    TextsByPlace(a.name, b.name);
    TextLessFits(a.name, b.name, a.name);
    if a.marker.Some? && b.marker.Some? {
      TextsByPlace(a.marker.value, b.marker.value);
      TextLessFits(a.marker.value, b.marker.value, a.marker.value);
    }
  }

  lemma EntryOrder(a: Entry, b: Entry, c: Entry)
    ensures !(EntryLess(a, b) && EntryLess(b, a))
    ensures !EntryLess(b, a) && !EntryLess(c, b) ==> !EntryLess(c, a)
  {
    hide TextLess;
    TextsOrdered(a.name, b.name, c.name);
    if a.marker.Some? && b.marker.Some? && c.marker.Some? {
      TextsOrdered(a.marker.value, b.marker.value, c.marker.value);
    } else if a.marker.Some? && b.marker.Some? {
      TextsOrdered(a.marker.value, b.marker.value, "");
    }
  }

  lemma TextsOrdered(a: string, b: string, c: string)
    ensures !(TextLess(a, b) && TextLess(b, a)) && (a != b ==> TextLess(a, b) || TextLess(b, a))
    ensures !TextLess(b, a) && !TextLess(c, b) ==> !TextLess(c, a) && (a == c ==> a == b)
  {
    TextLessFits(a, b, c);
    TextLessFits(b, c, a);
    TextLessFits(c, a, b);
  }

  lemma {:induction false} InsertedInOrder(sorted: seq<Entry>, e: Entry)
    requires InOrder(sorted)
    ensures InOrder(Inserted(sorted, e))
  {
    if sorted == [] {
    } else if EntryLess(e, sorted[0]) {
      forall i | 0 <= i < |sorted| ensures !EntryLess(sorted[i], e) {
        EntryOrder(e, sorted[0], sorted[i]);
      }
    } else {
      InsertedInOrder(sorted[1..], e);
      InsertedKeeps(sorted[1..], e);
      var rest := Inserted(sorted[1..], e);
      forall i | 0 <= i < |rest| ensures !EntryLess(rest[i], sorted[0]) {
        assert rest[i] in multiset(rest);
        assert rest[i] == e || rest[i] in sorted[1..];
        EntryOrder(sorted[0], e, e);
      }
    }
  }

  lemma {:induction false} SortedInOrder(entries: seq<Entry>)
    ensures InOrder(Sorted(entries))
  {
    if entries != [] {
      SortedInOrder(entries[..|entries| - 1]);
      InsertedInOrder(Sorted(entries[..|entries| - 1]), entries[|entries| - 1]);
    }
  }

  // -- Entries ---------------------------------------------------------------------------

  /** Every environment chose this version. */
  predicate SameEverywhere(envs: seq<EnvResult>, name: PackageName, version: VersionText) {
    forall i :: 0 <= i < |envs| ==> name in envs[i].packages && envs[i].packages[name].version == version
  }

  function MarkerFor(envs: seq<EnvResult>, unify: bool, i: nat, name: PackageName): Option<Marker>
    requires i < |envs| && name in envs[i].packages
  {
    if unify && SameEverywhere(envs, name, envs[i].packages[name].version) then None else Some(envs[i].marker)
  }

  function EntryFor(envs: seq<EnvResult>, unify: bool, i: nat, name: PackageName): Entry
    requires i < |envs| && name in envs[i].packages
  {
    var pin := envs[i].packages[name];
    Entry(name, pin.version, MarkerFor(envs, unify, i, name), pin.wheels)
  }

  datatype Key = Key(name: PackageName, version: VersionText, marker: Option<Marker>)

  function KeyOf(e: Entry): Key {
    Key(e.name, e.version, e.marker)
  }

  function EnvEntries(envs: seq<EnvResult>, unify: bool, i: nat, names: set<PackageName>): set<Entry>
    requires i < |envs| && names <= envs[i].packages.Keys
  {
    set name | name in names :: EntryFor(envs, unify, i, name)
  }

  /** One marked entry for every package of the first environments. */
  function MarkedEntries(envs: seq<EnvResult>, n: nat): multiset<Entry>
    requires n <= |envs|
  {
    if n == 0 then multiset{}
    else MarkedEntries(envs, n - 1) + multiset(EnvEntries(envs, false, n - 1, envs[n - 1].packages.Keys))
  }

  /** No earlier environment has an entry with the same name, version and marker. */
  predicate IsFirst(envs: seq<EnvResult>, i: nat, name: PackageName)
    requires i < |envs| && name in envs[i].packages
  {
    forall k :: 0 <= k < i && name in envs[k].packages ==>
        KeyOf(EntryFor(envs, true, k, name)) != KeyOf(EntryFor(envs, true, i, name))
  }

  function FirstNames(envs: seq<EnvResult>, i: nat, names: set<PackageName>): set<PackageName>
    requires i < |envs| && names <= envs[i].packages.Keys
  {
    set name | name in names && IsFirst(envs, i, name)
  }

  /** The entries of the first environments, each with the first of its kind. */
  function FirstEntries(envs: seq<EnvResult>, n: nat): set<Entry>
    requires n <= |envs|
  {
    if n == 0 then {}
    else FirstEntries(envs, n - 1) + EnvEntries(envs, true, n - 1, FirstNames(envs, n - 1, envs[n - 1].packages.Keys))
  }

  /** A single environment is not merged with anything, and keeps its marker. */
  function FewestEntries(envs: seq<EnvResult>): multiset<Entry> {
    if |envs| < 2 then MarkedEntries(envs, |envs|) else multiset(FirstEntries(envs, |envs|))
  }

  // -- Keeping the first of each kind ----------------------------------------------------

  function KeysOf(entries: seq<Entry>): set<Key> {
    set i | 0 <= i < |entries| :: KeyOf(entries[i])
  }

  function Retained(entries: seq<Entry>): seq<Entry> {
    if entries == [] then []
    else
      var last := |entries| - 1;
      if KeyOf(entries[last]) in KeysOf(entries[..last]) then Retained(entries[..last])
      else Retained(entries[..last]) + [entries[last]]
  }

  lemma KeysOfMore(entries: seq<Entry>, e: Entry)
    ensures KeysOf(entries + [e]) == KeysOf(entries) + {KeyOf(e)}
  {
    var more := entries + [e];
    assert more[|entries|] == e && forall i :: 0 <= i < |entries| ==> more[i] == entries[i];
    assert forall i :: 0 <= i < |entries| ==> KeyOf(more[i]) in KeysOf(more);
    assert KeyOf(more[|entries|]) in KeysOf(more);
  }

  lemma RetainedMore(entries: seq<Entry>, e: Entry)
    ensures Retained(entries + [e]) == if KeyOf(e) in KeysOf(entries) then Retained(entries)
            else Retained(entries) + [e]
  {
    assert (entries + [e])[..|entries|] == entries;
  }

  function AsSet(entries: seq<Entry>): set<Entry> {
    set i | 0 <= i < |entries| :: entries[i]
  }

  lemma AsSetMore(entries: seq<Entry>, e: Entry)
    ensures AsSet(entries + [e]) == AsSet(entries) + {e}
  {
    var more := entries + [e];
    assert more[|entries|] == e && forall i :: 0 <= i < |entries| ==> more[i] == entries[i];
    assert forall i :: 0 <= i < |entries| ==> more[i] in AsSet(more);
    assert more[|entries|] in AsSet(more);
  }

  /** What is kept has no two entries of the same kind. */
  lemma {:induction false} RetainedOnce(entries: seq<Entry>)
    ensures KeysOf(Retained(entries)) == KeysOf(entries)
    ensures multiset(Retained(entries)) == multiset(AsSet(Retained(entries)))
  {
    if entries != [] {
      var last := |entries| - 1;
      var front, e := entries[..last], entries[last];
      assert entries == front + [e];
      RetainedOnce(front);
      KeysOfMore(front, e);
      KeysOfMore(Retained(front), e);
      AsSetMore(Retained(front), e);
      if KeyOf(e) !in KeysOf(front) {
        NotKept(Retained(front), e);
      }
    }
  }

  lemma NotKept(kept: seq<Entry>, e: Entry)
    requires KeyOf(e) !in KeysOf(kept)
    ensures e !in AsSet(kept)
    ensures multiset(AsSet(kept) + {e}) == multiset(AsSet(kept)) + multiset{e}
  {
    assert forall i :: 0 <= i < |kept| ==> KeyOf(kept[i]) in KeysOf(kept);
  }

  // -- Merging ---------------------------------------------------------------------------

  /** Push the marked entries of one environment; the order of a hash map is arbitrary. */
  method PushMarked(entries0: seq<Entry>, envs: seq<EnvResult>, i: nat) returns (entries: seq<Entry>)
    requires i < |envs|
    ensures multiset(entries) == multiset(entries0) + multiset(EnvEntries(envs, false, i, envs[i].packages.Keys))
  {
    entries := entries0;
    var todo, done := envs[i].packages.Keys, {};
    while todo != {}
      invariant todo !! done && todo + done == envs[i].packages.Keys
      invariant multiset(entries) == multiset(entries0) + multiset(EnvEntries(envs, false, i, done))
      decreases |todo|
    {
      var name :| name in todo;
      EnvEntriesMore(envs, false, i, done, name);
      entries := entries + [Entry(name, envs[i].packages[name].version, Some(envs[i].marker),
          envs[i].packages[name].wheels)];
      todo, done := todo - {name}, done + {name};
    }
    assert done == envs[i].packages.Keys;
  }

  lemma EnvEntriesMore(envs: seq<EnvResult>, unify: bool, i: nat, done: set<PackageName>, name: PackageName)
    requires i < |envs| && done <= envs[i].packages.Keys && name in envs[i].packages && name !in done
    ensures EnvEntries(envs, unify, i, done + {name})
            == EnvEntries(envs, unify, i, done) + {EntryFor(envs, unify, i, name)}
    ensures multiset(EnvEntries(envs, unify, i, done + {name})) ==
            multiset(EnvEntries(envs, unify, i, done)) + multiset{EntryFor(envs, unify, i, name)}
  {
    var e := EntryFor(envs, unify, i, name);
    assert e !in EnvEntries(envs, unify, i, done);
    assert EnvEntries(envs, unify, i, done + {name}) == EnvEntries(envs, unify, i, done) + {e};
  }

  method MergeRequiresPython(envs: seq<EnvResult>) returns (entries: seq<Entry>)
    ensures multiset(entries) == MarkedEntries(envs, |envs|) && InOrder(entries)
  {
    entries := [];
    for i := 0 to |envs|
      invariant multiset(entries) == MarkedEntries(envs, i)
    {
      entries := PushMarked(entries, envs, i);
    }
    SortedKeeps(entries);
    SortedInOrder(entries);
    entries := Sorted(entries);
  }

  /** What was pushed for the first environments, and some names of the next one. */
  ghost predicate Pushed(envs: seq<EnvResult>, i: nat, done: set<PackageName>, entries: seq<Entry>)
    requires i < |envs| && done <= envs[i].packages.Keys
  {
    && AsSet(Retained(entries)) == FirstEntries(envs, i) + EnvEntries(envs, true, i, FirstNames(envs, i, done))
    && forall key :: key in KeysOf(entries) <==> KeyBefore(envs, i, key) || KeyAmong(envs, i, done, key)
  }

  ghost predicate KeyAmong(envs: seq<EnvResult>, i: nat, names: set<PackageName>, key: Key)
    requires i < |envs| && names <= envs[i].packages.Keys
  {
    key.name in names && KeyOf(EntryFor(envs, true, i, key.name)) == key
  }

  ghost predicate KeyBefore(envs: seq<EnvResult>, n: nat, key: Key)
    requires n <= |envs|
  {
    exists k :: 0 <= k < n && key.name in envs[k].packages && KeyOf(EntryFor(envs, true, k, key.name)) == key
  }

  lemma FirstNamesMore(envs: seq<EnvResult>, i: nat, done: set<PackageName>, name: PackageName)
    requires i < |envs| && done <= envs[i].packages.Keys && name in envs[i].packages && name !in done
    ensures FirstNames(envs, i, done + {name})
            == FirstNames(envs, i, done) + if IsFirst(envs, i, name) then {name} else {}
    ensures FirstNames(envs, i, done) <= done
  {
    hide IsFirst;
  }

  lemma KeyOfFirst(envs: seq<EnvResult>, i: nat, done: set<PackageName>, entries: seq<Entry>, name: PackageName)
    requires i < |envs| && done <= envs[i].packages.Keys && name in envs[i].packages && name !in done
    requires Pushed(envs, i, done, entries)
    ensures KeyOf(EntryFor(envs, true, i, name)) in KeysOf(entries) <==> !IsFirst(envs, i, name)
  {
    hide Retained, AsSet, FirstEntries, EnvEntries, KeysOf, FirstNames;
  }

  lemma PushedMore(envs: seq<EnvResult>, i: nat, done: set<PackageName>, entries: seq<Entry>, name: PackageName)
    requires i < |envs| && done <= envs[i].packages.Keys && name in envs[i].packages && name !in done
    requires Pushed(envs, i, done, entries)
    ensures Pushed(envs, i, done + {name}, entries + [EntryFor(envs, true, i, name)])
  {
    hide Retained, AsSet, FirstEntries, EnvEntries, KeysOf, FirstNames, IsFirst;
    var e := EntryFor(envs, true, i, name);
    var more := entries + [e];
    KeysOfMore(entries, e);
    RetainedMore(entries, e);
    AsSetMore(Retained(entries), e);
    KeyOfFirst(envs, i, done, entries, name);
    var names := FirstNames(envs, i, done);
    FirstNamesMore(envs, i, done, name);
    if IsFirst(envs, i, name) {
      EnvEntriesMore(envs, true, i, names, name);
      assert AsSet(Retained(more)) == FirstEntries(envs, i) + (EnvEntries(envs, true, i, names) + {e});
    } else {
      assert names + {} == names;
    }
    forall key ensures key in KeysOf(more) <==> KeyBefore(envs, i, key) || KeyAmong(envs, i, done + {name}, key) {
    }
  }

  /** Push the entries of one environment, unmarked where all environments agree. */
  method PushUnified(entries0: seq<Entry>, envs: seq<EnvResult>, i: nat) returns (entries: seq<Entry>)
    requires i < |envs| && Pushed(envs, i, {}, entries0)
    ensures Pushed(envs, i, envs[i].packages.Keys, entries)
  {
    hide Pushed;
    entries := entries0;
    var todo, done := envs[i].packages.Keys, {};
    while todo != {}
      invariant todo !! done && todo + done == envs[i].packages.Keys && Pushed(envs, i, done, entries)
      decreases |todo|
    {
      var name :| name in todo;
      PushedMore(envs, i, done, entries, name);
      var version := envs[i].packages[name].version;
      var marker := if SameEverywhere(envs, name, version) then None else Some(envs[i].marker);
      entries := entries + [Entry(name, version, marker, envs[i].packages[name].wheels)];
      todo, done := todo - {name}, done + {name};
    }
    assert done == envs[i].packages.Keys;
  }

  lemma PushedFirst(envs: seq<EnvResult>)
    requires |envs| > 0
    ensures Pushed(envs, 0, {}, [])
  {
  }

  lemma PushedNext(envs: seq<EnvResult>, i: nat, entries: seq<Entry>)
    requires i < |envs| && Pushed(envs, i, envs[i].packages.Keys, entries)
    ensures AsSet(Retained(entries)) == FirstEntries(envs, i + 1)
    ensures i + 1 < |envs| ==> Pushed(envs, i + 1, {}, entries)
  {
    if i + 1 < |envs| {
      assert EnvEntries(envs, true, i + 1, FirstNames(envs, i + 1, {})) == {};
      hide Retained, AsSet, KeysOf, IsFirst, FirstNames, EnvEntries, FirstEntries;
      forall key
        ensures KeyBefore(envs, i + 1, key) <==>
             KeyBefore(envs, i, key) || KeyAmong(envs, i, envs[i].packages.Keys, key)
      {
        if KeyAmong(envs, i, envs[i].packages.Keys, key) {
          assert key.name in envs[i].packages && KeyOf(EntryFor(envs, true, i, key.name)) == key;
        }
      }
    }
  }

  /** Keep the first entry of each kind, in place of the list. */
  method Retain(entries: seq<Entry>) returns (kept: seq<Entry>)
    ensures kept == Retained(entries)
  {
    kept := [];
    var seen: set<Key> := {};
    for i := 0 to |entries|
      invariant kept == Retained(entries[..i]) && seen == KeysOf(entries[..i])
    {
      assert entries[..i + 1] == entries[..i] + [entries[i]];
      RetainedMore(entries[..i], entries[i]);
      KeysOfMore(entries[..i], entries[i]);
      if KeyOf(entries[i]) !in seen {
        seen := seen + {KeyOf(entries[i])};
        kept := kept + [entries[i]];
      }
    }
    assert entries[..|entries|] == entries;
  }

  method MergeFewest(envs: seq<EnvResult>) returns (entries: seq<Entry>)
    ensures multiset(entries) == FewestEntries(envs) && InOrder(entries)
  {
    hide Pushed, Retained, AsSet, FirstEntries;
    if |envs| == 0 {
      return [];
    }
    if |envs| == 1 {
      entries := MergeRequiresPython(envs);
      return;
    }
    entries := [];
    PushedFirst(envs);
    for i := 0 to |envs|
      invariant i < |envs| ==> Pushed(envs, i, {}, entries)
      invariant i == |envs| ==> AsSet(Retained(entries)) == FirstEntries(envs, |envs|)
    {
      entries := PushUnified(entries, envs, i);
      PushedNext(envs, i, entries);
    }
    RetainedOnce(entries);
    entries := Retain(entries);
    SortedKeeps(entries);
    SortedInOrder(entries);
    entries := Sorted(entries);
  }

  function MergedEntries(envs: seq<EnvResult>, strategy: ForkStrategy): multiset<Entry> {
    if strategy.Fewest? then FewestEntries(envs) else MarkedEntries(envs, |envs|)
  }

  method MergeUniversal(envs: seq<EnvResult>, strategy: ForkStrategy) returns (entries: seq<Entry>)
    ensures multiset(entries) == MergedEntries(envs, strategy)
    ensures InOrder(entries)
  {
    match strategy
    case RequiresPython => entries := MergeRequiresPython(envs);
    case Fewest => entries := MergeFewest(envs);
  }

  // -- What an environment gets ----------------------------------------------------------

  /** Every marker holds in its own environment and in no other. */
  ghost predicate Exclusive(envs: seq<EnvResult>, holds: (nat, Marker) -> bool) {
    forall i, j :: 0 <= i < |envs| && 0 <= j < |envs| ==> (holds(j, envs[i].marker) <==> i == j)
  }

  predicate Applies(e: Entry, j: nat, holds: (nat, Marker) -> bool) {
    e.marker.None? || holds(j, e.marker.value)
  }

  /** The applicable entries are exactly the resolution of the environment, one for each of
      its packages. */
  ghost predicate Reproduces(entries: multiset<Entry>, env: EnvResult, j: nat, holds: (nat, Marker) -> bool) {
    && (forall e :: e in entries && Applies(e, j, holds) ==>
          && entries[e] == 1 && e.name in env.packages && e.version == env.packages[e.name].version
          && (e.marker.Some? ==> e.wheels == env.packages[e.name].wheels))
    && (forall name :: name in env.packages ==> exists e :: e in entries && Applies(e, j, holds) && e.name == name)
    && (forall e, e' ::
          e in entries && e' in entries && Applies(e, j, holds) && Applies(e', j, holds) && e.name == e'.name ==>
            e == e')
  }

  ghost predicate IsMarkedEntry(envs: seq<EnvResult>, n: nat, e: Entry)
    requires n <= |envs|
  {
    exists i :: 0 <= i < n && e.name in envs[i].packages && e == EntryFor(envs, false, i, e.name)
  }

  lemma MarkersDiffer(envs: seq<EnvResult>, holds: (nat, Marker) -> bool)
    requires Exclusive(envs, holds)
    ensures forall i, j :: 0 <= i < j < |envs| ==> envs[i].marker != envs[j].marker
  {
    forall i, j | 0 <= i < j < |envs| ensures envs[i].marker != envs[j].marker {
      assert holds(j, envs[j].marker) && !holds(j, envs[i].marker);
    }
  }

  lemma {:induction false} MarkedMembers(envs: seq<EnvResult>, n: nat, holds: (nat, Marker) -> bool, e: Entry)
    requires n <= |envs| && Exclusive(envs, holds)
    ensures MarkedEntries(envs, n)[e] == if IsMarkedEntry(envs, n, e) then 1 else 0
  {
    if n > 0 {
      MarkedMembers(envs, n - 1, holds, e);
      var here := EnvEntries(envs, false, n - 1, envs[n - 1].packages.Keys);
      if e in here {
        MarkersDiffer(envs, holds);
        assert forall i :: 0 <= i < n - 1 ==> envs[i].marker != envs[n - 1].marker;
      }
      assert IsMarkedEntry(envs, n, e) <==> IsMarkedEntry(envs, n - 1, e) || e in here;
    }
  }

  lemma MarkedReproduces(envs: seq<EnvResult>, holds: (nat, Marker) -> bool, j: nat)
    requires Exclusive(envs, holds) && j < |envs|
    ensures Reproduces(MarkedEntries(envs, |envs|), envs[j], j, holds)
  {
    var entries := MarkedEntries(envs, |envs|);
    forall e ensures entries[e] == if IsMarkedEntry(envs, |envs|, e) then 1 else 0 {
      MarkedMembers(envs, |envs|, holds, e);
    }
    forall e | e in entries && Applies(e, j, holds)
      ensures entries[e] == 1 && e.name in envs[j].packages && e == EntryFor(envs, false, j, e.name)
    {
      var i :| 0 <= i < |envs| && e.name in envs[i].packages && e == EntryFor(envs, false, i, e.name);
      assert holds(j, envs[i].marker) <==> i == j;
    }
    forall name | name in envs[j].packages ensures exists e :: e in entries && Applies(e, j, holds) && e.name == name {
      var e := EntryFor(envs, false, j, name);
      assert IsMarkedEntry(envs, |envs|, e) && holds(j, envs[j].marker);
      assert e in entries && Applies(e, j, holds);
    }
  }

  ghost predicate IsFirstEntry(envs: seq<EnvResult>, n: nat, e: Entry)
    requires n <= |envs|
  {
    exists i :: 0 <= i < n && e.name in envs[i].packages && IsFirst(envs, i, e.name)
        && e == EntryFor(envs, true, i, e.name)
  }

  lemma {:induction false} FirstMembers(envs: seq<EnvResult>, n: nat, e: Entry)
    requires n <= |envs|
    ensures e in FirstEntries(envs, n) <==> IsFirstEntry(envs, n, e)
  {
    if n > 0 {
      FirstMembers(envs, n - 1, e);
      var here := EnvEntries(envs, true, n - 1, FirstNames(envs, n - 1, envs[n - 1].packages.Keys));
      assert e in here <==>
             e.name in envs[n - 1].packages && IsFirst(envs, n - 1, e.name) && e == EntryFor(envs, true, n - 1, e.name);
    }
  }

  /** Where the environments agree the first one speaks for all, elsewhere each for itself. */
  lemma FirstByMarker(envs: seq<EnvResult>, holds: (nat, Marker) -> bool, i: nat, name: PackageName)
    requires Exclusive(envs, holds) && i < |envs| && name in envs[i].packages
    ensures IsFirst(envs, i, name) <==> i == 0 || !SameEverywhere(envs, name, envs[i].packages[name].version)
  {
    MarkersDiffer(envs, holds);
    if i > 0 && SameEverywhere(envs, name, envs[i].packages[name].version) {
      assert name in envs[0].packages && KeyOf(EntryFor(envs, true, 0, name)) == KeyOf(EntryFor(envs, true, i, name));
    }
  }

  lemma FewestApplies(envs: seq<EnvResult>, holds: (nat, Marker) -> bool, j: nat, e: Entry)
    requires Exclusive(envs, holds) && j < |envs| && IsFirstEntry(envs, |envs|, e) && Applies(e, j, holds)
    ensures e.name in envs[j].packages && e.version == envs[j].packages[e.name].version
    ensures e == if SameEverywhere(envs, e.name, e.version) then EntryFor(envs, true, 0, e.name)
            else EntryFor(envs, true, j, e.name)
  {
    var i :| 0 <= i < |envs| && e.name in envs[i].packages && IsFirst(envs, i, e.name)
        && e == EntryFor(envs, true, i, e.name);
    FirstByMarker(envs, holds, i, e.name);
    assert holds(j, envs[i].marker) <==> i == j;
  }

  lemma FewestCovers(envs: seq<EnvResult>, holds: (nat, Marker) -> bool, j: nat, name: PackageName)
    requires Exclusive(envs, holds) && j < |envs| && name in envs[j].packages
    ensures exists e :: IsFirstEntry(envs, |envs|, e) && Applies(e, j, holds) && e.name == name
  {
    var version := envs[j].packages[name].version;
    var i := if SameEverywhere(envs, name, version) then 0 else j;
    assert SameEverywhere(envs, name, version) ==> name in envs[0].packages;
    FirstByMarker(envs, holds, i, name);
    var e := EntryFor(envs, true, i, name);
    assert holds(j, envs[j].marker);
    assert IsFirstEntry(envs, |envs|, e) && Applies(e, j, holds);
  }

  lemma FewestReproduces(envs: seq<EnvResult>, holds: (nat, Marker) -> bool, j: nat)
    requires Exclusive(envs, holds) && j < |envs|
    ensures Reproduces(FewestEntries(envs), envs[j], j, holds)
  {
    if |envs| < 2 {
      MarkedReproduces(envs, holds, j);
    } else {
      var entries := multiset(FirstEntries(envs, |envs|));
      forall e ensures e in entries <==> IsFirstEntry(envs, |envs|, e) {
        FirstMembers(envs, |envs|, e);
      }
      forall e | e in entries && Applies(e, j, holds)
        ensures entries[e] == 1 && e.name in envs[j].packages && e.version == envs[j].packages[e.name].version
        ensures e == if SameEverywhere(envs, e.name, e.version) then EntryFor(envs, true, 0, e.name)
                else EntryFor(envs, true, j, e.name)
      {
        FewestApplies(envs, holds, j, e);
      }
      forall name | name in envs[j].packages
        ensures exists e :: e in entries && Applies(e, j, holds) && e.name == name
      {
        FewestCovers(envs, holds, j, name);
      }
    }
  }

  /** Under both strategies, filtering the merged entries for an environment gives exactly its
      own resolution. */
  lemma MergeReproduces(envs: seq<EnvResult>, holds: (nat, Marker) -> bool, j: nat, strategy: ForkStrategy)
    requires Exclusive(envs, holds) && j < |envs|
    ensures Reproduces(MergedEntries(envs, strategy), envs[j], j, holds)
  {
    MarkedReproduces(envs, holds, j);
    FewestReproduces(envs, holds, j);
  }

  /** An unmarked entry stands for a package exactly when there are several environments and
      all of them chose the same version; it has the wheels of the first one. */
  lemma UnmarkedExactly(envs: seq<EnvResult>, name: PackageName)
    ensures (exists e :: e in FewestEntries(envs) && e.name == name && e.marker.None?) <==>
            |envs| >= 2 && exists version :: SameEverywhere(envs, name, version)
    ensures forall e :: e in FewestEntries(envs) && e.marker.None? ==>
              e.name in envs[0].packages && e.wheels == envs[0].packages[e.name].wheels
  {
    if |envs| < 2 {
      forall e | e in FewestEntries(envs) ensures e.marker.Some? {
        MarkedIsMarked(envs, |envs|, e);
      }
    } else {
      forall e ensures e in FewestEntries(envs) <==> IsFirstEntry(envs, |envs|, e) {
        FirstMembers(envs, |envs|, e);
      }
      forall e | IsFirstEntry(envs, |envs|, e) && e.marker.None?
        ensures SameEverywhere(envs, e.name, e.version) && e == EntryFor(envs, true, 0, e.name)
      {
        UnmarkedIsFirst(envs, e);
      }
      if version :| SameEverywhere(envs, name, version) {
        assert name in envs[0].packages && IsFirst(envs, 0, name);
        var e := EntryFor(envs, true, 0, name);
        assert IsFirstEntry(envs, |envs|, e) && e.marker.None?;
      }
    }
  }

  lemma UnmarkedIsFirst(envs: seq<EnvResult>, e: Entry)
    requires |envs| > 0 && IsFirstEntry(envs, |envs|, e) && e.marker.None?
    ensures SameEverywhere(envs, e.name, e.version) && e == EntryFor(envs, true, 0, e.name)
  {
    var i :| 0 <= i < |envs| && e.name in envs[i].packages && IsFirst(envs, i, e.name)
        && e == EntryFor(envs, true, i, e.name);
    assert e.name in envs[0].packages && KeyOf(EntryFor(envs, true, 0, e.name)) == KeyOf(e);
  }

  lemma {:induction false} MarkedIsMarked(envs: seq<EnvResult>, n: nat, e: Entry)
    requires n <= |envs| && e in MarkedEntries(envs, n)
    ensures e.marker.Some?
  {
    if n > 0 && e in MarkedEntries(envs, n - 1) {
      MarkedIsMarked(envs, n - 1, e);
    }
  }
}
