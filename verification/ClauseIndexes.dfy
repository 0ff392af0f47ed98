/** The stored incompatibilities and the two-watched-literals index over them. */
module ClauseIndexes {
  import opened Incompatibilities
  import opened Justifications
  import opened Problems

  /** Cap on learned incompatibilities kept in the watch index. */
  const MAX_LEARNED_WATCHED: nat := 10_000

  type WatchLists = map<PackageId, seq<nat>>

  function ListOf(watches: WatchLists, p: PackageId): seq<nat> {
    if p in watches then watches[p] else []
  }

  function AddedWatch(watches: WatchLists, p: PackageId, id: nat): WatchLists {
    watches[p := ListOf(watches, p) + [id]]
  }

  /** The last element takes the place of the removed one. */
  function SwapRemoved(list: seq<nat>, pos: nat): seq<nat>
    requires pos < |list|
  {
    list[pos := list[|list| - 1]][..|list| - 1]
  }

  function Position(list: seq<nat>, id: nat): (pos: nat)
    ensures pos <= |list|
    ensures pos < |list| ==> list[pos] == id
    ensures pos == |list| <==> id !in list
  {
    if list == [] || list[0] == id then 0 else 1 + Position(list[1..], id)
  }

  function RemovedWatch(watches: WatchLists, p: PackageId, id: nat): WatchLists {
    if id in ListOf(watches, p) then watches[p := SwapRemoved(watches[p], Position(watches[p], id))] else watches
  }

  /** Two removals and two additions that count equal packages once. */
  function AddedWatches(watches: WatchLists, id: nat, a: PackageId, b: PackageId): WatchLists {
    if a == b then AddedWatch(watches, a, id) else AddedWatch(AddedWatch(watches, a, id), b, id)
  }

  function RemovedWatches(watches: WatchLists, id: nat, a: PackageId, b: PackageId): WatchLists {
    if a == b then RemovedWatch(watches, a, id) else RemovedWatch(RemovedWatch(watches, a, id), b, id)
  }

  datatype ClauseIndex = ClauseIndex(
    store: Store,
    watches: WatchLists,
    watched: seq<(PackageId, PackageId)>,
    learned: seq<nat>)
  {
    predicate Watches(id: nat, p: PackageId) {
      id < |watched| && (watched[id].0 == p || watched[id].1 == p)
    }

    /** Learned incompatibilities are forgotten once they leave the queue. */
    predicate Live(id: nat) {
      id < |store| && (store[id].kind.Derived? ==> id in learned)
    }

    function Pushed(inc: Incompatibility, a: PackageId, b: PackageId): ClauseIndex {
      ClauseIndex(
        store + [inc],
        AddedWatches(watches, |store|, a, b),
        watched + [(a, b)],
        if inc.kind.Derived? then learned + [|store|] else learned)
    }

    /** Drop the watches of the oldest learned incompatibility. */
    function Forgot(): ClauseIndex
      requires 0 < |learned| && learned[0] < |watched|
    {
      var (a, b) := watched[learned[0]];
      this.(watches := RemovedWatches(watches, learned[0], a, b), learned := learned[1..])
    }

    function Rewatched(id: nat, a: PackageId, b: PackageId): ClauseIndex
      requires id < |watched|
    {
      if watched[id] == (a, b) || watched[id] == (b, a) then this
      else
        this.(watches := AddedWatches(RemovedWatches(watches, id, watched[id].0, watched[id].1), id, a, b),
              watched := watched[id := (a, b)])
    }
  }

  const EMPTY_INDEX: ClauseIndex := ClauseIndex([], map[], [], [])

  // -- Lists as sets of pairs ------------------------------------------------------------

  ghost predicate NoDuplicates(list: seq<nat>) {
    forall i, j :: 0 <= i < j < |list| ==> list[i] != list[j]
  }

  /** The lists hold exactly the pairs of a set, each once. */
  ghost predicate Represents(watches: WatchLists, pairs: iset<(PackageId, nat)>) {
    && (forall p: PackageId, id: nat :: id in ListOf(watches, p) <==> (p, id) in pairs)
    && (forall p: PackageId :: NoDuplicates(ListOf(watches, p)))
  }

  lemma AddRepresents(watches: WatchLists, pairs: iset<(PackageId, nat)>, p: PackageId, id: nat)
    requires Represents(watches, pairs) && (p, id) !in pairs
    ensures Represents(AddedWatch(watches, p, id), pairs + iset{(p, id)})
  {
    var watches' := AddedWatch(watches, p, id);
    forall q: PackageId
      ensures ListOf(watches', q) ==
           if q == p then ListOf(watches, p) + [id] else ListOf(watches, q)
    {
    }
    assert id !in ListOf(watches, p);
  }

  lemma SwapRemovedContents(list: seq<nat>, pos: nat)
    requires pos < |list| && NoDuplicates(list)
    ensures NoDuplicates(SwapRemoved(list, pos))
    ensures forall id :: id in SwapRemoved(list, pos) <==> id in list && id != list[pos]
  {
    var r := SwapRemoved(list, pos);
    forall id | id in list && id != list[pos] ensures id in r {
      var i :| 0 <= i < |list| && list[i] == id;
      assert if i == |list| - 1 then r[pos] == id else r[i] == id;
    }
    forall id | id in r ensures id in list && id != list[pos] {
      var i :| 0 <= i < |r| && r[i] == id;
      assert id == list[if i == pos then |list| - 1 else i];
    }
  }

  lemma RemoveRepresents(watches: WatchLists, pairs: iset<(PackageId, nat)>, p: PackageId, id: nat)
    requires Represents(watches, pairs)
    ensures Represents(RemovedWatch(watches, p, id), pairs - iset{(p, id)})
  {
    if id in ListOf(watches, p) {
      var watches' := RemovedWatch(watches, p, id);
      SwapRemovedContents(watches[p], Position(watches[p], id));
      forall q: PackageId
        ensures ListOf(watches', q) ==
             if q == p then SwapRemoved(watches[p], Position(watches[p], id)) else ListOf(watches, q)
      {
      }
    }
  }

  lemma AddTwoRepresents(watches: WatchLists, pairs: iset<(PackageId, nat)>, id: nat, a: PackageId, b: PackageId)
    requires Represents(watches, pairs) && (a, id) !in pairs && (b, id) !in pairs
    ensures Represents(AddedWatches(watches, id, a, b), pairs + iset{(a, id), (b, id)})
  {
    AddRepresents(watches, pairs, a, id);
    if a == b {
      assert pairs + iset{(a, id), (b, id)} == pairs + iset{(a, id)};
    } else {
      AddRepresents(AddedWatch(watches, a, id), pairs + iset{(a, id)}, b, id);
      assert pairs + iset{(a, id), (b, id)} == pairs + iset{(a, id)} + iset{(b, id)};
    }
  }

  lemma RemoveTwoRepresents(watches: WatchLists, pairs: iset<(PackageId, nat)>, id: nat, a: PackageId, b: PackageId)
    requires Represents(watches, pairs)
    ensures Represents(RemovedWatches(watches, id, a, b), pairs - iset{(a, id), (b, id)})
  {
    RemoveRepresents(watches, pairs, a, id);
    if a == b {
      assert pairs - iset{(a, id), (b, id)} == pairs - iset{(a, id)};
    } else {
      RemoveRepresents(RemovedWatch(watches, a, id), pairs - iset{(a, id)}, b, id);
      assert pairs - iset{(a, id), (b, id)} == pairs - iset{(a, id)} - iset{(b, id)};
    }
  }

  // -- Consistency of the index ----------------------------------------------------------

  ghost function Pairs(ix: ClauseIndex): iset<(PackageId, nat)> {
    iset p: PackageId, id: nat | ix.Live(id) && ix.Watches(id, p) :: (p, id)
  }

  /** Every live incompatibility is listed once under each package it watches and nowhere
      else; it watches packages of its own terms; the queue holds distinct learned ones. */
  ghost predicate IndexOk(ix: ClauseIndex) {
    && |ix.watched| == |ix.store|
    && Represents(ix.watches, Pairs(ix))
    && (forall id :: 0 <= id < |ix.store| ==>
         ix.watched[id].0 in ix.store[id].terms && ix.watched[id].1 in ix.store[id].terms)
    && QueueOk(ix)
  }

  ghost predicate QueueOk(ix: ClauseIndex) {
    && (forall i :: 0 <= i < |ix.learned| ==> ix.learned[i] < |ix.store| && ix.store[ix.learned[i]].kind.Derived?)
    && NoDuplicates(ix.learned)
  }

  lemma PushedQueueOk(ix: ClauseIndex, inc: Incompatibility, a: PackageId, b: PackageId)
    requires QueueOk(ix)
    ensures QueueOk(ix.Pushed(inc, a, b))
    ensures forall id: nat :: ix.Pushed(inc, a, b).Live(id) <==> ix.Live(id) || id == |ix.store|
  {
    var ix', n := ix.Pushed(inc, a, b), |ix.store|;
    assert n !in ix.learned;
    assert ix'.learned != ix.learned ==> ix'.learned[|ix.learned|] == n;
    forall id: nat ensures ix'.Live(id) <==> ix.Live(id) || id == n {
      assert id < n ==> ix'.store[id] == ix.store[id];
    }
  }

  lemma PushedPairs(ix: ClauseIndex, inc: Incompatibility, a: PackageId, b: PackageId)
    requires QueueOk(ix) && |ix.watched| == |ix.store|
    ensures Pairs(ix.Pushed(inc, a, b)) == Pairs(ix) + iset{(a, |ix.store|), (b, |ix.store|)}
  {
    var ix', n := ix.Pushed(inc, a, b), |ix.store|;
    PushedQueueOk(ix, inc, a, b);
    forall p: PackageId, id: nat
      ensures (p, id) in Pairs(ix') <==> (p, id) in Pairs(ix) || (p, id) == (a, n) || (p, id) == (b, n)
    {
      if id < n {
        assert ix'.watched[id] == ix.watched[id];
        assert ix'.Watches(id, p) <==> ix.Watches(id, p);
      } else if id == n {
        assert ix'.watched[n] == (a, b);
        assert ix'.Watches(n, p) <==> p == a || p == b;
      }
    }
  }

  lemma PushedOk(ix: ClauseIndex, inc: Incompatibility, a: PackageId, b: PackageId)
    requires IndexOk(ix) && a in inc.terms && b in inc.terms
    ensures IndexOk(ix.Pushed(inc, a, b))
    ensures forall id: nat :: ix.Pushed(inc, a, b).Live(id) <==> ix.Live(id) || id == |ix.store|
  {
    var ix', n := ix.Pushed(inc, a, b), |ix.store|;
    AddTwoRepresents(ix.watches, Pairs(ix), n, a, b);
    PushedQueueOk(ix, inc, a, b);
    PushedPairs(ix, inc, a, b);
  }

  lemma ForgotQueueOk(ix: ClauseIndex)
    requires IndexOk(ix) && 0 < |ix.learned|
    ensures ix.learned[0] < |ix.watched| && QueueOk(ix.Forgot())
    ensures forall id: nat :: ix.Forgot().Live(id) <==> ix.Live(id) && id != ix.learned[0]
  {
    var old' := ix.learned[0];
    assert ix.learned == [old'] + ix.learned[1..];
    assert forall i :: 1 <= i < |ix.learned| ==> ix.learned[i] == ix.learned[1..][i - 1];
    assert old' !in ix.learned[1..];
  }

  /** Forgetting removes exactly the oldest learned incompatibility from the lists. */
  lemma ForgotOk(ix: ClauseIndex)
    requires IndexOk(ix) && 0 < |ix.learned|
    ensures ix.learned[0] < |ix.watched| && IndexOk(ix.Forgot())
    ensures forall id: nat :: ix.Forgot().Live(id) <==> ix.Live(id) && id != ix.learned[0]
  {
    ForgotQueueOk(ix);
    var ix', old' := ix.Forgot(), ix.learned[0];
    var (a, b) := ix.watched[old'];
    RemoveTwoRepresents(ix.watches, Pairs(ix), old', a, b);
    forall p: PackageId, id: nat
      ensures (p, id) in Pairs(ix') <==> (p, id) in Pairs(ix) && (p, id) != (a, old') && (p, id) != (b, old')
    {
      assert ix'.Watches(id, p) <==> ix.Watches(id, p);
    }
    assert Pairs(ix') == Pairs(ix) - iset{(a, old'), (b, old')};
  }

  lemma RewatchedPairs(ix: ClauseIndex, id: nat, a: PackageId, b: PackageId)
    requires |ix.watched| == |ix.store| && ix.Live(id) && ix.Rewatched(id, a, b) != ix
    ensures Pairs(ix.Rewatched(id, a, b)) ==
            Pairs(ix) - iset{(ix.watched[id].0, id), (ix.watched[id].1, id)} + iset{(a, id), (b, id)}
  {
    var ix' := ix.Rewatched(id, a, b);
    var (oldA, oldB) := ix.watched[id];
    forall p: PackageId, i: nat
      ensures (p, i) in Pairs(ix') <==>
              ((p, i) in Pairs(ix) && (p, i) != (oldA, id) && (p, i) != (oldB, id)) || (p, i) == (a, id)
                  || (p, i) == (b, id)
    {
      assert ix'.Live(i) <==> ix.Live(i);
      if i == id {
        assert ix'.Watches(id, p) <==> p == a || p == b;
        assert ix.Watches(id, p) <==> p == oldA || p == oldB;
      } else {
        assert ix'.Watches(i, p) <==> ix.Watches(i, p);
      }
    }
  }

  lemma RewatchedOk(ix: ClauseIndex, id: nat, a: PackageId, b: PackageId)
    requires IndexOk(ix) && ix.Live(id) && a in ix.store[id].terms && b in ix.store[id].terms
    ensures IndexOk(ix.Rewatched(id, a, b))
    ensures ix.Rewatched(id, a, b).Watches(id, a) && ix.Rewatched(id, a, b).Watches(id, b)
    ensures forall i: nat :: ix.Rewatched(id, a, b).Live(i) <==> ix.Live(i)
  {
    var ix' := ix.Rewatched(id, a, b);
    if ix' != ix {
      var (oldA, oldB) := ix.watched[id];
      var rest := Pairs(ix) - iset{(oldA, id), (oldB, id)};
      RemoveTwoRepresents(ix.watches, Pairs(ix), id, oldA, oldB);
      forall p: PackageId ensures (p, id) !in rest {
        assert ix.Watches(id, p) <==> p == oldA || p == oldB;
      }
      AddTwoRepresents(RemovedWatches(ix.watches, id, oldA, oldB), rest, id, a, b);
      RewatchedPairs(ix, id, a, b);
    }
  }

  predicate WatchesAll(ix: ClauseIndex, id: nat) {
    id < |ix.store| && forall p :: p in ix.store[id].terms ==> ix.Watches(id, p)
  }

  lemma OnlyTwo<T>(s: set<T>, a: T, b: T, x: T)
    requires |s| == 2 && a in s && b in s && a != b && x in s
    ensures x == a || x == b
  {
    var rest := s - {a} - {b};
    assert |rest| == 0;
    assert x !in rest;
  }

  /** An incompatibility of two terms, like a dependency, once watched on both sides stays so,
      whatever watches are moved, added or forgotten. */
  lemma PairStaysWatched(ix: ClauseIndex, id: nat, other: nat, a: PackageId, b: PackageId, inc: Incompatibility)
    requires IndexOk(ix) && id < |ix.store| && |ix.store[id].terms| == 2 && WatchesAll(ix, id)
    requires other < |ix.store| && a in ix.store[other].terms && b in ix.store[other].terms && a != b
    ensures WatchesAll(ix.Rewatched(other, a, b), id)
    ensures WatchesAll(ix.Pushed(inc, a, b), id)
    ensures 0 < |ix.learned| ==> OldestInRange(ix) && WatchesAll(ix.Forgot(), id)
  {
    var terms := ix.store[id].terms;
    assert |terms.Keys| == 2;
    if id == other {
      forall p | p in terms ensures p == a || p == b {
        OnlyTwo(terms.Keys, a, b, p);
      }
    }
  }

  predicate OldestInRange(ix: ClauseIndex) {
    0 < |ix.learned| && ix.learned[0] < |ix.watched|
  }
}
