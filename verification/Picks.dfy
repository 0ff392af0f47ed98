/** The ranking of the packages that wait for a decision. */
module Picks {
  import opened Options
  import opened Problems
  import opened Terms

  const USIZE_MAX: nat := 0xFFFF_FFFF_FFFF_FFFF

  function PowerOfTwo(n: nat): nat {
    if n == 0 then 1 else 2 * PowerOfTwo(n - 1)
  }

  /** The largest floating point number. */
  function Greatest(): real {
    (0x1F_FFFF_FFFF_FFFF * PowerOfTwo(971)) as real
  }

  /** The fewer versions a package has left the sooner it is decided; the activity adds to that.
      A package whose versions are not known yet counts as having very many. */
  function Priority(counts: map<PackageId, nat>, scores: PackageId -> real, p: PackageId): real {
    var count := if p in counts then counts[p] else USIZE_MAX;
    (if count == 0 then Greatest() else 1.0 / count as real) + scores(p)
  }

  ghost predicate HighestAmong(counts: map<PackageId, nat>, scores: PackageId -> real, candidates: set<PackageId>,
                               p: PackageId) {
    p in candidates && forall q :: q in candidates ==> Priority(counts, scores, q) <= Priority(counts, scores, p)
  }

  /** The better of the best so far and another candidate. */
  function Better(counts: map<PackageId, nat>, scores: PackageId -> real, best: Option<PackageId>,
                  p: PackageId): PackageId {
    if best.None? || Priority(counts, scores, p) > Priority(counts, scores, best.value) then p else best.value
  }

  ghost predicate BestOf(counts: map<PackageId, nat>, scores: PackageId -> real, candidates: set<PackageId>,
                         best: Option<PackageId>) {
    if best.None? then candidates == {} else HighestAmong(counts, scores, candidates, best.value)
  }

  lemma BetterIsBest(counts: map<PackageId, nat>, scores: PackageId -> real, done: set<PackageId>,
                     best: Option<PackageId>,
                     p: PackageId)
    requires BestOf(counts, scores, done, best)
    ensures BestOf(counts, scores, done + {p}, Some(Better(counts, scores, best, p)))
  {
    hide Priority;
  }

  /** The best of the candidates; of equally good ones the first in the order of the walk. */
  method PickBest(candidates: map<PackageId, VS>, counts: map<PackageId, nat>, scores: PackageId -> real)
    returns (best: Option<PackageId>)
    ensures best.None? <==> candidates == map[]
    ensures best.Some? ==> HighestAmong(counts, scores, candidates.Keys, best.value)
  {
    hide HighestAmong, Better;
    best := None;
    var todo, done := candidates.Keys, {};
    while todo != {}
      invariant todo !! done && todo + done == candidates.Keys && BestOf(counts, scores, done, best)
      invariant best.None? <==> done == {}
      decreases |todo|
    {
      var p :| p in todo;
      BetterIsBest(counts, scores, done, best, p);
      best := Some(Better(counts, scores, best, p));
      todo, done := todo - {p}, done + {p};
    }
    assert done == candidates.Keys;
  }

  /** Note the version counts of the undecided packages whose data has arrived meanwhile. */
  method NoteArrivals(undecided: map<PackageId, VS>, arrived: map<PackageId, nat>, counts0: map<PackageId, nat>)
    returns (counts: map<PackageId, nat>)
    ensures forall p :: p in counts <==> p in counts0 || (p in undecided && p != ROOT && p in arrived)
    ensures forall p :: p in counts ==> counts[p] == if p in counts0 then counts0[p] else arrived[p]
  {
    counts := counts0;
    var todo, done := undecided.Keys, {};
    while todo != {}
      invariant todo !! done && todo + done == undecided.Keys
      invariant forall p :: p in counts <==> p in counts0 || (p in done && p != ROOT && p in arrived)
      invariant forall p :: p in counts ==> counts[p] == if p in counts0 then counts0[p] else arrived[p]
      decreases |todo|
    {
      var p :| p in todo;
      if p !in counts && p != ROOT && p in arrived {
        counts := counts[p := arrived[p]];
      }
      todo, done := todo - {p}, done + {p};
    }
    assert done == undecided.Keys;
  }

  // -- What ranks high -------------------------------------------------------------------

  lemma {:induction false} PowerPositive(n: nat)
    ensures PowerOfTwo(n) >= 1
  {
    if n > 0 {
      PowerPositive(n - 1);
    }
  }

  lemma GreatestIsLarge()
    ensures Greatest() > 1.0
  {
    hide PowerOfTwo;
    PowerPositive(971);
    assert 0x1F_FFFF_FFFF_FFFF * PowerOfTwo(971) >= 2;
  }

  lemma Reciprocals(m: nat, n: nat)
    requires 0 < m < n
    ensures 1.0 / m as real > 1.0 / n as real > 0.0
    ensures 1.0 / m as real <= 1.0
  {
    var x, y := m as real, n as real;
    assert 1.0 / x - 1.0 / y == (y - x) / (x * y);
    assert x * y > 0.0;
  }

  /** Fewer versions, none above all, rank higher at the same activity; so does more activity at
      the same number of versions. A package without data counts as having most. */
  lemma FewerVersionsFirst(counts: map<PackageId, nat>, scores: PackageId -> real, p: PackageId, q: PackageId)
    ensures p in counts && q in counts && counts[p] < counts[q] && scores(p) == scores(q) ==>
              Priority(counts, scores, p) > Priority(counts, scores, q)
    ensures p in counts && q !in counts && counts[p] < USIZE_MAX && scores(p) == scores(q) ==>
              Priority(counts, scores, p) > Priority(counts, scores, q)
    ensures (p in counts <==> q in counts) && (p in counts ==> counts[p] == counts[q]) && scores(p) > scores(q) ==>
              Priority(counts, scores, p) > Priority(counts, scores, q)
  {
    hide Greatest;
    GreatestIsLarge();
    var m, n := if p in counts then counts[p] else USIZE_MAX, if q in counts then counts[q] else USIZE_MAX;
    if 0 < m < n {
      Reciprocals(m, n);
    } else if 0 == m < n {
      Reciprocals(n, n + 1);
    }
  }
}
