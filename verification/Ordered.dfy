/** Iteration over a finite set of numbers in ascending order, as a `BTreeMap` does. */
module Ordered {

  lemma SmallestExists(s: set<nat>)
    requires s != {}
    ensures exists m :: m in s && forall x :: x in s ==> m <= x
  {
    var y :| y in s;
    if s - {y} != {} {
      SmallestExists(s - {y});
      var m :| m in s - {y} && forall x :: x in s - {y} ==> m <= x;
      assert forall x :: x in s ==> x in s - {y} || x == y;
      if y < m {
        assert forall x :: x in s ==> y <= x;
      } else {
        assert m in s && forall x :: x in s ==> m <= x;
      }
    } else {
      assert s == {y};
    }
  }

  function Smallest(s: set<nat>): (m: nat)
    requires s != {}
    ensures m in s && forall x :: x in s ==> m <= x
  {
    SmallestExists(s);
    var m :| m in s && forall x :: x in s ==> m <= x;
    m
  }

  /** Stated on the first two elements so that it unfolds one step at a time. */
  predicate StrictlyAscending(ks: seq<nat>) {
    |ks| <= 1 || (ks[0] < ks[1] && StrictlyAscending(ks[1..]))
  }

  lemma {:induction false} HeadIsLeast(ks: seq<nat>, k: nat)
    requires StrictlyAscending(ks) && k in ks
    ensures ks[0] <= k
  {
    if k != ks[0] {
      HeadIsLeast(ks[1..], k);
    }
  }

  lemma {:induction false} AscendingAt(ks: seq<nat>, i: nat, j: nat)
    requires StrictlyAscending(ks) && i < j < |ks|
    ensures ks[i] < ks[j]
  {
    if i == 0 {
      HeadIsLeast(ks[1..], ks[j]);
    } else {
      AscendingAt(ks[1..], i - 1, j - 1);
    }
  }

  /** What comes before a place is less, everything else is not. */
  lemma AroundPlace(ks: seq<nat>, i: nat)
    requires i < |ks| && forall j, k :: 0 <= j < k < |ks| ==> ks[j] < ks[k]
    ensures forall q :: q in ks[..i] ==> q < ks[i]
    ensures forall q :: q in ks && q !in ks[..i] ==> ks[i] <= q
  {
    assert forall j :: 0 <= j < i ==> ks[..i][j] == ks[j];
    assert forall j :: 0 <= j < i ==> ks[j] in ks[..i];
  }

  lemma {:induction false} AscendingAppend(ks: seq<nat>, m: nat)
    requires StrictlyAscending(ks) && forall k :: k in ks ==> k < m
    ensures StrictlyAscending(ks + [m])
  {
    if |ks| > 1 {
      assert forall k :: k in ks[1..] ==> k in ks;
      AscendingAppend(ks[1..], m);
      assert (ks + [m])[1..] == ks[1..] + [m];
    } else if |ks| == 1 {
      assert ks[0] in ks;
    }
  }

  /** The elements of a set, each once, in ascending order. */
  method Ascending(s: set<nat>) returns (ks: seq<nat>)
    ensures forall k :: k in ks <==> k in s
    ensures forall i, j :: 0 <= i < j < |ks| ==> ks[i] != ks[j]
    ensures StrictlyAscending(ks)
  {
    ks := [];
    var todo := s;
    while todo != {}
      invariant todo <= s
      invariant forall k :: k in ks <==> k in s && k !in todo
      invariant forall k, m :: k in ks && m in todo ==> k < m
      invariant forall i, j :: 0 <= i < j < |ks| ==> ks[i] != ks[j]
      invariant StrictlyAscending(ks)
      decreases |todo|
    {
      var m := Smallest(todo);
      AscendingAppend(ks, m);
      ks := ks + [m];
      todo := todo - {m};
    }
  }
}
