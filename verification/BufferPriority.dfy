/** selectBlockFromList: what the fold of compareBlock selects, and when the order of the list
    cannot matter. */
module BufferPriority {
  import opened Types
  import opened BufferView

  ghost predicate Siblings(list: seq<Block>) {
    forall x, y :: x in list && y in list ==> x.Prev() == y.Prev()
  }

  ghost predicate Unbeaten(x: Block, list: seq<Block>) {
    x in list && forall y :: y in list ==> !Beats(y, x)
  }

  lemma {:induction false} BestOfIsUnbeaten(list: seq<Block>)
    requires list != [] && Siblings(list)
    ensures Unbeaten(BestOf(list), list)
    ensures forall y :: y in list ==>
      var m, n := |BestOf(list).transactions|, |y.transactions|;
      m > n || (m == n && BestOf(list).header.timestamp <= y.header.timestamp)
  {
    if |list| == 1 {
    } else {
      var rest, last := list[..|list| - 1], list[|list| - 1];
      BestOfIsUnbeaten(rest);
      var best := BestOf(rest);
      CompareBlockByPriority(best, last);
      forall y | y in list
        ensures !Beats(y, BestOf(list))
      {
        assert y in rest || y == last;
        BeatsIsStrictWeakOrder(y, best, BestOf(list));
      }
    }
  }

  /** Moving an unbeaten member to the end makes it the result: ties go to the newcomer. */
  lemma LastUnbeatenWins(list: seq<Block>, i: nat) returns (p: seq<Block>)
    requires i < |list| && Siblings(list) && Unbeaten(list[i], list)
    ensures multiset(p) == multiset(list) && p != [] && BestOf(p) == list[i]
  {
    var rest := list[..i] + list[i + 1..];
    p := rest + [list[i]];
    assert list == list[..i] + [list[i]] + list[i + 1..];
    if rest != [] {
      assert forall y :: y in rest ==> y in list;
      BestOfIsUnbeaten(rest);
      assert p[..|p| - 1] == rest;
      CompareBlockByPriority(BestOf(rest), list[i]);
    }
  }

  ghost predicate SameInEveryOrder(list: seq<Block>)
    requires list != []
  {
    forall p: seq<Block> :: p != [] && multiset(p) == multiset(list) ==> BestOf(p) == BestOf(list)
  }

  lemma ReorderedBestIsUnbeaten(list: seq<Block>, p: seq<Block>)
    requires list != [] && p != [] && Siblings(list) && multiset(p) == multiset(list)
    ensures Unbeaten(BestOf(p), list)
  {
    assert forall x :: x in p <==> x in multiset(p);
    assert forall x :: x in list <==> x in multiset(list);
    BestOfIsUnbeaten(p);
  }

  /** Over siblings the result is the same for every order of the list exactly when the highest
      priority is held by one block. */
  lemma OrderIndependentExactly(list: seq<Block>)
    requires list != [] && Siblings(list)
    ensures SameInEveryOrder(list) <==> forall x, y :: Unbeaten(x, list) && Unbeaten(y, list) ==> x == y
  {
    if forall x, y :: Unbeaten(x, list) && Unbeaten(y, list) ==> x == y {
      forall p: seq<Block> | p != [] && multiset(p) == multiset(list)
        ensures BestOf(p) == BestOf(list)
      {
        ReorderedBestIsUnbeaten(list, p);
        ReorderedBestIsUnbeaten(list, list);
      }
    }
    if SameInEveryOrder(list) {
      forall x | Unbeaten(x, list)
        ensures x == BestOf(list)
      {
        var i :| 0 <= i < |list| && list[i] == x;
        var p := LastUnbeatenWins(list, i);
      }
    }
  }

  /** Distinct (transaction count, timestamp) keys are enough. */
  lemma DistinctKeysOrderIndependent(list: seq<Block>, p: seq<Block>)
    requires list != [] && Siblings(list) && multiset(p) == multiset(list) && p != []
    requires forall x, y :: x in list && y in list && x != y ==>
               (|x.transactions|, x.header.timestamp) != (|y.transactions|, y.header.timestamp)
    ensures BestOf(p) == BestOf(list)
  {
    OrderIndependentExactly(list);
    ReorderedBestIsUnbeaten(list, p);
    forall x, y | Unbeaten(x, list) && Unbeaten(y, list)
      ensures x == y
    {
      assert !Beats(x, y) && !Beats(y, x);
    }
  }
}
