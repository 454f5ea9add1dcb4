/** `Array.prototype.sort` on moves, which is a stable sort, as an
    insertion sort by a comparator. Both agents sort their candidate moves
    with it. */
module Sorting {
  import opened ReversiRules

  /** One step of a stable insertion sort: x goes after every element that
      does not compare greater than it. */
  function Insert(sorted: seq<Move>, x: Move, cmp: (Move, Move) -> int): (r: seq<Move>)
    ensures |r| == |sorted| + 1
  {
    if |sorted| == 0 then [x]
    else if cmp(sorted[|sorted| - 1], x) > 0 then
      Insert(sorted[..|sorted| - 1], x, cmp) + [sorted[|sorted| - 1]]
    else sorted + [x]
  }

  lemma {:induction false} InsertPermutes(sorted: seq<Move>, x: Move, cmp: (Move, Move) -> int)
    ensures multiset(Insert(sorted, x, cmp)) == multiset(sorted) + multiset{x}
  {
    if |sorted| > 0 && cmp(sorted[|sorted| - 1], x) > 0 {
      InsertPermutes(sorted[..|sorted| - 1], x, cmp);
      assert sorted == sorted[..|sorted| - 1] + [sorted[|sorted| - 1]];
    }
  }

  /** An element of the result is x or was already there. */
  lemma InsertMember(s: seq<Move>, x: Move, cmp: (Move, Move) -> int, y: Move)
    requires y in Insert(s, x, cmp)
    ensures y == x || y in s
  {
    InsertPermutes(s, x, cmp);
    assert y in multiset(Insert(s, x, cmp));
  }

  /** `Array.prototype.sort`, which is stable, as an insertion sort by the
      comparator. */
  function SortBy(s: seq<Move>, cmp: (Move, Move) -> int): (r: seq<Move>)
    ensures |r| == |s|
  {
    if |s| == 0 then [] else Insert(SortBy(s[..|s| - 1], cmp), s[|s| - 1], cmp)
  }

  /** Sorting only reorders. */
  lemma {:induction false} SortPermutes(s: seq<Move>, cmp: (Move, Move) -> int)
    ensures multiset(SortBy(s, cmp)) == multiset(s)
  {
    if |s| > 0 {
      SortPermutes(s[..|s| - 1], cmp);
      InsertPermutes(SortBy(s[..|s| - 1], cmp), s[|s| - 1], cmp);
      assert s == s[..|s| - 1] + [s[|s| - 1]];
    }
  }

  /** A stable sort by a comparator that ties everything keeps the order. */
  lemma {:induction false} SortTiesKeepOrder(s: seq<Move>, cmp: (Move, Move) -> int)
    requires forall a, b :: cmp(a, b) == 0
    ensures SortBy(s, cmp) == s
  {
    if |s| > 0 {
      SortTiesKeepOrder(s[..|s| - 1], cmp);
      assert s == s[..|s| - 1] + [s[|s| - 1]];
      if |s| > 1 {
        assert cmp(s[|s| - 2], s[|s| - 1]) == 0;
      }
    }
  }
}
