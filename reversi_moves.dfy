/** What `valid_moves` and `can_play` compute: exactly the legal cells, in
    row-major order. */
module ReversiMoveList {
  import opened ReversiRules

  predicate RowMajor(s: seq<Move>)
  {
    forall p, q :: 0 <= p < q < |s| ==> Before(s[p], s[q])
  }

  lemma {:induction false} RowMovesSpec(g: Grid, n: nat, c: Color, i: int, j: nat)
    requires IsSquare(g, n) && 0 <= i < n && j <= n
    ensures forall m :: m in RowMoves(g, n, c, i, j) <==>
              m.y == i && 0 <= m.x < j && Check(g, n, c, m.x, i)
    ensures RowMajor(RowMoves(g, n, c, i, j))
  {
    if j > 0 {
      RowMovesSpec(g, n, c, i, j - 1);
      var prev := RowMoves(g, n, c, i, j - 1);
      var s := RowMoves(g, n, c, i, j);
      if Check(g, n, c, j - 1, i) {
        assert s == prev + [At(i, j - 1)];
        forall p, q | 0 <= p < q < |s| ensures Before(s[p], s[q]) {
          if q == |s| - 1 {
            assert s[p] in prev;
          } else {
            assert s[p] == prev[p] && s[q] == prev[q];
          }
        }
      } else {
        assert s == prev;
      }
    }
  }

  lemma {:induction false} MovesUpToSpec(g: Grid, n: nat, c: Color, i: nat)
    requires IsSquare(g, n) && i <= n
    ensures forall m :: m in MovesUpTo(g, n, c, i) <==>
              0 <= m.y < i && 0 <= m.x < n && Check(g, n, c, m.x, m.y)
    ensures RowMajor(MovesUpTo(g, n, c, i))
  {
    if i > 0 {
      MovesUpToSpec(g, n, c, i - 1);
      RowMovesSpec(g, n, c, i - 1, n);
      var prev := MovesUpTo(g, n, c, i - 1);
      var row := RowMoves(g, n, c, i - 1, n);
      var s := MovesUpTo(g, n, c, i);
      assert s == prev + row;
      forall p, q | 0 <= p < q < |s| ensures Before(s[p], s[q]) {
        if q < |prev| {
          assert s[p] == prev[p] && s[q] == prev[q];
        } else if p < |prev| {
          assert s[p] in prev;
          assert s[q] == row[q - |prev|];
          assert s[q] in row;
        } else {
          assert s[p] == row[p - |prev|] && s[q] == row[q - |prev|];
        }
      }
    }
  }

  /** `valid_moves(color)` holds a cell iff `check` holds there, lists the
      cells in row-major order, and so has no duplicates. */
  lemma ValidMovesSpec(g: Grid, n: nat, c: Color)
    requires IsSquare(g, n)
    ensures forall m :: m in ValidMoves(g, n, c) <==>
              Inside(n, m.y, m.x) && Check(g, n, c, m.x, m.y)
    ensures RowMajor(ValidMoves(g, n, c))
  {
    MovesUpToSpec(g, n, c, n);
  }

  /** `can_play(color)` can be answered from `valid_moves(color)`. */
  lemma CanPlayIffSomeMove(g: Grid, n: nat, c: Color)
    requires IsSquare(g, n)
    ensures ValidMoves(g, n, c) != [] <==>
              exists y, x :: Inside(n, y, x) && Check(g, n, c, x, y)
  {
    ValidMovesSpec(g, n, c);
    var vm := ValidMoves(g, n, c);
    if vm != [] {
      assert vm[0] in vm;
    }
    if exists y, x :: Inside(n, y, x) && Check(g, n, c, x, y) {
      var y, x :| Inside(n, y, x) && Check(g, n, c, x, y);
      assert At(y, x) in ValidMoves(g, n, c);
    }
  }
}
