/** The `Board` class of src/reversi.js: a square array of cells updated in
    place by `move`. Every method is proved to compute the board-value
    function of the same name in ReversiRules. */
module ReversiBoard {
  import opened ReversiRules
  import opened ReversiCapture
  import opened ReversiMoveList

  /** Two square boards with the same cells are the same board. */
  lemma MovesUpToStep(g: Grid, n: nat, c: Color, i: nat, moves: seq<Move>, row: seq<Move>)
    requires IsSquare(g, n) && i < n
    requires moves == MovesUpTo(g, n, c, i) && row == RowMoves(g, n, c, i, n)
    ensures moves + row == MovesUpTo(g, n, c, i + 1)
  {
  }

  lemma RowMovesStep(g: Grid, n: nat, c: Color, i: nat, j: nat, row: seq<Move>)
    requires IsSquare(g, n) && i < n && j < n && row == RowMoves(g, n, c, i, j)
    ensures RowMoves(g, n, c, i, j + 1) == row + if Check(g, n, c, j, i) then [At(i, j)] else []
  {
  }

  /** (r, q) is one of the cells at distance 1 to k - 1 from (y, x) along d. */
  predicate OnRun(y: int, x: int, d: Dir, k: int, r: int, q: int)
  {
    Aligned(y, x, r, q) && DirTo(y, x, r, q) == d && Dist(y, x, r, q) < k
  }

  lemma OnRunStep(y: int, x: int, d: Dir, k: int)
    requires IsUnit(d) && k >= 1
    ensures forall r, q :: OnRun(y, x, d, k + 1, r, q) <==>
              OnRun(y, x, d, k, r, q) || (r == Shift(y, d.dy, k) && q == Shift(x, d.dx, k))
  {
    RayPoint(y, x, d, k);
    forall r, q
      ensures OnRun(y, x, d, k + 1, r, q) <==>
              OnRun(y, x, d, k, r, q) || (r == Shift(y, d.dy, k) && q == Shift(x, d.dx, k))
    {
      if OnRun(y, x, d, k + 1, r, q) && !OnRun(y, x, d, k, r, q) {
        RayUnique(y, x, r, q);
      }
    }
  }

  lemma RunEndStep(g: Grid, n: nat, y: int, x: int, d: Dir, c: Color, k: nat)
    requires IsSquare(g, n) && k < n && Inside(n, Shift(y, d.dy, k), Shift(x, d.dx, k))
    requires g[Shift(y, d.dy, k)][Shift(x, d.dx, k)] == Disc(Rival(c))
    ensures RunEnd(g, n, y, x, d, c, k) == RunEnd(g, n, y, x, d, c, k + 1)
  {
  }

  lemma SameGrid(g1: Grid, g2: Grid, n: nat)
    requires IsSquare(g1, n) && IsSquare(g2, n)
    requires forall r, q :: Inside(n, r, q) ==> g1[r][q] == g2[r][q]
    ensures g1 == g2
  {
    forall r | 0 <= r < n ensures g1[r] == g2[r] {
      assert forall q :: 0 <= q < n ==> g1[r][q] == g2[r][q];
    }
  }

  /** The board while `move` works through the directions: the new disc is
      down and the runs of the first t directions are turned over. */
  ghost function PartialCell(g: Grid, n: nat, y: int, x: int, c: Color, t: nat, r: int, q: int): Cell
    requires IsSquare(g, n) && Inside(n, r, q)
  {
    if r == y && q == x then Disc(c)
    else if Captured(g, n, y, x, c, r, q) && DirIndex(DirTo(y, x, r, q)) < t then Disc(c)
    else g[r][q]
  }

  /** One round of the direction loop of `move` turns the board with the
      first t runs turned over into the one with the first t + 1. */
  lemma PartialStep(g0: Grid, cur: Grid, nxt: Grid, n: nat, y: int, x: int, c: Color, t: nat)
    requires IsSquare(g0, n) && IsSquare(cur, n) && IsSquare(nxt, n) && t < |Dirs|
    requires forall r, q :: Inside(n, r, q) ==> cur[r][q] == PartialCell(g0, n, y, x, c, t, r, q)
    requires forall r, q :: Inside(n, r, q) ==>
               nxt[r][q] == if Bracketed(g0, n, y, x, Dirs[t], c) && Aligned(y, x, r, q)
                               && DirTo(y, x, r, q) == Dirs[t]
                               && Dist(y, x, r, q) < RunEnd(g0, n, y, x, Dirs[t], c, 1)
                            then Disc(c) else cur[r][q]
    ensures forall r, q :: Inside(n, r, q) ==> nxt[r][q] == PartialCell(g0, n, y, x, c, t + 1, r, q)
  {
    forall r, q | Inside(n, r, q) ensures nxt[r][q] == PartialCell(g0, n, y, x, c, t + 1, r, q) {
      PartialCellStep(g0, n, y, x, c, t, r, q, cur[r][q], nxt[r][q]);
    }
  }

  /** PartialStep for one cell. */
  lemma PartialCellStep(g0: Grid, n: nat, y: int, x: int, c: Color, t: nat, r: int, q: int, cur: Cell, nxt: Cell)
    requires IsSquare(g0, n) && t < |Dirs| && Inside(n, r, q)
    requires cur == PartialCell(g0, n, y, x, c, t, r, q)
    requires nxt == if Bracketed(g0, n, y, x, Dirs[t], c) && Aligned(y, x, r, q)
                       && DirTo(y, x, r, q) == Dirs[t]
                       && Dist(y, x, r, q) < RunEnd(g0, n, y, x, Dirs[t], c, 1)
                    then Disc(c) else cur
    ensures nxt == PartialCell(g0, n, y, x, c, t + 1, r, q)
  {
    DirsAreUnits();
    if Aligned(y, x, r, q) {
      RayUnique(y, x, r, q);
    }
  }

  /** While `move` works on direction t, the ray of Dirs[t] still holds
      the cells of the board before the move. */
  lemma PartialRay(g0: Grid, cur: Grid, n: nat, y: int, x: int, c: Color, t: nat)
    requires IsSquare(g0, n) && IsSquare(cur, n) && t < |Dirs|
    requires forall r, q :: Inside(n, r, q) ==> cur[r][q] == PartialCell(g0, n, y, x, c, t, r, q)
    ensures RunEnd(cur, n, y, x, Dirs[t], c, 1) == RunEnd(g0, n, y, x, Dirs[t], c, 1)
    ensures Bracketed(cur, n, y, x, Dirs[t], c) == Bracketed(g0, n, y, x, Dirs[t], c)
  {
    DirsAreUnits();
    var d := Dirs[t];
    forall k | 1 <= k && Inside(n, Shift(y, d.dy, k), Shift(x, d.dx, k))
      ensures cur[Shift(y, d.dy, k)][Shift(x, d.dx, k)] == g0[Shift(y, d.dy, k)][Shift(x, d.dx, k)]
    {
      RayPoint(y, x, d, k);
    }
    BracketedAgree(cur, g0, n, y, x, d, c);
  }

  lemma PartialStart(g0: Grid, cur: Grid, n: nat, y: int, x: int, c: Color)
    requires IsSquare(g0, n) && IsSquare(cur, n) && Inside(n, y, x)
    requires forall r, q :: Inside(n, r, q) ==> cur[r][q] == if r == y && q == x then Disc(c) else g0[r][q]
    ensures forall r, q :: Inside(n, r, q) ==> cur[r][q] == PartialCell(g0, n, y, x, c, 0, r, q)
  {
  }

  lemma PartialDone(g0: Grid, h: Grid, n: nat, x: int, y: int, c: Color)
    requires IsSquare(g0, n) && IsSquare(h, n) && Placeable(g0, n, x, y)
    requires forall r, q :: Inside(n, r, q) ==> h[r][q] == PartialCell(g0, n, y, x, c, |Dirs|, r, q)
    ensures h == AfterMove(g0, n, x, y, c)
  {
    var a := AfterMove(g0, n, x, y, c);
    forall r, q | Inside(n, r, q) ensures h[r][q] == a[r][q] {
      if Aligned(y, x, r, q) {
        RayUnique(y, x, r, q);
      }
    }
    SameGrid(h, a, n);
  }

  lemma NoMoveStep(g: Grid, n: nat, c: Color, i: nat)
    requires IsSquare(g, n) && i < n
    requires forall r, q :: 0 <= r < i && 0 <= q < n ==> !Check(g, n, c, q, r)
    requires forall q :: 0 <= q < n ==> !Check(g, n, c, q, i)
    ensures forall r, q :: 0 <= r < i + 1 && 0 <= q < n ==> !Check(g, n, c, q, r)
  {
    forall r, q | 0 <= r < i + 1 && 0 <= q < n ensures !Check(g, n, c, q, r) {
      if r < i {
      } else {
        assert r == i;
      }
    }
  }

  lemma CountRowSnoc(s: seq<Cell>, j: nat, v: Cell)
    requires j < |s|
    ensures CountRow(s[..j + 1], v) == CountRow(s[..j], v) + (if s[j] == v then 1 else 0)
  {
    assert s[..j + 1][..j] == s[..j];
  }

  lemma CountSnoc(g: Grid, i: nat, v: Cell)
    requires i < |g|
    ensures Count(g[..i + 1], v) == Count(g[..i], v) + CountRow(g[i], v)
  {
    assert g[..i + 1][..i] == g[..i];
  }

  class Board {
    const cells: array2<Cell>

    ghost predicate Valid()
    {
      cells.Length0 == cells.Length1
    }

    function Size(): nat
    {
      cells.Length0
    }

    /** The board as a value. */
    ghost function Grid(): (g: Grid)
      reads cells
      requires Valid()
      ensures IsSquare(g, Size())
      ensures forall r, q :: Inside(Size(), r, q) ==> g[r][q] == cells[r, q]
    {
      var a := cells;
      seq(a.Length0, r requires 0 <= r < a.Length0 reads a =>
        seq(a.Length1, q requires 0 <= q < a.Length1 reads a => a[r, q]))
    }

    /** `new Board(size)`: an empty board with the four centre discs. */
    constructor(size: nat)
      requires size >= 2
      ensures Valid() && Size() == size && fresh(cells)
      ensures forall r, q :: Inside(size, r, q) ==> cells[r, q] == InitialCell(size, r, q)
    {
      var b := new Cell[size, size];
      var i := 0;
      while i < size
        invariant 0 <= i <= size
        invariant forall r, q :: 0 <= r < i && 0 <= q < size ==> b[r, q] == Empty
      {
        var j := 0;
        while j < size
          invariant 0 <= j <= size
          invariant forall r, q :: 0 <= r < i && 0 <= q < size ==> b[r, q] == Empty
          invariant forall q :: 0 <= q < j ==> b[i, q] == Empty
        {
          b[i, j] := Empty;
          j := j + 1;
        }
        i := i + 1;
      }
      var m := size / 2 - 1;
      b[m, m] := Disc(W);
      b[m, m + 1] := Disc(B);
      b[m + 1, m + 1] := Disc(W);
      b[m + 1, m] := Disc(B);
      cells := b;
    }

    /** A board whose cells are the array a itself, not a copy: the
        `nb.board = b` step of `clone`. */
    constructor Of(a: array2<Cell>)
      ensures cells == a
    {
      cells := a;
    }

    /** `clone()`: a fresh board with a fresh array holding the same cells. */
    method Clone() returns (nb: Board)
      requires Valid()
      ensures fresh(nb) && fresh(nb.cells) && nb.Valid() && nb.Size() == Size()
      ensures nb.Grid() == Grid()
    {
      var n := cells.Length0;
      var b := new Cell[n, n];
      var i := 0;
      while i < n
        invariant 0 <= i <= n
        invariant forall r, q :: 0 <= r < i && 0 <= q < n ==> b[r, q] == cells[r, q]
      {
        var j := 0;
        while j < n
          invariant 0 <= j <= n
          invariant forall r, q :: 0 <= r < i && 0 <= q < n ==> b[r, q] == cells[r, q]
          invariant forall q :: 0 <= q < j ==> b[i, q] == cells[i, q]
        {
          b[i, j] := cells[i, j];
          j := j + 1;
        }
        i := i + 1;
      }
      nb := new Board.Of(b);
      SameGrid(nb.Grid(), Grid(), n);
    }

    /** The scanning loop of one direction: where the run of rival discs
        starting next to (y, x) ends. */
    method Scan(y: int, x: int, d: Dir, c: Color) returns (e: nat)
      requires Valid() && Inside(Size(), y, x) && IsUnit(d)
      ensures e == RunEnd(Grid(), Size(), y, x, d, c, 1)
    {
      var n := cells.Length0;
      ghost var g := Grid();
      e := 1;
      while Inside(n, Shift(y, d.dy, e), Shift(x, d.dx, e))
            && cells[Shift(y, d.dy, e), Shift(x, d.dx, e)] == Disc(Rival(c))
        invariant e >= 1
        invariant RunEnd(g, n, y, x, d, c, e) == RunEnd(g, n, y, x, d, c, 1)
        decreases n - e
      {
        InsideBound(n, y, x, d, e);
        RunEndStep(g, n, y, x, d, c, e);
        e := e + 1;
      }
      if Inside(n, Shift(y, d.dy, e), Shift(x, d.dx, e)) {
        InsideBound(n, y, x, d, e);
      }
    }

    /** The test after a scanning loop: at least one rival disc, then a disc
        of c. */
    method Brackets(y: int, x: int, d: Dir, c: Color) returns (b: bool)
      requires Valid() && Inside(Size(), y, x) && IsUnit(d)
      ensures b == Bracketed(Grid(), Size(), y, x, d, c)
    {
      var n := cells.Length0;
      ghost var g := Grid();
      var e := Scan(y, x, d, c);
      SameGrid(Grid(), g, n);
      var ey, ex := Shift(y, d.dy, e), Shift(x, d.dx, e);
      b := e > 1 && Inside(n, ey, ex) && cells[ey, ex] == Disc(c);
    }

    /** `check(color, x, y)`. */
    method Check(c: Color, x: int, y: int) returns (ok: bool)
      requires Valid() && Inside(Size(), y, x)
      ensures ok == ReversiRules.Check(Grid(), Size(), c, x, y)
    {
      if cells[y, x] != Empty {
        return false;
      }
      var n := cells.Length0;
      ghost var g := Grid();
      DirsAreUnits();
      var t := 0;
      while t < |Dirs|
        invariant 0 <= t <= |Dirs|
        invariant forall s :: 0 <= s < t ==> !Bracketed(g, n, y, x, Dirs[s], c)
      {
        var b := Brackets(y, x, Dirs[t], c);
        SameGrid(Grid(), g, n);
        if b {
          return true;
        }
        t := t + 1;
      }
      SameGrid(Grid(), g, n);
      return false;
    }

    /** The inner loop of `valid_moves`: the legal cells of row i. */
    method RowMovesOf(c: Color, i: int, ghost g: Grid) returns (row: seq<Move>)
      requires Valid() && 0 <= i < Size() && g == Grid()
      ensures row == RowMoves(g, Size(), c, i, Size())
    {
      var n := cells.Length0;
      row := [];
      var j := 0;
      while j < n
        invariant 0 <= j <= n
        invariant row == RowMoves(g, n, c, i, j)
      {
        var ok := Check(c, j, i);
        SameGrid(Grid(), g, n);
        RowMovesStep(g, n, c, i, j, row);
        if ok {
          row := row + [At(i, j)];
        }
        j := j + 1;
      }
      SameGrid(Grid(), g, n);
    }

    /** `valid_moves(color)`: every legal cell, in row-major order. */
    method ValidMoves(c: Color) returns (moves: seq<Move>)
      requires Valid()
      ensures moves == ReversiRules.ValidMoves(Grid(), Size(), c)
    {
      ghost var g := Grid();
      moves := MovesOf(c, g);
      SameGrid(Grid(), g, cells.Length0);
    }

    /** The outer loop of `valid_moves`, over the rows of board g. */
    method MovesOf(c: Color, ghost g: Grid) returns (moves: seq<Move>)
      requires Valid() && g == Grid()
      ensures moves == MovesUpTo(g, Size(), c, Size())
    {
      var n := cells.Length0;
      moves := [];
      var i := 0;
      while i < n
        invariant 0 <= i <= n
        invariant moves == MovesUpTo(g, n, c, i)
      {
        SameGrid(Grid(), g, n);
        var row := RowMovesOf(c, i, g);
        MovesUpToStep(g, n, c, i, moves, row);
        moves := moves + row;
        i := i + 1;
      }
    }

    /** The inner loop of `can_play`: the first legal column of row i, or
        the size of the board when the row has none. */
    method FirstInRow(c: Color, i: int) returns (j: nat)
      requires Valid() && 0 <= i < Size()
      ensures j <= Size()
      ensures j < Size() ==> ReversiRules.Check(Grid(), Size(), c, j, i)
      ensures forall q :: 0 <= q < j ==> !ReversiRules.Check(Grid(), Size(), c, q, i)
    {
      var n := cells.Length0;
      ghost var g := Grid();
      j := 0;
      var hit := false;
      while j < n && !hit
        invariant 0 <= j <= n
        invariant hit ==> j < n && ReversiRules.Check(g, n, c, j, i)
        invariant forall q :: 0 <= q < j ==> !ReversiRules.Check(g, n, c, q, i)
        decreases n - j, if hit then 0 else 1
      {
        hit := Check(c, j, i);
        SameGrid(Grid(), g, n);
        if !hit {
          j := j + 1;
        }
      }
      SameGrid(Grid(), g, n);
    }

    /** `can_play(color)`: some cell is legal for c. */
    method CanPlay(c: Color) returns (ok: bool)
      requires Valid()
      ensures ok <==> ReversiRules.ValidMoves(Grid(), Size(), c) != []
      ensures ok <==> exists r, q :: Inside(Size(), r, q) && ReversiRules.Check(Grid(), Size(), c, q, r)
    {
      var n := cells.Length0;
      ghost var g := Grid();
      CanPlayIffSomeMove(g, n, c);
      var i := 0;
      while i < n
        invariant 0 <= i <= n
        invariant forall r, q :: 0 <= r < i && 0 <= q < n ==> !ReversiRules.Check(g, n, c, q, r)
      {
        var j := FirstInRow(c, i);
        SameGrid(Grid(), g, n);
        if j < n {
          assert Inside(n, i, j) && ReversiRules.Check(g, n, c, j, i);
          return true;
        }
        NoMoveStep(g, n, c, i);
        i := i + 1;
      }
      SameGrid(Grid(), g, n);
      return false;
    }

    /** The flipping loop of one direction: turns over the rival discs of
        the run that starts next to (y, x). */
    method FlipRun(y: int, x: int, d: Dir, c: Color)
      requires Valid() && Inside(Size(), y, x) && IsUnit(d)
      modifies cells
      ensures forall r, q :: Inside(Size(), r, q) ==>
                cells[r, q] == if Aligned(y, x, r, q) && DirTo(y, x, r, q) == d
                                  && Dist(y, x, r, q) < RunEnd(old(Grid()), Size(), y, x, d, c, 1)
                               then Disc(c) else old(cells[r, q])
    {
      var n := cells.Length0;
      ghost var g := Grid();
      var k := 1;
      RayPoint(y, x, d, k);
      while Inside(n, Shift(y, d.dy, k), Shift(x, d.dx, k))
            && cells[Shift(y, d.dy, k), Shift(x, d.dx, k)] == Disc(Rival(c))
        invariant 1 <= k
        invariant Dist(y, x, Shift(y, d.dy, k), Shift(x, d.dx, k)) == k
        invariant RunEnd(g, n, y, x, d, c, k) == RunEnd(g, n, y, x, d, c, 1)
        invariant forall r, q :: Inside(n, r, q) ==>
                    cells[r, q] == if OnRun(y, x, d, k, r, q) then Disc(c) else g[r][q]
        decreases n - k
      {
        InsideBound(n, y, x, d, k);
        RunEndStep(g, n, y, x, d, c, k);
        OnRunStep(y, x, d, k);
        cells[Shift(y, d.dy, k), Shift(x, d.dx, k)] := Disc(c);
        k := k + 1;
        RayPoint(y, x, d, k);
      }
    }

    /** `move(x, y, color)`: off the board or on a taken cell nothing
        happens and false is returned; otherwise the disc is placed, every
        bracketed run is turned over, and the result says whether any
        direction bracketed. */
    method Move(x: int, y: int, c: Color) returns (flag: bool)
      requires Valid()
      modifies cells
      ensures Grid() == AfterMove(old(Grid()), Size(), x, y, c)
      ensures flag == MoveFlag(old(Grid()), Size(), x, y, c)
    {
      var n := cells.Length0;
      if x < 0 || x >= n || y < 0 || y >= n || cells[y, x] != Empty {
        return false;
      }
      ghost var g0 := Grid();
      cells[y, x] := Disc(c);
      PartialStart(g0, Grid(), n, y, x, c);
      flag := FlipAll(y, x, c, g0);
      PartialDone(g0, Grid(), n, x, y, c);
      MoveFlagIffFlips(g0, n, x, y, c);
    }

    /** The loop of `move` over the eight directions, after the disc is
        placed on the grid g0 at (y, x): whether any run was flipped. */
    method FlipAll(y: int, x: int, c: Color, ghost g0: Grid) returns (flag: bool)
      requires Valid() && Inside(Size(), y, x) && IsSquare(g0, Size())
      requires forall r, q :: Inside(Size(), r, q) ==> cells[r, q] == PartialCell(g0, Size(), y, x, c, 0, r, q)
      modifies cells
      ensures forall r, q :: Inside(Size(), r, q) ==> cells[r, q] == PartialCell(g0, Size(), y, x, c, |Dirs|, r, q)
      ensures flag <==> FlipsUpTo(g0, Size(), y, x, c, |Dirs|) > 0
    {
      var n := cells.Length0;
      flag := false;
      var t := 0;
      while t < |Dirs|
        invariant 0 <= t <= |Dirs|
        invariant forall r, q :: Inside(n, r, q) ==> cells[r, q] == PartialCell(g0, n, y, x, c, t, r, q)
        invariant flag <==> FlipsUpTo(g0, n, y, x, c, t) > 0
      {
        var b := FlipDirection(y, x, c, t, g0);
        flag := flag || b;
        t := t + 1;
      }
    }

    /** One of the eight direction blocks of `move`: scan the ray of
        Dirs[t] and, when it brackets, turn its run over. The rays of the
        other directions are disjoint from it, so the scan sees the cells
        of the board before the move. */
    method FlipDirection(y: int, x: int, c: Color, t: nat, ghost g0: Grid) returns (b: bool)
      requires Valid() && Inside(Size(), y, x) && IsSquare(g0, Size()) && t < |Dirs|
      requires forall r, q :: Inside(Size(), r, q) ==> cells[r, q] == PartialCell(g0, Size(), y, x, c, t, r, q)
      modifies cells
      ensures forall r, q :: Inside(Size(), r, q) ==> cells[r, q] == PartialCell(g0, Size(), y, x, c, t + 1, r, q)
      ensures b == Bracketed(g0, Size(), y, x, Dirs[t], c)
    {
      var n := cells.Length0;
      DirsAreUnits();
      var d := Dirs[t];
      PartialRay(g0, Grid(), n, y, x, c, t);
      b := Brackets(y, x, d, c);
      if b {
        FlipRun(y, x, d, c);
        forall r, q | Inside(n, r, q)
          ensures cells[r, q] == PartialCell(g0, n, y, x, c, t + 1, r, q)
        {
          PartialCellStep(g0, n, y, x, c, t, r, q, old(cells[r, q]), cells[r, q]);
        }
      } else {
        forall r, q | Inside(n, r, q)
          ensures cells[r, q] == PartialCell(g0, n, y, x, c, t + 1, r, q)
        {
          PartialCellStep(g0, n, y, x, c, t, r, q, cells[r, q], cells[r, q]);
        }
      }
    }

    /** The inner loop of `winner`: the white and black discs of row i. */
    method RowCounts(i: nat, ghost g: Grid) returns (w: nat, b: nat)
      requires Valid() && i < Size() && g == Grid()
      ensures w == CountRow(g[i], Disc(W)) && b == CountRow(g[i], Disc(B))
    {
      var n := cells.Length0;
      w, b := 0, 0;
      var j := 0;
      while j < n
        invariant 0 <= j <= n
        invariant w == CountRow(g[i][..j], Disc(W)) && b == CountRow(g[i][..j], Disc(B))
      {
        CountRowSnoc(g[i], j, Disc(W));
        CountRowSnoc(g[i], j, Disc(B));
        if cells[i, j] == Disc(W) {
          w := w + 1;
        } else if cells[i, j] == Disc(B) {
          b := b + 1;
        }
        j := j + 1;
      }
      assert g[i][..n] == g[i];
    }

    /** `winner(white, black)`: the disc counts, and a draw or the id of the
        side with more discs. */
    method Winner(white: string, black: string) returns (r: Outcome)
      requires Valid()
      ensures r == WinnerOf(Grid(), white, black)
      ensures r.whites == Count(Grid(), Disc(W)) && r.blacks == Count(Grid(), Disc(B))
      ensures r.Draw? <==> r.whites == r.blacks
      ensures r.Won? ==> r.id == (if r.whites > r.blacks then white else black)
    {
      var n := cells.Length0;
      ghost var g := Grid();
      var w, b := 0, 0;
      var i := 0;
      while i < n
        invariant 0 <= i <= n
        invariant w == Count(g[..i], Disc(W)) && b == Count(g[..i], Disc(B))
      {
        var rw, rb := RowCounts(i, g);
        CountSnoc(g, i, Disc(W));
        CountSnoc(g, i, Disc(B));
        w, b := w + rw, b + rb;
        i := i + 1;
      }
      assert g[..n] == g;
      if w == b {
        r := Draw(w, b);
      } else {
        r := Won(if w > b then white else black, w, b);
      }
    }
  }
}
