/** The index grids of src/Turingianos.js and the transforms that turn the
    row-major grid into its images under the eight symmetries of a square:
    `generateMatrixHash`, `rotateMatrix`, `flipMatrixH`, `flipMatrixV` and
    the eight-grid setup of `initialize_agent`. A grid is a sequence of rows.
    The additive hash each grid defines is shown to be unchanged when the
    board and the grid are transformed together. */
module Symmetry {

  /** A grid with at least one row, at least one column, and rows of one width. */
  predicate Rect<T>(a: seq<seq<T>>)
  {
    |a| > 0 && |a[0]| > 0 && forall i :: 0 <= i < |a| ==> |a[i]| == |a[0]|
  }

  /** An n-by-n grid, n at least 1. */
  predicate Square<T>(a: seq<seq<T>>, n: nat)
  {
    n > 0 && |a| == n && forall i :: 0 <= i < n ==> |a[i]| == n
  }

  function Reverse<T>(s: seq<T>): (r: seq<T>)
    ensures |r| == |s|
  {
    seq(|s|, k requires 0 <= k < |s| => s[|s| - 1 - k])
  }

  // ---------------------------------------------------------------------
  // Building the row-major grid

  /** The grid `generateMatrixHash` builds: cell (i, j) holds i*cols + j + 1. */
  function IndexGrid(rows: nat, cols: nat): seq<seq<int>>
  {
    seq(rows, i requires 0 <= i < rows => seq(cols, j requires 0 <= j < cols => i * cols + j + 1))
  }

  /** `generateMatrixHash`: a counter runs over the cells in row-major order
      and each cell takes the counter's value just after it is increased. */
  method GenerateMatrixHash(rows: nat, cols: nat) returns (grid: seq<seq<int>>)
    ensures grid == IndexGrid(rows, cols)
  {
    var count := 0;
    grid := [];
    for i := 0 to rows
      invariant count == i * cols
      invariant grid == IndexGrid(i, cols)
    {
      var prow: seq<int> := [];
      for j := 0 to cols
        invariant count == i * cols + j
        invariant prow == seq(j, q requires 0 <= q < j => i * cols + q + 1)
      {
        count := count + 1;
        prow := prow + [count];
      }
      assert (i + 1) * cols == i * cols + cols;
      grid := grid + [prow];
    }
  }

  lemma MulLess(i: int, i': int, cols: nat)
    requires 0 <= i < i'
    ensures i * cols + cols <= i' * cols
    decreases i' - i
  {
    assert (i + 1) * cols == i * cols + cols;
    if i + 1 < i' {
      MulLess(i + 1, i', cols);
    }
  }

  /** Some cell of the index grid holds v. */
  predicate Numbered(rows: nat, cols: nat, v: int)
  {
    exists i, j :: 0 <= i < rows && 0 <= j < cols && IndexGrid(rows, cols)[i][j] == v
  }

  /** The index grid numbers the cells 1 to rows*cols, each number once. */
  lemma IndexGridBijection(rows: nat, cols: nat)
    ensures forall i, j :: 0 <= i < rows && 0 <= j < cols ==>
              1 <= IndexGrid(rows, cols)[i][j] <= rows * cols
    ensures forall i, j, i', j' ::
              (0 <= i < rows && 0 <= j < cols && 0 <= i' < rows && 0 <= j' < cols
               && IndexGrid(rows, cols)[i][j] == IndexGrid(rows, cols)[i'][j']) ==> i == i' && j == j'
    ensures forall v :: 1 <= v <= rows * cols ==> Numbered(rows, cols, v)
  {
    var g := IndexGrid(rows, cols);
    forall i, j | 0 <= i < rows && 0 <= j < cols ensures 1 <= g[i][j] <= rows * cols {
      MulLess(i, rows, cols);
    }
    forall i, j, i', j' | 0 <= i < rows && 0 <= j < cols && 0 <= i' < rows && 0 <= j' < cols
                         && g[i][j] == g[i'][j']
      ensures i == i' && j == j'
    {
      if i < i' {
        MulLess(i, i', cols);
      } else if i' < i {
        MulLess(i', i, cols);
      }
    }
    forall v | 1 <= v <= rows * cols
      ensures Numbered(rows, cols, v)
    {
      IndexOf(rows, cols, v);
    }
  }

  lemma IndexOf(rows: nat, cols: nat, v: int)
    requires 1 <= v <= rows * cols
    ensures Numbered(rows, cols, v)
  {
    assert cols > 0;
    var i, j := (v - 1) / cols, (v - 1) % cols;
    assert v - 1 == i * cols + j;
    assert IndexGrid(rows, cols)[i][j] == v;
  }

  // ---------------------------------------------------------------------
  // The transforms

  /** `flipMatrixH`: a copy with every row reversed. */
  function FlipH<T>(a: seq<seq<T>>): (b: seq<seq<T>>)
    ensures |b| == |a|
  {
    seq(|a|, i requires 0 <= i < |a| => Reverse(a[i]))
  }

  /** `flipMatrixV`: a copy with the rows in reverse order. */
  function FlipV<T>(a: seq<seq<T>>): (b: seq<seq<T>>)
    ensures |b| == |a|
  {
    Reverse(a)
  }

  /** A rows-by-cols grid turned a quarter clockwise: a cols-by-rows grid
      whose cell (i, j) holds the cell (rows-1-j, i) of the input, so that
      the cell (i, j) of the input lands on (j, rows-1-i). */
  function Rotate<T>(a: seq<seq<T>>): (b: seq<seq<T>>)
    requires Rect(a)
    ensures Rect(b) && |b| == |a[0]| && |b[0]| == |a|
    ensures forall i, j :: 0 <= i < |b| && 0 <= j < |a| ==> b[i][j] == a[|a| - 1 - j][i]
  {
    var n, m := |a|, |a[0]|;
    seq(m, p requires 0 <= p < m => seq(n, q requires 0 <= q < n => a[n - 1 - q][p]))
  }

  /** `rotateMatrix`: fills a fresh m-by-n array cell by cell from the
      n-by-m input. */
  method RotateMatrix(a: seq<seq<int>>) returns (b: seq<seq<int>>)
    requires Rect(a)
    ensures b == Rotate(a)
  {
    var n, m := |a|, |a[0]|;
    var out := new int[m, n];
    for i := 0 to n
      invariant forall p, q :: 0 <= p < m && n - i <= q < n ==> out[p, q] == a[n - 1 - q][p]
    {
      for j := 0 to m
        invariant forall p, q :: 0 <= p < m && n - i <= q < n ==> out[p, q] == a[n - 1 - q][p]
        invariant forall p :: 0 <= p < j ==> out[p, n - 1 - i] == a[i][p]
      {
        out[j, n - 1 - i] := a[i][j];
      }
    }
    b := seq(m, p requires 0 <= p < m reads out => seq(n, q requires 0 <= q < n reads out => out[p, q]));
    SameCells(b, Rotate(a));
  }

  /** Two grids of the same shape with the same cells are the same grid. */
  lemma SameCells<T>(a: seq<seq<T>>, b: seq<seq<T>>)
    requires |a| == |b| && forall i :: 0 <= i < |a| ==> |a[i]| == |b[i]|
    requires forall i, j :: 0 <= i < |a| && 0 <= j < |a[i]| ==> a[i][j] == b[i][j]
    ensures a == b
  {
    forall i | 0 <= i < |a| ensures a[i] == b[i] {
      assert forall j :: 0 <= j < |a[i]| ==> a[i][j] == b[i][j];
    }
  }

  lemma ReverseReverse<T>(s: seq<T>)
    ensures Reverse(Reverse(s)) == s
  {
  }

  /** `flipMatrixH` undoes itself. */
  lemma FlipHInvolution<T>(a: seq<seq<T>>)
    ensures FlipH(FlipH(a)) == a
  {
    forall i | 0 <= i < |a| ensures FlipH(FlipH(a))[i] == a[i] {
      ReverseReverse(a[i]);
    }
  }

  /** `flipMatrixV` undoes itself. */
  lemma FlipVInvolution<T>(a: seq<seq<T>>)
    ensures FlipV(FlipV(a)) == a
  {
    ReverseReverse(a);
  }

  /** Both flips keep the shape of the grid. */
  lemma FlipShapes<T>(a: seq<seq<T>>)
    requires Rect(a)
    ensures Rect(FlipH(a)) && |FlipH(a)[0]| == |a[0]|
    ensures Rect(FlipV(a)) && |FlipV(a)[0]| == |a[0]|
  {
  }

  /** A half turn is the horizontal flip of the vertical flip, and the other
      way round. */
  lemma RotateTwice<T>(a: seq<seq<T>>)
    requires Rect(a)
    ensures Rotate(Rotate(a)) == FlipH(FlipV(a))
    ensures Rotate(Rotate(a)) == FlipV(FlipH(a))
  {
    var r := Rotate(Rotate(a));
    FlipShapes(a);
    SameCells(r, FlipH(FlipV(a)));
    SameCells(r, FlipV(FlipH(a)));
  }

  /** Four quarter turns give back the grid. */
  lemma RotateFour<T>(a: seq<seq<T>>)
    requires Rect(a)
    ensures Rotate(Rotate(Rotate(Rotate(a)))) == a
  {
    var h := Rotate(Rotate(a));
    RotateTwice(a);
    RotateTwice(h);
    FlipShapes(a);
    FlipShapes(FlipV(a));
    assert h == FlipH(FlipV(a));
    calc {
      Rotate(Rotate(h));
      FlipV(FlipH(h));
      FlipV(FlipH(FlipH(FlipV(a))));
      { FlipHInvolution(FlipV(a)); }
      FlipV(FlipV(a));
      { FlipVInvolution(a); }
      a;
    }
  }

  // ---------------------------------------------------------------------
  // The eight grids

  /** The symmetries of the square, in the order `getBoardHashes` lists
      their keys. */
  datatype Symm = Identity | MirrorH | MirrorV | Diagonal | AntiDiagonal | Rot90 | Rot180 | Rot270

  const KeyOrder: seq<Symm> := [Identity, MirrorH, MirrorV, Diagonal, AntiDiagonal, Rot90, Rot180, Rot270]

  /** A symmetry applied to a grid, composed as `initialize_agent` composes
      the grids: the half and three-quarter turns as repeated quarter turns,
      the diagonal flips as vertical flips of the quarter and
      three-quarter turns. */
  function Apply<T>(s: Symm, a: seq<seq<T>>): (b: seq<seq<T>>)
    requires Rect(a)
    ensures Rect(b)
  {
    FlipShapes(a);
    match s
    case Identity => a
    case MirrorH => FlipH(a)
    case MirrorV => FlipV(a)
    case Diagonal => FlipV(Rotate(a))
    case AntiDiagonal => (FlipShapes(Rotate(Rotate(Rotate(a)))); FlipV(Rotate(Rotate(Rotate(a)))))
    case Rot90 => Rotate(a)
    case Rot180 => Rotate(Rotate(a))
    case Rot270 => Rotate(Rotate(Rotate(a)))
  }

  /** On a square, the grid the source calls the main-diagonal flip (the
      vertical flip of the quarter turn) is the flip about the
      anti-diagonal, and the one it calls the anti-diagonal flip is the
      transpose: between them the two diagonal reflections, so the eight
      grids are the eight symmetries of the square. */
  lemma DiagonalFlips<T>(a: seq<seq<T>>, n: nat)
    requires Rect(a) && Square(a, n)
    ensures Square(Apply(Diagonal, a), n) && Square(Apply(AntiDiagonal, a), n)
    ensures forall i, j :: 0 <= i < n && 0 <= j < n ==> Apply(Diagonal, a)[i][j] == a[n - 1 - j][n - 1 - i]
    ensures forall i, j :: 0 <= i < n && 0 <= j < n ==> Apply(AntiDiagonal, a)[i][j] == a[j][i]
  {
    RotateSquare(a, n);
    var r1 := Rotate(a);
    FlipVSquare(r1, n);
    RotateSquare(r1, n);
    var r2 := Rotate(r1);
    RotateSquare(r2, n);
    var r3 := Rotate(r2);
    FlipVSquare(r3, n);
  }

  lemma FlipVSquare<T>(a: seq<seq<T>>, n: nat)
    requires Square(a, n)
    ensures Square(FlipV(a), n)
    ensures forall i, j :: 0 <= i < n && 0 <= j < n ==> FlipV(a)[i][j] == a[n - 1 - i][j]
  {
  }

  lemma RotateSquare<T>(a: seq<seq<T>>, n: nat)
    requires Rect(a) && Square(a, n)
    ensures Square(Rotate(a), n)
    ensures forall i, j :: 0 <= i < n && 0 <= j < n ==> Rotate(a)[i][j] == a[n - 1 - j][i]
  {
  }

  /** A grid each of whose cells the horizontal flip leaves in place is
      unchanged by it. */
  lemma FlipHFixed<T>(a: seq<seq<T>>)
    requires forall i :: 0 <= i < |a| ==> |FlipH(a)[i]| == |a[i]|
    requires forall i, j :: 0 <= i < |a| && 0 <= j < |a[i]| ==> FlipH(a)[i][j] == a[i][j]
    ensures FlipH(a) == a
  {
    SameCells(FlipH(a), a);
  }

  /** A grid that is unchanged by the quarter turn and by both flips is
      unchanged by every symmetry. */
  lemma FixedBySymmetries<T>(s: Symm, a: seq<seq<T>>)
    requires Rect(a) && Rotate(a) == a && FlipV(a) == a && FlipH(a) == a
    ensures Apply(s, a) == a
  {
  }

  // ---------------------------------------------------------------------
  // Sums and the additive hash

  function Sum(s: seq<int>): int
  {
    if |s| == 0 then 0 else Sum(s[..|s| - 1]) + s[|s| - 1]
  }

  /** The sum of a grid, row by row in row-major order. */
  function Sum2(a: seq<seq<int>>): int
  {
    if |a| == 0 then 0 else Sum2(a[..|a| - 1]) + Sum(a[|a| - 1])
  }

  /** The grid of per-cell hash terms: what a cell holds, weighed by f, times
      the grid's number for that cell. */
  function Terms<C>(g: seq<seq<C>>, grid: seq<seq<int>>, f: C -> int): (t: seq<seq<int>>)
    requires |g| == |grid| && forall i :: 0 <= i < |g| ==> |g[i]| == |grid[i]|
    ensures |t| == |g| && forall i :: 0 <= i < |g| ==> |t[i]| == |g[i]|
  {
    seq(|g|, i requires 0 <= i < |g| => seq(|g[i]|, j requires 0 <= j < |g[i]| => f(g[i][j]) * grid[i][j]))
  }

  /** The additive hash of a board under one grid. */
  function HashBy<C>(g: seq<seq<C>>, grid: seq<seq<int>>, f: C -> int): int
    requires |g| == |grid| && forall i :: 0 <= i < |g| ==> |g[i]| == |grid[i]|
  {
    Sum2(Terms(g, grid, f))
  }

  lemma {:induction false} SumCons(x: int, s: seq<int>)
    ensures Sum([x] + s) == x + Sum(s)
    decreases |s|
  {
    if |s| > 0 {
      assert ([x] + s)[..|s|] == [x] + s[..|s| - 1];
      SumCons(x, s[..|s| - 1]);
    }
  }

  lemma {:induction false} SumReverse(s: seq<int>)
    ensures Sum(Reverse(s)) == Sum(s)
    decreases |s|
  {
    if |s| > 0 {
      var init := s[..|s| - 1];
      assert Reverse(s) == [s[|s| - 1]] + Reverse(init);
      SumCons(s[|s| - 1], Reverse(init));
      SumReverse(init);
    }
  }

  lemma {:induction false} Sum2Cons(r: seq<int>, a: seq<seq<int>>)
    ensures Sum2([r] + a) == Sum(r) + Sum2(a)
    decreases |a|
  {
    if |a| > 0 {
      assert ([r] + a)[..|a|] == [r] + a[..|a| - 1];
      Sum2Cons(r, a[..|a| - 1]);
    }
  }

  lemma {:induction false} Sum2Reverse(a: seq<seq<int>>)
    ensures Sum2(Reverse(a)) == Sum2(a)
    decreases |a|
  {
    if |a| > 0 {
      var init := a[..|a| - 1];
      assert Reverse(a) == [a[|a| - 1]] + Reverse(init);
      Sum2Cons(a[|a| - 1], Reverse(init));
      Sum2Reverse(init);
    }
  }

  /** Row sums can be replaced row by row. */
  lemma {:induction false} Sum2RowWise(a: seq<seq<int>>, b: seq<seq<int>>)
    requires |a| == |b| && forall i :: 0 <= i < |a| ==> Sum(a[i]) == Sum(b[i])
    ensures Sum2(a) == Sum2(b)
    decreases |a|
  {
    if |a| > 0 {
      Sum2RowWise(a[..|a| - 1], b[..|b| - 1]);
    }
  }

  lemma Sum2FlipH(a: seq<seq<int>>)
    ensures Sum2(FlipH(a)) == Sum2(a)
  {
    forall i | 0 <= i < |a| ensures Sum(FlipH(a)[i]) == Sum(a[i]) {
      SumReverse(a[i]);
    }
    Sum2RowWise(FlipH(a), a);
  }

  /** The columns of a grid whose rows all have m cells. */
  function Transpose(a: seq<seq<int>>, m: nat): seq<seq<int>>
    requires forall i :: 0 <= i < |a| ==> |a[i]| == m
  {
    seq(m, j requires 0 <= j < m => seq(|a|, i requires 0 <= i < |a| => a[i][j]))
  }

  /** Appending one cell to every row adds the sum of the appended cells. */
  lemma {:induction false} Sum2Snoc(rows: seq<seq<int>>, x: seq<int>)
    requires |rows| == |x|
    ensures Sum2(seq(|x|, j requires 0 <= j < |x| => rows[j] + [x[j]])) == Sum2(rows) + Sum(x)
    decreases |x|
  {
    var t := seq(|x|, j requires 0 <= j < |x| => rows[j] + [x[j]]);
    if |x| > 0 {
      var k := |x| - 1;
      var t' := seq(k, j requires 0 <= j < k => rows[..k][j] + [x[..k][j]]);
      assert t[..k] == t';
      Sum2Snoc(rows[..k], x[..k]);
      assert Sum(t[k]) == Sum(rows[k]) + x[k] by {
        assert t[k][..|t[k]| - 1] == rows[k];
      }
    }
  }

  /** Summing by columns gives the sum by rows. */
  lemma {:induction false} Sum2Transpose(a: seq<seq<int>>, m: nat)
    requires forall i :: 0 <= i < |a| ==> |a[i]| == m
    ensures Sum2(Transpose(a, m)) == Sum2(a)
    decreases |a|
  {
    if |a| == 0 {
      Sum2RowWise(Transpose(a, m), Blank(m));
      Sum2Zero(m);
    } else {
      var k := |a| - 1;
      var init := a[..k];
      Sum2Transpose(init, m);
      var t := Transpose(a, m);
      var t' := Transpose(init, m);
      var u := seq(m, j requires 0 <= j < m => t'[j] + [a[k][j]]);
      SameCells(t, u);
      Sum2Snoc(t', a[k]);
    }
  }

  /** m empty rows. */
  function Blank(m: nat): seq<seq<int>>
  {
    seq(m, j => [])
  }

  lemma {:induction false} Sum2Zero(m: nat)
    ensures Sum2(Blank(m)) == 0
  {
    if m > 0 {
      assert Blank(m)[..m - 1] == Blank(m - 1);
      Sum2Zero(m - 1);
    }
  }

  lemma Sum2Rotate(a: seq<seq<int>>)
    requires Rect(a)
    ensures Sum2(Rotate(a)) == Sum2(a)
  {
    var v := FlipV(a);
    SameCells(Rotate(a), Transpose(v, |a[0]|));
    Sum2Transpose(v, |a[0]|);
    Sum2Reverse(a);
  }

  /** Rows of matching widths. */
  predicate SameShape<C, D>(g: seq<seq<C>>, h: seq<seq<D>>)
  {
    |g| == |h| && forall i :: 0 <= i < |g| ==> |g[i]| == |h[i]|
  }

  /** Turning board and grid a quarter together keeps the hash. */
  lemma HashRotate<C>(g: seq<seq<C>>, grid: seq<seq<int>>, f: C -> int)
    requires Rect(g) && Rect(grid) && SameShape(g, grid)
    ensures SameShape(Rotate(g), Rotate(grid))
    ensures HashBy(Rotate(g), Rotate(grid), f) == HashBy(g, grid, f)
  {
    var t := Terms(g, grid, f);
    TermsRotate(g, grid, f);
    Sum2Rotate(t);
  }

  lemma TermsRotate<C>(g: seq<seq<C>>, grid: seq<seq<int>>, f: C -> int)
    requires Rect(g) && Rect(grid) && SameShape(g, grid)
    ensures Rect(Terms(g, grid, f)) && SameShape(Rotate(g), Rotate(grid))
    ensures Terms(Rotate(g), Rotate(grid), f) == Rotate(Terms(g, grid, f))
  {
    var t := Terms(g, grid, f);
    assert Rect(t);
    var n := |g|;
    var a, b := Terms(Rotate(g), Rotate(grid), f), Rotate(t);
    forall i, j | 0 <= i < |a| && 0 <= j < |a[i]| ensures a[i][j] == b[i][j] {
      assert Rotate(g)[i][j] == g[n - 1 - j][i];
      assert Rotate(grid)[i][j] == grid[n - 1 - j][i];
      assert b[i][j] == t[n - 1 - j][i];
    }
    SameCells(a, b);
  }

  /** Flipping board and grid together keeps the hash. */
  lemma HashFlipH<C>(g: seq<seq<C>>, grid: seq<seq<int>>, f: C -> int)
    requires SameShape(g, grid)
    ensures SameShape(FlipH(g), FlipH(grid))
    ensures HashBy(FlipH(g), FlipH(grid), f) == HashBy(g, grid, f)
  {
    var t := Terms(g, grid, f);
    SameCells(Terms(FlipH(g), FlipH(grid), f), FlipH(t));
    Sum2FlipH(t);
  }

  lemma HashFlipV<C>(g: seq<seq<C>>, grid: seq<seq<int>>, f: C -> int)
    requires SameShape(g, grid)
    ensures SameShape(FlipV(g), FlipV(grid))
    ensures HashBy(FlipV(g), FlipV(grid), f) == HashBy(g, grid, f)
  {
    var t := Terms(g, grid, f);
    SameCells(Terms(FlipV(g), FlipV(grid), f), FlipV(t));
    Sum2Reverse(t);
  }

  lemma ShapesAfter<C, D>(s: Symm, g: seq<seq<C>>, h: seq<seq<D>>)
    requires Rect(g) && Rect(h) && SameShape(g, h)
    ensures SameShape(Rotate(g), Rotate(h))
    ensures SameShape(Apply(s, g), Apply(s, h))
  {
  }

  /** A board transformed by a symmetry, hashed under the grid transformed
      by the same symmetry, hashes as the board does under the grid: so the
      grid of key k recognises the board transformed by KeyOrder[k]. */
  lemma HashApply<C>(s: Symm, g: seq<seq<C>>, grid: seq<seq<int>>, f: C -> int)
    requires Rect(g) && Rect(grid) && SameShape(g, grid)
    ensures SameShape(Apply(s, g), Apply(s, grid))
    ensures HashBy(Apply(s, g), Apply(s, grid), f) == HashBy(g, grid, f)
  {
    ShapesAfter(s, g, grid);
    var g1, h1 := Rotate(g), Rotate(grid);
    HashRotate(g, grid, f);
    ShapesAfter(s, g1, h1);
    var g2, h2 := Rotate(g1), Rotate(h1);
    HashRotate(g1, h1, f);
    ShapesAfter(s, g2, h2);
    var g3, h3 := Rotate(g2), Rotate(h2);
    HashRotate(g2, h2, f);
    match s
    case Identity =>
    case MirrorH => HashFlipH(g, grid, f);
    case MirrorV => HashFlipV(g, grid, f);
    case Diagonal => HashFlipV(g1, h1, f);
    case AntiDiagonal => HashFlipV(g3, h3, f);
    case Rot90 =>
    case Rot180 =>
    case Rot270 =>
  }
}
