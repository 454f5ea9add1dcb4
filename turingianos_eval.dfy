/** The static evaluation of src/Turingianos.js: the positional weight grid
    (`generateWeightGrid`) and the linear score of a position
    (`evaluate`), with `opponent`. JavaScript numbers are modelled as
    reals. */
module TuringianosEval {
  import opened Scores
  import opened ReversiRules
  import opened Symmetry

  /** `opponent(color)`. */
  function Opponent(c: Color): (r: Color)
    ensures r == Rival(c)
  {
    if c == B then W else B
  }

  lemma OpponentInvolution(c: Color)
    ensures Opponent(Opponent(c)) == c && Opponent(c) != c
  {
  }

  // ---------------------------------------------------------------------
  // The weight grid

  /** `Math.round`: halves go up. */
  function Round(x: real): int
  {
    (x + 0.5).Floor
  }

  /** `scale = max(1, maxDimension/10)`. */
  function Scale(n: nat): (s: real)
    ensures s >= 1.0
  {
    MaxR(1.0, n as real / 10.0)
  }

  /** `edgeValue = round(1 + floor(max(0, maxDimension - 10)) * 0.25 + 1)`. */
  function EdgeValue(n: nat): (e: int)
    ensures e >= 2
  {
    var extra := if n > 10 then n - 10 else 0;
    Round(1.0 + extra as real * 0.25 + 1.0)
  }

  /** The corners of an n-by-n grid, in the order the source lists them. */
  function Corners(n: nat): seq<(int, int)>
  {
    [(0, 0), (0, n - 1), (n - 1, 0), (n - 1, n - 1)]
  }

  predicate IsCorner(n: nat, i: int, j: int)
  {
    (i == 0 || i == n - 1) && (j == 0 || j == n - 1)
  }

  /** A cell one king's step away from corner (ci, cj). */
  predicate Touches(i: int, j: int, ci: int, cj: int)
  {
    -1 <= i - ci <= 1 && -1 <= j - cj <= 1 && (i != ci || j != cj)
  }

  /** An X-square or C-square: next to some corner, sideways or diagonally. */
  predicate NearCorner(n: nat, i: int, j: int)
  {
    exists k :: 0 <= k < 4 && Touches(i, j, Corners(n)[k].0, Corners(n)[k].1)
  }

  predicate OnBorder(n: nat, i: int, j: int)
  {
    i == 0 || i == n - 1 || j == 0 || j == n - 1
  }

  /** The weight `generateWeightGrid` gives cell (i, j): -5 - scale next to
      a corner (a later write wins, so on a 2-by-2 board this includes the
      corners themselves), 50 + 5*scale on a corner, the edge value on the
      rest of the border, 0 inside. */
  function WeightAt(n: nat, i: int, j: int): real
  {
    if NearCorner(n, i, j) then -5.0 - Scale(n)
    else if IsCorner(n, i, j) then 50.0 + 5.0 * Scale(n)
    else if OnBorder(n, i, j) then EdgeValue(n) as real
    else 0.0
  }

  function WeightGrid(n: nat): (w: seq<seq<real>>)
    ensures Square(w, n) || n == 0
  {
    seq(n, i requires 0 <= i < n => seq(n, j requires 0 <= j < n => WeightAt(n, i, j)))
  }

  /** The grid rewards corners, punishes the squares next to them, and on
      boards of side three and more gives the rest of the border at least 2
      and the inside nothing. */
  lemma WeightSigns(n: nat, i: int, j: int)
    requires n >= 3 && 0 <= i < n && 0 <= j < n
    ensures IsCorner(n, i, j) ==> WeightAt(n, i, j) >= 55.0
    ensures NearCorner(n, i, j) ==> WeightAt(n, i, j) <= -6.0
    ensures OnBorder(n, i, j) && !IsCorner(n, i, j) && !NearCorner(n, i, j) ==> WeightAt(n, i, j) >= 2.0
    ensures !OnBorder(n, i, j) && !NearCorner(n, i, j) ==> WeightAt(n, i, j) == 0.0
  {
    if IsCorner(n, i, j) {
      forall k | 0 <= k < 4 ensures !Touches(i, j, Corners(n)[k].0, Corners(n)[k].1) {
      }
    }
  }

  /** The weight grid looks the same under every symmetry of the square. */
  lemma WeightGridSymmetric(n: nat, s: Symm)
    requires n > 0
    ensures Rect(WeightGrid(n)) && Apply(s, WeightGrid(n)) == WeightGrid(n)
  {
    var w := WeightGrid(n);
    WeightRotate(n);
    WeightFlips(n);
    FixedBySymmetries(s, w);
  }

  lemma WeightRotate(n: nat)
    requires n > 0
    ensures Rect(WeightGrid(n)) && Rotate(WeightGrid(n)) == WeightGrid(n)
  {
    var w := WeightGrid(n);
    WeightRotateCells(n);
    SameCells(Rotate(w), w);
  }

  lemma WeightRotateCells(n: nat)
    requires n > 0
    ensures Rect(WeightGrid(n)) && Square(Rotate(WeightGrid(n)), n)
    ensures forall i, j :: 0 <= i < n && 0 <= j < n ==> Rotate(WeightGrid(n))[i][j] == WeightGrid(n)[i][j]
  {
    var w := WeightGrid(n);
    assert Rect(w);
    RotateSquare(w, n);
    forall i, j | 0 <= i < n && 0 <= j < n ensures Rotate(w)[i][j] == w[i][j] {
      assert Rotate(w)[i][j] == w[n - 1 - j][i];
      WeightRotateCell(n, i, j);
    }
  }

  lemma WeightRotateCell(n: nat, i: int, j: int)
    requires 0 <= i < n && 0 <= j < n
    ensures WeightAt(n, n - 1 - j, i) == WeightAt(n, i, j)
  {
    WeightMirror(n, j, i);
    WeightMirror(n, i, j);
  }

  lemma WeightFlipHCell(n: nat, i: int, j: int)
    requires 0 <= i < n && 0 <= j < n
    ensures WeightAt(n, i, n - 1 - j) == WeightAt(n, i, j)
  {
    WeightMirror(n, n - 1 - j, i);
    WeightMirror(n, i, n - 1 - j);
    WeightMirror(n, i, j);
  }

  lemma WeightFlips(n: nat)
    requires n > 0
    ensures FlipV(WeightGrid(n)) == WeightGrid(n) && FlipH(WeightGrid(n)) == WeightGrid(n)
  {
    WeightFlipV(n);
    WeightFlipH(n);
  }

  lemma WeightFlipV(n: nat)
    requires n > 0
    ensures FlipV(WeightGrid(n)) == WeightGrid(n)
  {
    var w := WeightGrid(n);
    FlipVSquare(w, n);
    forall i, j | 0 <= i < n && 0 <= j < n ensures FlipV(w)[i][j] == w[i][j] {
      WeightMirror(n, i, j);
    }
    SameCells(FlipV(w), w);
  }

  lemma WeightFlipH(n: nat)
    requires n > 0
    ensures FlipH(WeightGrid(n)) == WeightGrid(n)
  {
    var w := WeightGrid(n);
    forall i, j | 0 <= i < n && 0 <= j < n ensures FlipH(w)[i][j] == w[i][j] {
      assert FlipH(w)[i][j] == w[i][n - 1 - j];
      WeightFlipHCell(n, i, j);
    }
    FlipHFixed(w);
  }

  /** The weight of a cell is that of its mirror image across the middle
      row and that of its image across the main diagonal. */
  lemma WeightMirror(n: nat, i: int, j: int)
    requires 0 <= i < n && 0 <= j < n
    ensures WeightAt(n, i, j) == WeightAt(n, n - 1 - i, j)
    ensures WeightAt(n, i, j) == WeightAt(n, j, i)
  {
    NearCornerMirror(n, i, j);
    NearCornerMirror(n, n - 1 - i, j);
    NearCornerTranspose(n, i, j);
    NearCornerTranspose(n, j, i);
  }

  lemma NearCornerMirror(n: nat, i: int, j: int)
    requires 0 <= i < n && 0 <= j < n
    ensures NearCorner(n, i, j) ==> NearCorner(n, n - 1 - i, j)
  {
    var cs := Corners(n);
    if NearCorner(n, i, j) {
      var k :| 0 <= k < 4 && Touches(i, j, cs[k].0, cs[k].1);
      var k' := if k == 0 then 2 else if k == 1 then 3 else if k == 2 then 0 else 1;
      assert Touches(n - 1 - i, j, cs[k'].0, cs[k'].1);
    }
  }

  lemma NearCornerTranspose(n: nat, i: int, j: int)
    requires 0 <= i < n && 0 <= j < n
    ensures NearCorner(n, i, j) ==> NearCorner(n, j, i)
  {
    var cs := Corners(n);
    if NearCorner(n, i, j) {
      var k :| 0 <= k < 4 && Touches(i, j, cs[k].0, cs[k].1);
      var k' := if k == 1 then 2 else if k == 2 then 1 else k;
      assert Touches(j, i, cs[k'].0, cs[k'].1);
    }
  }

  // ---------------------------------------------------------------------
  // Building the weight grid in place

  /** The first K corners include (i, j). */
  predicate CornerUpTo(n: nat, K: nat, i: int, j: int)
    requires K <= 4
  {
    exists k :: 0 <= k < K && Corners(n)[k] == (i, j)
  }

  /** The X-square writes made for corner (ci, cj), with their guards. */
  predicate XAt(n: nat, ci: int, cj: int, i: int, j: int)
  {
    (ci > 0 && cj > 0 && i == ci - 1 && j == cj - 1)
    || (ci > 0 && cj < n - 1 && i == ci - 1 && j == cj + 1)
    || (ci < n - 1 && cj > 0 && i == ci + 1 && j == cj - 1)
    || (ci < n - 1 && cj < n - 1 && i == ci + 1 && j == cj + 1)
  }

  /** The C-square writes made for corner (ci, cj), with their guards. */
  predicate CAt(n: nat, ci: int, cj: int, i: int, j: int)
  {
    (ci > 0 && i == ci - 1 && j == cj)
    || (ci < n - 1 && i == ci + 1 && j == cj)
    || (cj > 0 && i == ci && j == cj - 1)
    || (cj < n - 1 && i == ci && j == cj + 1)
  }

  predicate XUpTo(n: nat, K: nat, i: int, j: int)
    requires K <= 4
  {
    exists k :: 0 <= k < K && XAt(n, Corners(n)[k].0, Corners(n)[k].1, i, j)
  }

  predicate CUpTo(n: nat, K: nat, i: int, j: int)
    requires K <= 4
  {
    exists k :: 0 <= k < K && CAt(n, Corners(n)[k].0, Corners(n)[k].1, i, j)
  }

  /** The grid after the corner pass has seen K corners. */
  function CornerStage(n: nat, K: nat, i: int, j: int): real
    requires K <= 4
  {
    if CornerUpTo(n, K, i, j) then 50.0 + 5.0 * Scale(n) else 0.0
  }

  function XStage(n: nat, K: nat, i: int, j: int): real
    requires K <= 4
  {
    if XUpTo(n, K, i, j) then -5.0 - Scale(n) else CornerStage(n, 4, i, j)
  }

  function CStage(n: nat, K: nat, i: int, j: int): real
    requires K <= 4
  {
    if CUpTo(n, K, i, j) then -5.0 - Scale(n) else XStage(n, 4, i, j)
  }

  /** The edge pass: a border cell still at 0 takes the edge value. */
  function EdgeStage(n: nat, i: int, j: int): real
  {
    if CStage(n, 4, i, j) == 0.0 && OnBorder(n, i, j) then EdgeValue(n) as real else CStage(n, 4, i, j)
  }

  /** The four passes of `generateWeightGrid` leave the closed form. */
  lemma StagesGiveWeight(n: nat, i: int, j: int)
    requires 0 <= i < n && 0 <= j < n
    ensures EdgeStage(n, i, j) == WeightAt(n, i, j)
  {
    var cs := Corners(n);
    assert XUpTo(n, 4, i, j) || CUpTo(n, 4, i, j) <==> NearCorner(n, i, j) by {
      if NearCorner(n, i, j) {
        var k :| 0 <= k < 4 && Touches(i, j, cs[k].0, cs[k].1);
        assert XAt(n, cs[k].0, cs[k].1, i, j) || CAt(n, cs[k].0, cs[k].1, i, j);
      }
      if XUpTo(n, 4, i, j) {
        var k :| 0 <= k < 4 && XAt(n, cs[k].0, cs[k].1, i, j);
        assert Touches(i, j, cs[k].0, cs[k].1);
      }
      if CUpTo(n, 4, i, j) {
        var k :| 0 <= k < 4 && CAt(n, cs[k].0, cs[k].1, i, j);
        assert Touches(i, j, cs[k].0, cs[k].1);
      }
    }
    assert CornerUpTo(n, 4, i, j) <==> IsCorner(n, i, j) by {
      if IsCorner(n, i, j) {
        if i == 0 && j == 0 { assert cs[0] == (i, j); }
        else if i == 0 { assert cs[1] == (i, j); }
        else if j == 0 { assert cs[2] == (i, j); }
        else { assert cs[3] == (i, j); }
      }
    }
  }

  /** `generateWeightGrid`: fills a fresh n-by-n grid with 0, writes the
      corners, then the X-squares and the C-squares of each corner, then
      gives every border cell still at 0 the edge value. */
  method GenerateWeightGrid(n: nat) returns (grid: seq<seq<real>>)
    requires n > 0
    ensures grid == WeightGrid(n)
  {
    var a := new real[n, n];
    for i := 0 to n
      invariant forall r, q :: 0 <= r < i && 0 <= q < n ==> a[r, q] == 0.0
    {
      for j := 0 to n
        invariant forall r, q :: 0 <= r < i && 0 <= q < n ==> a[r, q] == 0.0
        invariant forall q :: 0 <= q < j ==> a[i, q] == 0.0
      {
        a[i, j] := 0.0;
      }
    }
    var edgeValue := EdgeValue(n);
    var scale := Scale(n);
    var corners := Corners(n);
    for k := 0 to 4
      invariant forall r, q :: 0 <= r < n && 0 <= q < n ==> a[r, q] == CornerStage(n, k, r, q)
    {
      a[corners[k].0, corners[k].1] := 50.0 + 5.0 * scale;
    }
    for k := 0 to 4
      invariant forall r, q :: 0 <= r < n && 0 <= q < n ==> a[r, q] == XStage(n, k, r, q)
    {
      MarkX(a, n, corners[k].0, corners[k].1, -5.0 - 1.0 * scale);
    }
    for k := 0 to 4
      invariant forall r, q :: 0 <= r < n && 0 <= q < n ==> a[r, q] == CStage(n, k, r, q)
    {
      MarkC(a, n, corners[k].0, corners[k].1, -5.0 - 1.0 * scale);
    }
    for i := 0 to n
      invariant forall r, q :: 0 <= r < n && 0 <= q < n ==>
                  a[r, q] == if r < i then EdgeStage(n, r, q) else CStage(n, 4, r, q)
    {
      for j := 0 to n
        invariant forall r, q :: 0 <= r < n && 0 <= q < n ==>
                    a[r, q] == if r < i || (r == i && q < j) then EdgeStage(n, r, q) else CStage(n, 4, r, q)
      {
        if a[i, j] != 0.0 {
          continue;
        }
        if i == 0 || i == n - 1 || j == 0 || j == n - 1 {
          a[i, j] := edgeValue as real;
        }
      }
    }
    grid := seq(n, i requires 0 <= i < n reads a => seq(n, j requires 0 <= j < n reads a => a[i, j]));
    forall i, j | 0 <= i < n && 0 <= j < n ensures grid[i][j] == WeightGrid(n)[i][j] {
      StagesGiveWeight(n, i, j);
    }
    SameCells(grid, WeightGrid(n));
  }

  /** The four guarded X-square writes for corner (ci, cj). */
  method MarkX(a: array2<real>, n: nat, ci: int, cj: int, v: real)
    requires a.Length0 == n && a.Length1 == n && 0 <= ci < n && 0 <= cj < n
    modifies a
    ensures forall r, q :: 0 <= r < n && 0 <= q < n ==>
              a[r, q] == if XAt(n, ci, cj, r, q) then v else old(a[r, q])
  {
    if ci > 0 && cj > 0 { a[ci - 1, cj - 1] := v; }
    if ci > 0 && cj < n - 1 { a[ci - 1, cj + 1] := v; }
    if ci < n - 1 && cj > 0 { a[ci + 1, cj - 1] := v; }
    if ci < n - 1 && cj < n - 1 { a[ci + 1, cj + 1] := v; }
  }

  /** The four guarded C-square writes for corner (ci, cj). */
  method MarkC(a: array2<real>, n: nat, ci: int, cj: int, v: real)
    requires a.Length0 == n && a.Length1 == n && 0 <= ci < n && 0 <= cj < n
    modifies a
    ensures forall r, q :: 0 <= r < n && 0 <= q < n ==>
              a[r, q] == if CAt(n, ci, cj, r, q) then v else old(a[r, q])
  {
    if ci > 0 { a[ci - 1, cj] := v; }
    if ci < n - 1 { a[ci + 1, cj] := v; }
    if cj > 0 { a[ci, cj - 1] := v; }
    if cj < n - 1 { a[ci, cj + 1] := v; }
  }

  // ---------------------------------------------------------------------
  // The evaluation

  /** The weights of the cells of a row that hold v. */
  function WeightRow(s: seq<Cell>, w: seq<real>, v: Cell): real
    requires |w| == |s|
  {
    if |s| == 0 then 0.0
    else WeightRow(s[..|s| - 1], w[..|s| - 1], v) + (if s[|s| - 1] == v then w[|s| - 1] else 0.0)
  }

  /** The weights of the cells of a board that hold v, row by row. */
  function WeightOf(g: Grid, ws: seq<seq<real>>, v: Cell): real
    requires SameShape(g, ws)
  {
    if |g| == 0 then 0.0
    else WeightOf(g[..|g| - 1], ws[..|g| - 1], v) + WeightRow(g[|g| - 1], ws[|g| - 1], v)
  }

  /** `min(0.1, 1 - turns/100)`: the share the weight grid gets. */
  function GridWeight(turns: int): (r: real)
    ensures r <= 0.1
    ensures turns <= 90 ==> r == 0.1
  {
    MinR(0.1, 1.0 - turns as real / 100.0)
  }

  /** `evaluate(board, color)`: `0.25` per move of mobility, `1.25` per disc,
      and the grid weight per unit of positional weight, each as the
      difference between the side to move and its opponent. */
  function Evaluation(g: Grid, n: nat, ws: seq<seq<real>>, turns: int, c: Color): real
    requires IsSquare(g, n) && SameShape(g, ws)
  {
    var o := Opponent(c);
    Blend(|ValidMoves(g, n, c)| - |ValidMoves(g, n, o)|, Count(g, Disc(c)) - Count(g, Disc(o)), GridWeight(turns),
          WeightOf(g, ws, Disc(c)) - WeightOf(g, ws, Disc(o)))
  }

  /** The three terms `evaluate` adds to a score that starts at 0. */
  function Blend(mobility: int, pieces: int, gridWeight: real, position: real): real
  {
    0.0 + 0.25 * (mobility as real) + 1.25 * (pieces as real) + gridWeight * position
  }

  lemma BlendNegates(mobility: int, pieces: int, gridWeight: real, position: real)
    ensures Blend(-mobility, -pieces, gridWeight, -position) == -Blend(mobility, pieces, gridWeight, position)
  {
  }

  /** What is good for one side is as bad for the other. */
  lemma EvaluationAntisymmetric(g: Grid, n: nat, ws: seq<seq<real>>, turns: int, c: Color)
    requires IsSquare(g, n) && SameShape(g, ws)
    ensures Evaluation(g, n, ws, turns, c) == -Evaluation(g, n, ws, turns, Opponent(c))
  {
    OpponentInvolution(c);
    var o := Opponent(c);
    BlendNegates(|ValidMoves(g, n, c)| - |ValidMoves(g, n, o)|, Count(g, Disc(c)) - Count(g, Disc(o)), GridWeight(turns),
                 WeightOf(g, ws, Disc(c)) - WeightOf(g, ws, Disc(o)));
  }
}
