/** The position keys of the memo cache in src/Turingianos.js
    (`getBoardHashes`): one additive hash of the board per symmetry grid,
    tagged with the search depth and the colour to move. A key string
    `hash + 'D' + depth + color` is modelled by the triple it is rendered
    from; distinct triples render to distinct strings, since the hash and
    the depth are written in decimal digits and are separated by the letter D. */
module TuringianosHash {
  import opened ReversiRules
  import opened Symmetry

  /** What a cell adds to a hash, per unit of the grid's number: 31 for a
      disc of the colour to move, 31*2*7*31 for a rival disc, nothing for an
      empty cell. */
  function Factor(c: Color): (f: Cell -> int)
    ensures f(Disc(c)) == 31 && f(Disc(Rival(c))) == 31 * 2 * 7 * 31 && f(Empty) == 0
  {
    (v: Cell) => if v == Disc(c) then 31 else if v == Disc(Rival(c)) then 31 * 2 * 7 * 31 else 0
  }

  datatype Key = Key(hash: int, depth: int, color: Color)

  /** The eight grids `initialize_agent` derives from the row-major index
      grid of an n-by-n board, in key order. */
  function HashGrids(n: nat): (gs: seq<seq<seq<int>>>)
    requires n > 0
    ensures |gs| == 8
  {
    var base := IndexGrid(n, n);
    assert Rect(base);
    seq(8, k requires 0 <= k < 8 => Apply(KeyOrder[k], base))
  }

  /** Eight grids of the board's shape. */
  predicate GridsFit(gs: seq<seq<seq<int>>>, n: nat)
  {
    |gs| == 8 && forall k :: 0 <= k < 8 ==> Square(gs[k], n)
  }

  lemma HashGridsFit(n: nat)
    requires n > 0
    ensures GridsFit(HashGrids(n), n)
  {
    var base := IndexGrid(n, n);
    assert Square(base, n);
    forall k | 0 <= k < 8 ensures Square(HashGrids(n)[k], n) {
      ApplySquare(KeyOrder[k], base, n);
    }
  }

  lemma ApplySquare(s: Symm, a: seq<seq<int>>, n: nat)
    requires Rect(a) && Square(a, n)
    ensures Square(Apply(s, a), n)
  {
    RotateSquare(a, n);
    RotateSquare(Rotate(a), n);
    RotateSquare(Rotate(Rotate(a)), n);
  }

  /** The hash of board g under one grid. */
  function Hash(g: Grid, grid: seq<seq<int>>, c: Color, n: nat): int
    requires IsSquare(g, n) && Square(grid, n)
  {
    HashBy(g, grid, Factor(c))
  }

  /** The keys `getBoardHashes(board, color, depth)` returns, in order. */
  function BoardKeys(g: Grid, gs: seq<seq<seq<int>>>, c: Color, depth: int, n: nat): (keys: seq<Key>)
    requires IsSquare(g, n) && GridsFit(gs, n)
    ensures |keys| == 8
    ensures forall k :: 0 <= k < 8 ==> keys[k].depth == depth && keys[k].color == c
  {
    seq(8, k requires 0 <= k < 8 => Key(Hash(g, gs[k], c, n), depth, c))
  }

  /** A square board turned by one of the eight symmetries has, at the key
      of that symmetry's grid, the key the board itself has under the
      plain row-major grid: a symmetric copy of a stored position finds
      it in the cache. */
  lemma SymmetricBoardsShareKey(g: Grid, n: nat, c: Color, depth: int, k: nat)
    requires n > 0 && IsSquare(g, n) && k < 8
    ensures IsSquare(Apply(KeyOrder[k], g), n) && GridsFit(HashGrids(n), n)
    ensures BoardKeys(Apply(KeyOrder[k], g), HashGrids(n), c, depth, n)[k]
            == BoardKeys(g, HashGrids(n), c, depth, n)[0]
  {
    var base := IndexGrid(n, n);
    assert Square(g, n) && Square(base, n);
    HashGridsFit(n);
    SquareCells(KeyOrder[k], g, n);
    HashApply(KeyOrder[k], g, base, Factor(c));
    assert HashGrids(n)[0] == base;
  }

  lemma SquareCells(s: Symm, g: Grid, n: nat)
    requires Rect(g) && Square(g, n)
    ensures IsSquare(Apply(s, g), n)
  {
    RotateSquare(g, n);
    RotateSquare(Rotate(g), n);
    RotateSquare(Rotate(Rotate(g)), n);
  }

  /** A board with no discs hashes to 0 under every grid. */
  lemma EmptyBoardHashesToZero(g: Grid, grid: seq<seq<int>>, c: Color, n: nat)
    requires IsSquare(g, n) && Square(grid, n)
    requires forall r, q :: Inside(n, r, q) ==> g[r][q] == Empty
    ensures Hash(g, grid, c, n) == 0
  {
    var t := Terms(g, grid, Factor(c));
    SameCells(t, Zeros(n));
    ZerosSum(n, n);
    assert Zeros(n)[..n] == Zeros(n);
  }

  function ZeroRow(n: nat): seq<int>
  {
    seq(n, j => 0)
  }

  /** n rows of n zeros. */
  function Zeros(n: nat): seq<seq<int>>
  {
    seq(n, i => ZeroRow(n))
  }

  lemma {:induction false} ZerosSum(rows: nat, n: nat)
    requires rows <= n
    ensures Sum2(Zeros(n)[..rows]) == 0
  {
    if rows > 0 {
      assert Zeros(n)[..rows][..rows - 1] == Zeros(n)[..rows - 1];
      ZeroRowSum(n, n);
      assert ZeroRow(n)[..n] == ZeroRow(n);
      ZerosSum(rows - 1, n);
    }
  }

  lemma {:induction false} ZeroRowSum(len: nat, n: nat)
    requires len <= n
    ensures Sum(ZeroRow(n)[..len]) == 0
  {
    if len > 0 {
      assert ZeroRow(n)[..len][..len - 1] == ZeroRow(n)[..len - 1];
      ZeroRowSum(len - 1, n);
    }
  }
}
