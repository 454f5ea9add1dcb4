/** The rules of the Reversi board in src/reversi.js, stated on board values:
    a board is a square grid of cells, indexed `g[row][column]`. The Board
    class (reversi_board.dfy) is proved to compute these functions. */
module ReversiRules {

  datatype Color = W | B
  datatype Cell = Empty | Disc(color: Color)
  type Grid = seq<seq<Cell>>

  /** A candidate placement, `{y: row, x: column}` in the source. */
  datatype Move = At(y: int, x: int)

  /** A value or JavaScript's `null`. */
  datatype Option<T> = None | Some(value: T)

  /** The colour called `rcolor` in `check` and `move`. */
  function Rival(c: Color): (r: Color)
    ensures r != c && (r == W || r == B)
  {
    if c == W then B else W
  }

  predicate IsSquare(g: Grid, n: nat)
  {
    |g| == n && forall i :: 0 <= i < n ==> |g[i]| == n
  }

  predicate Inside(n: int, r: int, q: int)
  {
    0 <= r < n && 0 <= q < n
  }

  /** The board a game starts from: W on the main diagonal of the four
      centre cells, B on the other one. */
  function InitialCell(n: nat, r: int, q: int): Cell
  {
    var m := n / 2 - 1;
    if (r == m && q == m) || (r == m + 1 && q == m + 1) then Disc(W)
    else if (r == m && q == m + 1) || (r == m + 1 && q == m) then Disc(B)
    else Empty
  }

  // ---------------------------------------------------------------------
  // Rays

  /** One of the eight directions, as a row step and a column step. */
  datatype Dir = Dir(dy: int, dx: int)

  /** The directions in the order `check` and `move` try them: left, right,
      up, down, left-top, left-bottom, right-top, right-bottom. */
  const Dirs: seq<Dir> := [Dir(0, -1), Dir(0, 1), Dir(-1, 0), Dir(1, 0),
                           Dir(-1, -1), Dir(1, -1), Dir(-1, 1), Dir(1, 1)]

  predicate IsUnit(d: Dir)
  {
    -1 <= d.dy <= 1 && -1 <= d.dx <= 1 && (d.dy != 0 || d.dx != 0)
  }

  /** The coordinate k steps away from v in step direction dv. */
  function Shift(v: int, dv: int, k: int): int
  {
    if dv == 0 then v else if dv > 0 then v + k else v - k
  }

  /** The distance, counted from `k`, at which the walk from (y, x) along d
      first leaves the board or meets a cell that is not a disc of the
      rival of c: where the scanning `while` loops of `check` and `move`
      stop. */
  function RunEnd(g: Grid, n: nat, y: int, x: int, d: Dir, c: Color, k: nat): (e: nat)
    requires IsSquare(g, n)
    ensures e >= k
    decreases n - k
  {
    if k < n && Inside(n, Shift(y, d.dy, k), Shift(x, d.dx, k))
       && g[Shift(y, d.dy, k)][Shift(x, d.dx, k)] == Disc(Rival(c))
    then RunEnd(g, n, y, x, d, c, k + 1)
    else k
  }

  /** At least one rival disc along d, followed at once by a disc of c. */
  predicate Bracketed(g: Grid, n: nat, y: int, x: int, d: Dir, c: Color)
    requires IsSquare(g, n)
  {
    var e := RunEnd(g, n, y, x, d, c, 1);
    e > 1 && Inside(n, Shift(y, d.dy, e), Shift(x, d.dx, e))
    && g[Shift(y, d.dy, e)][Shift(x, d.dx, e)] == Disc(c)
  }

  /** `check(color, x, y)`: the cell is empty and some direction brackets. */
  predicate Check(g: Grid, n: nat, c: Color, x: int, y: int)
    requires IsSquare(g, n) && Inside(n, y, x)
  {
    g[y][x] == Empty && exists t :: 0 <= t < |Dirs| && Bracketed(g, n, y, x, Dirs[t], c)
  }

  // ---------------------------------------------------------------------
  // Legal moves, in the row-major order `valid_moves` produces them

  /** The legal moves of row i among its first j columns. */
  function RowMoves(g: Grid, n: nat, c: Color, i: int, j: nat): seq<Move>
    requires IsSquare(g, n) && 0 <= i < n && j <= n
  {
    if j == 0 then []
    else RowMoves(g, n, c, i, j - 1) + (if Check(g, n, c, j - 1, i) then [At(i, j - 1)] else [])
  }

  /** The legal moves of the first i rows. */
  function MovesUpTo(g: Grid, n: nat, c: Color, i: nat): seq<Move>
    requires IsSquare(g, n) && i <= n
  {
    if i == 0 then [] else MovesUpTo(g, n, c, i - 1) + RowMoves(g, n, c, i - 1, n)
  }

  /** `valid_moves(color)`. */
  function ValidMoves(g: Grid, n: nat, c: Color): seq<Move>
    requires IsSquare(g, n)
  {
    MovesUpTo(g, n, c, n)
  }

  /** Row-major order on cells. */
  predicate Before(a: Move, b: Move)
  {
    a.y < b.y || (a.y == b.y && a.x < b.x)
  }

  // ---------------------------------------------------------------------
  // Placing a disc

  function Sign(v: int): int
  {
    if v > 0 then 1 else if v < 0 then -1 else 0
  }

  function Abs(v: int): nat
  {
    if v < 0 then -v else v
  }

  /** (r, q) is another cell on one of the eight lines through (y, x). */
  predicate Aligned(y: int, x: int, r: int, q: int)
  {
    (r != y || q != x) && (r == y || q == x || Abs(r - y) == Abs(q - x))
  }

  /** The direction from (y, x) towards (r, q). */
  function DirTo(y: int, x: int, r: int, q: int): Dir
  {
    Dir(Sign(r - y), Sign(q - x))
  }

  /** The number of steps from (y, x) to an aligned cell (r, q). */
  function Dist(y: int, x: int, r: int, q: int): nat
  {
    if Abs(r - y) >= Abs(q - x) then Abs(r - y) else Abs(q - x)
  }

  /** (r, q) is on a bracketed run of rival discs seen from (y, x): a disc
      that placing c at (y, x) turns over. */
  predicate Captured(g: Grid, n: nat, y: int, x: int, c: Color, r: int, q: int)
    requires IsSquare(g, n)
  {
    Aligned(y, x, r, q)
    && Bracketed(g, n, y, x, DirTo(y, x, r, q), c)
    && Dist(y, x, r, q) < RunEnd(g, n, y, x, DirTo(y, x, r, q), c, 1)
  }

  /** The cell (r, q) after c is placed on the empty cell (y, x). */
  function PlacedCell(g: Grid, n: nat, y: int, x: int, c: Color, r: int, q: int): Cell
    requires IsSquare(g, n) && Inside(n, r, q)
  {
    if r == y && q == x then Disc(c)
    else if Captured(g, n, y, x, c, r, q) then Disc(c)
    else g[r][q]
  }

  /** Whether `move(x, y, color)` can place at all. */
  predicate Placeable(g: Grid, n: nat, x: int, y: int)
    requires IsSquare(g, n)
  {
    Inside(n, y, x) && g[y][x] == Empty
  }

  /** The board after `move(x, y, color)`: unchanged when the cell is off the
      board or taken, otherwise the disc is placed and every captured disc
      turned over, whether or not anything was captured. */
  function AfterMove(g: Grid, n: nat, x: int, y: int, c: Color): (g': Grid)
    requires IsSquare(g, n)
    ensures IsSquare(g', n)
  {
    if !Placeable(g, n, x, y) then g
    else seq(n, r requires 0 <= r < n =>
           seq(n, q requires 0 <= q < n => PlacedCell(g, n, y, x, c, r, q)))
  }

  /** What `move(x, y, color)` returns. */
  predicate MoveFlag(g: Grid, n: nat, x: int, y: int, c: Color)
    requires IsSquare(g, n)
  {
    Inside(n, y, x) && Check(g, n, c, x, y)
  }

  /** The number of discs a placement at (y, x) turns over, summed over the
      first t directions. */
  function FlipsUpTo(g: Grid, n: nat, y: int, x: int, c: Color, t: nat): nat
    requires IsSquare(g, n) && t <= |Dirs|
  {
    if t == 0 then 0
    else FlipsUpTo(g, n, y, x, c, t - 1)
         + (if Bracketed(g, n, y, x, Dirs[t - 1], c) then RunEnd(g, n, y, x, Dirs[t - 1], c, 1) - 1 else 0)
  }

  function FlipCount(g: Grid, n: nat, y: int, x: int, c: Color): nat
    requires IsSquare(g, n)
  {
    FlipsUpTo(g, n, y, x, c, |Dirs|)
  }

  // ---------------------------------------------------------------------
  // Counting discs

  /** The number of cells equal to v in a row. */
  function CountRow(s: seq<Cell>, v: Cell): nat
  {
    if |s| == 0 then 0 else CountRow(s[..|s| - 1], v) + (if s[|s| - 1] == v then 1 else 0)
  }

  /** The number of cells equal to v on a board, row by row. */
  function Count(g: Grid, v: Cell): nat
  {
    if |g| == 0 then 0 else Count(g[..|g| - 1], v) + CountRow(g[|g| - 1], v)
  }

  /** The cells of an n-by-n board that hold v. */
  ghost function CellsOf(g: Grid, n: nat, v: Cell): set<(int, int)>
    requires IsSquare(g, n)
  {
    set r, q | 0 <= r < n && 0 <= q < n && g[r][q] == v :: (r, q)
  }

  /** The result of `winner(white, black)`: the two counts, and either a
      draw or the id of the side with more discs. */
  datatype Outcome = Draw(whites: nat, blacks: nat) | Won(id: string, whites: nat, blacks: nat)

  function WinnerOf(g: Grid, white: string, black: string): Outcome
  {
    var w := Count(g, Disc(W));
    var b := Count(g, Disc(B));
    if w == b then Draw(w, b) else Won(if w > b then white else black, w, b)
  }
}
