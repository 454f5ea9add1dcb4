/** The time budgeting and the static heuristics of the LordDemonio agent in
    src/agenteLordDemonio.js, as functions of the board value: the budget of
    a move, the size factor, the game phase, the search depth, the
    evaluation weights, the four count-based evaluators and the count of
    filled cells. Fractions of milliseconds and ratios are reals; counts
    and scores of discs are integers. */
module LordDemonioRules {
  import opened Scores
  import opened ReversiRules
  import opened ReversiCapture

  datatype Phase = Opening | Midgame | Endgame

  /** The constants of the constructor, in milliseconds. */
  const TimeReserve: int := 4000
  const MinMoveTime: real := 500.0
  const MaxMoveTime: real := 5000.0
  const MaxFirstMoveTime: real := 2000.0

  /** `PHASE_TIME_RATIOS`: the share of the usable time a move may take. */
  function PhaseRatio(p: Phase): (r: real)
    ensures 0.25 <= r <= 0.45
  {
    match p
    case Opening => 0.30
    case Midgame => 0.25
    case Endgame => 0.45
  }

  // ---------------------------------------------------------------------
  // Budget, size factor, phase and depth

  /** `getSizeFactor`, from the number of cells of the board. */
  function SizeFactor(cells: int): (f: real)
    ensures f == 1.0 <==> cells <= 100
    ensures f == 1.4 <==> cells > 400
    ensures 1.0 <= f <= 1.4
  {
    if cells <= 100 then 1.0 else if cells <= 400 then 1.2 else 1.4
  }

  /** A larger board never gets a smaller factor. */
  lemma SizeFactorMonotone(a: int, b: int)
    requires a <= b
    ensures SizeFactor(a) <= SizeFactor(b)
  {
  }

  /** `calculateTimeBudget(usableTime, gamePhase, moveCount, board)`: the
      phase's share of the usable time, clamped to [500, 2000] on the first
      move and otherwise scaled by the size factor and clamped to
      [500, 5000]. */
  function TimeBudget(usable: real, p: Phase, moveCount: int, cells: int): (t: real)
    ensures moveCount == 1 ==> MinMoveTime <= t <= MaxFirstMoveTime
    ensures MinMoveTime <= t <= MaxMoveTime
  {
    var share := PhaseShare(usable, p);
    if moveCount == 1 then MinR(MaxFirstMoveTime, MaxR(MinMoveTime, share))
    else MaxR(MinMoveTime, MinR(Scaled(share, cells), MaxMoveTime))
  }

  /** `usableTime * PHASE_TIME_RATIOS[gamePhase]`. */
  function PhaseShare(usable: real, p: Phase): (s: real)
    ensures usable >= 0.0 ==> 0.0 <= s <= usable
  {
    match p
    case Opening => usable * 0.30
    case Midgame => usable * 0.25
    case Endgame => usable * 0.45
  }

  /** `timeBudget *= sizeFactor`. */
  function Scaled(t: real, cells: int): (s: real)
    ensures t >= 0.0 ==> t <= s <= t * 1.4
  {
    if cells <= 100 then t else if cells <= 400 then t * 1.2 else t * 1.4
  }

  /** More usable time never gives a smaller budget. */
  lemma TimeBudgetMonotone(u1: real, u2: real, p: Phase, moveCount: int, cells: int)
    requires u1 <= u2
    ensures TimeBudget(u1, p, moveCount, cells) <= TimeBudget(u2, p, moveCount, cells)
  {
    assert PhaseShare(u1, p) <= PhaseShare(u2, p);
    assert Scaled(PhaseShare(u1, p), cells) <= Scaled(PhaseShare(u2, p), cells);
  }

  /** Within the bounds, the budget is exactly the phase's share of the
      usable time, times the size factor after the first move. */
  lemma TimeBudgetUnclamped(usable: real, p: Phase, moveCount: int, cells: int)
    ensures moveCount == 1 && MinMoveTime <= usable * PhaseRatio(p) <= MaxFirstMoveTime
            ==> TimeBudget(usable, p, moveCount, cells) == usable * PhaseRatio(p)
    ensures moveCount != 1 && MinMoveTime <= usable * PhaseRatio(p) * SizeFactor(cells) <= MaxMoveTime
            ==> TimeBudget(usable, p, moveCount, cells) == usable * PhaseRatio(p) * SizeFactor(cells)
  {
    assert PhaseShare(usable, p) == usable * PhaseRatio(p);
    assert Scaled(PhaseShare(usable, p), cells) == usable * PhaseRatio(p) * SizeFactor(cells);
  }

  /** `getGamePhase`: the share of filled cells below 0.3 is the opening,
      above 0.7 the endgame, the rest the middle game; compared without
      dividing, since the board has at least one cell. */
  function GamePhase(filled: nat, total: nat): Phase
    requires total > 0
  {
    if (filled as real) < 0.3 * (total as real) then Opening
    else if (filled as real) > 0.7 * (total as real) then Endgame
    else Midgame
  }

  lemma GamePhaseByRatio(filled: nat, total: nat)
    requires total > 0
    ensures GamePhase(filled, total) == Opening <==> (filled as real) / (total as real) < 0.3
    ensures GamePhase(filled, total) == Endgame <==> (filled as real) / (total as real) > 0.7
    ensures GamePhase(filled, total) == Midgame <==> 0.3 <= (filled as real) / (total as real) <= 0.7
  {
    RatioBelow(filled as real, total as real, 0.3);
    RatioAbove(filled as real, total as real, 0.7);
  }

  lemma RatioBelow(f: real, t: real, k: real)
    requires t > 0.0
    ensures f / t < k <==> f < k * t
  {
    var r := f / t;
    assert r * t == f;
    if r < k {
      assert (k - r) * t > 0.0;
    } else {
      assert (r - k) * t >= 0.0;
    }
  }

  lemma RatioAbove(f: real, t: real, k: real)
    requires t > 0.0
    ensures f / t > k <==> f > k * t
  {
    var r := f / t;
    assert r * t == f;
    if r > k {
      assert (r - k) * t > 0.0;
    } else {
      assert (k - r) * t >= 0.0;
    }
  }

  /** `baseDepths[gamePhase]`. */
  function BaseDepth(p: Phase): (d: nat)
    ensures 2 <= d <= 4
  {
    match p
    case Opening => 2
    case Midgame => 3
    case Endgame => 4
  }

  /** `Math.max(1, candidateCount)`. */
  function Share(candidates: nat): (m: nat)
    ensures m >= 1 && m >= candidates
  {
    if candidates > 1 then candidates else 1
  }

  /** `calculateSearchDepth`: the phase's base depth, two less when a
      candidate gets under 150 ms and one less under 300 ms, never below 1.
      The time per candidate is compared without dividing. */
  function SearchDepth(p: Phase, candidates: nat, budget: real): (d: nat)
    ensures 1 <= d <= BaseDepth(p)
  {
    var m := Share(candidates) as real;
    var base := BaseDepth(p);
    if budget < 150.0 * m then AtLeastOne(base - 2)
    else if budget < 300.0 * m then AtLeastOne(base - 1)
    else base
  }

  /** `Math.max(1, v)`. */
  function AtLeastOne(v: int): (r: nat)
    ensures r >= 1 && r >= v && (r == v || r == 1)
  {
    if v >= 1 then v else 1
  }

  /** The depth by the time per candidate, `timeBudget / max(1, count)`. */
  lemma SearchDepthByTime(p: Phase, candidates: nat, budget: real)
    ensures var per := budget / Share(candidates) as real;
            && (per >= 300.0 ==> SearchDepth(p, candidates, budget) == BaseDepth(p))
            && (150.0 <= per < 300.0 ==> SearchDepth(p, candidates, budget) == BaseDepth(p) - 1)
            && (per < 150.0 ==> SearchDepth(p, candidates, budget)
                                == if BaseDepth(p) > 2 then BaseDepth(p) - 2 else 1)
  {
    var m := Share(candidates) as real;
    var per := budget / m;
    assert per * m == budget;
    assert per < 150.0 <==> per * m < 150.0 * m;
    assert per < 300.0 <==> per * m < 300.0 * m;
  }

  /** More time for the same candidates never gives a shallower search. */
  lemma SearchDepthMonotone(p: Phase, candidates: nat, b1: real, b2: real)
    requires b1 <= b2
    ensures SearchDepth(p, candidates, b1) <= SearchDepth(p, candidates, b2)
  {
  }

  // ---------------------------------------------------------------------
  // The evaluators

  /** What one cell adds to a count-based score: 1 for a disc of c, -1 for
      a disc of the rival, 0 for an empty cell. */
  function Term(v: Cell, c: Color): (t: int)
    ensures -1 <= t <= 1
  {
    if v == Disc(c) then 1 else if v == Disc(Rival(c)) then -1 else 0
  }

  lemma TermNeg(v: Cell, c: Color)
    ensures Term(v, Rival(c)) == -Term(v, c)
  {
  }

  /** The corners `evaluateCorners` visits, as (x, y) pairs. */
  function CornerCells(n: nat): seq<(int, int)>
  {
    [(0, 0), (0, n - 1), (n - 1, 0), (n - 1, n - 1)]
  }

  predicate OnBoard(n: nat, cs: seq<(int, int)>)
  {
    forall k :: 0 <= k < |cs| ==> Inside(n, cs[k].1, cs[k].0)
  }

  function CornerSum(g: Grid, n: nat, cs: seq<(int, int)>, c: Color): (s: int)
    requires IsSquare(g, n) && OnBoard(n, cs)
    ensures -|cs| <= s <= |cs|
  {
    if |cs| == 0 then 0
    else CornerSum(g, n, cs[..|cs| - 1], c) + Term(g[cs[|cs| - 1].1][cs[|cs| - 1].0], c)
  }

  /** `evaluateCorners(board, color)`: corners held minus corners lost. */
  function CornerScore(g: Grid, n: nat, c: Color): (s: int)
    requires IsSquare(g, n) && n > 0
    ensures -4 <= s <= 4
  {
    CornerSum(g, n, CornerCells(n), c)
  }

  lemma {:induction false} CornerSumNeg(g: Grid, n: nat, cs: seq<(int, int)>, c: Color)
    requires IsSquare(g, n) && OnBoard(n, cs)
    ensures CornerSum(g, n, cs, Rival(c)) == -CornerSum(g, n, cs, c)
  {
    if |cs| > 0 {
      CornerSumNeg(g, n, cs[..|cs| - 1], c);
      TermNeg(g[cs[|cs| - 1].1][cs[|cs| - 1].0], c);
    }
  }

  lemma CornerScoreNeg(g: Grid, n: nat, c: Color)
    requires IsSquare(g, n) && n > 0
    ensures CornerScore(g, n, Rival(c)) == -CornerScore(g, n, c)
  {
    CornerSumNeg(g, n, CornerCells(n), c);
  }

  /** The first loop of `evaluateEdges`: the first k cells of the top and
      of the bottom row. */
  function TopBottom(g: Grid, n: nat, c: Color, k: nat): int
    requires IsSquare(g, n) && n > 0 && k <= n
  {
    if k == 0 then 0
    else TopBottom(g, n, c, k - 1) + Term(g[0][k - 1], c) + Term(g[n - 1][k - 1], c)
  }

  /** The second loop of `evaluateEdges`: the cells of the left and of the
      right column in the rows 1 to k - 1. */
  function Sides(g: Grid, n: nat, c: Color, k: nat): int
    requires IsSquare(g, n) && k <= n
  {
    if k <= 1 then 0
    else Sides(g, n, c, k - 1) + Term(g[k - 1][0], c) + Term(g[k - 1][n - 1], c)
  }

  /** `evaluateEdges(board, color)`: the border cells, the corners once on
      each of the two rows they lie on. */
  function EdgeScore(g: Grid, n: nat, c: Color): int
    requires IsSquare(g, n) && n > 0
  {
    TopBottom(g, n, c, n) + Sides(g, n, c, n - 1)
  }

  lemma {:induction false} TopBottomNeg(g: Grid, n: nat, c: Color, k: nat)
    requires IsSquare(g, n) && n > 0 && k <= n
    ensures TopBottom(g, n, Rival(c), k) == -TopBottom(g, n, c, k)
  {
    if k > 0 {
      TopBottomNeg(g, n, c, k - 1);
      TermNeg(g[0][k - 1], c);
      TermNeg(g[n - 1][k - 1], c);
    }
  }

  lemma {:induction false} SidesNeg(g: Grid, n: nat, c: Color, k: nat)
    requires IsSquare(g, n) && k <= n
    ensures Sides(g, n, Rival(c), k) == -Sides(g, n, c, k)
  {
    if k > 1 {
      SidesNeg(g, n, c, k - 1);
      TermNeg(g[k - 1][0], c);
      TermNeg(g[k - 1][n - 1], c);
    }
  }

  lemma EdgeScoreNeg(g: Grid, n: nat, c: Color)
    requires IsSquare(g, n) && n > 0
    ensures EdgeScore(g, n, Rival(c)) == -EdgeScore(g, n, c)
  {
    TopBottomNeg(g, n, c, n);
    SidesNeg(g, n, c, n - 1);
  }

  /** `Math.ceil`. */
  function Ceil(x: real): int
  {
    -((-x).Floor)
  }

  /** The rows, and alike the columns, `evaluateCenter` scans: from
      floor(mid - n/4) up to ceil(mid + n/4), with mid = floor(n/2),
      cut to the board. The span holds the middle cell. */
  function CenterSpan(n: nat): (span: (int, int))
    ensures 0 <= span.0 && span.1 <= n
    ensures n > 0 ==> span.0 <= n / 2 < span.1
  {
    var mid := (n / 2) as real;
    var radius := n as real / 4.0;
    var lo := (mid - radius).Floor;
    var hi := Ceil(mid + radius);
    (if lo > 0 then lo else 0, if hi < n then hi else n)
  }

  /** The cells lo to hi - 1 of a row. */
  function SpanRow(s: seq<Cell>, c: Color, lo: int, hi: int): int
    requires 0 <= lo && hi <= |s|
    decreases hi - lo
  {
    if hi <= lo then 0 else SpanRow(s, c, lo, hi - 1) + Term(s[hi - 1], c)
  }

  /** The columns lo to hi - 1 of the rows top to bottom - 1. */
  function SpanRows(g: Grid, n: nat, c: Color, top: int, bottom: int, lo: int, hi: int): int
    requires IsSquare(g, n) && 0 <= top && bottom <= n && 0 <= lo && hi <= n
    decreases bottom - top
  {
    if bottom <= top then 0
    else SpanRows(g, n, c, top, bottom - 1, lo, hi) + SpanRow(g[bottom - 1], c, lo, hi)
  }

  /** `evaluateCenter(board, color)`: the central square. */
  function CenterScore(g: Grid, n: nat, c: Color): int
    requires IsSquare(g, n)
  {
    var span := CenterSpan(n);
    SpanRows(g, n, c, span.0, span.1, span.0, span.1)
  }

  lemma {:induction false} SpanRowNeg(s: seq<Cell>, c: Color, lo: int, hi: int)
    requires 0 <= lo && hi <= |s|
    ensures SpanRow(s, Rival(c), lo, hi) == -SpanRow(s, c, lo, hi)
    decreases hi - lo
  {
    if hi > lo {
      SpanRowNeg(s, c, lo, hi - 1);
      TermNeg(s[hi - 1], c);
    }
  }

  lemma {:induction false} SpanRowsNeg(g: Grid, n: nat, c: Color, top: int, bottom: int, lo: int, hi: int)
    requires IsSquare(g, n) && 0 <= top && bottom <= n && 0 <= lo && hi <= n
    ensures SpanRows(g, n, Rival(c), top, bottom, lo, hi) == -SpanRows(g, n, c, top, bottom, lo, hi)
    decreases bottom - top
  {
    if bottom > top {
      SpanRowsNeg(g, n, c, top, bottom - 1, lo, hi);
      SpanRowNeg(g[bottom - 1], c, lo, hi);
    }
  }

  lemma CenterScoreNeg(g: Grid, n: nat, c: Color)
    requires IsSquare(g, n)
    ensures CenterScore(g, n, Rival(c)) == -CenterScore(g, n, c)
  {
    var span := CenterSpan(n);
    SpanRowsNeg(g, n, c, span.0, span.1, span.0, span.1);
  }

  /** `evaluateMobility(board, color)`: legal moves of c minus those of the
      rival. */
  function Mobility(g: Grid, n: nat, c: Color): int
    requires IsSquare(g, n)
  {
    |ValidMoves(g, n, c)| - |ValidMoves(g, n, Rival(c))|
  }

  lemma MobilityNeg(g: Grid, n: nat, c: Color)
    requires IsSquare(g, n)
    ensures Mobility(g, n, Rival(c)) == -Mobility(g, n, c)
  {
    assert Rival(Rival(c)) == c;
  }

  // ---------------------------------------------------------------------
  // Filled cells, phase of a board, weights and the quick evaluation

  function FilledRow(s: seq<Cell>): nat
  {
    if |s| == 0 then 0 else FilledRow(s[..|s| - 1]) + (if s[|s| - 1] != Empty then 1 else 0)
  }

  /** `countFilledCells(board)`: the cells that are not empty. */
  function Filled(g: Grid): nat
  {
    if |g| == 0 then 0 else Filled(g[..|g| - 1]) + FilledRow(g[|g| - 1])
  }

  lemma {:induction false} FilledRowIsPieces(s: seq<Cell>)
    ensures FilledRow(s) == CountRow(s, Disc(W)) + CountRow(s, Disc(B))
  {
    if |s| > 0 {
      FilledRowIsPieces(s[..|s| - 1]);
      match s[|s| - 1]
      case Empty =>
      case Disc(W) =>
      case Disc(B) =>
    }
  }

  /** Every filled cell holds a white or a black disc, so the filled cells
      are the white discs plus the black discs. */
  lemma {:induction false} FilledIsPieces(g: Grid)
    ensures Filled(g) == Count(g, Disc(W)) + Count(g, Disc(B))
  {
    if |g| > 0 {
      FilledIsPieces(g[..|g| - 1]);
      FilledRowIsPieces(g[|g| - 1]);
    }
  }

  /** `getGamePhase(board)` on an n-by-n board. */
  function PhaseOf(g: Grid, n: nat): Phase
    requires n > 0
  {
    GamePhase(Filled(g), n * n)
  }

  datatype Weights = Weights(corner: int, edge: int, center: int, mobility: int)

  /** `getEvaluationWeights(board)`, from the phase and whether the board
      has more than 100 cells. */
  function EvaluationWeights(p: Phase, large: bool): (w: Weights)
    ensures w.corner > 0 && w.edge > 0 && w.center > 0 && w.mobility > 0
    ensures w.corner >= w.edge && w.corner >= w.center && w.corner >= w.mobility
  {
    match p
    case Opening =>
      Weights(if large then 6 else 10, if large then 4 else 6, if large then 5 else 3, 2)
    case Endgame => Weights(15, 5, 2, 3)
    case Midgame => Weights(10, 5, 4, 3)
  }

  /** `quickEvaluate(board, color)`: the four evaluators, weighted. */
  function QuickScore(g: Grid, n: nat, c: Color): int
    requires IsSquare(g, n) && n > 0
  {
    var w := EvaluationWeights(PhaseOf(g, n), n * n > 100);
    CornerScore(g, n, c) * w.corner + EdgeScore(g, n, c) * w.edge
    + CenterScore(g, n, c) * w.center + Mobility(g, n, c) * w.mobility
  }

  /** The weights do not depend on the colour and every evaluator changes
      sign with it, so the quick evaluation does too. */
  lemma QuickScoreNeg(g: Grid, n: nat, c: Color)
    requires IsSquare(g, n) && n > 0
    ensures QuickScore(g, n, Rival(c)) == -QuickScore(g, n, c)
  {
    CornerScoreNeg(g, n, c);
    EdgeScoreNeg(g, n, c);
    CenterScoreNeg(g, n, c);
    MobilityNeg(g, n, c);
    var w := EvaluationWeights(PhaseOf(g, n), n * n > 100);
    var a, b, d, e := CornerScore(g, n, c), EdgeScore(g, n, c), CenterScore(g, n, c), Mobility(g, n, c);
    assert (-a) * w.corner == -(a * w.corner);
    assert (-b) * w.edge == -(b * w.edge);
    assert (-d) * w.center == -(d * w.center);
    assert (-e) * w.mobility == -(e * w.mobility);
  }

  // ---------------------------------------------------------------------
  // Strategic moves

  predicate IsCornerMove(m: Move, n: nat)
  {
    (m.x == 0 || m.x == n - 1) && (m.y == 0 || m.y == n - 1)
  }

  predicate IsBorderMove(m: Move, n: nat)
  {
    m.x == 0 || m.x == n - 1 || m.y == 0 || m.y == n - 1
  }

  /** `isStrategicMove(move, board, color, gamePhase)`: corners always;
      in the opening the border too; in the endgame a move that gains more
      than two discs; in every other case any move. */
  predicate IsStrategic(m: Move, g: Grid, n: nat, c: Color, p: Phase)
    requires IsSquare(g, n)
  {
    if IsCornerMove(m, n) then true
    else if p == Opening && IsBorderMove(m, n) then true
    else if p == Endgame then Count(AfterMove(g, n, m.x, m.y, c), Disc(c)) - Count(g, Disc(c)) > 2
    else true
  }

  /** Outside the endgame every move is strategic; in the endgame a legal
      move off the corners is strategic exactly when it turns over at least
      two discs, since the own count rises by the placed disc and those
      turned. */
  lemma StrategicMoves(m: Move, g: Grid, n: nat, c: Color, p: Phase)
    requires IsSquare(g, n)
    ensures p != Endgame ==> IsStrategic(m, g, n, c, p)
    ensures p == Endgame && !IsCornerMove(m, n) && Placeable(g, n, m.x, m.y)
            ==> (IsStrategic(m, g, n, c, p) <==> FlipCount(g, n, m.y, m.x, c) >= 2)
    ensures p == Endgame && !IsCornerMove(m, n) && !Placeable(g, n, m.x, m.y)
            ==> !IsStrategic(m, g, n, c, p)
  {
    if Placeable(g, n, m.x, m.y) {
      MoveCounts(g, n, m.x, m.y, c);
    }
  }
}
