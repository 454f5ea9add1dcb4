/** The LordDemonio agent of src/agenteLordDemonio.js: its fields, the
    budgeting, the heuristics, the candidate selection and the search. Each
    method is proved to compute the function of LordDemonioRules or
    LordDemonioSearch it is named after; the boards it plays moves on are
    clones, so the board it is handed never changes.

    The methods take, besides the `Board`, the grid it holds as a ghost
    parameter g, and the search methods take the rules of the search as a
    ghost parameter bound to the Reversi rules by `Models`. `GridHolds`
    shows that the grid g of any board b may be `b.Grid()`.

    Readings of `Date.now()` are parameters: the agent's k-th reading
    returns `clock(k)`, and `readings` is how many have been taken.
    `Math.sqrt` is the parameter `root`. */
module LordDemonioAgent {
  import opened Scores
  import opened ReversiRules
  import opened ReversiBoard
  import opened Sorting
  import opened LordDemonioRules
  import opened LordDemonioSearch

  /** The cells of board b are those of the grid g. */
  ghost predicate Holds(b: Board, g: Grid)
    reads b.cells
  {
    b.Valid() && IsSquare(g, b.Size())
    && forall r, q :: Inside(b.Size(), r, q) ==> b.cells[r, q] == g[r][q]
  }

  lemma GridHolds(b: Board)
    requires b.Valid()
    ensures Holds(b, b.Grid())
  {
  }

  lemma HoldsGrid(b: Board, g: Grid)
    requires Holds(b, g)
    ensures b.Grid() == g
  {
    SameGrid(b.Grid(), g, b.Size());
  }

  /** `board.valid_moves(color)` on a board holding g. */
  method LegalMoves(b: Board, ghost g: Grid, c: Color) returns (moves: seq<Move>)
    requires Holds(b, g)
    ensures moves == ValidMoves(g, b.Size(), c)
  {
    HoldsGrid(b, g);
    moves := b.ValidMoves(c);
  }

  /** `const simulated = board.clone(); simulated.move(x, y, color)`: a fresh
      board holding the grid after the move, and the flag `move` returns. */
  method Simulate(b: Board, ghost g: Grid, m: Move, c: Color) returns (nb: Board, ghost h: Grid, flag: bool)
    requires Holds(b, g)
    ensures fresh(nb) && fresh(nb.cells) && nb.Size() == b.Size() && Holds(nb, h)
    ensures h == AfterMove(g, b.Size(), m.x, m.y, c)
    ensures flag == MoveFlag(g, b.Size(), m.x, m.y, c)
  {
    HoldsGrid(b, g);
    nb := b.Clone();
    flag := nb.Move(m.x, m.y, c);
    h := nb.Grid();
    GridHolds(nb);
  }

  /** f gives the quick evaluation of the grid after each move, one
      application at a time. */
  ghost predicate QuickModels(f: Move -> int, g: Grid, n: nat, c: Color)
  {
    IsSquare(g, n) && n > 0
    && forall m {:trigger QuickAfter(g, n, c, m)} :: f(m) == QuickAfter(g, n, c, m)
  }

  lemma QuickValueModels(g: Grid, n: nat, c: Color)
    requires IsSquare(g, n) && n > 0
    ensures QuickModels(QuickValue(g, n, c), g, n, c)
  {
  }

  lemma FilledRowSnoc(s: seq<Cell>, j: nat)
    requires j < |s|
    ensures FilledRow(s[..j + 1]) == FilledRow(s[..j]) + (if s[j] != Empty then 1 else 0)
  {
    assert s[..j + 1][..j] == s[..j];
  }

  lemma FilledSnoc(g: Grid, i: nat)
    requires i < |g|
    ensures Filled(g[..i + 1]) == Filled(g[..i]) + FilledRow(g[i])
  {
    assert g[..i + 1][..i] == g[..i];
  }

  lemma CornerSumStep(g: Grid, n: nat, cs: seq<(int, int)>, c: Color, k: nat)
    requires IsSquare(g, n) && OnBoard(n, cs) && k < |cs|
    ensures OnBoard(n, cs[..k]) && OnBoard(n, cs[..k + 1])
    ensures CornerSum(g, n, cs[..k + 1], c) == CornerSum(g, n, cs[..k], c) + Term(g[cs[k].1][cs[k].0], c)
  {
    assert cs[..k + 1][..k] == cs[..k];
  }

  lemma TopBottomStep(g: Grid, n: nat, c: Color, x: nat)
    requires IsSquare(g, n) && x < n
    ensures TopBottom(g, n, c, x + 1) == TopBottom(g, n, c, x) + Term(g[0][x], c) + Term(g[n - 1][x], c)
  {
  }

  lemma SidesStep(g: Grid, n: nat, c: Color, y: nat)
    requires IsSquare(g, n) && 1 <= y < n
    ensures Sides(g, n, c, y + 1) == Sides(g, n, c, y) + Term(g[y][0], c) + Term(g[y][n - 1], c)
  {
  }

  lemma SpanRowStep(s: seq<Cell>, c: Color, lo: int, x: int)
    requires 0 <= lo <= x < |s|
    ensures SpanRow(s, c, lo, x + 1) == SpanRow(s, c, lo, x) + Term(s[x], c)
  {
  }

  lemma SpanRowsStep(g: Grid, n: nat, c: Color, top: int, y: int, lo: int, hi: int)
    requires IsSquare(g, n) && 0 <= top <= y < n && 0 <= lo && hi <= n
    ensures SpanRows(g, n, c, top, y + 1, lo, hi) == SpanRows(g, n, c, top, y, lo, hi) + SpanRow(g[y], c, lo, hi)
  {
  }

  lemma FilterStep(moves: seq<Move>, keep: Move -> bool, i: nat)
    requires i < |moves|
    ensures Filter(moves[..i + 1], keep) == Filter(moves[..i], keep) + (if keep(moves[i]) then [moves[i]] else [])
  {
    assert moves[..i + 1][..i] == moves[..i];
  }

  /** One turn of the loop of `evaluateMove` with time to spare. */
  lemma EvalLoopStep(rules: Rules, t: Timer, g: Grid, c: Color, depth: int, cs: seq<Move>, best: Ext, k: nat)
    requires depth > 0 && |cs| > 0 && !TimeUp(t, k)
    ensures var child := EvalMove(rules, t, rules.play(g, cs[0], c), Rival(c), depth - 1, k + 1);
            EvalLoop(rules, t, g, c, depth, cs, best, k)
            == EvalLoop(rules, t, g, c, depth, cs[1..], Max(best, Neg(child.0)), child.1)
  {
  }

  /** One turn of the loop of `findBestMove` with time to spare. */
  lemma BestLoopStep(rules: Rules, t: Timer, g: Grid, c: Color, depth: int, cs: seq<Move>,
                     best: Move, bestScore: Ext, k: nat)
    requires |cs| > 0 && !TimeUp(t, k)
    ensures var s := EvalMove(rules, t, rules.play(g, cs[0], c), c, depth - 1, k + 1);
            BestLoop(rules, t, g, c, depth, cs, best, bestScore, k)
            == if !rules.legal(g, cs[0], c) then BestLoop(rules, t, g, c, depth, cs[1..], best, bestScore, k + 1)
               else if Lt(bestScore, s.0) then BestLoop(rules, t, g, c, depth, cs[1..], cs[0], s.0, s.1)
               else BestLoop(rules, t, g, c, depth, cs[1..], best, bestScore, s.1)
  {
  }

  /** The search of `compute` for c on the grid g of side n, with
      `remaining` milliseconds left on move number `count`, the clock read
      first at reading k: the phase, the budget for the time above the
      reserve, and `findBestMove` on the legal moves from reading k + 1. */
  ghost function Deliberation(clock: nat -> real, root: real -> real, g: Grid, n: nat, c: Color,
                              remaining: int, count: int, k: nat): (Move, Ext, nat)
    requires IsSquare(g, n) && |ValidMoves(g, n, c)| > 0
  {
    var p := PhaseOf(g, n);
    var budget := TimeBudget((remaining - TimeReserve) as real, p, count, n * n);
    FindBest(Timer(clock, clock(k), budget), root, g, n, c, ValidMoves(g, n, c), p, k + 1)
  }

  class LordDemonio {
    /** `clock(k)`: what the agent's k-th reading of `Date.now()` returns. */
    const clock: nat -> real
    /** `Math.sqrt`. */
    const root: real -> real
    var moveCount: int
    var totalTime: int
    /** The number of readings of `Date.now()` taken so far. */
    var readings: nat

    /** `new LordDemonio()`. */
    constructor(clock: nat -> real, root: real -> real)
      ensures this.clock == clock && this.root == root
      ensures moveCount == 0 && totalTime == 0 && readings == 0
    {
      this.clock := clock;
      this.root := root;
      moveCount := 0;
      totalTime := 0;
      readings := 0;
    }

    /** `Date.now()`. */
    method Now() returns (t: real)
      modifies this`readings
      ensures t == clock(old(readings)) && readings == old(readings) + 1
    {
      t := clock(readings);
      readings := readings + 1;
    }

    // -------------------------------------------------------------------
    // The evaluators

    /** `evaluateCorners(board, color)`. */
    method EvaluateCorners(b: Board, ghost g: Grid, c: Color) returns (score: int)
      requires Holds(b, g) && b.Size() > 0
      ensures score == CornerScore(g, b.Size(), c)
    {
      var n := b.cells.Length0;
      var corners := [(0, 0), (0, n - 1), (n - 1, 0), (n - 1, n - 1)];
      assert corners == CornerCells(n);
      score := 0;
      var k := 0;
      while k < 4
        invariant 0 <= k <= 4
        invariant score == CornerSum(g, n, corners[..k], c)
      {
        var x, y := corners[k].0, corners[k].1;
        CornerSumStep(g, n, corners, c, k);
        score := score + Term(b.cells[y, x], c);
        k := k + 1;
      }
      assert corners[..4] == corners;
    }

    /** `evaluateEdges(board, color)`: the top and bottom rows, then the
        left and right columns between them. */
    method EvaluateEdges(b: Board, ghost g: Grid, c: Color) returns (score: int)
      requires Holds(b, g) && b.Size() > 0
      ensures score == EdgeScore(g, b.Size(), c)
    {
      score := EdgeRows(b, g, c);
      score := EdgeColumns(b, g, c, score);
    }

    /** The first loop of `evaluateEdges`, along the top and bottom rows. */
    method EdgeRows(b: Board, ghost g: Grid, c: Color) returns (score: int)
      requires Holds(b, g) && b.Size() > 0
      ensures score == TopBottom(g, b.Size(), c, b.Size())
    {
      var n := b.cells.Length0;
      score := 0;
      var x: nat := 0;
      while x < n
        invariant x <= n
        invariant score == TopBottom(g, n, c, x)
      {
        TopBottomStep(g, n, c, x);
        score := score + Term(b.cells[0, x], c);
        score := score + Term(b.cells[n - 1, x], c);
        x := x + 1;
      }
    }

    /** The second loop of `evaluateEdges`, down the left and right columns
        from row 1 to row n - 2, after the rows have given s0. */
    method EdgeColumns(b: Board, ghost g: Grid, c: Color, s0: int) returns (score: int)
      requires Holds(b, g) && b.Size() > 0 && s0 == TopBottom(g, b.Size(), c, b.Size())
      ensures score == EdgeScore(g, b.Size(), c)
    {
      var n := b.cells.Length0;
      score := s0;
      var y: nat := 1;
      while y < n - 1
        invariant 1 <= y && (y <= n - 1 || y == 1)
        invariant score == s0 + Sides(g, n, c, y)
      {
        SidesStep(g, n, c, y);
        score := score + Term(b.cells[y, 0], c);
        score := score + Term(b.cells[y, n - 1], c);
        y := y + 1;
      }
    }

    /** `evaluateCenter(board, color)`: the square of rows and columns from
        floor(mid - n/4) to ceil(mid + n/4), cut to the board. */
    method EvaluateCenter(b: Board, ghost g: Grid, c: Color) returns (score: int)
      requires Holds(b, g) && b.Size() > 0
      ensures score == CenterScore(g, b.Size(), c)
    {
      var n := b.cells.Length0;
      var centre := (n / 2) as real;
      var radius := n as real / 4.0;
      var lo := (centre - radius).Floor;
      var hi := Ceil(centre + radius);
      var start := if lo > 0 then lo else 0;
      var end := if hi < n then hi else n;
      assert (start, end) == CenterSpan(n);
      score := 0;
      var y := start;
      while y < end
        invariant start <= y <= end
        invariant score == SpanRows(g, n, c, start, y, start, end)
      {
        SpanRowsStep(g, n, c, start, y, start, end);
        score := CenterRow(b, g, y, start, end, c, score);
        y := y + 1;
      }
    }

    /** The inner loop of `evaluateCenter` over the row y. */
    method CenterRow(b: Board, ghost g: Grid, y: int, lo: int, hi: int, c: Color, s0: int) returns (s: int)
      requires Holds(b, g) && 0 <= y < b.Size() && 0 <= lo <= hi <= b.Size()
      ensures s == s0 + SpanRow(g[y], c, lo, hi)
    {
      s := s0;
      var x := lo;
      while x < hi
        invariant lo <= x <= hi
        invariant s == s0 + SpanRow(g[y], c, lo, x)
      {
        SpanRowStep(g[y], c, lo, x);
        s := s + Term(b.cells[y, x], c);
        x := x + 1;
      }
    }

    /** `evaluateMobility(board, color)`. */
    method EvaluateMobility(b: Board, ghost g: Grid, c: Color) returns (score: int)
      requires Holds(b, g)
      ensures score == Mobility(g, b.Size(), c)
    {
      var mine := LegalMoves(b, g, c);
      var theirs := LegalMoves(b, g, Rival(c));
      score := |mine| - |theirs|;
    }

    /** `countFilledCells(board)`. */
    method CountFilledCells(b: Board, ghost g: Grid) returns (count: nat)
      requires Holds(b, g)
      ensures count == Filled(g)
    {
      var n := b.cells.Length0;
      count := 0;
      var i := 0;
      while i < n
        invariant 0 <= i <= n
        invariant count == Filled(g[..i])
      {
        FilledSnoc(g, i);
        ghost var row := g[i];
        var j := 0;
        var inRow := 0;
        while j < n
          invariant 0 <= j <= n
          invariant inRow == FilledRow(row[..j])
        {
          FilledRowSnoc(row, j);
          if b.cells[i, j] != Empty {
            inRow := inRow + 1;
          }
          j := j + 1;
        }
        assert row[..n] == row;
        count := count + inRow;
        i := i + 1;
      }
      assert g[..n] == g;
    }

    /** `countPieces(board, color)`. */
    method CountPieces(b: Board, ghost g: Grid, c: Color) returns (count: int)
      requires Holds(b, g)
      ensures count == Count(g, Disc(c))
    {
      var n := b.cells.Length0;
      count := 0;
      var i := 0;
      while i < n
        invariant 0 <= i <= n
        invariant count == Count(g[..i], Disc(c))
      {
        CountSnoc(g, i, Disc(c));
        ghost var row := g[i];
        var j := 0;
        var inRow := 0;
        while j < n
          invariant 0 <= j <= n
          invariant inRow == CountRow(row[..j], Disc(c))
        {
          CountRowSnoc(row, j, Disc(c));
          if b.cells[i, j] == Disc(c) {
            inRow := inRow + 1;
          }
          j := j + 1;
        }
        assert row[..n] == row;
        count := count + inRow;
        i := i + 1;
      }
      assert g[..n] == g;
    }

    // -------------------------------------------------------------------
    // Phase, weights, budget and depth

    /** `getGamePhase(board)`, by the ratio of filled cells. */
    method GetGamePhase(b: Board, ghost g: Grid) returns (p: Phase)
      requires Holds(b, g) && b.Size() > 0
      ensures p == PhaseOf(g, b.Size())
    {
      var n := b.cells.Length0;
      var total := n * n;
      var filled := CountFilledCells(b, g);
      var ratio := filled as real / total as real;
      GamePhaseByRatio(filled, total);
      if ratio < 0.3 {
        p := Opening;
      } else if ratio > 0.7 {
        p := Endgame;
      } else {
        p := Midgame;
      }
    }

    /** `getEvaluationWeights(board)`. */
    method GetEvaluationWeights(b: Board, ghost g: Grid) returns (w: Weights)
      requires Holds(b, g) && b.Size() > 0
      ensures w == EvaluationWeights(PhaseOf(g, b.Size()), b.Size() * b.Size() > 100)
    {
      var p := GetGamePhase(b, g);
      var large := b.cells.Length0 * b.cells.Length0 > 100;
      if p == Opening {
        w := Weights(if large then 6 else 10, if large then 4 else 6, if large then 5 else 3, 2);
      } else if p == Endgame {
        w := Weights(15, 5, 2, 3);
      } else {
        w := Weights(10, 5, 4, 3);
      }
    }

    /** `quickEvaluate(board, color)`. */
    method QuickEvaluate(b: Board, ghost g: Grid, c: Color) returns (score: int)
      requires Holds(b, g) && b.Size() > 0
      ensures score == QuickScore(g, b.Size(), c)
    {
      var w := GetEvaluationWeights(b, g);
      var corners := EvaluateCorners(b, g, c);
      var edges := EvaluateEdges(b, g, c);
      var center := EvaluateCenter(b, g, c);
      var mobility := EvaluateMobility(b, g, c);
      score := corners * w.corner + edges * w.edge + center * w.center + mobility * w.mobility;
    }

    /** `getSizeFactor(board)`. */
    method GetSizeFactor(b: Board) returns (f: real)
      ensures f == SizeFactor(b.Size() * b.Size())
    {
      var cellCount := b.cells.Length0 * b.cells.Length0;
      if cellCount <= 100 {
        f := 1.0;
      } else if cellCount <= 400 {
        f := 1.2;
      } else {
        f := 1.4;
      }
    }

    /** `calculateTimeBudget(usableTime, gamePhase, moveCount, board)`. */
    method CalculateTimeBudget(usable: int, p: Phase, moveCount: int, b: Board) returns (t: real)
      ensures t == TimeBudget(usable as real, p, moveCount, b.Size() * b.Size())
    {
      var timeBudget := usable as real * PhaseRatio(p);
      if moveCount == 1 {
        return MinR(MaxFirstMoveTime, MaxR(MinMoveTime, timeBudget));
      }
      var sizeFactor := GetSizeFactor(b);
      timeBudget := timeBudget * sizeFactor;
      t := MaxR(MinMoveTime, MinR(timeBudget, MaxMoveTime));
    }

    /** `calculateSearchDepth(board, candidateCount, timeBudget, gamePhase)`,
        by the time per candidate; the board is not used. */
    method CalculateSearchDepth(candidateCount: nat, timeBudget: real, p: Phase) returns (depth: nat)
      ensures depth == SearchDepth(p, candidateCount, timeBudget)
    {
      depth := BaseDepth(p);
      var timePerCandidate := timeBudget / Share(candidateCount) as real;
      SearchDepthByTime(p, candidateCount, timeBudget);
      if timePerCandidate < 150.0 {
        depth := AtLeastOne(depth - 2);
      } else if timePerCandidate < 300.0 {
        depth := AtLeastOne(depth - 1);
      }
    }

    // -------------------------------------------------------------------
    // Candidate moves

    /** `isStrategicMove(move, board, color, gamePhase)`; in the endgame the
        move is played on a clone and the discs of c counted after and
        before. */
    method IsStrategicMove(m: Move, b: Board, ghost g: Grid, c: Color, p: Phase) returns (r: bool)
      requires Holds(b, g)
      ensures r == IsStrategic(m, g, b.Size(), c, p)
    {
      var n := b.cells.Length0;
      var x, y := m.x, m.y;
      if (x == 0 || x == n - 1) && (y == 0 || y == n - 1) {
        return true;
      }
      if p == Opening && (x == 0 || x == n - 1 || y == 0 || y == n - 1) {
        return true;
      }
      if p == Endgame {
        var simulated, h, _ := Simulate(b, g, m, c);
        var after := CountPieces(simulated, h, c);
        var before := CountPieces(b, g, c);
        return after - before > 2;
      }
      return true;
    }

    /** `selectCandidateMoves(moves, board, color, gamePhase)`: the filter
        loop, the fallback to the first five moves, the sort by potential
        and the cut to fifteen. */
    method SelectCandidateMoves(moves: seq<Move>, b: Board, ghost g: Grid, c: Color, p: Phase)
      returns (cs: seq<Move>)
      requires Holds(b, g)
      ensures cs == Candidates(moves, g, b.Size(), c, p, root)
    {
      var n := b.cells.Length0;
      ghost var keep := StrategicTest(g, n, c, p);
      var filtered := [];
      var i := 0;
      while i < |moves|
        invariant 0 <= i <= |moves|
        invariant filtered == Filter(moves[..i], keep)
      {
        var ok := IsStrategicMove(moves[i], b, g, c, p);
        FilterStep(moves, keep, i);
        if ok {
          filtered := filtered + [moves[i]];
        }
        i := i + 1;
      }
      assert moves[..|moves|] == moves;
      var safe := if |filtered| > 0 then filtered else Take(moves, 5);
      cs := Take(SortBy(safe, PotentialOrder(n, root)), 15);
    }

    // -------------------------------------------------------------------
    // getQuickMove

    /** `getQuickMove(board, color)`: the best of the first five legal moves
        by the quick evaluation after the move, the first on a tie. */
    method GetQuickMove(b: Board, ghost g: Grid, c: Color) returns (r: Option<Move>)
      requires Holds(b, g) && b.Size() > 0
      ensures IsQuickPick(g, b.Size(), c, r)
      ensures r == None <==> |ValidMoves(g, b.Size(), c)| == 0
      ensures r.Some? ==> r.value in ValidMoves(g, b.Size(), c)
    {
      var moves := LegalMoves(b, g, c);
      if |moves| == 0 {
        return None;
      }
      var five := Take(moves, 5);
      assert |five| > 0 && forall m :: m in five ==> m in moves;
      QuickValueModels(g, b.Size(), c);
      var bestMove := QuickLoop(b, g, c, five, QuickValue(g, b.Size(), c));
      r := Some(bestMove);
    }

    /** The loop of `getQuickMove` over the first five moves, f being the
        quick evaluation after a move. */
    method QuickLoop(b: Board, ghost g: Grid, c: Color, five: seq<Move>, ghost f: Move -> int) returns (bestMove: Move)
      requires Holds(b, g) && QuickModels(f, g, b.Size(), c) && |five| > 0
      ensures FirstMax(five, f, bestMove) && bestMove in five
    {
      bestMove := five[0];
      var bestScore := NegInf;
      ghost var best := 0;
      var i := 0;
      while i < |five|
        invariant 0 <= i <= |five| && best < |five|
        invariant i == 0 ==> bestScore == NegInf && best == 0 && bestMove == five[0]
        invariant i > 0 ==> best < i && bestMove == five[best] && bestScore == Fin(f(five[best]) as real)
        invariant forall j :: 0 <= j < i ==> f(five[j]) <= f(five[best])
        invariant forall j :: 0 <= j < best ==> f(five[j]) < f(five[best])
      {
        var score := QuickAfterMove(b, g, five[i], c, f);
        if Lt(bestScore, Fin(score as real)) {
          bestScore := Fin(score as real);
          bestMove := five[i];
          best := i;
        }
        i := i + 1;
      }
    }

    /** The body of that loop: the quick evaluation of a clone after the
        move. */
    method QuickAfterMove(b: Board, ghost g: Grid, m: Move, c: Color, ghost f: Move -> int) returns (score: int)
      requires Holds(b, g) && QuickModels(f, g, b.Size(), c)
      ensures score == f(m)
    {
      var simulated, h, _ := Simulate(b, g, m, c);
      score := QuickEvaluate(simulated, h, c);
      assert score == QuickAfter(g, b.Size(), c, m);
    }

    // -------------------------------------------------------------------
    // The search, over rules that model Reversi on boards of this size

    /** `this.quickEvaluate(board, color)` at a leaf of `evaluateMove`, as
        the rules give it. */
    method RulesQuick(b: Board, ghost g: Grid, ghost rules: Rules, c: Color) returns (q: real)
      requires Holds(b, g) && b.Size() > 0 && Models(rules, b.Size(), root)
      ensures q == rules.quick(g, c)
    {
      var s := QuickEvaluate(b, g, c);
      q := s as real;
    }

    /** `board.valid_moves(color)` inside `evaluateMove`, as the rules give
        them. */
    method RulesMoves(b: Board, ghost g: Grid, ghost rules: Rules, c: Color) returns (moves: seq<Move>)
      requires Holds(b, g) && Models(rules, b.Size(), root)
      ensures moves == rules.moves(g, c)
    {
      moves := LegalMoves(b, g, c);
    }

    /** `this.selectCandidateMoves(moves, board, color, 'midgame')` inside
        `evaluateMove`: the candidates it keeps, as the rules give them. */
    method RulesSelect(moves: seq<Move>, b: Board, ghost g: Grid, ghost rules: Rules, c: Color) returns (cs: seq<Move>)
      requires Holds(b, g) && Models(rules, b.Size(), root)
      ensures cs == rules.select(moves, g, c)
    {
      cs := SelectCandidateMoves(moves, b, g, c, Midgame);
    }

    /** `board.clone()` followed by `simulated.move(...)` inside
        `evaluateMove`, as the rules give it. */
    method RulesPlay(b: Board, ghost g: Grid, ghost rules: Rules, m: Move, c: Color)
      returns (nb: Board, ghost h: Grid, flag: bool)
      requires Holds(b, g) && Models(rules, b.Size(), root)
      ensures fresh(nb) && fresh(nb.cells) && nb.Size() == b.Size() && Holds(nb, h)
      ensures h == rules.play(g, m, c) && flag == rules.legal(g, m, c)
    {
      nb, h, flag := Simulate(b, g, m, c);
    }

    /** `evaluateMove(board, color, depth, startTime, timeBudget)`. */
    method EvaluateMove(b: Board, ghost g: Grid, ghost rules: Rules, c: Color, depth: int,
                        startTime: real, timeBudget: real) returns (score: Ext)
      requires Holds(b, g) && b.Size() > 0 && Models(rules, b.Size(), root)
      modifies this`readings
      ensures (score, readings)
              == EvalMove(rules, Timer(clock, startTime, timeBudget), g, c, depth, old(readings))
      decreases if depth > 0 then depth else 0, 2
    {
      if depth <= 0 {
        var q := RulesQuick(b, g, rules, c);
        return Fin(q);
      }
      var now := Now();
      if now - startTime >= timeBudget {
        var q := RulesQuick(b, g, rules, c);
        return Fin(q);
      }
      var moves := RulesMoves(b, g, rules, c);
      if |moves| == 0 {
        return NegInf;
      }
      var candidates := RulesSelect(moves, b, g, rules, c);
      score := EvaluateCandidates(b, g, rules, c, depth, startTime, timeBudget, candidates);
    }

    /** The loop of `evaluateMove`: the deadline test, then the negated
        score of each candidate for the opponent one level down, kept by
        `Math.max`. */
    method EvaluateCandidates(b: Board, ghost g: Grid, ghost rules: Rules, c: Color, depth: int,
                              startTime: real, timeBudget: real, cs: seq<Move>) returns (bestScore: Ext)
      requires Holds(b, g) && b.Size() > 0 && Models(rules, b.Size(), root) && depth > 0
      modifies this`readings
      ensures (bestScore, readings)
              == EvalLoop(rules, Timer(clock, startTime, timeBudget), g, c, depth, cs, NegInf, old(readings))
      decreases depth, 1
    {
      ghost var t := Timer(clock, startTime, timeBudget);
      bestScore := NegInf;
      var i := 0;
      while i < |cs|
        invariant 0 <= i <= |cs|
        invariant EvalLoop(rules, t, g, c, depth, cs[i..], bestScore, readings)
                  == EvalLoop(rules, t, g, c, depth, cs, NegInf, old(readings))
      {
        ghost var k := readings;
        var now := Now();
        if now - startTime >= timeBudget {
          return;
        }
        EvalLoopStep(rules, t, g, c, depth, cs[i..], bestScore, k);
        assert cs[i..][1..] == cs[i + 1..];
        var s := EvaluateAfter(b, g, rules, cs[i], c, Rival(c), depth, startTime, timeBudget);
        bestScore := Max(bestScore, Neg(s));
        i := i + 1;
      }
    }

    /** The move m of c played on a clone, and `evaluateMove` of the clone
        for the side e one level down. */
    method EvaluateAfter(b: Board, ghost g: Grid, ghost rules: Rules, m: Move, c: Color, e: Color, depth: int,
                         startTime: real, timeBudget: real) returns (s: Ext)
      requires Holds(b, g) && b.Size() > 0 && Models(rules, b.Size(), root) && depth > 0
      modifies this`readings
      ensures (s, readings)
              == EvalMove(rules, Timer(clock, startTime, timeBudget), rules.play(g, m, c), e, depth - 1, old(readings))
      decreases depth, 0
    {
      var simulated, h, _ := RulesPlay(b, g, rules, m, c);
      s := EvaluateMove(simulated, h, rules, e, depth - 1, startTime, timeBudget);
    }

    /** `findBestMove(board, color, moves, startTime, timeBudget, gamePhase)`:
        the candidates, the depth, and the loop over them. */
    method FindBestMove(b: Board, ghost g: Grid, c: Color, moves: seq<Move>, startTime: real, timeBudget: real,
                        p: Phase) returns (bestMove: Move, bestScore: Ext)
      requires Holds(b, g) && b.Size() > 0 && |moves| > 0
      modifies this`readings
      ensures (bestMove, bestScore, readings)
              == FindBest(Timer(clock, startTime, timeBudget), root, g, b.Size(), c, moves, p, old(readings))
    {
      var candidates := SelectCandidateMoves(moves, b, g, c, p);
      CandidatesSpec(moves, g, b.Size(), c, p, root);
      var depth := CalculateSearchDepth(|candidates|, timeBudget, p);
      LordModels(b.Size(), root);
      bestMove, bestScore := ScoreCandidates(b, g, LordRules(b.Size(), root), c, depth, startTime, timeBudget,
                                             candidates);
    }

    /** The loop of `findBestMove`: each candidate is played on a clone,
        skipped when `move` refuses it, and scored for the side that made
        it `depth - 1` levels down; a strictly better score replaces the
        best one. */
    method ScoreCandidates(b: Board, ghost g: Grid, ghost rules: Rules, c: Color, depth: nat,
                           startTime: real, timeBudget: real, cs: seq<Move>) returns (bestMove: Move, bestScore: Ext)
      requires Holds(b, g) && b.Size() > 0 && Models(rules, b.Size(), root) && |cs| > 0 && depth > 0
      modifies this`readings
      ensures (bestMove, bestScore, readings)
              == BestLoop(rules, Timer(clock, startTime, timeBudget), g, c, depth, cs, cs[0], NegInf, old(readings))
    {
      ghost var t := Timer(clock, startTime, timeBudget);
      bestMove := cs[0];
      bestScore := NegInf;
      var i := 0;
      while i < |cs|
        invariant 0 <= i <= |cs|
        invariant BestLoop(rules, t, g, c, depth, cs[i..], bestMove, bestScore, readings)
                  == BestLoop(rules, t, g, c, depth, cs, cs[0], NegInf, old(readings))
      {
        var move := cs[i];
        ghost var k := readings;
        var now := Now();
        if now - startTime >= timeBudget {
          return;
        }
        BestLoopStep(rules, t, g, c, depth, cs[i..], bestMove, bestScore, k);
        assert cs[i..][1..] == cs[i + 1..];
        var ok, score := PlayAndScore(b, g, rules, move, c, depth, startTime, timeBudget);
        if !ok {
          i := i + 1;
          continue;
        }
        if Lt(bestScore, score) {
          bestScore := score;
          bestMove := move;
        }
        i := i + 1;
      }
    }

    /** The body of that loop after the deadline test: the candidate m is
        played on a clone, and when `move` accepts it the clone is scored by
        `evaluateMove` for c, `depth - 1` levels down. */
    method PlayAndScore(b: Board, ghost g: Grid, ghost rules: Rules, m: Move, c: Color, depth: nat,
                        startTime: real, timeBudget: real) returns (ok: bool, score: Ext)
      requires Holds(b, g) && b.Size() > 0 && Models(rules, b.Size(), root) && depth > 0
      modifies this`readings
      ensures ok == rules.legal(g, m, c)
      ensures !ok ==> readings == old(readings)
      ensures ok ==> (score, readings)
                     == EvalMove(rules, Timer(clock, startTime, timeBudget), rules.play(g, m, c), c, depth - 1,
                                 old(readings))
    {
      var simulated;
      ghost var h;
      simulated, h, ok := RulesPlay(b, g, rules, m, c);
      if !ok {
        return ok, NegInf;
      }
      score := EvaluateMove(simulated, h, rules, c, depth - 1, startTime, timeBudget);
    }

    /** The search path of `compute`, after the clock was read as startTime
        at reading k: the phase, the budget for the time above the reserve,
        `findBestMove`, and the reading for the time used. */
    method Deliberate(b: Board, ghost g: Grid, c: Color, remaining: int, count: int, startTime: real,
                      ghost k: nat, moves: seq<Move>) returns (bestMove: Move)
      requires Holds(b, g) && b.Size() > 0 && moves == ValidMoves(g, b.Size(), c) && |moves| > 0
      requires readings == k + 1 && startTime == clock(k)
      modifies this`readings
      ensures var best := Deliberation(clock, root, g, b.Size(), c, remaining, count, k);
              bestMove == best.0 && readings == best.2 + 1
      ensures bestMove in moves
    {
      var gamePhase := GetGamePhase(b, g);
      var usableTime := remaining - TimeReserve;
      var timeBudget := CalculateTimeBudget(usableTime, gamePhase, count, b);
      ghost var budget := TimeBudget((remaining - TimeReserve) as real, PhaseOf(g, b.Size()), count,
                                     b.Size() * b.Size());
      assert timeBudget == budget;
      ghost var k1 := readings;
      assert k1 == k + 1;
      var bestScore;
      bestMove, bestScore := FindBestMove(b, g, c, moves, startTime, timeBudget, gamePhase);
      ghost var found := FindBest(Timer(clock, startTime, timeBudget), root, g, b.Size(), c, moves, gamePhase, k1);
      assert found == (bestMove, bestScore, readings);
      assert found == Deliberation(clock, root, g, b.Size(), c, remaining, count, k);
      var timeUsed := Now();
    }

    // -------------------------------------------------------------------
    // compute

    /** `compute(percept)` for colour c on board b, with wtime and btime the
        milliseconds White and Black have left. The first call records the
        time left as the total; with at most the reserve left the quick
        move answers; with no legal move the agent passes; otherwise the
        phase, the budget and `findBestMove` give the move. The clock is
        read at the start, by the search, and once more at the end for the
        time used. */
    method Compute(b: Board, ghost g: Grid, c: Color, wtime: int, btime: int) returns (r: Option<Move>)
      requires Holds(b, g) && b.Size() > 0
      modifies this`moveCount, this`totalTime, this`readings
      ensures var remaining := if c == W then wtime else btime;
              && moveCount == old(moveCount) + 1
              && totalTime == if old(moveCount) == 0 then remaining else old(totalTime)
      ensures var n := b.Size();
              var remaining := if c == W then wtime else btime;
              var moves := ValidMoves(g, n, c);
              && (r == None <==> |moves| == 0)
              && (r.Some? ==> r.value in moves)
              && (remaining <= TimeReserve ==> IsQuickPick(g, n, c, r) && readings == old(readings) + 1)
              && (remaining > TimeReserve && |moves| == 0 ==> readings == old(readings) + 1)
              && (remaining > TimeReserve && |moves| > 0 ==>
                    var best := Deliberation(clock, root, g, n, c, remaining, old(moveCount) + 1, old(readings));
                    r == Some(best.0) && readings == best.2 + 1)
    {
      var startTime := Now();
      var remaining := if c == W then wtime else btime;
      var count := moveCount + 1;
      if moveCount == 0 {
        totalTime := remaining;
      }
      moveCount := count;
      if remaining <= TimeReserve {
        r := GetQuickMove(b, g, c);
        return;
      }
      var moves := LegalMoves(b, g, c);
      if |moves| == 0 {
        return None;
      }
      var bestMove := Deliberate(b, g, c, remaining, count, startTime, old(readings), moves);
      r := Some(bestMove);
    }
  }
}
