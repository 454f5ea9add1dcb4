/** The move selection and the search of the LordDemonio agent in
    src/agenteLordDemonio.js, as functions of the board value: the
    potential of a move, `selectCandidateMoves`, `getQuickMove`,
    `evaluateMove` and `findBestMove`. The agent class
    (lord_demonio_agent.dfy) is proved to compute these functions.

    The clock is a parameter: a `Timer` holds `clock(k)`, what the k-th
    reading of `Date.now()` returns, the start of the move and its budget.
    `Math.sqrt` is the parameter `root`. */
module LordDemonioSearch {
  import opened Scores
  import opened ReversiRules
  import opened ReversiMoveList
  import opened Sorting
  import opened LordDemonioRules

  // ---------------------------------------------------------------------
  // Candidate moves

  /** The bonus `evaluateMovePotential` gives a cell of the border. */
  function PositionBonus(m: Move, n: nat): (b: real)
    ensures b == 50.0 <==> IsCornerMove(m, n)
    ensures b == 30.0 <==> IsBorderMove(m, n) && !IsCornerMove(m, n)
    ensures b == 0.0 <==> !IsBorderMove(m, n)
  {
    if IsCornerMove(m, n) then 50.0 else if IsBorderMove(m, n) then 30.0 else 0.0
  }

  /** `evaluateMovePotential(move, board)`: 100 less the distance from the
      centre of an n-by-n board, plus the border bonus. */
  function Potential(m: Move, n: nat, root: real -> real): real
  {
    var centre := n as real / 2.0;
    var dx, dy := m.x as real - centre, m.y as real - centre;
    100.0 - root(dx * dx + dy * dy) + PositionBonus(m, n)
  }

  /** The comparator of `selectCandidateMoves`, `b`'s potential less `a`'s,
      by its sign, which is all `Array.prototype.sort` looks at. */
  function PotentialOrder(n: nat, root: real -> real): (Move, Move) -> int
  {
    (a: Move, b: Move) =>
      var d := Potential(b, n, root) - Potential(a, n, root);
      if d > 0.0 then 1 else if d < 0.0 then -1 else 0
  }

  predicate Descending(s: seq<Move>, n: nat, root: real -> real)
  {
    forall i, j :: 0 <= i < j < |s| ==> Potential(s[i], n, root) >= Potential(s[j], n, root)
  }

  lemma {:induction false} InsertDescending(s: seq<Move>, x: Move, n: nat, root: real -> real)
    requires Descending(s, n, root)
    ensures Descending(Insert(s, x, PotentialOrder(n, root)), n, root)
  {
    var cmp := PotentialOrder(n, root);
    if |s| > 0 && cmp(s[|s| - 1], x) > 0 {
      var front, last := s[..|s| - 1], s[|s| - 1];
      InsertDescending(front, x, n, root);
      var ins := Insert(front, x, cmp);
      assert Insert(s, x, cmp) == ins + [last];
      forall i | 0 <= i < |ins|
        ensures Potential(ins[i], n, root) >= Potential(last, n, root)
      {
        InsertMember(front, x, cmp, ins[i]);
        if ins[i] != x {
          var p :| 0 <= p < |front| && front[p] == ins[i];
          assert s[p] == ins[i];
        }
      }
    }
  }

  /** Sorting by the comparator puts the moves in order of decreasing
      potential. */
  lemma {:induction false} SortDescending(s: seq<Move>, n: nat, root: real -> real)
    ensures Descending(SortBy(s, PotentialOrder(n, root)), n, root)
  {
    if |s| > 0 {
      SortDescending(s[..|s| - 1], n, root);
      InsertDescending(SortBy(s[..|s| - 1], PotentialOrder(n, root)), s[|s| - 1], n, root);
    }
  }

  /** `s.slice(0, k)`. */
  function Take(s: seq<Move>, k: nat): (r: seq<Move>)
    ensures |r| == if |s| < k then |s| else k
    ensures multiset(r) <= multiset(s)
    ensures forall i :: 0 <= i < |r| ==> r[i] == s[i]
  {
    var m := if |s| < k then |s| else k;
    assert s == s[..m] + s[m..];
    s[..m]
  }

  /** `moves.filter(keep)`. */
  function Filter(moves: seq<Move>, keep: Move -> bool): (r: seq<Move>)
    ensures multiset(r) <= multiset(moves)
    ensures forall m :: m in r ==> keep(m)
    ensures forall m :: m in moves && keep(m) ==> m in r
  {
    if |moves| == 0 then []
    else
      var last := moves[|moves| - 1];
      assert moves == moves[..|moves| - 1] + [last];
      Filter(moves[..|moves| - 1], keep) + (if keep(last) then [last] else [])
  }

  /** A filter that keeps every move leaves the list as it is. */
  lemma {:induction false} FilterKeepsAll(moves: seq<Move>, keep: Move -> bool)
    requires forall m :: m in moves ==> keep(m)
    ensures Filter(moves, keep) == moves
  {
    if |moves| > 0 {
      var front := moves[..|moves| - 1];
      FilterKeepsAll(front, keep);
      assert moves[|moves| - 1] in moves;
      assert moves == front + [moves[|moves| - 1]];
    }
  }

  /** The test of `isStrategicMove(move, board, color, gamePhase)`. */
  function StrategicTest(g: Grid, n: nat, c: Color, p: Phase): Move -> bool
  {
    (m: Move) => IsSquare(g, n) && IsStrategic(m, g, n, c, p)
  }

  /** Outside the endgame the filter keeps every move. */
  lemma StrategicOutsideEndgame(moves: seq<Move>, g: Grid, n: nat, c: Color, p: Phase)
    requires IsSquare(g, n) && p != Endgame
    ensures Filter(moves, StrategicTest(g, n, c, p)) == moves
  {
    forall m | m in moves
      ensures StrategicTest(g, n, c, p)(m)
    {
      StrategicMoves(m, g, n, c, p);
    }
    FilterKeepsAll(moves, StrategicTest(g, n, c, p));
  }

  /** What `selectCandidateMoves` keeps, given the moves that passed the
      filter: those, or the first five moves when none did, sorted by
      potential and cut to fifteen. */
  function Select(moves: seq<Move>, filtered: seq<Move>, n: nat, root: real -> real): seq<Move>
  {
    var safe := if |filtered| > 0 then filtered else Take(moves, 5);
    Take(SortBy(safe, PotentialOrder(n, root)), 15)
  }

  /** At most fifteen of the moves, some when there are any, in order of
      decreasing potential, and only moves that passed the filter when
      one did. */
  lemma SelectSpec(moves: seq<Move>, filtered: seq<Move>, n: nat, root: real -> real)
    requires multiset(filtered) <= multiset(moves)
    ensures var r := Select(moves, filtered, n, root);
      && |r| <= 15
      && multiset(r) <= multiset(moves)
      && (|r| == 0 <==> |moves| == 0)
      && Descending(r, n, root)
      && (|filtered| > 0 ==> multiset(r) <= multiset(filtered))
  {
    var safe := if |filtered| > 0 then filtered else Take(moves, 5);
    SortPermutes(safe, PotentialOrder(n, root));
    SortDescending(safe, n, root);
    if |moves| == 0 {
      assert |filtered| == 0;
    }
  }

  /** `selectCandidateMoves(moves, board, color, gamePhase)`. */
  function Candidates(moves: seq<Move>, g: Grid, n: nat, c: Color, p: Phase, root: real -> real): seq<Move>
    requires IsSquare(g, n)
  {
    Select(moves, Filter(moves, StrategicTest(g, n, c, p)), n, root)
  }

  /** At most fifteen of the given moves, none when there are none and some
      otherwise, in order of decreasing potential. */
  lemma CandidatesSpec(moves: seq<Move>, g: Grid, n: nat, c: Color, p: Phase, root: real -> real)
    requires IsSquare(g, n)
    ensures var r := Candidates(moves, g, n, c, p, root);
      && |r| <= 15
      && multiset(r) <= multiset(moves)
      && (forall m :: m in r ==> m in moves)
      && (|r| == 0 <==> |moves| == 0)
      && Descending(r, n, root)
  {
    SelectSpec(moves, Filter(moves, StrategicTest(g, n, c, p)), n, root);
    var r := Candidates(moves, g, n, c, p, root);
    forall m | m in r
      ensures m in moves
    {
      assert m in multiset(r);
    }
  }

  /** When some move is strategic, only strategic moves are candidates. */
  lemma CandidatesStrategic(moves: seq<Move>, g: Grid, n: nat, c: Color, p: Phase, root: real -> real, m: Move)
    requires IsSquare(g, n) && m in moves && IsStrategic(m, g, n, c, p)
    ensures forall m' :: m' in Candidates(moves, g, n, c, p, root) ==> IsStrategic(m', g, n, c, p)
  {
    var keep := StrategicTest(g, n, c, p);
    var filtered := Filter(moves, keep);
    assert keep(m);
    assert m in filtered;
    SelectSpec(moves, filtered, n, root);
    var r := Candidates(moves, g, n, c, p, root);
    forall m' | m' in r
      ensures keep(m')
    {
      assert m' in multiset(r);
      assert m' in multiset(filtered);
    }
  }

  /** Outside the endgame the candidates are the fifteen moves of highest
      potential. */
  lemma CandidatesOutsideEndgame(moves: seq<Move>, g: Grid, n: nat, c: Color, p: Phase, root: real -> real)
    requires IsSquare(g, n) && p != Endgame
    ensures Candidates(moves, g, n, c, p, root) == Take(SortBy(moves, PotentialOrder(n, root)), 15)
  {
    StrategicOutsideEndgame(moves, g, n, c, p);
    if |moves| == 0 {
      assert Take(moves, 5) == moves;
    }
  }

  // ---------------------------------------------------------------------
  // The deadline

  /** The clock readings of one move: the k-th reading of `Date.now()` is
      `clock(k)`; `start` is the time the move began and `budget` the time
      it may take. */
  datatype Timer = Timer(clock: nat -> real, start: real, budget: real)

  /** The test `Date.now() - startTime >= timeBudget`, made with reading k. */
  predicate TimeUp(t: Timer, k: nat)
  {
    t.clock(k) - t.start >= t.budget
  }

  /** A clock that never reaches the budget. */
  ghost predicate Unhurried(t: Timer)
  {
    forall k: nat :: !TimeUp(t, k)
  }

  // ---------------------------------------------------------------------
  // evaluateMove

  /** What the search asks of the game: the legal moves, the candidates
      among them, the board after a move, whether `move` accepts a move,
      and the quick evaluation. */
  datatype Rules = Rules(moves: (Grid, Color) -> seq<Move>,
                         select: (seq<Move>, Grid, Color) -> seq<Move>,
                         play: (Grid, Move, Color) -> Grid,
                         legal: (Grid, Move, Color) -> bool,
                         quick: (Grid, Color) -> real)

  /** `evaluateMove(board, color, depth, startTime, timeBudget)` begun with
      reading k: its score and the index of the next reading. At depth 0 the
      clock is not read, since `depth <= 0` is tested first. */
  function EvalMove(rules: Rules, t: Timer, g: Grid, c: Color, depth: int, k: nat): (r: (Ext, nat))
    ensures r.1 >= k
    ensures depth <= 0 ==> r.1 == k
    decreases if depth > 0 then depth else 0, 1, 0
  {
    if depth <= 0 then (Fin(rules.quick(g, c)), k)
    else if TimeUp(t, k) then (Fin(rules.quick(g, c)), k + 1)
    else
      var moves := rules.moves(g, c);
      if |moves| == 0 then (NegInf, k + 1)
      else EvalLoop(rules, t, g, c, depth, rules.select(moves, g, c), NegInf, k + 1)
  }

  /** The loop of `evaluateMove` over the candidates cs, with the best score
      so far: each child is scored for the opponent one level down, negated,
      and kept by `Math.max`. */
  function EvalLoop(rules: Rules, t: Timer, g: Grid, c: Color, depth: int, cs: seq<Move>, best: Ext, k: nat)
    : (r: (Ext, nat))
    requires depth > 0
    ensures r.1 >= k
    ensures Le(best, r.0)
    decreases depth, 0, |cs|
  {
    if |cs| == 0 then (best, k)
    else if TimeUp(t, k) then (best, k + 1)
    else
      var child := EvalMove(rules, t, rules.play(g, cs[0], c), Rival(c), depth - 1, k + 1);
      EvalLoop(rules, t, g, c, depth, cs[1..], Max(best, Neg(child.0)), child.1)
  }

  /** The value the search approximates: negamax to the given depth over
      the same candidates, with no clock. */
  function Negamax(rules: Rules, g: Grid, c: Color, depth: int): Ext
    decreases if depth > 0 then depth else 0, 1, 0
  {
    if depth <= 0 then Fin(rules.quick(g, c))
    else
      var moves := rules.moves(g, c);
      if |moves| == 0 then NegInf
      else BestChild(rules, g, c, depth, rules.select(moves, g, c))
  }

  /** The value of the move m for the side that made it. */
  function ChildValue(rules: Rules, g: Grid, c: Color, depth: int, m: Move): Ext
    requires depth > 0
    decreases depth, 0, 0
  {
    Neg(Negamax(rules, rules.play(g, m, c), Rival(c), depth - 1))
  }

  function BestChild(rules: Rules, g: Grid, c: Color, depth: int, cs: seq<Move>): Ext
    requires depth > 0
    decreases depth, 0, |cs|
  {
    if |cs| == 0 then NegInf
    else Max(ChildValue(rules, g, c, depth, cs[0]), BestChild(rules, g, c, depth, cs[1..]))
  }

  /** The best child value is at least every child's value and is one of
      them, or minus infinity when there are no children. */
  lemma {:induction false} BestChildIsMax(rules: Rules, g: Grid, c: Color, depth: int, cs: seq<Move>)
    requires depth > 0
    ensures forall i :: 0 <= i < |cs| ==>
              Le(ChildValue(rules, g, c, depth, cs[i]), BestChild(rules, g, c, depth, cs))
    ensures |cs| == 0 ==> BestChild(rules, g, c, depth, cs) == NegInf
    ensures |cs| > 0 ==> exists i :: (0 <= i < |cs| &&
              BestChild(rules, g, c, depth, cs) == ChildValue(rules, g, c, depth, cs[i]))
  {
    if |cs| > 0 {
      var rest := cs[1..];
      BestChildIsMax(rules, g, c, depth, rest);
      var b := BestChild(rules, g, c, depth, cs);
      var br := BestChild(rules, g, c, depth, rest);
      forall i | 0 <= i < |cs|
        ensures Le(ChildValue(rules, g, c, depth, cs[i]), b)
      {
        if i > 0 {
          assert cs[i] == rest[i - 1];
          LeTrans(ChildValue(rules, g, c, depth, cs[i]), br, b);
        }
      }
      if b != ChildValue(rules, g, c, depth, cs[0]) {
        var i :| 0 <= i < |rest| && br == ChildValue(rules, g, c, depth, rest[i]);
        assert cs[i + 1] == rest[i];
      }
    }
  }

  /** When the budget never runs out, `evaluateMove` is negamax. */
  lemma {:induction false} EvalIsNegamax(rules: Rules, t: Timer, g: Grid, c: Color, depth: int, k: nat)
    requires Unhurried(t)
    ensures EvalMove(rules, t, g, c, depth, k).0 == Negamax(rules, g, c, depth)
    decreases if depth > 0 then depth else 0, 1, 0
  {
    if depth > 0 {
      assert !TimeUp(t, k);
      var moves := rules.moves(g, c);
      if |moves| > 0 {
        EvalLoopIsBestChild(rules, t, g, c, depth, rules.select(moves, g, c), NegInf, k + 1);
      }
    }
  }

  lemma {:induction false} EvalLoopIsBestChild(rules: Rules, t: Timer, g: Grid, c: Color, depth: int,
                                               cs: seq<Move>, best: Ext, k: nat)
    requires depth > 0 && Unhurried(t)
    ensures EvalLoop(rules, t, g, c, depth, cs, best, k).0 == Max(best, BestChild(rules, g, c, depth, cs))
    decreases depth, 0, |cs|
  {
    if |cs| > 0 {
      assert !TimeUp(t, k);
      var after := rules.play(g, cs[0], c);
      var child := EvalMove(rules, t, after, Rival(c), depth - 1, k + 1);
      EvalIsNegamax(rules, t, after, Rival(c), depth - 1, k + 1);
      EvalLoopIsBestChild(rules, t, g, c, depth, cs[1..], Max(best, Neg(child.0)), child.1);
      MaxAssoc(best, Neg(child.0), BestChild(rules, g, c, depth, cs[1..]));
    }
  }

  /** Once the budget is spent, `evaluateMove` returns the quick evaluation
      after a single reading, whatever the depth. */
  lemma EvalAfterDeadline(rules: Rules, t: Timer, g: Grid, c: Color, depth: int, k: nat)
    requires TimeUp(t, k)
    ensures EvalMove(rules, t, g, c, depth, k).0 == Fin(rules.quick(g, c))
    ensures EvalMove(rules, t, g, c, depth, k).1 <= k + 1
  {
  }

  // ---------------------------------------------------------------------
  // findBestMove

  /** The loop of `findBestMove` over the candidates cs begun with reading k:
      the best move and score so far and the next reading. A candidate
      `move` refuses is skipped, and each child is scored by `evaluateMove`
      for the same colour, as the source does. */
  function BestLoop(rules: Rules, t: Timer, g: Grid, c: Color, depth: int,
                    cs: seq<Move>, best: Move, bestScore: Ext, k: nat): (r: (Move, Ext, nat))
    ensures r.0 == best || r.0 in cs
    ensures Le(bestScore, r.1)
    ensures r.2 >= k
    decreases |cs|
  {
    if |cs| == 0 then (best, bestScore, k)
    else if TimeUp(t, k) then (best, bestScore, k + 1)
    else if !rules.legal(g, cs[0], c) then
      BestLoop(rules, t, g, c, depth, cs[1..], best, bestScore, k + 1)
    else
      var s := EvalMove(rules, t, rules.play(g, cs[0], c), c, depth - 1, k + 1);
      if Lt(bestScore, s.0) then BestLoop(rules, t, g, c, depth, cs[1..], cs[0], s.0, s.1)
      else BestLoop(rules, t, g, c, depth, cs[1..], best, bestScore, s.1)
  }

  /** The score `findBestMove` gives the move m when the clock never stops
      it. */
  function RootValue(rules: Rules, g: Grid, c: Color, depth: int, m: Move): Ext
  {
    Negamax(rules, rules.play(g, m, c), c, depth - 1)
  }

  /** m is the first candidate whose score v is the highest, and v beats
      bestScore. */
  ghost predicate FirstBest(rules: Rules, g: Grid, c: Color, depth: int,
                            cs: seq<Move>, bestScore: Ext, m: Move, v: Ext)
  {
    exists i :: 0 <= i < |cs| && m == cs[i] && v == RootValue(rules, g, c, depth, cs[i])
      && Lt(bestScore, v)
      && forall j :: 0 <= j < i ==> Lt(RootValue(rules, g, c, depth, cs[j]), v)
  }

  lemma LtTrans(a: Ext, b: Ext, c: Ext)
    requires Le(a, b) && Lt(b, c)
    ensures Lt(a, c)
  {
  }

  /** With legal candidates and time to spare, the loop scores every
      candidate: its score is at least each of theirs, and its move is the
      first candidate of the highest score, unless none beats the starting
      score. */
  lemma {:induction false} BestLoopIsFirstBest(rules: Rules, t: Timer, g: Grid, c: Color, depth: int,
                                               cs: seq<Move>, best: Move, bestScore: Ext, k: nat)
    requires Unhurried(t)
    requires forall i :: 0 <= i < |cs| ==> rules.legal(g, cs[i], c)
    ensures var r := BestLoop(rules, t, g, c, depth, cs, best, bestScore, k);
      && (forall i :: 0 <= i < |cs| ==> Le(RootValue(rules, g, c, depth, cs[i]), r.1))
      && ((r.0 == best && r.1 == bestScore) || FirstBest(rules, g, c, depth, cs, bestScore, r.0, r.1))
    decreases |cs|
  {
    if |cs| > 0 {
      assert !TimeUp(t, k);
      var h, rest := cs[0], cs[1..];
      var v := RootValue(rules, g, c, depth, h);
      var s := EvalMove(rules, t, rules.play(g, h, c), c, depth - 1, k + 1);
      EvalIsNegamax(rules, t, rules.play(g, h, c), c, depth - 1, k + 1);
      var better := Lt(bestScore, v);
      var best', score' := if better then h else best, if better then v else bestScore;
      BestLoopIsFirstBest(rules, t, g, c, depth, rest, best', score', s.1);
      var r := BestLoop(rules, t, g, c, depth, rest, best', score', s.1);
      assert BestLoop(rules, t, g, c, depth, cs, best, bestScore, k) == r;
      LeTotal(bestScore, v);
      assert Le(v, r.1) by {
        if !better {
          LeTrans(v, bestScore, r.1);
        }
      }
      forall i | 0 < i < |cs|
        ensures Le(RootValue(rules, g, c, depth, cs[i]), r.1)
      {
        assert cs[i] == rest[i - 1];
      }
      if !(r.0 == best' && r.1 == score') {
        RestBest(rules, g, c, depth, cs, bestScore, v, score', r.0, r.1);
      } else if better {
        assert FirstBest(rules, g, c, depth, cs, bestScore, r.0, r.1) by {
          assert r.0 == cs[0];
        }
      }
    }
  }

  /** The step of the last lemma where the best candidate lies past the
      first one. */
  lemma RestBest(rules: Rules, g: Grid, c: Color, depth: int, cs: seq<Move>,
                 bestScore: Ext, v: Ext, score': Ext, m: Move, w: Ext)
    requires |cs| > 0 && v == RootValue(rules, g, c, depth, cs[0])
    requires Le(bestScore, score') && Le(v, score')
    requires FirstBest(rules, g, c, depth, cs[1..], score', m, w)
    ensures FirstBest(rules, g, c, depth, cs, bestScore, m, w)
  {
    var rest := cs[1..];
    var i :| 0 <= i < |rest| && m == rest[i] && w == RootValue(rules, g, c, depth, rest[i])
             && Lt(score', w)
             && forall j :: 0 <= j < i ==> Lt(RootValue(rules, g, c, depth, rest[j]), w);
    assert cs[i + 1] == rest[i];
    LtTrans(v, score', w);
    LtTrans(bestScore, score', w);
    forall j | 0 < j < i + 1
      ensures Lt(RootValue(rules, g, c, depth, cs[j]), w)
    {
      assert cs[j] == rest[j - 1];
    }
  }

  // ---------------------------------------------------------------------
  // The Reversi instance

  /** The rules of an n-by-n Reversi board, with `Math.sqrt` as root: the
      legal moves, the candidates `evaluateMove` keeps (those of the
      midgame), the board after a move, the flag `move` returns, and
      `quickEvaluate`. */
  function LordRules(n: nat, root: real -> real): Rules
  {
    Rules((g: Grid, c: Color) => if IsSquare(g, n) then ValidMoves(g, n, c) else [],
          (ms: seq<Move>, g: Grid, c: Color) => if IsSquare(g, n) then Candidates(ms, g, n, c, Midgame, root) else [],
          (g: Grid, m: Move, c: Color) => if IsSquare(g, n) then AfterMove(g, n, m.x, m.y, c) else g,
          (g: Grid, m: Move, c: Color) => IsSquare(g, n) && MoveFlag(g, n, m.x, m.y, c),
          (g: Grid, c: Color) => if IsSquare(g, n) && n > 0 then QuickScore(g, n, c) as real else 0.0)
  }

  /** What the rules give on square boards of side n, one application at a
      time. */
  ghost predicate Models(rules: Rules, n: nat, root: real -> real)
  {
    && (forall g, c {:trigger ValidMoves(g, n, c)} :: IsSquare(g, n) ==> rules.moves(g, c) == ValidMoves(g, n, c))
    && (forall ms, g, c {:trigger Candidates(ms, g, n, c, Midgame, root)} ::
          IsSquare(g, n) ==> rules.select(ms, g, c) == Candidates(ms, g, n, c, Midgame, root))
    && (forall g, m, c {:trigger AfterMove(g, n, m.x, m.y, c)} ::
          IsSquare(g, n) ==> rules.play(g, m, c) == AfterMove(g, n, m.x, m.y, c))
    && (forall g, m, c {:trigger MoveFlag(g, n, m.x, m.y, c)} ::
          IsSquare(g, n) ==> (rules.legal(g, m, c) <==> MoveFlag(g, n, m.x, m.y, c)))
    && (forall g, c {:trigger QuickScore(g, n, c)} ::
          IsSquare(g, n) && n > 0 ==> rules.quick(g, c) == QuickScore(g, n, c) as real)
  }

  lemma LordModels(n: nat, root: real -> real)
    ensures Models(LordRules(n, root), n, root)
  {
  }

  /** One ply deep, a move is worth the quick evaluation of the board after
      it for the side that made it, since the quick evaluation changes sign
      with the colour. */
  lemma OnePly(n: nat, root: real -> real, g: Grid, c: Color, m: Move)
    requires IsSquare(g, n) && n > 0
    ensures ChildValue(LordRules(n, root), g, c, 1, m)
            == Fin(QuickScore(AfterMove(g, n, m.x, m.y, c), n, c) as real)
  {
    var after := AfterMove(g, n, m.x, m.y, c);
    QuickScoreNeg(after, n, c);
    assert LordRules(n, root).play(g, m, c) == after;
    assert LordRules(n, root).quick(after, Rival(c)) == QuickScore(after, n, Rival(c)) as real;
  }

  /** `findBestMove(board, color, moves, startTime, timeBudget, gamePhase)`
      begun with reading k: the candidates, the depth for the budget, and
      the loop from the first candidate and minus infinity. */
  function FindBest(t: Timer, root: real -> real, g: Grid, n: nat, c: Color, moves: seq<Move>, p: Phase, k: nat)
    : (r: (Move, Ext, nat))
    requires IsSquare(g, n) && |moves| > 0
    ensures r.0 in moves
    ensures r.2 >= k
  {
    CandidatesSpec(moves, g, n, c, p, root);
    var cs := Candidates(moves, g, n, c, p, root);
    BestLoop(LordRules(n, root), t, g, c, SearchDepth(p, |cs|, t.budget), cs, cs[0], NegInf, k)
  }

  /** With time to spare, `findBestMove` on the legal moves returns the
      first candidate of the highest score, or the first candidate when
      every candidate scores minus infinity; the score is at least that of
      every candidate. */
  lemma FindBestIsFirstBest(t: Timer, root: real -> real, g: Grid, n: nat, c: Color, p: Phase, k: nat)
    requires IsSquare(g, n) && |ValidMoves(g, n, c)| > 0 && Unhurried(t)
    ensures var moves := ValidMoves(g, n, c);
      var rules := LordRules(n, root);
      var cs := Candidates(moves, g, n, c, p, root);
      var depth := SearchDepth(p, |cs|, t.budget);
      var r := FindBest(t, root, g, n, c, moves, p, k);
      && |cs| > 0
      && (forall i :: 0 <= i < |cs| ==> Le(RootValue(rules, g, c, depth, cs[i]), r.1))
      && ((r.0 == cs[0] && r.1 == NegInf) || FirstBest(rules, g, c, depth, cs, NegInf, r.0, r.1))
  {
    var moves := ValidMoves(g, n, c);
    ValidMovesSpec(g, n, c);
    CandidatesSpec(moves, g, n, c, p, root);
    var cs := Candidates(moves, g, n, c, p, root);
    var rules := LordRules(n, root);
    LordModels(n, root);
    forall i | 0 <= i < |cs|
      ensures rules.legal(g, cs[i], c)
    {
      assert cs[i] in moves;
      assert MoveFlag(g, n, cs[i].x, cs[i].y, c);
    }
    BestLoopIsFirstBest(rules, t, g, c, SearchDepth(p, |cs|, t.budget), cs, cs[0], NegInf, k);
  }

  // ---------------------------------------------------------------------
  // getQuickMove

  /** The quick evaluation for c after c plays m. */
  function QuickAfter(g: Grid, n: nat, c: Color, m: Move): int
    requires IsSquare(g, n) && n > 0
  {
    QuickScore(AfterMove(g, n, m.x, m.y, c), n, c)
  }

  /** The quick evaluation after a move, as a function of the move. */
  function QuickValue(g: Grid, n: nat, c: Color): Move -> int
  {
    (m: Move) => if IsSquare(g, n) && n > 0 then QuickAfter(g, n, c, m) else 0
  }

  /** m is the first of the moves ms with the highest value of f. */
  ghost predicate FirstMax(ms: seq<Move>, f: Move -> int, m: Move)
  {
    exists i :: 0 <= i < |ms| && m == ms[i]
      && (forall j :: 0 <= j < |ms| ==> f(ms[j]) <= f(ms[i]))
      && (forall j :: 0 <= j < i ==> f(ms[j]) < f(ms[i]))
  }

  /** There is only one first maximum, and it is one of the moves. */
  lemma FirstMaxUnique(ms: seq<Move>, f: Move -> int, m1: Move, m2: Move)
    requires FirstMax(ms, f, m1) && FirstMax(ms, f, m2)
    ensures m1 == m2 && m1 in ms
  {
    var i1 :| 0 <= i1 < |ms| && m1 == ms[i1]
      && (forall j :: 0 <= j < |ms| ==> f(ms[j]) <= f(ms[i1]))
      && (forall j :: 0 <= j < i1 ==> f(ms[j]) < f(ms[i1]));
    var i2 :| 0 <= i2 < |ms| && m2 == ms[i2]
      && (forall j :: 0 <= j < |ms| ==> f(ms[j]) <= f(ms[i2]))
      && (forall j :: 0 <= j < i2 ==> f(ms[j]) < f(ms[i2]));
    assert f(ms[i1]) <= f(ms[i2]) && f(ms[i2]) <= f(ms[i1]);
  }

  /** What `getQuickMove(board, color)` returns: nothing when there is no
      legal move, otherwise the first of the first five legal moves whose
      quick evaluation after the move is the highest. */
  ghost predicate IsQuickPick(g: Grid, n: nat, c: Color, r: Option<Move>)
    requires IsSquare(g, n)
  {
    var five := Take(ValidMoves(g, n, c), 5);
    if |five| == 0 then r == None else r.Some? && FirstMax(five, QuickValue(g, n, c), r.value)
  }

  /** There is only one such pick, a legal move when there are some. */
  lemma QuickPickUnique(g: Grid, n: nat, c: Color, r1: Option<Move>, r2: Option<Move>)
    requires IsSquare(g, n)
    requires IsQuickPick(g, n, c, r1) && IsQuickPick(g, n, c, r2)
    ensures r1 == r2
    ensures r1.Some? ==> r1.value in ValidMoves(g, n, c)
  {
    var five := Take(ValidMoves(g, n, c), 5);
    if |five| > 0 {
      FirstMaxUnique(five, QuickValue(g, n, c), r1.value, r2.value);
    }
  }
}
