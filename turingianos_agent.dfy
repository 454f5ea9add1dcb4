/** The agent object of TuringianosAgentV8 and TuringianosAgentV9 in
    src/Turingianos.js: its fields, `initialize_agent`, `getBoardHashes`,
    `evaluate`, `simulateMove`, `negamax` and `compute`. Each method is
    proved to compute the function of the same name in TuringianosSearch,
    TuringianosHash or TuringianosEval, over the `Board` the game hands it.

    The two versions differ only in how `compute` picks the depth, so one
    class carries the version as a constant. Readings of `Date.now()` are
    parameters: the one in `initialize_agent` and the one `compute` adds the
    time budget to are passed in, and the k-th deadline test of `negamax`
    reads `clock(k)`. */
module TuringianosAgent {
  import opened Scores
  import opened ReversiRules
  import opened ReversiBoard
  import opened Symmetry
  import opened TuringianosHash
  import opened TuringianosEval
  import opened Sorting
  import opened TuringianosSearch

  datatype Version = V8 | V9

  /** What `compute` answers: `{'x': ..., 'y': ...}` of the move it picked. */
  datatype Reply = Chosen(x: int, y: int)

  // ---------------------------------------------------------------------
  // Prefix sums the loops of `evaluate` and `getBoardHashes` build

  lemma SumPrefix(s: seq<int>, j: nat)
    requires j < |s|
    ensures Sum(s[..j + 1]) == Sum(s[..j]) + s[j]
  {
    assert s[..j + 1][..j] == s[..j];
  }

  lemma Sum2Prefix(a: seq<seq<int>>, i: nat)
    requires i < |a|
    ensures Sum2(a[..i + 1]) == Sum2(a[..i]) + Sum(a[i])
  {
    assert a[..i + 1][..i] == a[..i];
  }

  lemma WeightRowPrefix(s: seq<Cell>, w: seq<real>, j: nat, v: Cell)
    requires |w| == |s| && j < |s|
    ensures WeightRow(s[..j + 1], w[..j + 1], v) == WeightRow(s[..j], w[..j], v) + (if s[j] == v then w[j] else 0.0)
  {
    assert s[..j + 1][..j] == s[..j];
    assert w[..j + 1][..j] == w[..j];
  }

  lemma WeightOfPrefix(g: Grid, ws: seq<seq<real>>, i: nat, v: Cell)
    requires SameShape(g, ws) && i < |g|
    ensures SameShape(g[..i + 1], ws[..i + 1]) && SameShape(g[..i], ws[..i])
    ensures WeightOf(g[..i + 1], ws[..i + 1], v) == WeightOf(g[..i], ws[..i], v) + WeightRow(g[i], ws[i], v)
  {
    assert g[..i + 1][..i] == g[..i];
    assert ws[..i + 1][..i] == ws[..i];
  }

  /** The closing lines of `evaluate`: the score starts at 0 and takes the
      mobility, disc and position terms in turn. */
  method AddTerms(mobility: int, pieces: int, gridWeight: real, position: real) returns (score: real)
    ensures score == Blend(mobility, pieces, gridWeight, position)
  {
    score := 0.0;
    score := score + 0.25 * (mobility as real);
    score := score + 1.25 * (pieces as real);
    score := score + gridWeight * position;
  }

  /** `simulateMove`: a clone of the board with the move played on it. */
  method SimulateMove(b: Board, m: Move, c: Color) returns (nb: Board)
    requires b.Valid()
    ensures fresh(nb) && fresh(nb.cells) && nb.Valid() && nb.Size() == b.Size()
    ensures nb.Grid() == AfterMove(b.Grid(), b.Size(), m.x, m.y, c)
  {
    nb := b.Clone();
    var flag := nb.Move(m.x, m.y, c);
  }

  /** The agent's `memoCache` and `historyTable`, and the count of deadline
      tests that have read the clock; and, as bookkeeping nothing reads, how
      many lookups hit the cache and how many searches the deadline cut
      short. A search changes these and nothing else of the agent. */
  class Tables {
    var cache: map<Key, Ext>
    var history: map<HistKey, int>
    var checks: nat
    ghost var hits: nat
    ghost var timeouts: nat

    ghost function State(): SearchState
      reads this
    {
      SearchState(cache, history, checks, hits, timeouts)
    }

    constructor()
      ensures State() == SearchState(map[], map[], 0, 0, 0)
    {
      cache := map[];
      history := map[];
      checks := 0;
      hits := 0;
      timeouts := 0;
    }

    /** The first loop of `negamax`: the value of the first key the cache
        holds, if any. */
    method Probe(keys: seq<Key>) returns (found: bool, v: Ext)
      ensures found <==> FirstHit(cache, keys).Some?
      ensures found ==> v == FirstHit(cache, keys).value
    {
      FirstHitSpec(cache, keys);
      var k := 0;
      while k < |keys|
        invariant 0 <= k <= |keys|
        invariant forall j :: 0 <= j < k ==> keys[j] !in cache
      {
        if keys[k] in cache {
          return true, cache[keys[k]];
        }
        k := k + 1;
      }
      return false, NegInf;
    }

    /** Counts a lookup that hit the cache. The counter is ghost
        bookkeeping for the search function's state; `negamax` keeps no such
        count and simply returns the cached value. */
    method Hit()
      modifies this
      ensures State() == old(State()).(hits := old(hits) + 1)
    {
      hits := hits + 1;
    }

    /** The deadline test of `negamax`: reads the clock and tells whether
        the reading is past the limit. */
    method Deadline(clock: nat -> real, limit: real) returns (expired: bool)
      modifies this
      ensures expired <==> clock(old(checks)) > limit
      ensures expired ==> State() == old(State()).(checks := old(checks) + 1, timeouts := old(timeouts) + 1)
      ensures !expired ==> State() == old(State()).(checks := old(checks) + 1)
    {
      expired := clock(checks) > limit;
      checks := checks + 1;
      if expired {
        timeouts := timeouts + 1;
      }
    }

    /** The loops of `negamax` that `set` one score under every key. */
    method Store(keys: seq<Key>, v: Ext)
      modifies this
      ensures State() == old(State()).(cache := StoreAll(old(cache), keys, v))
    {
      var j := 0;
      while j < |keys|
        invariant 0 <= j <= |keys|
        invariant State() == old(State()).(cache := StoreAll(old(cache), keys[..j], v))
      {
        assert keys[..j + 1][..j] == keys[..j];
        cache := cache[keys[j] := v];
        j := j + 1;
      }
      assert keys[..j] == keys;
    }

    /** `this.memoCache.clear()`. */
    method Clear()
      modifies this
      ensures State() == old(State()).(cache := map[])
    {
      cache := map[];
    }

    /** `initialize_agent`'s new `memoCache` and `historyTable`. */
    method Reset()
      modifies this
      ensures State() == old(State()).(cache := map[], history := map[])
    {
      cache := map[];
      history := map[];
    }

    /** A cut-off: the move's history entry grows by `bonus`. */
    method Reward(k: HistKey, bonus: int)
      modifies this
      ensures State() == old(State()).(history := Bump(old(history), k, bonus))
    {
      history := Bump(history, k, bonus);
    }
  }

  class Agent {
    const version: Version
    /** `clock(k)`: what `Date.now()` returns at the k-th deadline test. */
    const clock: nat -> real

    /** `current_color`: None until the first `initialize_agent`. */
    var currentColor: Option<Color>
    var turns: int
    var depth: nat
    /** The side of the board the agent was initialized on. */
    var size: nat
    /** `weight_grid`. */
    var weights: seq<seq<real>>
    /** The eight hash grids, in key order. */
    var grids: seq<seq<seq<int>>>
    var maxTime: real
    var timeLimit: real
    /** `total_time` (V9). */
    var totalTime: int
    /** `memoCache` and `historyTable`, with the clock-reading count. */
    const tables: Tables

    /** The fields a search reads are set up for boards of side `size`. */
    predicate Ready()
      reads this
    {
      GridsFit(grids, size) && Square(weights, size)
    }

    /** Once a colour is set, the grids and weights are those of
        `initialize_agent` for a board of side `size`. */
    predicate Initialized()
      reads this
    {
      currentColor.Some? ==> size > 0 && grids == HashGrids(size) && weights == WeightGrid(size)
    }

    /** The rules the agent's `negamax` searches by: `compute` keeps them
        equal to ReversiCtx of the agent's fields. */
    ghost var rules: Ctx

    /** Each application of the rules is what the Reversi rules give on the
        agent's board size, grids, weights, turn and clock. */
    ghost predicate Bound()
      reads this
    {
      Models(rules, size, grids, weights, turns, clock, timeLimit)
    }

    constructor(version: Version, clock: nat -> real)
      ensures this.version == version && this.clock == clock
      ensures currentColor == None && fresh(tables)
      ensures tables.State() == SearchState(map[], map[], 0, 0, 0)
    {
      this.version := version;
      this.clock := clock;
      currentColor := None;
      turns := 0;
      depth := 0;
      size := 0;
      weights := [];
      grids := [];
      maxTime := 0.0;
      timeLimit := 0.0;
      totalTime := 0;
      tables := new Tables();
      rules := ReversiCtx(0, [], [], 0, clock, 0.0);
    }

    /** `evaluate(board, color)`: one pass over the cells sums the weights
        and counts the discs of each side, then the mobility of each side is
        taken from `valid_moves`. */
    method Evaluate(b: Board, c: Color) returns (score: real)
      requires Ready() && b.Valid() && b.Size() == size
      ensures score == Evaluation(b.Grid(), size, weights, turns, c)
    {
      var o := Opponent(c);
      var myPieces, oppPieces, myWeight, oppWeight := Tally(b, c);
      var myMoves := b.ValidMoves(c);
      var oppMoves := b.ValidMoves(o);
      var gridWeight := GridWeight(turns);
      score := AddTerms(|myMoves| - |oppMoves|, myPieces - oppPieces, gridWeight, myWeight - oppWeight);
    }

    /** The nested loops of `evaluate`: the discs and the weights of each
        side, row by row. */
    method Tally(b: Board, c: Color) returns (myPieces: int, oppPieces: int, myWeight: real, oppWeight: real)
      requires Ready() && b.Valid() && b.Size() == size
      ensures SameShape(b.Grid(), weights)
      ensures myPieces == Count(b.Grid(), Disc(c)) && oppPieces == Count(b.Grid(), Disc(Opponent(c)))
      ensures myWeight == WeightOf(b.Grid(), weights, Disc(c))
      ensures oppWeight == WeightOf(b.Grid(), weights, Disc(Opponent(c)))
    {
      var n := b.cells.Length0;
      ghost var g := b.Grid();
      var o := Opponent(c);
      myPieces, oppPieces := 0, 0;
      myWeight, oppWeight := 0.0, 0.0;
      var i := 0;
      while i < n
        invariant 0 <= i <= n
        invariant myPieces == Count(g[..i], Disc(c)) && oppPieces == Count(g[..i], Disc(o))
        invariant SameShape(g[..i], weights[..i])
        invariant myWeight == WeightOf(g[..i], weights[..i], Disc(c))
        invariant oppWeight == WeightOf(g[..i], weights[..i], Disc(o))
      {
        myPieces, oppPieces, myWeight, oppWeight := EvaluateRow(b, g, i, c, myPieces, oppPieces, myWeight, oppWeight);
        CountSnoc(g, i, Disc(c));
        CountSnoc(g, i, Disc(o));
        WeightOfPrefix(g, weights, i, Disc(c));
        WeightOfPrefix(g, weights, i, Disc(o));
        i := i + 1;
      }
      assert g[..n] == g && weights[..n] == weights;
    }

    /** The inner loop of `evaluate` over row i. */
    method EvaluateRow(b: Board, ghost g: Grid, i: nat, c: Color, myP0: int, oppP0: int, myW0: real, oppW0: real)
      returns (myPieces: int, oppPieces: int, myWeight: real, oppWeight: real)
      requires Ready() && b.Valid() && b.Size() == size && i < size && g == b.Grid()
      ensures myPieces == myP0 + CountRow(g[i], Disc(c))
      ensures oppPieces == oppP0 + CountRow(g[i], Disc(Opponent(c)))
      ensures myWeight == myW0 + WeightRow(g[i], weights[i], Disc(c))
      ensures oppWeight == oppW0 + WeightRow(g[i], weights[i], Disc(Opponent(c)))
    {
      var n := b.cells.Length0;
      ghost var row := g[i];
      var w := weights[i];
      var o := Opponent(c);
      myPieces, oppPieces, myWeight, oppWeight := myP0, oppP0, myW0, oppW0;
      var j := 0;
      while j < n
        invariant 0 <= j <= n
        invariant myPieces == myP0 + CountRow(row[..j], Disc(c))
        invariant oppPieces == oppP0 + CountRow(row[..j], Disc(o))
        invariant myWeight == myW0 + WeightRow(row[..j], w[..j], Disc(c))
        invariant oppWeight == oppW0 + WeightRow(row[..j], w[..j], Disc(o))
      {
        CountRowSnoc(row, j, Disc(c));
        CountRowSnoc(row, j, Disc(o));
        WeightRowPrefix(row, w, j, Disc(c));
        WeightRowPrefix(row, w, j, Disc(o));
        if b.cells[i, j] == Disc(c) {
          myWeight := myWeight + w[j];
          myPieces := myPieces + 1;
        } else if b.cells[i, j] == Disc(o) {
          oppWeight := oppWeight + w[j];
          oppPieces := oppPieces + 1;
        }
        j := j + 1;
      }
      assert row[..n] == row && w[..n] == w;
    }

    /** `getBoardHashes(board, color, depth)`: one pass over the cells adds
        each disc's term to the hash of every grid, then the eight keys are
        formed in grid order. */
    method GetBoardHashes(b: Board, c: Color, d: nat) returns (keys: seq<Key>)
      requires Ready() && b.Valid() && b.Size() == size
      ensures keys == BoardKeys(b.Grid(), grids, c, d, size)
    {
      var n := b.cells.Length0;
      ghost var g := b.Grid();
      var gs := grids;
      ghost var ts := seq(8, k requires 0 <= k < 8 => Terms(g, gs[k], Factor(c)));
      var acc := [0, 0, 0, 0, 0, 0, 0, 0];
      var i := 0;
      while i < n
        invariant 0 <= i <= n && |acc| == 8
        invariant forall k :: 0 <= k < 8 ==> acc[k] == Sum2(ts[k][..i])
      {
        acc := HashRow(b, g, i, c, acc);
        forall k | 0 <= k < 8 ensures acc[k] == Sum2(ts[k][..i + 1]) {
          Sum2Prefix(ts[k], i);
        }
        i := i + 1;
      }
      forall k | 0 <= k < 8 ensures acc[k] == Hash(g, gs[k], c, size) {
        assert ts[k][..n] == ts[k];
      }
      keys := seq(8, k requires 0 <= k < 8 => Key(acc[k], d, c));
    }

    /** The inner loop of `getBoardHashes` over row i: each cell adds to
        the hash of every grid the grid's number for the cell times the
        factor of what the cell holds (31 for a disc of the colour to move,
        31*2*7*31 for a rival disc, nothing when empty). */
    method HashRow(b: Board, ghost g: Grid, i: nat, c: Color, acc0: seq<int>) returns (acc: seq<int>)
      requires Ready() && b.Valid() && b.Size() == size && i < size && |acc0| == 8 && g == b.Grid()
      ensures |acc| == 8
      ensures forall k :: 0 <= k < 8 ==> acc[k] == acc0[k] + Sum(Terms(g, grids[k], Factor(c))[i])
    {
      var n := b.cells.Length0;
      var gs := grids;
      var f := Factor(c);
      ghost var ts := seq(8, k requires 0 <= k < 8 => Terms(g, gs[k], f)[i]);
      acc := acc0;
      var j := 0;
      while j < n
        invariant 0 <= j <= n && |acc| == 8
        invariant forall k :: 0 <= k < 8 ==> acc[k] == acc0[k] + Sum(ts[k][..j])
      {
        forall k | 0 <= k < 8 ensures Sum(ts[k][..j + 1]) == Sum(ts[k][..j]) + ts[k][j] {
          SumPrefix(ts[k], j);
        }
        var v := b.cells[i, j];
        acc := seq(8, k requires 0 <= k < 8 => acc[k] + f(v) * gs[k][i][j]);
        j := j + 1;
      }
      forall k | 0 <= k < 8 ensures ts[k][..n] == ts[k] {
      }
    }

    /** A board the agent's search can be run on. */
    ghost predicate Fit(b: Board)
      reads this, b
    {
      Ready() && Bound() && b.Valid() && b.Size() == size
    }

    // The steps of `negamax`, each calling the operation modelled elsewhere
    // and stating its result in terms of the rules the search is run over.

    /** `this.getBoardHashes(board, color, depth)`: the cache keys. */
    method Keys(b: Board, c: Color, d: nat) returns (keys: seq<Key>)
      requires Fit(b)
      ensures keys == rules.keys(b.Grid(), c, d)
    {
      keys := GetBoardHashes(b, c, d);
    }

    /** `board.valid_moves(color)` inside `negamax`. */
    method Moves(b: Board, c: Color) returns (moves: seq<Move>)
      requires Fit(b)
      ensures moves == rules.moves(b.Grid(), c)
    {
      moves := b.ValidMoves(c);
    }

    /** `this.evaluate(board, color)` at a leaf or on a timeout. */
    method Leaf(b: Board, c: Color) returns (e: real)
      requires Fit(b)
      ensures e == rules.eval(b.Grid(), c)
    {
      e := Evaluate(b, c);
      assert SameShape(b.Grid(), weights);
    }

    /** `this.simulateMove(board, move, color)`: the child position. */
    method Child(b: Board, m: Move, c: Color) returns (nb: Board)
      requires Fit(b)
      ensures fresh(nb) && fresh(nb.cells) && Fit(nb) && nb.Grid() == rules.play(b.Grid(), m, c)
    {
      nb := SimulateMove(b, m, c);
    }

    method Order(moves: seq<Move>) returns (ordered: seq<Move>)
      requires Bound()
      ensures ordered == rules.order(moves, tables.history)
    {
      ordered := SortBy(moves, NodeOrder(tables.history, size, size));
    }

    /** `negamax(board, color, depth, alpha, beta)`: the search the function
        SearchF describes, on the agent's cache, history table and clock. */
    method Negamax(b: Board, c: Color, d: nat, alpha: Ext, beta: Ext) returns (score: Ext)
      requires Fit(b)
      modifies tables
      ensures (score, tables.State()) == SearchF(rules, b.Grid(), c, d, alpha, beta, old(tables.State()))
      decreases d, 5
    {
      ghost var g := b.Grid();
      var keys := Keys(b, c, d);
      var found, v := tables.Probe(keys);
      if found {
        SearchHitCase(rules, g, c, d, alpha, beta, tables.State());
        score := v;
        tables.Hit();
      } else {
        score := Expand(b, g, c, d, alpha, beta, keys);
      }
    }

    // The methods below take the grid of their board as a ghost parameter.

    /** `negamax` past a cache miss: a leaf is evaluated and its score
        stored under every key. */
    method Expand(b: Board, ghost g: Grid, c: Color, d: nat, alpha: Ext, beta: Ext, keys: seq<Key>)
      returns (score: Ext)
      requires Fit(b) && g == b.Grid() && keys == rules.keys(g, c, d) && FirstHit(tables.cache, keys).None?
      modifies tables
      ensures (score, tables.State()) == SearchF(rules, g, c, d, alpha, beta, old(tables.State()))
      decreases d, 4
    {
      var moves := Moves(b, c);
      if d == 0 || |moves| == 0 {
        SearchLeafCase(rules, g, c, d, alpha, beta, tables.State());
        var e := Leaf(b, c);
        score := Fin(e);
        tables.Store(keys, score);
      } else {
        score := Inner(b, g, c, d, alpha, beta, keys, moves);
      }
    }

    /** `negamax` at an inner node: past the deadline the board is
        evaluated and nothing is stored; otherwise the moves are searched. */
    method Inner(b: Board, ghost g: Grid, c: Color, d: nat, alpha: Ext, beta: Ext, keys: seq<Key>, moves: seq<Move>)
      returns (score: Ext)
      requires Fit(b) && g == b.Grid() && keys == rules.keys(g, c, d) && FirstHit(tables.cache, keys).None?
      requires d > 0 && moves == rules.moves(g, c) && |moves| > 0
      modifies tables
      ensures (score, tables.State()) == SearchF(rules, g, c, d, alpha, beta, old(tables.State()))
      decreases d, 3
    {
      ghost var st := tables.State();
      var expired := tables.Deadline(clock, timeLimit);
      if expired {
        SearchDeadlineCase(rules, g, c, d, alpha, beta, st);
        var e := Leaf(b, c);
        score := Fin(e);
      } else {
        SearchExpandCase(rules, g, c, d, alpha, beta, st);
        score := Branch(b, g, c, d, alpha, beta, keys, moves);
      }
    }

    /** `negamax` past the deadline test: the moves, sorted by the history
        table, are searched and the best score is stored under every key. */
    method Branch(b: Board, ghost g: Grid, c: Color, d: nat, alpha: Ext, beta: Ext, keys: seq<Key>, moves: seq<Move>)
      returns (score: Ext)
      requires Fit(b) && g == b.Grid() && d > 0
      modifies tables
      ensures var r := LoopF(rules, g, c, d, rules.order(moves, old(tables.history)), 0, alpha, beta, NegInf,
                             old(tables.State()));
              (score, tables.State()) == (r.0, r.1.(cache := StoreAll(r.1.cache, keys, r.0)))
      decreases d, 2
    {
      var ordered := Order(moves);
      score := SearchMoves(b, g, c, d, alpha, beta, ordered);
      tables.Store(keys, score);
    }

    /** The move loop of `negamax`. */
    method SearchMoves(b: Board, ghost g: Grid, c: Color, d: nat, alpha: Ext, beta: Ext, moves: seq<Move>)
      returns (maxScore: Ext)
      requires Fit(b) && g == b.Grid() && d > 0
      modifies tables
      ensures (maxScore, tables.State()) == LoopF(rules, g, c, d, moves, 0, alpha, beta, NegInf, old(tables.State()))
      decreases d, 1
    {
      ghost var st0 := tables.State();
      maxScore := NegInf;
      var a := alpha;
      var i := 0;
      while i < |moves|
        invariant 0 <= i <= |moves|
        invariant LoopF(rules, g, c, d, moves, i, a, beta, maxScore, tables.State())
                  == LoopF(rules, g, c, d, moves, 0, alpha, beta, NegInf, st0)
        decreases |moves| - i
      {
        LoopStepCase(rules, g, c, d, moves, i, a, beta, maxScore, tables.State());
        var cut;
        maxScore, a, cut := Step(b, g, c, d, moves[i], a, beta, maxScore);
        if cut {
          return;
        }
        i := i + 1;
      }
      LoopEndCase(rules, g, c, d, moves, a, beta, maxScore, tables.State());
    }

    /** One pass of the move loop: the child is searched with the window
        negated and swapped, the best score and alpha are updated, and a
        cut-off rewards the move in the history table. */
    method Step(b: Board, ghost g: Grid, c: Color, d: nat, m: Move, alpha: Ext, beta: Ext, maxScore: Ext)
      returns (best: Ext, a: Ext, cut: bool)
      requires Fit(b) && g == b.Grid() && d > 0
      modifies tables
      ensures var r := SearchF(rules, rules.play(g, m, c), Opponent(c), d - 1, Neg(beta), Neg(alpha),
                               old(tables.State()));
              var score := Neg(r.0);
              && best == (if Lt(maxScore, score) then score else maxScore)
              && a == Max(alpha, score) && cut == Le(beta, a)
              && tables.State() == if cut then r.1.(history := Bump(r.1.history, MoveKey(m), d * d)) else r.1
      decreases d, 0
    {
      var nb := Child(b, m, c);
      var r := Negamax(nb, Opponent(c), d - 1, Neg(beta), Neg(alpha));
      var s := Neg(r);
      best := maxScore;
      if Lt(maxScore, s) {
        best := s;
      }
      a := Max(alpha, s);
      cut := Le(beta, a);
      if cut {
        tables.Reward(MoveKey(m), d * d);
      }
    }

    /** `initialize_agent(color, board, time)`: a fresh start for colour c
        on board b with `time` milliseconds: turn 0, depth 5, the weight
        grid and the eight hash grids of the board's size, empty cache and
        history table, and a per-cell time of `time` over the number of
        cells. `now0` is the reading of `Date.now()` it takes. */
    method InitializeAgent(b: Board, c: Color, time: int, now0: real)
      requires b.Valid() && b.Size() > 0
      modifies this, tables
      ensures Initialized() && currentColor == Some(c) && size == b.Size()
      ensures turns == 0 && depth == 5
      ensures tables.State() == old(tables.State()).(cache := map[], history := map[])
      ensures maxTime == time as real / (size * size) as real && timeLimit == now0 + maxTime
      ensures totalTime == old(totalTime) && rules == old(rules)
    {
      var n := b.cells.Length0;
      turns := 0;
      currentColor := Some(c);
      depth := 5;
      size := n;
      weights := GenerateWeightGrid(n);
      tables.Reset();
      grids := MakeHashGrids(n);
      maxTime := time as real / (n * n) as real;
      timeLimit := now0 + maxTime;
    }

    /** `compute(percept)` for colour c on board b, with wtime and btime the
        milliseconds White and Black have left. `now0` and `now` are the
        readings of `Date.now()` in `initialize_agent` and in `compute`;
        `coin` and `pick` are the two draws of `Math.random()` V8 makes when
        it plays at random. The ghost `st0` is the state the root loop
        starts from.

        The turn counter goes up, or restarts at 0 when the colour changed
        and the agent was initialized again; the moves are sorted, which
        leaves them in `valid_moves` order; V8 with under 60 ms left answers
        the first move or the move at a random index; otherwise the depth is
        set from the time left, the deadline from the depth, the cache is
        cleared every `depth` turns, and the root loop answers the first
        move of highest score. */
    method Compute(b: Board, c: Color, wtime: int, btime: int, now0: real, now: real, coin: real, pick: real)
      returns (reply: Reply, ghost st0: SearchState)
      requires Initialized() && b.Valid() && b.Size() > 0 && (currentColor == Some(c) ==> size == b.Size())
      requires |ValidMoves(b.Grid(), b.Size(), c)| > 0 && 0.0 <= coin < 1.0 && 0.0 <= pick < 1.0
      modifies this, tables
      ensures Initialized() && currentColor == Some(c) && size == b.Size()
      ensures turns == if old(currentColor) == Some(c) then old(turns) + 1 else 0
      ensures var moves := ValidMoves(old(b.Grid()), size, c);
              var timeLeft := if c == W then wtime else btime;
              var prev := if old(currentColor) == Some(c) then old(depth) else 5;
              var ready := if old(currentColor) == Some(c) then old(tables.State())
                           else old(tables.State()).(cache := map[], history := map[]);
              if version == V8 && timeLeft < 60 then
                && depth == prev && tables.State() == ready
                && reply == Chosen(RandomMove(moves, coin, pick).x, RandomMove(moves, coin, pick).y)
              else
                && depth == NewDepth(version, timeLeft, prev, totalTime)
                && (totalTime == if version == V9 && turns == 0 then timeLeft else old(totalTime))
                && timeLimit == TimeLimit(now, maxTime, depth)
                && rules == ReversiCtx(size, grids, weights, turns, clock, timeLimit)
                && st0 == (if ClearsCache(turns, depth) then ready.(cache := map[]) else ready)
                && var m := RootMove(rules, old(b.Grid()), c, depth, moves, st0);
                   reply == Chosen(m.0.x, m.0.y) && tables.State() == m.1
    {
      var moves := LegalMoves(b, c);
      ghost var g := b.Grid();
      var timeLeft := if c == W then wtime else btime;
      NextTurn(b, c, timeLeft, now0);
      var ordered := SortBy(moves, RootOrder(tables.history, size, size));
      SourceOrdersKeepOrder(moves, tables.history, size, size);
      if version == V8 && timeLeft < 60 {
        var m := RandomMove(ordered, coin, pick);
        return Chosen(m.x, m.y), tables.State();
      }
      reply, st0 := Deepen(b, g, c, timeLeft, now, ordered);
    }

    /** The part of `compute` after the random exit: the depth from the
        time left, the deadline from the depth, the cache cleared every
        `depth` turns, and the root loop over the moves. */
    method Deepen(b: Board, ghost g: Grid, c: Color, timeLeft: int, now: real, moves: seq<Move>)
      returns (reply: Reply, ghost st0: SearchState)
      requires Initialized() && currentColor.Some? && b.Valid() && b.Size() == size && g == b.Grid()
      requires |moves| > 0
      modifies this`depth, this`totalTime, this`timeLimit, this`rules, tables
      ensures depth == NewDepth(version, timeLeft, old(depth), totalTime)
      ensures totalTime == if version == V9 && turns == 0 then timeLeft else old(totalTime)
      ensures timeLimit == TimeLimit(now, maxTime, depth)
      ensures rules == ReversiCtx(size, grids, weights, turns, clock, timeLimit)
      ensures st0 == if ClearsCache(turns, depth) then old(tables.State()).(cache := map[]) else old(tables.State())
      ensures var m := RootMove(rules, g, c, depth, moves, st0);
              reply == Chosen(m.0.x, m.0.y) && tables.State() == m.1
    {
      ChooseDepth(timeLeft);
      SetDeadline(now);
      if ClearsCache(turns, depth) {
        tables.Clear();
      }
      HashGridsFit(size);
      st0 := tables.State();
      reply := RootSearch(b, g, c, moves);
    }

    /** `this.turns += 1`, then `initialize_agent` when the colour changed. */
    method NextTurn(b: Board, c: Color, timeLeft: int, now0: real)
      requires Initialized() && b.Valid() && b.Size() > 0 && (currentColor == Some(c) ==> size == b.Size())
      modifies this, tables
      ensures Initialized() && currentColor == Some(c) && size == b.Size()
      ensures turns == if old(currentColor) == Some(c) then old(turns) + 1 else 0
      ensures depth == if old(currentColor) == Some(c) then old(depth) else 5
      ensures tables.State() == if old(currentColor) == Some(c) then old(tables.State())
                                else old(tables.State()).(cache := map[], history := map[])
      ensures totalTime == old(totalTime)
    {
      turns := turns + 1;
      if currentColor != Some(c) {
        InitializeAgent(b, c, timeLeft, now0);
      }
    }

    /** The depth tests of `compute`; V9 first takes the time left as its
        total time on the turn the agent was initialized. */
    method ChooseDepth(timeLeft: int)
      modifies this`depth, this`totalTime
      ensures totalTime == if version == V9 && turns == 0 then timeLeft else old(totalTime)
      ensures depth == NewDepth(version, timeLeft, old(depth), totalTime)
    {
      if version == V8 {
        depth := V8Depth(timeLeft, depth);
      } else {
        if turns == 0 {
          totalTime := timeLeft;
        }
        depth := V9Depth(timeLeft, totalTime);
      }
    }

    /** `this.timeLimit = Date.now() + this.maxTime * this.depth**2`, and the
        rules of the search that follows. */
    method SetDeadline(now: real)
      modifies this`timeLimit, this`rules
      ensures timeLimit == TimeLimit(now, maxTime, depth)
      ensures rules == ReversiCtx(size, grids, weights, turns, clock, timeLimit)
      ensures Bound()
    {
      timeLimit := TimeLimit(now, maxTime, depth);
      rules := ReversiCtx(size, grids, weights, turns, clock, timeLimit);
      ReversiModels(size, grids, weights, turns, clock, timeLimit);
    }

    /** The root loop of `compute`: each move's child is searched at the
        agent's depth with the full window, and a move replaces the best
        so far only on a strictly higher negated score. */
    method RootSearch(b: Board, ghost g: Grid, c: Color, moves: seq<Move>) returns (reply: Reply)
      requires Fit(b) && g == b.Grid() && |moves| > 0
      modifies tables
      ensures var m := RootMove(rules, g, c, depth, moves, old(tables.State()));
              reply == Chosen(m.0.x, m.0.y) && tables.State() == m.1
    {
      ghost var full := RootScores(rules, g, c, depth, moves, tables.State());
      RootLoopStart(rules, g, c, depth, moves, tables.State());
      var bestScore := NegInf;
      var best := 0;
      var i := 0;
      while i < |moves|
        invariant RootLoop(rules, g, c, depth, moves, full, i, best, bestScore, tables.State())
      {
        RootLoopStep(rules, g, c, depth, moves, full, i, best, bestScore, tables.State());
        var score := RootChild(b, g, c, moves[i]);
        if Lt(bestScore, score) {
          bestScore := score;
          best := i;
        }
        i := i + 1;
      }
      RootLoopEnd(rules, g, c, depth, moves, full, best, bestScore, tables.State());
      reply := Chosen(moves[best].x, moves[best].y);
    }

    /** One pass of the root loop: `-negamax(child, opponent, depth,
        -Infinity, Infinity)`. */
    method RootChild(b: Board, ghost g: Grid, c: Color, m: Move) returns (score: Ext)
      requires Fit(b) && g == b.Grid()
      modifies tables
      ensures var r := SearchF(rules, rules.play(g, m, c), Opponent(c), depth, NegInf, PosInf, old(tables.State()));
              score == Neg(r.0) && tables.State() == r.1
    {
      var nb := Child(b, m, c);
      var r := Negamax(nb, Opponent(c), depth, NegInf, PosInf);
      score := Neg(r);
    }
  }

  /** `board.valid_moves(color)` at the start of `compute`: the legal moves
      of the board the agent was given. */
  method LegalMoves(b: Board, c: Color) returns (moves: seq<Move>)
    requires b.Valid()
    ensures moves == ValidMoves(b.Grid(), b.Size(), c)
  {
    moves := b.ValidMoves(c);
  }

  /** The depth `compute` searches at. */
  function NewDepth(version: Version, timeLeft: int, prev: nat, totalTime: int): nat
  {
    if version == V8 then V8Depth(timeLeft, prev) else V9Depth(timeLeft, totalTime)
  }

  /** The move the root loop of `compute` answers, and the search state
      after the loop. */
  ghost function RootMove(ctx: Ctx, g: Grid, c: Color, depth: nat, moves: seq<Move>, st: SearchState)
    : (r: (Move, SearchState))
    requires |moves| > 0
    ensures r.0 in moves
  {
    var rs := RootScores(ctx, g, c, depth, moves, st);
    PickIsFirstBest(rs.0);
    (moves[Pick(rs.0)], rs.1)
  }

  /** The eight grids of `initialize_agent`, in the order `getBoardHashes`
      lists its hashes: the row-major index grid, its horizontal and
      vertical flips, the vertical flips of its quarter and three-quarter
      turns, and its three turns. */
  method MakeHashGrids(n: nat) returns (grids: seq<seq<seq<int>>>)
    requires n > 0
    ensures grids == HashGrids(n)
  {
    var normal := GenerateMatrixHash(n, n);
    assert Rect(normal);
    var flipH := FlipH(normal);
    var flipV := FlipV(normal);
    var r90 := RotateMatrix(normal);
    var r180 := RotateMatrix(r90);
    var r270 := RotateMatrix(r180);
    var diagonal := FlipV(r90);
    var antiDiagonal := FlipV(r270);
    grids := [normal, flipH, flipV, diagonal, antiDiagonal, r90, r180, r270];
    forall k | 0 <= k < 8 ensures grids[k] == HashGrids(n)[k] {
    }
  }

  /** V8's move with under 60 ms left: `moves[0]` when the first draw is
      under one half, else the move at `Math.floor(moves.length * pick)`. */
  function RandomMove(moves: seq<Move>, coin: real, pick: real): (m: Move)
    requires |moves| > 0 && 0.0 <= pick < 1.0
    ensures m in moves
  {
    RandomIndex(|moves|, pick);
    if coin < 0.5 then moves[0] else moves[Times(pick, |moves|).Floor]
  }

  /** An index `Math.floor(moves.length * Math.random())` lies in the list. */
  lemma RandomIndex(len: nat, p: real)
    requires len > 0 && 0.0 <= p < 1.0
    ensures 0 <= Times(p, len).Floor < len
  {
    TimesIsProduct(p, len);
    assert p * len as real < len as real;
  }
}
