/** The search of TuringianosAgentV8/V9 in src/Turingianos.js, stated on
    board values: `negamax` with its memo cache, deadline and history
    table, the move ordering, and the root loop of `compute`. The agent
    class (turingianos_agent.dfy) is proved to compute these functions.

    The clock is a parameter: `now(k)` is what the k-th call of
    `Date.now()` returns, and the deadline test `Date.now() > this.timeLimit`
    made with reading k is `now(k) > limit`. */
module TuringianosSearch {
  import opened Scores
  import opened ReversiRules
  import opened Sorting
  import opened Symmetry
  import opened TuringianosHash
  import opened TuringianosEval

  // ---------------------------------------------------------------------
  // Move ordering

  /** A property of a move object as the comparators read it. Moves are
      `{y, x}` objects, so the `i` and `j` the comparators ask for are
      missing (`undefined`). */
  datatype Prop = Missing | Num(v: int)

  function PropI(m: Move): Prop
  {
    Missing
  }

  function PropJ(m: Move): Prop
  {
    Missing
  }

  /** The history table is keyed by the rendering of `${move.i},${move.j}`. */
  type HistKey = (Prop, Prop)

  function MoveKey(m: Move): HistKey
  {
    (PropI(m), PropJ(m))
  }

  /** `table[key] || 0`. */
  function Lookup(h: map<HistKey, int>, k: HistKey): int
  {
    if k in h then h[k] else 0
  }

  /** The corner test of the comparators, on the properties they read. */
  predicate CornerProps(i: Prop, j: Prop, rows: int, cols: int)
  {
    (i == Num(0) && j == Num(0)) || (i == Num(0) && j == Num(cols - 1))
    || (i == Num(rows - 1) && j == Num(0)) || (i == Num(rows - 1) && j == Num(cols - 1))
  }

  /** The comparator `negamax` sorts its moves with. */
  function NodeOrder(h: map<HistKey, int>, rows: int, cols: int): (Move, Move) -> int
  {
    (a: Move, b: Move) =>
      if CornerProps(PropI(a), PropJ(a), rows, cols) then -1
      else if CornerProps(PropI(b), PropJ(b), rows, cols) then 1
      else Lookup(h, MoveKey(b)) - Lookup(h, MoveKey(a))
  }

  /** The comparator the root of `compute` sorts its moves with. */
  function RootOrder(h: map<HistKey, int>, rows: int, cols: int): (Move, Move) -> int
  {
    (a: Move, b: Move) =>
      if CornerProps(PropI(a), PropJ(a), rows, cols) then 100
      else if CornerProps(PropI(b), PropJ(b), rows, cols) then 100
      else Lookup(h, MoveKey(b)) - Lookup(h, MoveKey(a))
  }

  /** Both comparators call every pair of moves a tie: neither corner test
      can hold of a missing property, and both moves look up the same
      history entry. */
  lemma OrdersAreTies(h: map<HistKey, int>, rows: int, cols: int, a: Move, b: Move)
    ensures NodeOrder(h, rows, cols)(a, b) == 0
    ensures RootOrder(h, rows, cols)(a, b) == 0
  {
  }

  /** So the moves reach the search loops in `valid_moves` order. */
  lemma SourceOrdersKeepOrder(s: seq<Move>, h: map<HistKey, int>, rows: int, cols: int)
    ensures SortBy(s, NodeOrder(h, rows, cols)) == s
    ensures SortBy(s, RootOrder(h, rows, cols)) == s
  {
    forall a, b ensures NodeOrder(h, rows, cols)(a, b) == 0 && RootOrder(h, rows, cols)(a, b) == 0 {
      OrdersAreTies(h, rows, cols, a, b);
    }
    SortTiesKeepOrder(s, NodeOrder(h, rows, cols));
    SortTiesKeepOrder(s, RootOrder(h, rows, cols));
  }

  // ---------------------------------------------------------------------
  // Cache and history

  /** The loop over the keys of `negamax`: the stored value of the first key
      the cache has, if any. */
  function FirstHit(cache: map<Key, Ext>, keys: seq<Key>): Option<Ext>
  {
    if |keys| == 0 then None
    else if keys[0] in cache then Some(cache[keys[0]])
    else FirstHit(cache, keys[1..])
  }

  /** The loop finds nothing exactly when no key is cached, and otherwise
      returns the value of the first cached key. */
  lemma {:induction false} FirstHitSpec(cache: map<Key, Ext>, keys: seq<Key>)
    ensures FirstHit(cache, keys).None? <==> forall i :: 0 <= i < |keys| ==> keys[i] !in cache
    ensures FirstHit(cache, keys).Some? ==>
              exists i :: 0 <= i < |keys| && keys[i] in cache && FirstHit(cache, keys).value == cache[keys[i]]
                          && forall j :: 0 <= j < i ==> keys[j] !in cache
  {
    if |keys| > 0 && keys[0] !in cache {
      FirstHitSpec(cache, keys[1..]);
      assert forall i :: 0 <= i < |keys| - 1 ==> keys[1..][i] == keys[i + 1];
      if FirstHit(cache, keys).Some? {
        var i :| 0 <= i < |keys[1..]| && keys[1..][i] in cache && FirstHit(cache, keys).value == cache[keys[1..][i]]
                 && forall j :: 0 <= j < i ==> keys[1..][j] !in cache;
        assert keys[i + 1] in cache && forall j :: 0 <= j < i + 1 ==> keys[j] !in cache;
      }
    }
  }

  /** The cache after `set(key, v)` for each of the keys in turn. */
  function StoreAll(cache: map<Key, Ext>, keys: seq<Key>, v: Ext): map<Key, Ext>
  {
    if |keys| == 0 then cache
    else StoreAll(cache, keys[..|keys| - 1], v)[keys[|keys| - 1] := v]
  }

  /** Storing a value under some keys: the keys now hold it, and every other
      entry is as it was. */
  lemma {:induction false} StoreAllSpec(cache: map<Key, Ext>, keys: seq<Key>, v: Ext)
    ensures forall k :: k in StoreAll(cache, keys, v) <==> k in cache || k in keys
    ensures forall k :: k in keys ==> StoreAll(cache, keys, v)[k] == v
    ensures forall k :: k in cache && k !in keys ==> StoreAll(cache, keys, v)[k] == cache[k]
  {
    if |keys| > 0 {
      StoreAllSpec(cache, keys[..|keys| - 1], v);
      assert forall k :: k in keys <==> k in keys[..|keys| - 1] || k == keys[|keys| - 1];
    }
  }

  /** `history[key] = (history[key] || 0) + amount`. */
  function Bump(h: map<HistKey, int>, k: HistKey, amount: int): map<HistKey, int>
  {
    h[k := Lookup(h, k) + amount]
  }

  /** What a search reads and does not change: the rules it plays by
      (`valid_moves`, `simulateMove`, `evaluate`, `getBoardHashes`), the
      sort of the moves by the history table, the clock and the time
      limit. */
  datatype Ctx = Ctx(moves: (Grid, Color) -> seq<Move>,
                     order: (seq<Move>, map<HistKey, int>) -> seq<Move>,
                     play: (Grid, Move, Color) -> Grid,
                     eval: (Grid, Color) -> real,
                     keys: (Grid, Color, nat) -> seq<Key>,
                     now: nat -> real, limit: real)

  /** The sort leaves every list of moves as it is. */
  ghost predicate KeepsOrder(ctx: Ctx)
  {
    forall s, h :: ctx.order(s, h) == s
  }

  /** The deadline test made with clock reading k. */
  predicate Expired(ctx: Ctx, k: nat)
  {
    ctx.now(k) > ctx.limit
  }

  /** What a search changes: the memo cache, the history table and the
      number of clock readings taken; and, as bookkeeping only, the number
      of cache hits and of deadline cut-offs. */
  datatype SearchState = SearchState(cache: map<Key, Ext>, history: map<HistKey, int>, checks: nat,
                                     hits: nat, timeouts: nat)

  /** No cache entry disappears, no history entry shrinks or disappears,
      and no counter goes back. */
  predicate Grows(s: SearchState, t: SearchState)
  {
    (forall k :: k in s.cache ==> k in t.cache)
    && t.hits >= s.hits && t.timeouts >= s.timeouts && t.checks >= s.checks
    && forall k :: k in s.history ==> k in t.history && t.history[k] >= s.history[k]
  }

  /** No counter goes back. */
  predicate CountersGrow(s: SearchState, t: SearchState)
  {
    t.hits >= s.hits && t.timeouts >= s.timeouts && t.checks >= s.checks
  }

  // ---------------------------------------------------------------------
  // negamax

  /** `negamax(board, color, depth, alpha, beta)`: the score and the state
      after the call. */
  function SearchF(ctx: Ctx, g: Grid, c: Color, depth: nat, alpha: Ext, beta: Ext, st: SearchState)
    : (res: (Ext, SearchState))
    ensures CountersGrow(st, res.1)
    decreases depth, 1, 0
  {
    var keys := ctx.keys(g, c, depth);
    var hit := FirstHit(st.cache, keys);
    if hit.Some? then (hit.value, st.(hits := st.hits + 1))
    else
      var moves := ctx.moves(g, c);
      if depth == 0 || |moves| == 0 then
        var score := Fin(ctx.eval(g, c));
        (score, st.(cache := StoreAll(st.cache, keys, score)))
      else if Expired(ctx, st.checks) then
        (Fin(ctx.eval(g, c)), st.(checks := st.checks + 1, timeouts := st.timeouts + 1))
      else
        var st1 := st.(checks := st.checks + 1);
        var ordered := ctx.order(moves, st1.history);
        var r := LoopF(ctx, g, c, depth, ordered, 0, alpha, beta, NegInf, st1);
        (r.0, r.1.(cache := StoreAll(r.1.cache, keys, r.0)))
  }

  /** The move loop of `negamax` from move i on, with the current alpha and
      best score: each child is searched with the window negated and
      swapped, the best score is kept on a strict improvement, alpha is
      raised, and a cut-off adds depth*depth to the history entry of the
      move and leaves the loop. */
  function LoopF(ctx: Ctx, g: Grid, c: Color, depth: nat, moves: seq<Move>, i: nat,
                 alpha: Ext, beta: Ext, maxScore: Ext, st: SearchState)
    : (res: (Ext, SearchState))
    requires depth > 0 && i <= |moves|
    ensures CountersGrow(st, res.1)
    decreases depth, 0, |moves| - i
  {
    if i == |moves| then (maxScore, st)
    else
      var m := moves[i];
      var child := ctx.play(g, m, c);
      var r := SearchF(ctx, child, Opponent(c), depth - 1, Neg(beta), Neg(alpha), st);
      var score := Neg(r.0);
      var best := if Lt(maxScore, score) then score else maxScore;
      var a := Max(alpha, score);
      if Le(beta, a) then (best, r.1.(history := Bump(r.1.history, MoveKey(m), depth * depth)))
      else
        LoopF(ctx, g, c, depth, moves, i + 1, a, beta, best, r.1)
  }

  // The cases of SearchF and LoopF, one equation each, for the agent's
  // methods to follow.

  lemma SearchHitCase(ctx: Ctx, g: Grid, c: Color, depth: nat, alpha: Ext, beta: Ext, st: SearchState)
    requires FirstHit(st.cache, ctx.keys(g, c, depth)).Some?
    ensures SearchF(ctx, g, c, depth, alpha, beta, st)
            == (FirstHit(st.cache, ctx.keys(g, c, depth)).value, st.(hits := st.hits + 1))
  {
  }

  lemma SearchLeafCase(ctx: Ctx, g: Grid, c: Color, depth: nat, alpha: Ext, beta: Ext, st: SearchState)
    requires FirstHit(st.cache, ctx.keys(g, c, depth)).None?
    requires depth == 0 || |ctx.moves(g, c)| == 0
    ensures SearchF(ctx, g, c, depth, alpha, beta, st)
            == (Fin(ctx.eval(g, c)), st.(cache := StoreAll(st.cache, ctx.keys(g, c, depth), Fin(ctx.eval(g, c)))))
  {
  }

  lemma SearchDeadlineCase(ctx: Ctx, g: Grid, c: Color, depth: nat, alpha: Ext, beta: Ext, st: SearchState)
    requires FirstHit(st.cache, ctx.keys(g, c, depth)).None?
    requires depth > 0 && |ctx.moves(g, c)| > 0 && Expired(ctx, st.checks)
    ensures SearchF(ctx, g, c, depth, alpha, beta, st)
            == (Fin(ctx.eval(g, c)), st.(checks := st.checks + 1, timeouts := st.timeouts + 1))
  {
  }

  lemma SearchExpandCase(ctx: Ctx, g: Grid, c: Color, depth: nat, alpha: Ext, beta: Ext, st: SearchState)
    requires FirstHit(st.cache, ctx.keys(g, c, depth)).None?
    requires depth > 0 && |ctx.moves(g, c)| > 0 && !Expired(ctx, st.checks)
    ensures var st1 := st.(checks := st.checks + 1);
            var r := LoopF(ctx, g, c, depth, ctx.order(ctx.moves(g, c), st1.history), 0, alpha, beta, NegInf, st1);
            SearchF(ctx, g, c, depth, alpha, beta, st) == (r.0, r.1.(cache := StoreAll(r.1.cache, ctx.keys(g, c, depth), r.0)))
  {
  }

  lemma LoopEndCase(ctx: Ctx, g: Grid, c: Color, depth: nat, moves: seq<Move>,
                    alpha: Ext, beta: Ext, maxScore: Ext, st: SearchState)
    requires depth > 0
    ensures LoopF(ctx, g, c, depth, moves, |moves|, alpha, beta, maxScore, st) == (maxScore, st)
  {
  }

  lemma LoopStepCase(ctx: Ctx, g: Grid, c: Color, depth: nat, moves: seq<Move>, i: nat,
                     alpha: Ext, beta: Ext, maxScore: Ext, st: SearchState)
    requires depth > 0 && i < |moves|
    ensures var r := SearchF(ctx, ctx.play(g, moves[i], c), Opponent(c), depth - 1, Neg(beta), Neg(alpha), st);
            var score := Neg(r.0);
            var best := if Lt(maxScore, score) then score else maxScore;
            var a := Max(alpha, score);
            LoopF(ctx, g, c, depth, moves, i, alpha, beta, maxScore, st)
            == if Le(beta, a) then (best, r.1.(history := Bump(r.1.history, MoveKey(moves[i]), depth * depth)))
               else LoopF(ctx, g, c, depth, moves, i + 1, a, beta, best, r.1)
  {
  }

  /** A search only adds to the cache and the history table. */
  lemma {:induction false} SearchGrows(ctx: Ctx, g: Grid, c: Color, depth: nat, alpha: Ext, beta: Ext,
                                       st: SearchState)
    ensures Grows(st, SearchF(ctx, g, c, depth, alpha, beta, st).1)
    decreases depth, 1, 0
  {
    var keys := ctx.keys(g, c, depth);
    var moves := ctx.moves(g, c);
    if FirstHit(st.cache, keys).None? {
      if depth == 0 || |moves| == 0 {
        StoreAllSpec(st.cache, keys, Fin(ctx.eval(g, c)));
      } else if !Expired(ctx, st.checks) {
        var st1 := st.(checks := st.checks + 1);
        var ordered := ctx.order(moves, st1.history);
        var r := LoopF(ctx, g, c, depth, ordered, 0, alpha, beta, NegInf, st1);
        LoopGrows(ctx, g, c, depth, ordered, 0, alpha, beta, NegInf, st1);
        StoreAllSpec(r.1.cache, keys, r.0);
      }
    }
  }

  lemma {:induction false} LoopGrows(ctx: Ctx, g: Grid, c: Color, depth: nat, moves: seq<Move>, i: nat,
                                     alpha: Ext, beta: Ext, maxScore: Ext, st: SearchState)
    requires depth > 0 && i <= |moves|
    ensures Grows(st, LoopF(ctx, g, c, depth, moves, i, alpha, beta, maxScore, st).1)
    decreases depth, 0, |moves| - i
  {
    if i < |moves| {
      var m := moves[i];
      var r := SearchF(ctx, ctx.play(g, m, c), Opponent(c), depth - 1, Neg(beta), Neg(alpha), st);
      SearchGrows(ctx, ctx.play(g, m, c), Opponent(c), depth - 1, Neg(beta), Neg(alpha), st);
      var score := Neg(r.0);
      var best := if Lt(maxScore, score) then score else maxScore;
      var a := Max(alpha, score);
      if !Le(beta, a) {
        LoopGrows(ctx, g, c, depth, moves, i + 1, a, beta, best, r.1);
      }
    }
  }

  // ---------------------------------------------------------------------
  // Plain negamax, the reference

  /** The depth-limited negamax value: a position at depth 0 or with no
      legal move scores its evaluation; otherwise the best of its
      children's negated values. */
  function Value(ctx: Ctx, g: Grid, c: Color, depth: nat): real
    decreases depth, 1
  {
    var moves := ctx.moves(g, c);
    if depth == 0 || |moves| == 0 then ctx.eval(g, c)
    else PrefixMax(ChildScores(ctx, g, c, depth, moves), |moves|).v
  }

  /** The negated values of the children, one per move. */
  function ChildScores(ctx: Ctx, g: Grid, c: Color, depth: nat, moves: seq<Move>): (vs: seq<real>)
    requires depth > 0
    ensures |vs| == |moves|
    decreases depth, 0
  {
    seq(|moves|, j requires 0 <= j < |moves| => -Value(ctx, ctx.play(g, moves[j], c), Opponent(c), depth - 1))
  }

  /** The largest of the first k scores; -Infinity when k is 0. */
  function PrefixMax(vs: seq<real>, k: nat): (b: Ext)
    requires k <= |vs|
    ensures k > 0 <==> b.Fin?
  {
    if k == 0 then NegInf else Max(PrefixMax(vs, k - 1), Fin(vs[k - 1]))
  }

  /** PrefixMax is the maximum of the first k scores: one of them, and at
      least every one of them. */
  lemma {:induction false} PrefixMaxIsMax(vs: seq<real>, k: nat)
    requires 0 < k <= |vs|
    ensures exists j :: 0 <= j < k && PrefixMax(vs, k) == Fin(vs[j])
    ensures forall j :: 0 <= j < k ==> vs[j] <= PrefixMax(vs, k).v
  {
    if k > 1 {
      PrefixMaxIsMax(vs, k - 1);
      if PrefixMax(vs, k) != Fin(vs[k - 1]) {
        var j :| 0 <= j < k - 1 && PrefixMax(vs, k - 1) == Fin(vs[j]);
        assert PrefixMax(vs, k) == Fin(vs[j]);
      }
    } else {
      assert PrefixMax(vs, k) == Fin(vs[0]);
    }
  }

  lemma {:induction false} PrefixMaxGrows(vs: seq<real>, k: nat, k': nat)
    requires k <= k' <= |vs|
    ensures Le(PrefixMax(vs, k), PrefixMax(vs, k'))
    decreases k'
  {
    if k < k' {
      PrefixMaxGrows(vs, k, k' - 1);
      LeTrans(PrefixMax(vs, k), PrefixMax(vs, k' - 1), PrefixMax(vs, k'));
    }
  }

  /** A fail-soft alpha-beta result r for true value v in the window
      (alpha, beta): exact inside the window, an upper bound at or below
      alpha, a lower bound at or above beta. */
  predicate FailSoft(r: Ext, v: Ext, alpha: Ext, beta: Ext)
  {
    (Lt(alpha, r) && Lt(r, beta) ==> r == v)
    && (Le(r, alpha) ==> Le(v, r))
    && (Le(beta, r) ==> Le(r, v))
  }

  /** A run with no cache hit and no deadline cut-off. */
  predicate Quiet(s: SearchState, t: SearchState)
  {
    t.hits == s.hits && t.timeouts == s.timeouts
  }

  // ---------------------------------------------------------------------
  // negamax is fail-soft alpha-beta

  /** Negating a result and a value turns a fail-soft answer for the window
      (-beta, -alpha) into one for (alpha, beta). */
  lemma FailSoftNeg(r: Ext, v: Ext, alpha: Ext, beta: Ext)
    requires FailSoft(r, v, Neg(beta), Neg(alpha))
    ensures FailSoft(Neg(r), Neg(v), alpha, beta)
  {
    NegAntitone(alpha, Neg(r));
    NegAntitone(Neg(r), beta);
    NegAntitone(Neg(v), Neg(r));
    NegAntitone(Neg(r), Neg(v));
    NegInvolution(r);
    NegInvolution(v);
    NegInvolution(alpha);
    NegInvolution(beta);
  }

  /** At the end of the loop the best score m is fail-soft for the maximum
      p of all child values. */
  lemma EndStep(p: Ext, m: Ext, alpha0: Ext, alpha: Ext, beta: Ext)
    requires Lt(alpha, beta) && alpha == Max(alpha0, m)
    requires Le(p, m) && (Lt(alpha0, m) ==> p == m)
    ensures FailSoft(m, p, alpha0, beta)
  {
    LeTotal(m, beta);
    LeTrans(m, alpha, beta);
  }

  /** A move whose child answer s reaches beta: the loop stops with s, and
      s is a lower bound of the final value, which is at least the value w
      of that child. */
  lemma CutStep(m: Ext, s: Ext, w: Ext, big: Ext, alpha0: Ext, alpha: Ext, beta: Ext)
    requires Lt(alpha, beta) && alpha == Max(alpha0, m)
    requires FailSoft(s, w, alpha, beta) && Le(w, big)
    requires Le(beta, Max(alpha, s))
    ensures (if Lt(m, s) then s else m) == s
    ensures FailSoft(s, big, alpha0, beta)
  {
    LeTotal(alpha, beta);
    LeTrans(s, w, big);
  }

  /** A move whose child answer stays below beta keeps the loop invariant:
      the best score bounds the prefix maximum from above, and equals it once
      it is above the caller's alpha. */
  lemma GoOnStep(p: Ext, m: Ext, s: Ext, w: Ext, alpha0: Ext, alpha: Ext, beta: Ext)
    requires Lt(alpha, beta) && alpha == Max(alpha0, m)
    requires Le(p, m) && (Lt(alpha0, m) ==> p == m)
    requires FailSoft(s, w, alpha, beta)
    requires !Le(beta, Max(alpha, s))
    ensures var best := if Lt(m, s) then s else m;
            Lt(Max(alpha, s), beta) && Max(alpha, s) == Max(alpha0, best)
            && Le(Max(p, w), best) && (Lt(alpha0, best) ==> Max(p, w) == best)
  {
    LeTotal(beta, Max(alpha, s));
    MaxAssoc(alpha0, m, s);
    var best := if Lt(m, s) then s else m;
    assert best == Max(m, s);
    if Lt(alpha, s) && Lt(s, beta) {
      assert s == w;
      LeTrans(p, m, best);
    } else {
      assert Le(s, alpha);
      LeTotal(s, alpha);
      LeTrans(w, s, alpha);
    }
  }

  /** The loop invariant at move i: alpha is below beta and is the larger
      of the caller's alpha0 and the best score m, and m bounds the first i
      child scores from above and is their maximum once above alpha0. */
  predicate LoopInv(vs: seq<real>, i: nat, alpha0: Ext, alpha: Ext, beta: Ext, m: Ext)
    requires i <= |vs|
  {
    Lt(alpha, beta) && alpha == Max(alpha0, m)
    && Le(PrefixMax(vs, i), m) && (Lt(alpha0, m) ==> PrefixMax(vs, i) == m)
  }

  /** The move loop from move i, in a run that meets no cache hit and no
      deadline, under the loop invariant, returns a fail-soft result for
      the maximum of all child scores. */
  lemma {:induction false} LoopFailSoft(ctx: Ctx, g: Grid, c: Color, depth: nat, moves: seq<Move>,
                                        vs: seq<real>, i: nat, alpha0: Ext, alpha: Ext, beta: Ext,
                                        maxScore: Ext, st: SearchState)
    requires KeepsOrder(ctx) && depth > 0 && i <= |moves| && vs == ChildScores(ctx, g, c, depth, moves)
    requires LoopInv(vs, i, alpha0, alpha, beta, maxScore)
    requires Quiet(st, LoopF(ctx, g, c, depth, moves, i, alpha, beta, maxScore, st).1)
    ensures FailSoft(LoopF(ctx, g, c, depth, moves, i, alpha, beta, maxScore, st).0,
                     PrefixMax(vs, |moves|), alpha0, beta)
    decreases depth, 0, |moves| - i, 1
  {
    if i == |moves| {
      EndStep(PrefixMax(vs, i), maxScore, alpha0, alpha, beta);
    } else {
      var r := SearchF(ctx, ctx.play(g, moves[i], c), Opponent(c), depth - 1, Neg(beta), Neg(alpha), st);
      if Le(beta, Max(alpha, Neg(r.0))) {
        CutFailSoft(ctx, g, c, depth, moves, vs, i, alpha0, alpha, beta, maxScore, st);
      } else {
        GoOnFailSoft(ctx, g, c, depth, moves, vs, i, alpha0, alpha, beta, maxScore, st);
      }
    }
  }

  /** The turn of the loop at move i ends in a cut-off. */
  lemma CutFailSoft(ctx: Ctx, g: Grid, c: Color, depth: nat, moves: seq<Move>,
                    vs: seq<real>, i: nat, alpha0: Ext, alpha: Ext, beta: Ext, maxScore: Ext, st: SearchState)
    requires KeepsOrder(ctx) && depth > 0 && i < |moves| && vs == ChildScores(ctx, g, c, depth, moves)
    requires LoopInv(vs, i, alpha0, alpha, beta, maxScore)
    requires Quiet(st, LoopF(ctx, g, c, depth, moves, i, alpha, beta, maxScore, st).1)
    requires Le(beta, Max(alpha, Neg(SearchF(ctx, ctx.play(g, moves[i], c), Opponent(c), depth - 1,
                                              Neg(beta), Neg(alpha), st).0)))
    ensures FailSoft(LoopF(ctx, g, c, depth, moves, i, alpha, beta, maxScore, st).0,
                     PrefixMax(vs, |moves|), alpha0, beta)
    decreases depth, 0, |moves| - i, 0
  {
    var r := SearchF(ctx, ctx.play(g, moves[i], c), Opponent(c), depth - 1, Neg(beta), Neg(alpha), st);
    var score := Neg(r.0);
    var w := Fin(vs[i]);
    CutUnfold(ctx, g, c, depth, moves, i, alpha, beta, maxScore, st);
    ChildFailSoft(ctx, g, c, depth, moves[i], alpha, beta, st);
    var p := PrefixMax(vs, i);
    var big := PrefixMax(vs, |moves|);
    PrefixMaxGrows(vs, i + 1, |moves|);
    LeTrans(w, Max(p, w), big);
    CutStep(maxScore, score, w, big, alpha0, alpha, beta);
  }

  /** A turn with a cut-off: the loop returns the better of the best score
      and the child score, and the child search is quiet when the loop is. */
  lemma CutUnfold(ctx: Ctx, g: Grid, c: Color, depth: nat, moves: seq<Move>, i: nat,
                  alpha: Ext, beta: Ext, maxScore: Ext, st: SearchState)
    requires depth > 0 && i < |moves|
    requires Quiet(st, LoopF(ctx, g, c, depth, moves, i, alpha, beta, maxScore, st).1)
    requires Le(beta, Max(alpha, Neg(SearchF(ctx, ctx.play(g, moves[i], c), Opponent(c), depth - 1,
                                              Neg(beta), Neg(alpha), st).0)))
    ensures var r := SearchF(ctx, ctx.play(g, moves[i], c), Opponent(c), depth - 1, Neg(beta), Neg(alpha), st);
            var score := Neg(r.0);
            LoopF(ctx, g, c, depth, moves, i, alpha, beta, maxScore, st).0
              == (if Lt(maxScore, score) then score else maxScore)
            && Quiet(st, r.1)
  {
  }

  /** The turn of the loop at move i goes on to move i + 1. */
  lemma GoOnFailSoft(ctx: Ctx, g: Grid, c: Color, depth: nat, moves: seq<Move>,
                     vs: seq<real>, i: nat, alpha0: Ext, alpha: Ext, beta: Ext, maxScore: Ext, st: SearchState)
    requires KeepsOrder(ctx) && depth > 0 && i < |moves| && vs == ChildScores(ctx, g, c, depth, moves)
    requires LoopInv(vs, i, alpha0, alpha, beta, maxScore)
    requires Quiet(st, LoopF(ctx, g, c, depth, moves, i, alpha, beta, maxScore, st).1)
    requires !Le(beta, Max(alpha, Neg(SearchF(ctx, ctx.play(g, moves[i], c), Opponent(c), depth - 1,
                                               Neg(beta), Neg(alpha), st).0)))
    ensures FailSoft(LoopF(ctx, g, c, depth, moves, i, alpha, beta, maxScore, st).0,
                     PrefixMax(vs, |moves|), alpha0, beta)
    decreases depth, 0, |moves| - i, 0
  {
    var r := SearchF(ctx, ctx.play(g, moves[i], c), Opponent(c), depth - 1, Neg(beta), Neg(alpha), st);
    var score := Neg(r.0);
    var best := if Lt(maxScore, score) then score else maxScore;
    var a := Max(alpha, score);
    GoOnUnfold(ctx, g, c, depth, moves, i, alpha, beta, maxScore, st);
    GoOnInvariant(ctx, g, c, depth, moves, vs, i, alpha0, alpha, beta, maxScore, st);
    LoopFailSoft(ctx, g, c, depth, moves, vs, i + 1, alpha0, a, beta, best, r.1);
  }

  /** A turn without cut-off: the loop is its rest, and a quiet loop has a
      quiet child search and a quiet rest. */
  lemma GoOnUnfold(ctx: Ctx, g: Grid, c: Color, depth: nat, moves: seq<Move>, i: nat,
                   alpha: Ext, beta: Ext, maxScore: Ext, st: SearchState)
    requires depth > 0 && i < |moves|
    requires Quiet(st, LoopF(ctx, g, c, depth, moves, i, alpha, beta, maxScore, st).1)
    requires !Le(beta, Max(alpha, Neg(SearchF(ctx, ctx.play(g, moves[i], c), Opponent(c), depth - 1,
                                               Neg(beta), Neg(alpha), st).0)))
    ensures var r := SearchF(ctx, ctx.play(g, moves[i], c), Opponent(c), depth - 1, Neg(beta), Neg(alpha), st);
            var score := Neg(r.0);
            var next := LoopF(ctx, g, c, depth, moves, i + 1, Max(alpha, score), beta,
                              if Lt(maxScore, score) then score else maxScore, r.1);
            LoopF(ctx, g, c, depth, moves, i, alpha, beta, maxScore, st) == next
            && Quiet(st, r.1) && Quiet(r.1, next.1)
  {
  }

  /** A turn without cut-off keeps the loop invariant. */
  lemma GoOnInvariant(ctx: Ctx, g: Grid, c: Color, depth: nat, moves: seq<Move>,
                      vs: seq<real>, i: nat, alpha0: Ext, alpha: Ext, beta: Ext, maxScore: Ext, st: SearchState)
    requires KeepsOrder(ctx) && depth > 0 && i < |moves| && vs == ChildScores(ctx, g, c, depth, moves)
    requires LoopInv(vs, i, alpha0, alpha, beta, maxScore)
    requires Quiet(st, SearchF(ctx, ctx.play(g, moves[i], c), Opponent(c), depth - 1, Neg(beta), Neg(alpha), st).1)
    requires !Le(beta, Max(alpha, Neg(SearchF(ctx, ctx.play(g, moves[i], c), Opponent(c), depth - 1,
                                               Neg(beta), Neg(alpha), st).0)))
    ensures var score := Neg(SearchF(ctx, ctx.play(g, moves[i], c), Opponent(c), depth - 1,
                                      Neg(beta), Neg(alpha), st).0);
            LoopInv(vs, i + 1, alpha0, Max(alpha, score), beta, if Lt(maxScore, score) then score else maxScore)
    decreases depth, 0, 0, 1
  {
    var r := SearchF(ctx, ctx.play(g, moves[i], c), Opponent(c), depth - 1, Neg(beta), Neg(alpha), st);
    var score := Neg(r.0);
    var w := Fin(vs[i]);
    ChildFailSoft(ctx, g, c, depth, moves[i], alpha, beta, st);
    var p := PrefixMax(vs, i);
    GoOnStep(p, maxScore, score, w, alpha0, alpha, beta);
  }

  /** The child search of one loop turn, when quiet, is fail-soft for the
      child's negated value in the caller's window. */
  lemma ChildFailSoft(ctx: Ctx, g: Grid, c: Color, depth: nat, m: Move, alpha: Ext, beta: Ext, st: SearchState)
    requires KeepsOrder(ctx) && depth > 0 && Lt(alpha, beta)
    requires Quiet(st, SearchF(ctx, ctx.play(g, m, c), Opponent(c), depth - 1, Neg(beta), Neg(alpha), st).1)
    ensures FailSoft(Neg(SearchF(ctx, ctx.play(g, m, c), Opponent(c), depth - 1, Neg(beta), Neg(alpha), st).0),
                     Fin(-Value(ctx, ctx.play(g, m, c), Opponent(c), depth - 1)), alpha, beta)
    decreases depth, 0, 0, 0
  {
    var child := ctx.play(g, m, c);
    var r := SearchF(ctx, child, Opponent(c), depth - 1, Neg(beta), Neg(alpha), st);
    NegAntitone(alpha, beta);
    NegInvolution(alpha);
    NegInvolution(beta);
    SearchFailSoft(ctx, child, Opponent(c), depth - 1, Neg(beta), Neg(alpha), st);
    FailSoftNeg(r.0, Fin(Value(ctx, child, Opponent(c), depth - 1)), alpha, beta);
  }

  /** In a run that meets no cache hit and no deadline, `negamax` with a
      window alpha < beta returns the depth-limited negamax value when the
      result lies strictly inside the window, an upper bound of it when the
      result is at most alpha, and a lower bound when it is at least beta. */
  lemma {:induction false} SearchFailSoft(ctx: Ctx, g: Grid, c: Color, depth: nat, alpha: Ext, beta: Ext,
                                          st: SearchState)
    requires KeepsOrder(ctx) && Lt(alpha, beta)
    requires Quiet(st, SearchF(ctx, g, c, depth, alpha, beta, st).1)
    ensures FailSoft(SearchF(ctx, g, c, depth, alpha, beta, st).0, Fin(Value(ctx, g, c, depth)), alpha, beta)
    decreases depth, 1, 0, 0
  {
    var keys := ctx.keys(g, c, depth);
    var moves := ctx.moves(g, c);
    if FirstHit(st.cache, keys).Some? {
      assert false;
    } else if depth == 0 || |moves| == 0 {
    } else if Expired(ctx, st.checks) {
      assert false;
    } else {
      var st1 := st.(checks := st.checks + 1);
      var r := LoopF(ctx, g, c, depth, moves, 0, alpha, beta, NegInf, st1);
      assert Quiet(st1, r.1);
      var vs := ChildScores(ctx, g, c, depth, moves);
      LoopFailSoft(ctx, g, c, depth, moves, vs, 0, alpha, alpha, beta, NegInf, st1);
    }
  }

  /** With the full window (-Infinity, Infinity), as the root of `compute`
      calls it, a run with no cache hit and no deadline returns the plain
      negamax value exactly. */
  lemma SearchExact(ctx: Ctx, g: Grid, c: Color, depth: nat, st: SearchState)
    requires KeepsOrder(ctx)
    requires Quiet(st, SearchF(ctx, g, c, depth, NegInf, PosInf, st).1)
    ensures SearchF(ctx, g, c, depth, NegInf, PosInf, st).0 == Fin(Value(ctx, g, c, depth))
  {
    SearchFailSoft(ctx, g, c, depth, NegInf, PosInf, st);
  }

  // ---------------------------------------------------------------------
  // What a search leaves in the cache

  /** A search that neither hits the cache nor stops at the deadline at its
      own position stores its result under each of the position's keys. */
  lemma SearchStores(ctx: Ctx, g: Grid, c: Color, depth: nat, alpha: Ext, beta: Ext, st: SearchState)
    requires FirstHit(st.cache, ctx.keys(g, c, depth)).None?
    requires depth == 0 || |ctx.moves(g, c)| == 0 || !Expired(ctx, st.checks)
    ensures var res := SearchF(ctx, g, c, depth, alpha, beta, st);
            forall k :: k in ctx.keys(g, c, depth) ==> k in res.1.cache && res.1.cache[k] == res.0
  {
    var keys := ctx.keys(g, c, depth);
    var moves := ctx.moves(g, c);
    if depth == 0 || |moves| == 0 {
      StoreAllSpec(st.cache, keys, Fin(ctx.eval(g, c)));
    } else {
      var st1 := st.(checks := st.checks + 1);
      var r := LoopF(ctx, g, c, depth, ctx.order(moves, st1.history), 0, alpha, beta, NegInf, st1);
      StoreAllSpec(r.1.cache, keys, r.0);
    }
  }

  /** A search stopped by the deadline returns the evaluation and stores
      nothing. */
  lemma DeadlineStoresNothing(ctx: Ctx, g: Grid, c: Color, depth: nat, alpha: Ext, beta: Ext, st: SearchState)
    requires FirstHit(st.cache, ctx.keys(g, c, depth)).None?
    requires depth > 0 && |ctx.moves(g, c)| > 0 && Expired(ctx, st.checks)
    ensures var res := SearchF(ctx, g, c, depth, alpha, beta, st);
            res.0 == Fin(ctx.eval(g, c)) && res.1.cache == st.cache && res.1.history == st.history
  {
  }

  /** A search at a position one of whose keys is cached answers from the
      cache: it returns the value of the first cached key and changes nothing
      but the hit counter. */
  lemma CachedAnswers(ctx: Ctx, g: Grid, c: Color, depth: nat, alpha: Ext, beta: Ext, st: SearchState, j: nat)
    requires j < |ctx.keys(g, c, depth)| && ctx.keys(g, c, depth)[j] in st.cache
    ensures var res := SearchF(ctx, g, c, depth, alpha, beta, st);
            FirstHit(st.cache, ctx.keys(g, c, depth)).Some?
            && res.0 == FirstHit(st.cache, ctx.keys(g, c, depth)).value
            && res.1 == st.(hits := st.hits + 1)
  {
    FirstHitSpec(st.cache, ctx.keys(g, c, depth));
  }

  // ---------------------------------------------------------------------
  // The Reversi instance

  /** The rules `negamax` plays by on an n-by-n board, with the agent's
      eight hash grids, weight grid and turn counter. */
  function ReversiCtx(n: nat, grids: seq<seq<seq<int>>>, weights: seq<seq<real>>, turns: int,
                      now: nat -> real, limit: real): Ctx
  {
    Ctx((g: Grid, c: Color) => if IsSquare(g, n) then ValidMoves(g, n, c) else [],
        (s: seq<Move>, h: map<HistKey, int>) => SortBy(s, NodeOrder(h, n, n)),
        (g: Grid, m: Move, c: Color) => if IsSquare(g, n) then AfterMove(g, n, m.x, m.y, c) else g,
        (g: Grid, c: Color) =>
          if IsSquare(g, n) && SameShape(g, weights) then Evaluation(g, n, weights, turns, c) else 0.0,
        (g: Grid, c: Color, d: nat) =>
          if IsSquare(g, n) && GridsFit(grids, n) then BoardKeys(g, grids, c, d, n) else [],
        now, limit)
  }

  /** What the Reversi rules give on square boards of side n, stated
      one application at a time. */
  ghost predicate Models(ctx: Ctx, n: nat, grids: seq<seq<seq<int>>>, weights: seq<seq<real>>, turns: int,
                         now: nat -> real, limit: real)
  {
    && ctx.now == now && ctx.limit == limit
    && (forall g, c {:trigger ValidMoves(g, n, c)} :: IsSquare(g, n) ==> ctx.moves(g, c) == ValidMoves(g, n, c))
    && (forall s, h {:trigger SortBy(s, NodeOrder(h, n, n))} :: ctx.order(s, h) == SortBy(s, NodeOrder(h, n, n)))
    && (forall g, m, c {:trigger AfterMove(g, n, m.x, m.y, c)} :: IsSquare(g, n) ==> ctx.play(g, m, c) == AfterMove(g, n, m.x, m.y, c))
    && (forall g, c {:trigger Evaluation(g, n, weights, turns, c)} :: IsSquare(g, n) && SameShape(g, weights) ==> ctx.eval(g, c) == Evaluation(g, n, weights, turns, c))
    && (forall g, c, d: nat {:trigger BoardKeys(g, grids, c, d, n)} :: IsSquare(g, n) && GridsFit(grids, n) ==> ctx.keys(g, c, d) == BoardKeys(g, grids, c, d, n))
  }

  lemma ReversiModels(n: nat, grids: seq<seq<seq<int>>>, weights: seq<seq<real>>, turns: int,
                      now: nat -> real, limit: real)
    ensures Models(ReversiCtx(n, grids, weights, turns, now, limit), n, grids, weights, turns, now, limit)
  {
  }

  /** The Reversi sort keeps `valid_moves` order. */
  lemma ReversiKeepsOrder(n: nat, grids: seq<seq<seq<int>>>, weights: seq<seq<real>>, turns: int,
                          now: nat -> real, limit: real)
    ensures KeepsOrder(ReversiCtx(n, grids, weights, turns, now, limit))
  {
    var ctx := ReversiCtx(n, grids, weights, turns, now, limit);
    forall s, h ensures ctx.order(s, h) == s {
      SourceOrdersKeepOrder(s, h, n, n);
    }
  }

  /** So for Reversi, a full-window `negamax` that meets no cache hit and no
      deadline returns the negamax value. */
  lemma ReversiSearchExact(n: nat, grids: seq<seq<seq<int>>>, weights: seq<seq<real>>, turns: int,
                           now: nat -> real, limit: real, g: Grid, c: Color, depth: nat, st: SearchState)
    requires Quiet(st, SearchF(ReversiCtx(n, grids, weights, turns, now, limit), g, c, depth, NegInf, PosInf, st).1)
    ensures SearchF(ReversiCtx(n, grids, weights, turns, now, limit), g, c, depth, NegInf, PosInf, st).0
            == Fin(Value(ReversiCtx(n, grids, weights, turns, now, limit), g, c, depth))
  {
    ReversiKeepsOrder(n, grids, weights, turns, now, limit);
    SearchExact(ReversiCtx(n, grids, weights, turns, now, limit), g, c, depth, st);
  }

  /** Once a board's position is in the cache, each of its eight symmetric
      images, searched for the same colour at the same depth, is answered
      from the cache. */
  lemma SymmetricBoardHits(n: nat, weights: seq<seq<real>>, turns: int, now: nat -> real, limit: real,
                           g: Grid, c: Color, depth: nat, k: nat, alpha: Ext, beta: Ext, st: SearchState)
    requires n > 0 && IsSquare(g, n) && k < 8
    requires GridsFit(HashGrids(n), n) && BoardKeys(g, HashGrids(n), c, depth, n)[0] in st.cache
    ensures var h := Apply(KeyOrder[k], g);
            SearchF(ReversiCtx(n, HashGrids(n), weights, turns, now, limit), h, c, depth, alpha, beta, st).1
              == st.(hits := st.hits + 1)
  {
    var ctx := ReversiCtx(n, HashGrids(n), weights, turns, now, limit);
    var h := Apply(KeyOrder[k], g);
    SymmetricBoardsShareKey(g, n, c, depth, k);
    assert ctx.keys(h, c, depth) == BoardKeys(h, HashGrids(n), c, depth, n);
    CachedAnswers(ctx, h, c, depth, alpha, beta, st, k);
  }

  // ---------------------------------------------------------------------
  // The root of `compute`

  /** The scores of the root loop: each move's child is searched with the
      full window at the agent's depth and its result negated; the search
      state runs through the moves in order. */
  function RootScores(ctx: Ctx, g: Grid, c: Color, depth: nat, moves: seq<Move>, st: SearchState)
    : (res: (seq<Ext>, SearchState))
    ensures |res.0| == |moves| && CountersGrow(st, res.1)
    decreases |moves|
  {
    if |moves| == 0 then ([], st)
    else
      var r := SearchF(ctx, ctx.play(g, moves[0], c), Opponent(c), depth, NegInf, PosInf, st);
      var rest := RootScores(ctx, g, c, depth, moves[1..], r.1);
      ([Neg(r.0)] + rest.0, rest.1)
  }

  /** In a root loop that meets no cache hit and no deadline, every move
      scores the negated negamax value of its child. */
  lemma {:induction false} RootScoresExact(ctx: Ctx, g: Grid, c: Color, depth: nat, moves: seq<Move>,
                                           st: SearchState)
    requires KeepsOrder(ctx)
    requires Quiet(st, RootScores(ctx, g, c, depth, moves, st).1)
    ensures forall j :: 0 <= j < |moves| ==>
              RootScores(ctx, g, c, depth, moves, st).0[j]
              == Fin(-Value(ctx, ctx.play(g, moves[j], c), Opponent(c), depth))
    decreases |moves|
  {
    if |moves| > 0 {
      var r := SearchF(ctx, ctx.play(g, moves[0], c), Opponent(c), depth, NegInf, PosInf, st);
      var rest := RootScores(ctx, g, c, depth, moves[1..], r.1);
      assert Quiet(st, r.1) && Quiet(r.1, rest.1);
      SearchExact(ctx, ctx.play(g, moves[0], c), Opponent(c), depth, st);
      RootScoresExact(ctx, g, c, depth, moves[1..], r.1);
      forall j | 0 < j < |moves|
        ensures RootScores(ctx, g, c, depth, moves, st).0[j]
                == Fin(-Value(ctx, ctx.play(g, moves[j], c), Opponent(c), depth))
      {
        assert moves[1..][j - 1] == moves[j];
      }
    }
  }

  /** The root loop from move i on: the i-th score and the rest. */
  lemma RootScoresStep(ctx: Ctx, g: Grid, c: Color, depth: nat, moves: seq<Move>, i: nat, st: SearchState)
    requires i < |moves|
    ensures var r := SearchF(ctx, ctx.play(g, moves[i], c), Opponent(c), depth, NegInf, PosInf, st);
            var rest := RootScores(ctx, g, c, depth, moves[i + 1..], r.1);
            RootScores(ctx, g, c, depth, moves[i..], st) == ([Neg(r.0)] + rest.0, rest.1)
  {
    assert moves[i..][1..] == moves[i + 1..];
  }

  /** In a Reversi root loop that meets no cache hit and no deadline, the
      move `compute` answers is the first of the moves whose child has the
      lowest negamax value for the opponent: the move of highest negamax
      value for the agent. */
  lemma QuietRootPicksBest(n: nat, grids: seq<seq<seq<int>>>, weights: seq<seq<real>>, turns: int,
                           now: nat -> real, limit: real, g: Grid, c: Color, depth: nat,
                           moves: seq<Move>, st: SearchState)
    requires |moves| > 0
    requires Quiet(st, RootScores(ReversiCtx(n, grids, weights, turns, now, limit), g, c, depth, moves, st).1)
    ensures var ctx := ReversiCtx(n, grids, weights, turns, now, limit);
            var k := Pick(RootScores(ctx, g, c, depth, moves, st).0);
            var v := (j: nat) requires j < |moves| => -Value(ctx, ctx.play(g, moves[j], c), Opponent(c), depth);
            k < |moves|
            && (forall j :: 0 <= j < |moves| ==> v(j) <= v(k))
            && (forall j :: 0 <= j < k ==> v(j) < v(k))
  {
    var ctx := ReversiCtx(n, grids, weights, turns, now, limit);
    var scores := RootScores(ctx, g, c, depth, moves, st).0;
    ReversiKeepsOrder(n, grids, weights, turns, now, limit);
    RootScoresExact(ctx, g, c, depth, moves, st);
    PickIsFirstBest(scores);
  }

  /** The move the root loop keeps, from index i on, holding `best` with
      score `bestScore`: a later move replaces it only with a strictly
      higher score. */
  function RootPick(scores: seq<Ext>, i: nat, best: nat, bestScore: Ext): nat
    requires i <= |scores|
    decreases |scores| - i
  {
    if i == |scores| then best
    else if Lt(bestScore, scores[i]) then RootPick(scores, i + 1, i, scores[i])
    else RootPick(scores, i + 1, best, bestScore)
  }

  /** `bestMove = moves[0]`, `bestScore = -Infinity`, then the loop. */
  function Pick(scores: seq<Ext>): nat
  {
    RootPick(scores, 0, 0, NegInf)
  }

  /** The loop keeps the first move of highest score. */
  lemma PickIsFirstBest(scores: seq<Ext>)
    requires |scores| > 0
    ensures Pick(scores) < |scores|
    ensures forall j :: 0 <= j < |scores| ==> Le(scores[j], scores[Pick(scores)])
    ensures forall j :: 0 <= j < Pick(scores) ==> Lt(scores[j], scores[Pick(scores)])
  {
    RootPickInvariant(scores, 0, 0, NegInf);
  }

  lemma {:induction false} RootPickInvariant(scores: seq<Ext>, i: nat, best: nat, bestScore: Ext)
    requires i <= |scores| && best < |scores| && (i == 0 ==> best == 0 && bestScore == NegInf)
    requires i > 0 ==> best < i && bestScore == scores[best]
    requires forall j :: 0 <= j < i ==> Le(scores[j], bestScore)
    requires forall j :: 0 <= j < best ==> Lt(scores[j], bestScore)
    ensures var k := RootPick(scores, i, best, bestScore);
            k < |scores| && (i < |scores| || k == best)
            && (forall j :: 0 <= j < |scores| ==> Le(scores[j], scores[k]))
            && (forall j :: 0 <= j < k ==> Lt(scores[j], scores[k]))
    decreases |scores| - i
  {
    if i == |scores| {
      assert bestScore == scores[best];
    } else if Lt(bestScore, scores[i]) {
      forall j | 0 <= j < i ensures Lt(scores[j], scores[i]) {
        LeTrans(scores[j], bestScore, scores[i]);
        LeTotal(scores[j], scores[i]);
      }
      RootPickInvariant(scores, i + 1, i, scores[i]);
    } else {
      LeTotal(bestScore, scores[i]);
      if i == 0 {
        assert scores[0] == NegInf;
      }
      RootPickInvariant(scores, i + 1, best, if i == 0 then scores[0] else bestScore);
    }
  }

  /** The root loop of `compute` after its first i moves, from state st,
      holding move `best` at `bestScore`, on its way to the scores and the
      final state `full` of the whole loop. */
  ghost predicate RootLoop(ctx: Ctx, g: Grid, c: Color, depth: nat, moves: seq<Move>,
                           full: (seq<Ext>, SearchState), i: nat, best: nat, bestScore: Ext,
                           st: SearchState)
  {
    && i <= |moves| == |full.0| && best < |moves|
    && (i == 0 ==> best == 0 && bestScore == NegInf)
    && (i > 0 ==> best < i && bestScore == full.0[best])
    && RootScores(ctx, g, c, depth, moves[i..], st) == (full.0[i..], full.1)
    && RootPick(full.0, i, best, bestScore) == Pick(full.0)
  }

  lemma RootLoopStart(ctx: Ctx, g: Grid, c: Color, depth: nat, moves: seq<Move>, st: SearchState)
    requires |moves| > 0
    ensures RootLoop(ctx, g, c, depth, moves, RootScores(ctx, g, c, depth, moves, st), 0, 0, NegInf, st)
  {
    assert moves[0..] == moves;
    var full := RootScores(ctx, g, c, depth, moves, st);
    assert full.0[0..] == full.0;
  }

  /** One pass of the root loop: the child of move i is searched with the
      full window and its negated score replaces the best only when it is
      strictly higher. */
  lemma RootLoopStep(ctx: Ctx, g: Grid, c: Color, depth: nat, moves: seq<Move>,
                     full: (seq<Ext>, SearchState), i: nat, best: nat, bestScore: Ext, st: SearchState)
    requires RootLoop(ctx, g, c, depth, moves, full, i, best, bestScore, st) && i < |moves|
    ensures var r := SearchF(ctx, ctx.play(g, moves[i], c), Opponent(c), depth, NegInf, PosInf, st);
            var score := Neg(r.0);
            if Lt(bestScore, score) then RootLoop(ctx, g, c, depth, moves, full, i + 1, i, score, r.1)
            else RootLoop(ctx, g, c, depth, moves, full, i + 1, best, bestScore, r.1)
  {
    RootScoresStep(ctx, g, c, depth, moves, i, st);
    var r := SearchF(ctx, ctx.play(g, moves[i], c), Opponent(c), depth, NegInf, PosInf, st);
    var rest := RootScores(ctx, g, c, depth, moves[i + 1..], r.1);
    assert full.0[i..] == [Neg(r.0)] + rest.0;
    assert full.0[i] == Neg(r.0);
    assert full.0[i + 1..] == full.0[i..][1..];
    if i == 0 && !Lt(bestScore, Neg(r.0)) {
      assert Neg(r.0) == NegInf;
    }
  }

  lemma RootLoopEnd(ctx: Ctx, g: Grid, c: Color, depth: nat, moves: seq<Move>,
                    full: (seq<Ext>, SearchState), best: nat, bestScore: Ext, st: SearchState)
    requires RootLoop(ctx, g, c, depth, moves, full, |moves|, best, bestScore, st)
    ensures best == Pick(full.0) && st == full.1
  {
  }

  // ---------------------------------------------------------------------
  // Depth and time limit

  /** TuringianosAgentV8: the search depth for the time left, by the chain of
      tests in `compute`; at exactly 2000 or 6000 milliseconds no test
      fires and the previous depth stays. */
  function V8Depth(timeLeft: int, prev: int): (d: int)
    ensures timeLeft < 2000 ==> d == 0
    ensures 2000 < timeLeft < 6000 ==> d == 1
    ensures 6000 < timeLeft <= 9000 ==> d == 2
    ensures timeLeft > 9000 ==> d == 3
    ensures timeLeft == 2000 || timeLeft == 6000 ==> d == prev
  {
    var d0 := if timeLeft < 2000 then 0 else prev;
    var d1 := if timeLeft > 2000 && timeLeft < 6000 then 1 else d0;
    var d2 := if timeLeft > 6000 then 2 else d1;
    if timeLeft > 9000 then 3 else d2
  }

  /** `timeLeft / totalTime < q` for a starting time other than 0, said
      without dividing: multiplied out by the starting time, whose sign
      decides the direction of the comparison. */
  predicate Below(timeLeft: int, totalTime: int, q: real)
  {
    if totalTime > 0 then timeLeft as real < q * totalTime as real
    else timeLeft as real > q * totalTime as real
  }

  lemma BelowIsRatio(timeLeft: int, totalTime: int, q: real)
    requires totalTime != 0
    ensures Below(timeLeft, totalTime, q) <==> timeLeft as real / totalTime as real < q
  {
    var t, total := timeLeft as real, totalTime as real;
    var ratio := t / total;
    assert ratio * total == t;
    if totalTime > 0 {
      assert ratio < q <==> ratio * total < q * total;
    } else {
      assert ratio < q <==> ratio * total > q * total;
    }
  }

  /** TuringianosAgentV9: the search depth for the ratio of the time left to
      the time the agent started with, by the chain of tests in `compute`.
      A zero starting time makes the ratio Infinity, -Infinity or NaN, each
      of which ends at depth 0: -Infinity passes the first test, `< 0.05`,
      while Infinity and NaN fail every test and reach the final `else`. */
  function V9Depth(timeLeft: int, totalTime: int): (d: nat)
    ensures d <= 2
    ensures totalTime == 0 ==> d == 0
  {
    if totalTime == 0 then 0
    else if Below(timeLeft, totalTime, 0.05) then 0
    else if Below(timeLeft, totalTime, 0.1) then 1
    else if Below(timeLeft, totalTime, 0.25) then 1
    else if Below(timeLeft, totalTime, 0.65) then 2
    else if Below(timeLeft, totalTime, 0.80) then 2
    else if Below(timeLeft, totalTime, 0.97) then 1
    else if Below(timeLeft, totalTime, 0.99) then 1
    else 0
  }

  /** The V9 tiers by the ratio itself: depth 2 from a quarter to four
      fifths of the starting time, depth 0 under a twentieth or from 99
      hundredths up, and depth 1 in between. */
  lemma V9DepthByRatio(timeLeft: int, totalTime: int)
    requires totalTime != 0
    ensures var ratio := timeLeft as real / totalTime as real;
            var d := V9Depth(timeLeft, totalTime);
            (d == 2 <==> 0.25 <= ratio < 0.80)
            && (d == 0 <==> ratio < 0.05 || ratio >= 0.99)
            && (d == 1 <==> (0.05 <= ratio < 0.25 || 0.80 <= ratio < 0.99))
  {
    BelowIsRatio(timeLeft, totalTime, 0.05);
    BelowIsRatio(timeLeft, totalTime, 0.1);
    BelowIsRatio(timeLeft, totalTime, 0.25);
    BelowIsRatio(timeLeft, totalTime, 0.65);
    BelowIsRatio(timeLeft, totalTime, 0.80);
    BelowIsRatio(timeLeft, totalTime, 0.97);
    BelowIsRatio(timeLeft, totalTime, 0.99);
  }

  /** On its first move a V9 agent has all its time left, and plays at
      depth 0. */
  lemma V9FirstMoveDepth(t: int)
    ensures V9Depth(t, t) == 0
  {
  }

  /** `this.turns % this.depth === 0`: never true at depth 0, where the
      remainder is NaN. */
  predicate ClearsCache(turns: int, depth: int)
  {
    depth != 0 && turns % depth == 0
  }

  /** `Date.now() + this.maxTime * this.depth**2`, the product written as
      repeated addition. */
  function TimeLimit(now: real, maxTime: real, depth: nat): (t: real)
    ensures depth == 0 ==> t == now
  {
    now + Times(Times(maxTime, depth), depth)
  }

  lemma TimeLimitIsProduct(now: real, maxTime: real, depth: nat)
    ensures TimeLimit(now, maxTime, depth) == now + maxTime * (depth * depth) as real
  {
    TimesIsProduct(maxTime, depth);
    TimesIsProduct(Times(maxTime, depth), depth);
    assert maxTime * depth as real * depth as real == maxTime * (depth * depth) as real;
  }
}
