/** Facts about the rays walked by `check` and `move`, and about what a
    placement does to the disc counts `winner` reports. */
module ReversiCapture {
  import opened ReversiRules

  /** The position of d in Dirs, or |Dirs| when d is not a unit step. */
  function DirIndex(d: Dir): (t: nat)
    ensures IsUnit(d) ==> t < |Dirs| && Dirs[t] == d
    ensures !IsUnit(d) ==> t == |Dirs|
  {
    if d == Dir(0, -1) then 0
    else if d == Dir(0, 1) then 1
    else if d == Dir(-1, 0) then 2
    else if d == Dir(1, 0) then 3
    else if d == Dir(-1, -1) then 4
    else if d == Dir(1, -1) then 5
    else if d == Dir(-1, 1) then 6
    else if d == Dir(1, 1) then 7
    else 8
  }

  lemma DirsAreUnits()
    ensures forall t :: 0 <= t < |Dirs| ==> IsUnit(Dirs[t]) && DirIndex(Dirs[t]) == t
  {
  }

  /** The k-th cell of a ray lies in direction d at distance k. */
  lemma RayPoint(y: int, x: int, d: Dir, k: int)
    requires IsUnit(d) && k >= 1
    ensures Aligned(y, x, Shift(y, d.dy, k), Shift(x, d.dx, k))
    ensures DirTo(y, x, Shift(y, d.dy, k), Shift(x, d.dx, k)) == d
    ensures Dist(y, x, Shift(y, d.dy, k), Shift(x, d.dx, k)) == k
  {
  }

  /** Each aligned cell is on exactly one ray, at its distance. */
  lemma RayUnique(y: int, x: int, r: int, q: int)
    requires Aligned(y, x, r, q)
    ensures IsUnit(DirTo(y, x, r, q)) && Dist(y, x, r, q) >= 1
    ensures r == Shift(y, DirTo(y, x, r, q).dy, Dist(y, x, r, q))
    ensures q == Shift(x, DirTo(y, x, r, q).dx, Dist(y, x, r, q))
  {
  }

  /** Walking from a cell of the board, a cell of the board is reached
      only in fewer than n steps: the scanning loops stop. */
  lemma InsideBound(n: int, y: int, x: int, d: Dir, k: int)
    requires Inside(n, y, x) && IsUnit(d) && k >= 0
    requires Inside(n, Shift(y, d.dy, k), Shift(x, d.dx, k))
    ensures k < n
  {
  }

  /** Every cell strictly inside a run is on the board and holds a rival
      disc. */
  lemma {:induction false} RunRival(g: Grid, n: nat, y: int, x: int, d: Dir, c: Color, k0: nat, k: nat)
    requires IsSquare(g, n) && k0 <= k < RunEnd(g, n, y, x, d, c, k0)
    ensures k < n && Inside(n, Shift(y, d.dy, k), Shift(x, d.dx, k))
    ensures g[Shift(y, d.dy, k)][Shift(x, d.dx, k)] == Disc(Rival(c))
    decreases n - k0
  {
    if k > k0 {
      RunRival(g, n, y, x, d, c, k0 + 1, k);
    }
  }

  /** Two boards that agree along a ray from distance k0 on. */
  ghost predicate AgreeAlong(g1: Grid, g2: Grid, n: nat, y: int, x: int, d: Dir, k0: int)
    requires IsSquare(g1, n) && IsSquare(g2, n)
  {
    forall k :: k0 <= k && Inside(n, Shift(y, d.dy, k), Shift(x, d.dx, k)) ==>
      g1[Shift(y, d.dy, k)][Shift(x, d.dx, k)] == g2[Shift(y, d.dy, k)][Shift(x, d.dx, k)]
  }

  lemma {:induction false} RunEndAgree(g1: Grid, g2: Grid, n: nat, y: int, x: int, d: Dir, c: Color, k0: nat)
    requires IsSquare(g1, n) && IsSquare(g2, n) && AgreeAlong(g1, g2, n, y, x, d, k0)
    ensures RunEnd(g1, n, y, x, d, c, k0) == RunEnd(g2, n, y, x, d, c, k0)
    decreases n - k0
  {
    if k0 < n {
      RunEndAgree(g1, g2, n, y, x, d, c, k0 + 1);
    }
  }

  /** Whether a direction brackets depends only on the cells of its ray. */
  lemma BracketedAgree(g1: Grid, g2: Grid, n: nat, y: int, x: int, d: Dir, c: Color)
    requires IsSquare(g1, n) && IsSquare(g2, n) && AgreeAlong(g1, g2, n, y, x, d, 1)
    ensures RunEnd(g1, n, y, x, d, c, 1) == RunEnd(g2, n, y, x, d, c, 1)
    ensures Bracketed(g1, n, y, x, d, c) == Bracketed(g2, n, y, x, d, c)
  {
    RunEndAgree(g1, g2, n, y, x, d, c, 1);
  }

  // ---------------------------------------------------------------------
  // Counting with sets

  ghost function RowCells(s: seq<Cell>, v: Cell, r: int): set<(int, int)>
  {
    set q | 0 <= q < |s| && s[q] == v :: (r, q)
  }

  lemma {:induction false} CountRowIsCard(s: seq<Cell>, v: Cell, r: int)
    ensures CountRow(s, v) == |RowCells(s, v, r)|
    decreases |s|
  {
    if |s| == 0 {
      assert RowCells(s, v, r) == {};
    } else {
      var s' := s[..|s| - 1];
      CountRowIsCard(s', v, r);
      var last: set<(int, int)> := if s[|s| - 1] == v then {(r, |s| - 1)} else {};
      RowCellsStep(s, v, r);
      UnionCard(RowCells(s', v, r), last, RowCells(s, v, r));
    }
  }

  lemma RowCellsStep(s: seq<Cell>, v: Cell, r: int)
    requires |s| > 0
    ensures var last: set<(int, int)> := if s[|s| - 1] == v then {(r, |s| - 1)} else {};
            RowCells(s, v, r) == RowCells(s[..|s| - 1], v, r) + last
            && RowCells(s[..|s| - 1], v, r) * last == {}
  {
  }

  ghost function CellsUpTo(g: Grid, n: nat, v: Cell, i: nat): set<(int, int)>
    requires IsSquare(g, n) && i <= n
  {
    set r, q | 0 <= r < i && 0 <= q < n && g[r][q] == v :: (r, q)
  }

  lemma {:induction false} CountUpTo(g: Grid, n: nat, v: Cell, i: nat)
    requires IsSquare(g, n) && i <= n
    ensures Count(g[..i], v) == |CellsUpTo(g, n, v, i)|
  {
    if i == 0 {
      assert CellsUpTo(g, n, v, 0) == {};
    } else {
      CountUpTo(g, n, v, i - 1);
      CountRowIsCard(g[i - 1], v, i - 1);
      assert g[..i][..i - 1] == g[..i - 1];
      CellsUpToStep(g, n, v, i - 1);
      UnionCard(CellsUpTo(g, n, v, i - 1), RowCells(g[i - 1], v, i - 1), CellsUpTo(g, n, v, i));
    }
  }

  lemma CellsUpToStep(g: Grid, n: nat, v: Cell, i: nat)
    requires IsSquare(g, n) && i < n
    ensures CellsUpTo(g, n, v, i + 1) == CellsUpTo(g, n, v, i) + RowCells(g[i], v, i)
    ensures CellsUpTo(g, n, v, i) * RowCells(g[i], v, i) == {}
  {
  }

  /** `Count` counts the cells holding v. */
  lemma CountIsCard(g: Grid, n: nat, v: Cell)
    requires IsSquare(g, n)
    ensures Count(g, v) == |CellsOf(g, n, v)|
  {
    CountUpTo(g, n, v, n);
    assert g[..n] == g;
    assert CellsUpTo(g, n, v, n) == CellsOf(g, n, v);
  }

  // ---------------------------------------------------------------------
  // The discs a placement turns over

  ghost function RaySet(y: int, x: int, d: Dir, lo: nat, hi: nat): set<(int, int)>
  {
    set k | lo <= k < hi :: (Shift(y, d.dy, k), Shift(x, d.dx, k))
  }

  lemma {:induction false} RaySetCard(y: int, x: int, d: Dir, lo: nat, hi: nat)
    requires IsUnit(d) && 1 <= lo <= hi
    ensures |RaySet(y, x, d, lo, hi)| == hi - lo
    decreases hi - lo
  {
    if lo == hi {
      assert RaySet(y, x, d, lo, hi) == {};
    } else {
      RaySetCard(y, x, d, lo + 1, hi);
      var p := (Shift(y, d.dy, lo), Shift(x, d.dx, lo));
      assert RaySet(y, x, d, lo, hi) == {p} + RaySet(y, x, d, lo + 1, hi);
    }
  }

  /** The discs turned over along the first t directions. */
  ghost function CapturedUpTo(g: Grid, n: nat, y: int, x: int, c: Color, t: nat): set<(int, int)>
    requires IsSquare(g, n)
  {
    set r, q | 0 <= r < n && 0 <= q < n && Captured(g, n, y, x, c, r, q)
                && DirIndex(DirTo(y, x, r, q)) < t :: (r, q)
  }

  /** The discs turned over along direction Dirs[t]. */
  ghost function CapturedAlong(g: Grid, n: nat, y: int, x: int, c: Color, t: nat): set<(int, int)>
    requires IsSquare(g, n) && t < |Dirs|
  {
    if Bracketed(g, n, y, x, Dirs[t], c)
    then RaySet(y, x, Dirs[t], 1, RunEnd(g, n, y, x, Dirs[t], c, 1))
    else {}
  }

  /** A cell lies on the captured run of Dirs[t] iff it is captured and
      seen from (y, x) in direction Dirs[t]. */
  lemma AlongMember(g: Grid, n: nat, y: int, x: int, c: Color, t: nat, r: int, q: int)
    requires IsSquare(g, n) && t < |Dirs|
    ensures (r, q) in CapturedAlong(g, n, y, x, c, t) <==>
              Inside(n, r, q) && Captured(g, n, y, x, c, r, q) && DirIndex(DirTo(y, x, r, q)) == t
  {
    DirsAreUnits();
    var d := Dirs[t];
    var e := RunEnd(g, n, y, x, d, c, 1);
    if (r, q) in CapturedAlong(g, n, y, x, c, t) {
      var k :| 1 <= k < e && (r, q) == (Shift(y, d.dy, k), Shift(x, d.dx, k));
      RunRival(g, n, y, x, d, c, 1, k);
      RayPoint(y, x, d, k);
    }
    if Inside(n, r, q) && Captured(g, n, y, x, c, r, q) && DirIndex(DirTo(y, x, r, q)) == t {
      RayUnique(y, x, r, q);
      var k := Dist(y, x, r, q);
      assert (r, q) == (Shift(y, d.dy, k), Shift(x, d.dx, k));
    }
  }

  lemma CapturedStep(g: Grid, n: nat, y: int, x: int, c: Color, t: nat)
    requires IsSquare(g, n) && t < |Dirs|
    ensures CapturedUpTo(g, n, y, x, c, t + 1)
            == CapturedUpTo(g, n, y, x, c, t) + CapturedAlong(g, n, y, x, c, t)
    ensures CapturedUpTo(g, n, y, x, c, t) * CapturedAlong(g, n, y, x, c, t) == {}
  {
    var lo := CapturedUpTo(g, n, y, x, c, t);
    var hi := CapturedUpTo(g, n, y, x, c, t + 1);
    var along := CapturedAlong(g, n, y, x, c, t);
    forall p | p in along ensures p in hi && p !in lo {
      AlongMember(g, n, y, x, c, t, p.0, p.1);
    }
    forall p | p in hi && p !in lo ensures p in along {
      AlongMember(g, n, y, x, c, t, p.0, p.1);
    }
  }

  lemma AlongCard(g: Grid, n: nat, y: int, x: int, c: Color, t: nat)
    requires IsSquare(g, n) && t < |Dirs|
    ensures |CapturedAlong(g, n, y, x, c, t)|
            == if Bracketed(g, n, y, x, Dirs[t], c) then RunEnd(g, n, y, x, Dirs[t], c, 1) - 1 else 0
  {
    if Bracketed(g, n, y, x, Dirs[t], c) {
      DirsAreUnits();
      RaySetCard(y, x, Dirs[t], 1, RunEnd(g, n, y, x, Dirs[t], c, 1));
    }
  }

  lemma CapturedNone(g: Grid, n: nat, y: int, x: int, c: Color)
    requires IsSquare(g, n)
    ensures CapturedUpTo(g, n, y, x, c, 0) == {}
  {
  }

  lemma CapturedCardStep(g: Grid, n: nat, y: int, x: int, c: Color, t: nat)
    requires IsSquare(g, n) && t < |Dirs|
    requires |CapturedUpTo(g, n, y, x, c, t)| == FlipsUpTo(g, n, y, x, c, t)
    ensures |CapturedUpTo(g, n, y, x, c, t + 1)| == FlipsUpTo(g, n, y, x, c, t + 1)
  {
    CapturedStepCard(g, n, y, x, c, t);
    AlongCard(g, n, y, x, c, t);
  }

  lemma CapturedStepCard(g: Grid, n: nat, y: int, x: int, c: Color, t: nat)
    requires IsSquare(g, n) && t < |Dirs|
    ensures |CapturedUpTo(g, n, y, x, c, t + 1)|
            == |CapturedUpTo(g, n, y, x, c, t)| + |CapturedAlong(g, n, y, x, c, t)|
  {
    CapturedStep(g, n, y, x, c, t);
    UnionCard(CapturedUpTo(g, n, y, x, c, t), CapturedAlong(g, n, y, x, c, t),
              CapturedUpTo(g, n, y, x, c, t + 1));
  }

  lemma UnionCard<T>(a: set<T>, b: set<T>, u: set<T>)
    requires u == a + b && a * b == {}
    ensures |u| == |a| + |b|
  {
  }

  lemma {:induction false} CapturedCard(g: Grid, n: nat, y: int, x: int, c: Color, t: nat)
    requires IsSquare(g, n) && t <= |Dirs|
    ensures |CapturedUpTo(g, n, y, x, c, t)| == FlipsUpTo(g, n, y, x, c, t)
  {
    if t == 0 {
      CapturedNone(g, n, y, x, c);
    } else {
      CapturedCard(g, n, y, x, c, t - 1);
      CapturedCardStep(g, n, y, x, c, t - 1);
    }
  }

  /** Every captured cell held a rival disc. */
  lemma CapturedWereRival(g: Grid, n: nat, y: int, x: int, c: Color, r: int, q: int)
    requires IsSquare(g, n) && Inside(n, r, q) && Captured(g, n, y, x, c, r, q)
    ensures g[r][q] == Disc(Rival(c))
  {
    RayUnique(y, x, r, q);
    RunRival(g, n, y, x, DirTo(y, x, r, q), c, 1, Dist(y, x, r, q));
  }

  /** After a placement on an empty cell, c owns what it owned, the new
      disc and the captured discs; the rival loses exactly the captured
      discs. */
  lemma MoveCells(g: Grid, n: nat, x: int, y: int, c: Color)
    requires IsSquare(g, n) && Placeable(g, n, x, y)
    ensures CellsOf(AfterMove(g, n, x, y, c), n, Disc(c))
            == CellsOf(g, n, Disc(c)) + {(y, x)} + CapturedUpTo(g, n, y, x, c, |Dirs|)
    ensures CellsOf(AfterMove(g, n, x, y, c), n, Disc(Rival(c)))
            == CellsOf(g, n, Disc(Rival(c))) - CapturedUpTo(g, n, y, x, c, |Dirs|)
    ensures CapturedUpTo(g, n, y, x, c, |Dirs|) <= CellsOf(g, n, Disc(Rival(c)))
    ensures (y, x) !in CellsOf(g, n, Disc(c)) && (y, x) !in CapturedUpTo(g, n, y, x, c, |Dirs|)
    ensures CellsOf(g, n, Disc(c)) * CellsOf(g, n, Disc(Rival(c))) == {}
  {
    CapturedAreRival(g, n, x, y, c);
    MoveCellsOwn(g, n, x, y, c);
    MoveCellsRival(g, n, x, y, c);
  }

  lemma CapturedAreRival(g: Grid, n: nat, x: int, y: int, c: Color)
    requires IsSquare(g, n)
    ensures CapturedUpTo(g, n, y, x, c, |Dirs|) <= CellsOf(g, n, Disc(Rival(c)))
  {
    forall p | p in CapturedUpTo(g, n, y, x, c, |Dirs|) ensures p in CellsOf(g, n, Disc(Rival(c))) {
      var (r, q) := p;
      CapturedWereRival(g, n, y, x, c, r, q);
    }
  }

  lemma MoveCellsOwn(g: Grid, n: nat, x: int, y: int, c: Color)
    requires IsSquare(g, n) && Placeable(g, n, x, y)
    ensures CellsOf(AfterMove(g, n, x, y, c), n, Disc(c))
            == CellsOf(g, n, Disc(c)) + {(y, x)} + CapturedUpTo(g, n, y, x, c, |Dirs|)
  {
    var h := AfterMove(g, n, x, y, c);
    var cap := CapturedUpTo(g, n, y, x, c, |Dirs|);
    forall p | p in CellsOf(h, n, Disc(c))
      ensures p in CellsOf(g, n, Disc(c)) + {(y, x)} + cap
    {
      var (r, q) := p;
      if Captured(g, n, y, x, c, r, q) {
        RayUnique(y, x, r, q);
      }
    }
    forall p | p in cap ensures p in CellsOf(h, n, Disc(c)) {
      var (r, q) := p;
      assert h[r][q] == PlacedCell(g, n, y, x, c, r, q);
    }
  }

  lemma MoveCellsRival(g: Grid, n: nat, x: int, y: int, c: Color)
    requires IsSquare(g, n) && Placeable(g, n, x, y)
    ensures CellsOf(AfterMove(g, n, x, y, c), n, Disc(Rival(c)))
            == CellsOf(g, n, Disc(Rival(c))) - CapturedUpTo(g, n, y, x, c, |Dirs|)
  {
    var h := AfterMove(g, n, x, y, c);
    var cap := CapturedUpTo(g, n, y, x, c, |Dirs|);
    forall p | p in CellsOf(h, n, Disc(Rival(c)))
      ensures p in CellsOf(g, n, Disc(Rival(c))) - cap
    {
      var (r, q) := p;
      if Captured(g, n, y, x, c, r, q) {
        RayUnique(y, x, r, q);
      }
    }
    forall p | p in CellsOf(g, n, Disc(Rival(c))) - cap
      ensures p in CellsOf(h, n, Disc(Rival(c)))
    {
      var (r, q) := p;
      if Captured(g, n, y, x, c, r, q) {
        RayUnique(y, x, r, q);
      }
    }
  }

  lemma DisjointCards<T>(own: set<T>, riv: set<T>, o: T, cap: set<T>)
    requires o !in own && o !in cap && own * riv == {} && cap <= riv
    ensures |own + {o} + cap| == |own| + 1 + |cap|
    ensures |riv - cap| + |cap| == |riv|
  {
    assert (own + {o}) * cap == {};
    assert riv == (riv - cap) + cap;
  }

  /** A placement on an empty cell adds one disc of c and turns over
      `FlipCount` rival discs, and the board keeps its other discs. */
  lemma MoveCounts(g: Grid, n: nat, x: int, y: int, c: Color)
    requires IsSquare(g, n) && Placeable(g, n, x, y)
    ensures Count(AfterMove(g, n, x, y, c), Disc(c)) == Count(g, Disc(c)) + 1 + FlipCount(g, n, y, x, c)
    ensures Count(AfterMove(g, n, x, y, c), Disc(Rival(c))) + FlipCount(g, n, y, x, c)
            == Count(g, Disc(Rival(c)))
  {
    var h := AfterMove(g, n, x, y, c);
    var cap := CapturedUpTo(g, n, y, x, c, |Dirs|);
    var own := CellsOf(g, n, Disc(c));
    var riv := CellsOf(g, n, Disc(Rival(c)));
    MoveCells(g, n, x, y, c);
    CapturedCard(g, n, y, x, c, |Dirs|);
    CountIsCard(g, n, Disc(c));
    CountIsCard(g, n, Disc(Rival(c)));
    CountIsCard(h, n, Disc(c));
    CountIsCard(h, n, Disc(Rival(c)));
    DisjointCards(own, riv, (y, x), cap);
  }

  lemma {:induction false} FlipsPositive(g: Grid, n: nat, y: int, x: int, c: Color, t: nat)
    requires IsSquare(g, n) && t <= |Dirs|
    ensures FlipsUpTo(g, n, y, x, c, t) > 0 <==>
              exists s :: 0 <= s < t && Bracketed(g, n, y, x, Dirs[s], c)
  {
    if t > 0 {
      FlipsPositive(g, n, y, x, c, t - 1);
    }
  }

  /** `move` reports true exactly when the placement turns something over. */
  lemma MoveFlagIffFlips(g: Grid, n: nat, x: int, y: int, c: Color)
    requires IsSquare(g, n)
    ensures MoveFlag(g, n, x, y, c) <==> Placeable(g, n, x, y) && FlipCount(g, n, y, x, c) > 0
  {
    FlipsPositive(g, n, y, x, c, |Dirs|);
  }

  /** A placement that was refused leaves the board as it was; an accepted
      one only ever writes discs of the mover. */
  lemma AfterMoveFrame(g: Grid, n: nat, x: int, y: int, c: Color, r: int, q: int)
    requires IsSquare(g, n) && Inside(n, r, q)
    ensures !Placeable(g, n, x, y) ==> AfterMove(g, n, x, y, c)[r][q] == g[r][q]
    ensures AfterMove(g, n, x, y, c)[r][q] != g[r][q] ==>
              AfterMove(g, n, x, y, c)[r][q] == Disc(c)
              && (g[r][q] == Disc(Rival(c)) || (r == y && q == x && g[r][q] == Empty))
  {
    if Placeable(g, n, x, y) && Captured(g, n, y, x, c, r, q) && !(r == y && q == x) {
      CapturedWereRival(g, n, y, x, c, r, q);
    }
  }
}
