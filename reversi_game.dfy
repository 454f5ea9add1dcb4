/** The `Player` and `Game` classes of src/reversi.js: the clock of each
    player and one round of play. The agent a player wraps, and the clock,
    are outside the model: a round is given the two clock readings taken
    around the agent's `compute` and the answer the agent gave. */
module ReversiGame {
  import opened ReversiRules
  import opened ReversiBoard

  /** What an agent's `compute` hands back, as `play` tells the cases
      apart: null, an object without integer `x` and `y`, or a placement. */
  datatype Action = NoAction | Malformed | Place(x: int, y: int)

  class Player {
    const id: string
    const color: Color
    /** Milliseconds left on the player's clock. */
    var time: int
    /** Clock readings around the running `compute`, -1 when idle. */
    var start: int
    var end: int

    constructor(id: string, color: Color, time: int)
      ensures this.id == id && this.color == color && this.time == time
      ensures start == -1 && end == -1
    {
      this.id := id;
      this.color := color;
      this.time := time;
      start, end := -1, -1;
    }

    /** `remainingTime(end)`: what would be left on the clock if the
        running `compute` stopped at `e`. */
    function RemainingTime(e: int): (r: int)
      reads this
      ensures r + (e - start) == time
    {
      time + start - e
    }

    predicate Thinking()
      reads this
    {
      start != -1
    }

    /** `reduce()`: charges the last `compute` to the clock, goes idle, and
        says whether time is left. */
    method Reduce() returns (alive: bool)
      modifies this
      ensures time == old(RemainingTime(end))
      ensures !Thinking() && start == -1 && end == -1
      ensures alive <==> time > 0
    {
      time := time - (end - start);
      start, end := -1, -1;
      alive := time > 0;
    }

    /** `compute(percept)`: runs the agent between the clock readings
        `now0` and `now1`; an agent that ran out of time answers null. */
    method Compute(now0: int, now1: int, answer: Action) returns (a: Action)
      modifies this
      ensures time == old(time) - (now1 - now0) && !Thinking() && end == -1
      ensures a == if time > 0 then answer else NoAction
    {
      start := now0;
      end := now1;
      var alive := Reduce();
      a := if alive then answer else NoAction;
    }
  }

  /** The `winner` field of a game: empty while it goes on, the piece count
      when neither side can move, or a forfeit for a wrong move. */
  datatype Verdict = Pending | Counted(outcome: Outcome) | Forfeit(winner: string, offender: string)

  class Game {
    const player1: Player
    const player2: Player
    const board: Board
    var active: Player
    var inactive: Player
    var winner: Verdict

    ghost predicate Valid()
      reads this, board
    {
      player1 != player2 && player1.color == W && player2.color == B
      && board.Valid()
      && ((active == player1 && inactive == player2) || (active == player2 && inactive == player1))
    }

    ghost predicate CanMove(p: Player)
      reads this, board, board.cells
      requires Valid()
    {
      ValidMoves(board.Grid(), board.Size(), p.color) != []
    }

    constructor(id1: string, id2: string, n: nat, time: int)
      requires n >= 2
      ensures Valid() && fresh(board) && fresh(board.cells) && fresh(player1) && fresh(player2)
      ensures player1.id == id1 && player2.id == id2 && board.Size() == n
      ensures player1.time == time && player2.time == time
      ensures active == player1 && inactive == player2 && winner == Pending
      ensures forall r, q :: Inside(n, r, q) ==> board.Grid()[r][q] == InitialCell(n, r, q)
    {
      player1 := new Player(id1, W, time);
      player2 := new Player(id2, B, time);
      board := new Board(n);
      active := player1;
      inactive := player2;
      winner := Pending;
    }

    method Swap()
      modifies this
      ensures active == old(inactive) && inactive == old(active) && winner == old(winner)
    {
      active, inactive := inactive, active;
    }

    /** `play()`: one round. When neither colour can move, the game ends with
        the piece count. Otherwise the turn passes if the active player has
        no legal move, and the mover answers (see Respond). */
    method Play(now0: int, now1: int, answer: Action) returns (w: Verdict)
      requires Valid()
      modifies this, board.cells, player1, player2
      ensures Valid() && w == winner
      ensures old(!CanMove(player1) && !CanMove(player2)) ==>
                winner == Counted(WinnerOf(old(board.Grid()), player1.id, player2.id))
                && board.Grid() == old(board.Grid())
                && active == old(active) && inactive == old(inactive)
                && player1.time == old(player1.time) && player2.time == old(player2.time)
      ensures old(CanMove(player1) || CanMove(player2)) && old(CanMove(active)) ==>
                Responded(old(active), old(inactive), old(active.time), old(inactive.time), old(board.Grid()),
                          old(winner), now1 - now0, answer)
      ensures old(CanMove(player1) || CanMove(player2)) && old(!CanMove(active)) ==>
                old(CanMove(inactive))
                && Responded(old(inactive), old(active), old(inactive.time), old(active.time), old(board.Grid()),
                             old(winner), now1 - now0, answer)
    {
      var canW := Movable(player1);
      var canB := Movable(player2);
      if !canW && !canB {
        w := Finish();
        return;
      }
      w := Turn(now0, now1, answer);
    }

    /** Whether player p has a legal move on the board. */
    method Movable(p: Player) returns (ok: bool)
      requires Valid()
      ensures ok == CanMove(p)
    {
      ok := board.CanPlay(p.color);
    }

    /** The end of the game: the winner is the piece count. */
    method Finish() returns (w: Verdict)
      requires Valid()
      modifies this`winner
      ensures w == winner && winner == Counted(WinnerOf(board.Grid(), player1.id, player2.id))
    {
      var o := board.Winner(player1.id, player2.id);
      winner := Counted(o);
      w := winner;
    }

    /** A round in which some player can move: the active player moves,
        or, when it cannot, the turn passes to the other player, who
        can. */
    method Turn(now0: int, now1: int, answer: Action) returns (w: Verdict)
      requires Valid() && (CanMove(player1) || CanMove(player2))
      modifies this, board.cells, player1, player2
      ensures Valid() && w == winner
      ensures old(CanMove(active)) ==>
                Responded(old(active), old(inactive), old(active.time), old(inactive.time), old(board.Grid()),
                          old(winner), now1 - now0, answer)
      ensures old(!CanMove(active)) ==>
                old(CanMove(inactive))
                && Responded(old(inactive), old(active), old(inactive.time), old(active.time), old(board.Grid()),
                             old(winner), now1 - now0, answer)
    {
      ghost var g := board.Grid();
      ghost var v := winner;
      ghost var a0, i0 := active, inactive;
      ghost var at0, it0 := active.time, inactive.time;
      var canActive := Movable(active);
      if !canActive {
        Swap();
      }
      assert board.Grid() == g && winner == v;
      if canActive {
        w := Respond(now0, now1, answer, a0, i0, at0, it0, g, v);
      } else {
        w := Respond(now0, now1, answer, i0, a0, it0, at0, g, v);
      }
    }

    /** The state after `mover` answered `answer` in a round that took it
        `elapsed` milliseconds, starting from board g and verdict v. */
    ghost predicate Responded(mover: Player, other: Player, moverTime: int, otherTime: int,
                              g: Grid, v: Verdict, elapsed: int, answer: Action)
      reads this, board, board.cells, mover, other
      requires Valid() && IsSquare(g, board.Size())
    {
      var act := if mover.time > 0 then answer else NoAction;
      mover.time == moverTime - elapsed && other.time == otherTime
      && board.Grid() == BoardAfter(g, board.Size(), act, mover.color)
      && if Legal(g, board.Size(), act, mover.color)
         then active == other && inactive == mover && winner == v
         else active == mover && inactive == other && winner == Forfeit(other.id, mover.id)
    }

    /** The second half of `play()`: the active player's agent answers; a
        placement that brackets hands the turn over, while any other answer
        forfeits the game to the other player. */
    method Respond(now0: int, now1: int, answer: Action, ghost mover: Player, ghost other: Player,
                   ghost moverTime: int, ghost otherTime: int, ghost g: Grid, ghost v: Verdict)
      returns (w: Verdict)
      requires Valid() && mover == active && other == inactive
      requires moverTime == mover.time && otherTime == other.time
      requires IsSquare(g, board.Size()) && g == board.Grid() && v == winner
      modifies this, board.cells, player1, player2
      ensures Valid() && w == winner
      ensures Responded(mover, other, moverTime, otherTime, g, v, now1 - now0, answer)
    {
      var ok := Attempt(now0, now1, answer, g);
      if ok {
        Swap();
      } else {
        winner := Forfeit(inactive.id, active.id);
      }
      w := winner;
    }

    /** The active player's clock runs, and the board takes its answer when
        that is a placement; `ok` is what `move` returned. */
    method Attempt(now0: int, now1: int, answer: Action, ghost g: Grid) returns (ok: bool)
      requires Valid() && IsSquare(g, board.Size()) && g == board.Grid()
      modifies board.cells, active
      ensures active.time == old(active.time) - (now1 - now0)
      ensures board.Grid() == BoardAfter(g, board.Size(), if active.time > 0 then answer else NoAction, active.color)
      ensures ok == Legal(g, board.Size(), if active.time > 0 then answer else NoAction, active.color)
    {
      var action := active.Compute(now0, now1, answer);
      ok := false;
      if action.Place? {
        ok := board.Move(action.x, action.y, active.color);
      }
    }
  }

  /** The board after a player answered `act`: `move` is only called for
      a placement. */
  function BoardAfter(g: Grid, n: nat, act: Action, c: Color): (h: Grid)
    requires IsSquare(g, n)
    ensures IsSquare(h, n)
    ensures !act.Place? ==> h == g
  {
    if act.Place? then AfterMove(g, n, act.x, act.y, c) else g
  }

  /** The answer is a placement and `move` accepts it. */
  predicate Legal(g: Grid, n: nat, act: Action, c: Color)
    requires IsSquare(g, n)
  {
    act.Place? && MoveFlag(g, n, act.x, act.y, c)
  }
}
