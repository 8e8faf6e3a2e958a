/** One game: configuration of size and required streak, and the turn loop.
    X moves first and the players strictly alternate; after every single
    move the loop asks whether the mark that just moved has won, and only
    then whether the move counter has reached size * size. */
module Games {
  import opened Boards
  import opened Options
  import opened WinCheck
  import opened Players

  const DefaultWinStreak: int := 3
  const MinimumWinStreak: int := 2

  /** Board side and the streak needed to win. */
  datatype Config = Config(size: nat, streak: int) {

    /** Every configuration the constructors build: a streak between 1 and
        the side, unless the board is empty. */
    predicate Valid() {
      size == 0 || 1 <= streak <= size
    }

    function Area(): nat {
      size * size
    }
  }

  /** The no-argument game: a 4 x 4 board and a streak of 3. */
  function DefaultConfig(): (g: Config)
    ensures g.Valid() && g.size == 4 && g.streak == 3
  {
    Config(DefaultBoardSize, DefaultWinStreak)
  }

  /** The game for a given side and streak: the streak is taken only when it
      is above the minimum and below the side; otherwise it is the side. */
  function NewConfig(size: nat, winStreak: int): (g: Config)
    ensures g.Valid() && g.size == size
    ensures g.streak == winStreak || g.streak == size
    ensures g.streak == winStreak <==> (MinimumWinStreak < winStreak < size || winStreak == size)
  {
    var streak := if winStreak < size && winStreak > MinimumWinStreak then winStreak else size;
    Config(size, streak)
  }

  /** A requested streak of exactly the minimum, 2, is not taken: the guard
      is strict, so the streak falls back to the side. */
  lemma MinimumStreakFallsBack(size: nat)
    requires size > 2
    ensures NewConfig(size, 2).streak == size
  {
  }

  /** The mark that makes move n (counting from 0). */
  function Mover(n: nat): (m: Mark)
    ensures m != Blank
    ensures m == X <==> n % 2 == 0
  {
    if n % 2 == 0 then X else O
  }

  /** Move n's turn on a board, reading from a tape: a new board and the
      unread tape, or None when the player ran out of input. */
  type Turn = (Board, nat, Tape) --> Option<(Board, Tape)>

  /** What the loop relies on of the players: a turn is defined on every
      valid non-empty board, and a turn that moves keeps the board valid and
      only adds to it. */
  ghost predicate Plays(turn: Turn) {
    forall b: Board, n: nat, t: Tape :: b.Valid() && b.size >= 1 ==>
      && turn.requires(b, n, t)
      && (turn(b, n, t).Some? ==>
           turn(b, n, t).value.0.Valid() && turn(b, n, t).value.0.size == b.size
           && Extends(b, turn(b, n, t).value.0))
  }

  /** The strategy whose turn move n is. */
  function PlayerOf(px: Strategy, po: Strategy, n: nat): Strategy {
    if n % 2 == 0 then px else po
  }

  /** The turns of a game between px, who plays X on the even moves, and po,
      who plays O on the odd ones. */
  function Turns(px: Strategy, po: Strategy): (turn: Turn)
    ensures Plays(turn)
  {
    var turn := (b: Board, n: nat, t: Tape) requires b.Valid() && b.size >= 1 =>
      PlayTurn(PlayerOf(px, po, n), b, Mover(n), t);
    forall b: Board, n: nat, t: Tape | b.Valid() && b.size >= 1 && turn(b, n, t).Some?
      ensures Extends(b, turn(b, n, t).value.0)
    {
      PlayTurnExtends(b, turn(b, n, t).value.0, Mover(n));
    }
    turn
  }

  lemma PlayTurnExtends(b: Board, b': Board, mark: Mark)
    requires b.Valid() && (b' == b || exists p :: Placed(b, b', mark, p))
    ensures Extends(b, b')
  {
    if b' != b {
      var p :| Placed(b, b', mark, p);
      PlacedExtends(b, b', mark, p);
    }
  }

  /** The test the loop asks after every move: has mark m a streak of s? */
  type WinTest = (Board, Mark, int) --> bool

  /** What the loop relies on of the test: defined on every valid board, and
      for a mark and a positive streak true exactly when the mark has a line. */
  ghost predicate Detects(won: WinTest) {
    forall b: Board, m: Mark, s: int :: b.Valid() ==>
      && won.requires(b, m, s)
      && (m != Blank && s >= 1 ==> (won(b, m, s) <==> HasLine(b, m, s)))
  }

  /** Game.run's test: checkWinStreak reports the mark. */
  function Wins(): (won: WinTest)
    ensures Detects(won)
  {
    (b: Board, m: Mark, s: int) requires b.Valid() => CheckWinStreak(b, m, s) != Blank
  }

  /** The end of a game: a winner (BLANK for a draw), the final board, the
      number of moves counted and the unread tape; or a game that stalled
      because a player ran out of input before moving. */
  datatype Outcome =
    | Finished(winner: Mark, board: Board, moves: nat, rest: Tape)
    | Stalled(board: Board, moves: nat)

  /** The loop from a board on which `moves` moves have been counted. */
  function RunFrom(g: Config, turn: Turn, won: WinTest, b: Board, moves: nat, t: Tape): (o: Outcome)
    requires g.Valid() && Plays(turn) && Detects(won) && b.Valid() && b.size == g.size && moves <= g.Area()
    ensures Extends(b, o.board)
    ensures moves <= o.moves <= g.Area()
    decreases g.Area() - moves
  {
    if moves == g.Area() then Finished(Blank, b, moves, t)
    else
      var mover := Mover(moves);
      match turn(b, moves, t)
      case None => Stalled(b, moves)
      case Some((b', t')) =>
        if won(b', mover, g.streak) then Finished(mover, b', moves + 1, t')
        else
          var o := RunFrom(g, turn, won, b', moves + 1, t');
          ExtendsTransitive(b, b', o.board);
          o
  }

  /** Game.run: a fresh board, no moves counted, X to move. */
  function Run(g: Config, px: Strategy, po: Strategy, t: Tape): (o: Outcome)
    requires g.Valid()
  {
    RunFrom(g, Turns(px, po), Wins(), NewBoard(g.size), 0, t)
  }

  /** How a game from a given position ends: a draw only once every cell is
      counted, a win only for the mark that moved last, and, whenever at
      least one move was made, a win exactly when that mark has a line. */
  lemma {:induction false} RunFromEnds(g: Config, turn: Turn, won: WinTest, b: Board, moves: nat, t: Tape)
    requires g.Valid() && Plays(turn) && Detects(won) && b.Valid() && b.size == g.size && moves <= g.Area()
    ensures var o := RunFrom(g, turn, won, b, moves, t);
      && (o.Finished? && o.winner == Blank ==> o.moves == g.Area())
      && (o.Finished? && o.winner != Blank ==> o.moves > moves && o.winner == Mover(o.moves - 1))
      && (o.Finished? && o.moves > moves ==>
           (o.winner != Blank <==> HasLine(o.board, Mover(o.moves - 1), g.streak)))
    decreases g.Area() - moves
  {
    if moves < g.Area() {
      var mover := Mover(moves);
      assert g.streak >= 1;
      match turn(b, moves, t)
      case None =>
      case Some((b', t')) =>
        if !won(b', mover, g.streak) {
          RunFromEnds(g, turn, won, b', moves + 1, t');
          var o := RunFrom(g, turn, won, b', moves + 1, t');
          assert RunFrom(g, turn, won, b, moves, t) == o;
          if o.Finished? && o.moves == moves + 1 {
            assert o.board == b';
          }
        }
    }
  }

  /** Turns that, on a board with a BLANK cell, either wait for input or put
      the mover's mark on a BLANK cell. */
  ghost predicate PlacesOne(turn: Turn) {
    forall b: Board, n: nat, t: Tape :: b.Valid() && b.size >= 1 && HasBlank(b) ==>
      && turn.requires(b, n, t)
      && (turn(b, n, t).Some? ==> exists p :: Placed(b, turn(b, n, t).value.0, Mover(n), p))
  }

  /** Without the genius player every turn that moves places one mark: the
      genius player's block rule can leave the board as it was. */
  lemma NonGeniusPlacesOne(px: Strategy, po: Strategy)
    requires px != Genius && po != Genius
    ensures PlacesOne(Turns(px, po))
  {
  }

  /** A measure of boards that every turn raises by one while it is below the
      board's area. */
  ghost predicate RaisesByOne(turn: Turn, count: Board -> nat) {
    forall b: Board, n: nat, t: Tape :: b.Valid() && b.size >= 1 && count(b) < b.Area() ==>
      && turn.requires(b, n, t)
      && (turn(b, n, t).Some? ==> count(turn(b, n, t).value.0) == count(b) + 1)
  }

  /** Under such a measure, a loop started where the measure equals the move
      counter ends where it still does. */
  lemma {:induction false} RunFromCounts(g: Config, turn: Turn, won: WinTest, count: Board -> nat,
                                         b: Board, moves: nat, t: Tape)
    requires g.Valid() && Plays(turn) && Detects(won) && RaisesByOne(turn, count)
    requires b.Valid() && b.size == g.size && moves <= g.Area() && count(b) == moves
    ensures count(RunFrom(g, turn, won, b, moves, t).board) == RunFrom(g, turn, won, b, moves, t).moves
    decreases g.Area() - moves
  {
    if moves < g.Area() {
      var r := turn(b, moves, t);
      if r.Some? && !won(r.value.0, Mover(moves), g.streak) {
        RunFromCounts(g, turn, won, count, r.value.0, moves + 1, r.value.1);
      }
    }
  }

  /** The number of occupied cells, on any board. */
  ghost function OccupiedCells(b: Board): nat {
    if b.Valid() then Occupied(b) else 0
  }

  /** Turns that place one mark raise the number of occupied cells by one. */
  lemma PlacesOneRaises(turn: Turn)
    requires Plays(turn) && PlacesOne(turn)
    ensures RaisesByOne(turn, OccupiedCells)
  {
    forall b: Board, n: nat, t: Tape | b.Valid() && b.size >= 1 && OccupiedCells(b) < b.Area()
      ensures turn.requires(b, n, t)
      ensures turn(b, n, t).Some? ==> OccupiedCells(turn(b, n, t).value.0) == OccupiedCells(b) + 1
    {
      TurnOccupies(turn, b, n, t);
    }
  }

  /** A turn on a board that is not full occupies one more cell. */
  lemma TurnOccupies(turn: Turn, b: Board, n: nat, t: Tape)
    requires Plays(turn) && PlacesOne(turn) && b.Valid() && b.size >= 1 && Occupied(b) < b.Area()
    ensures turn.requires(b, n, t)
    ensures turn(b, n, t).Some? ==> Occupied(turn(b, n, t).value.0) == Occupied(b) + 1
  {
    NotFullHasBlankCell(b);
    if turn(b, n, t).Some? {
      var p :| Placed(b, turn(b, n, t).value.0, Mover(n), p);
      PlacedOccupied(b, turn(b, n, t).value.0, Mover(n), p);
    }
  }

  /** Between players that always place, a game ends in a draw only on a
      full board. */
  lemma DrawFillsBoard(g: Config, px: Strategy, po: Strategy, t: Tape)
    requires g.Valid() && px != Genius && po != Genius
    ensures var o := Run(g, px, po, t);
      o.Finished? && o.winner == Blank ==> !HasBlank(o.board)
  {
    var b := NewBoard(g.size);
    NewBoardEmpty(g.size, g.size * g.size);
    NonGeniusPlacesOne(px, po);
    PlacesOneRaises(Turns(px, po));
    RunFromCounts(g, Turns(px, po), Wins(), OccupiedCells, b, 0, t);
    RunFromEnds(g, Turns(px, po), Wins(), b, 0, t);
    var o := Run(g, px, po, t);
    if o.Finished? && o.winner == Blank {
      FullHasNoBlank(o.board, o.board.Area());
    }
  }

  /** A move that does not win hands the game to the next move. */
  lemma RunStep(g: Config, turn: Turn, won: WinTest, b: Board, moves: nat, t: Tape, b': Board, t': Tape)
    requires g.Valid() && Plays(turn) && Detects(won) && b.Valid() && b.size == g.size && moves < g.Area()
    requires turn(b, moves, t) == Some((b', t'))
    requires !won(b', Mover(moves), g.streak)
    ensures b'.Valid() && b'.size == g.size
    ensures RunFrom(g, turn, won, b, moves, t) == RunFrom(g, turn, won, b', moves + 1, t')
  {
  }

  /** A move that wins ends the game with the mover as winner. */
  lemma RunWinStep(g: Config, turn: Turn, won: WinTest, b: Board, moves: nat, t: Tape, b': Board, t': Tape)
    requires g.Valid() && Plays(turn) && Detects(won) && b.Valid() && b.size == g.size && moves < g.Area()
    requires turn(b, moves, t) == Some((b', t'))
    requires won(b', Mover(moves), g.streak)
    ensures RunFrom(g, turn, won, b, moves, t) == Finished(Mover(moves), b', moves + 1, t')
  {
  }

  /** A game that follows the boards f(k), f(k + 1), ..., f(last), where no
      move before the last one completes a line and the last one does, ends
      with the last mover as winner on f(last), after last moves. */
  lemma {:induction false} RunAlong(g: Config, turn: Turn, won: WinTest, f: nat -> Board, k: nat, last: nat, t: Tape)
    requires g.Valid() && g.size >= 1 && Plays(turn) && Detects(won) && k < last <= g.Area()
    requires forall i :: k <= i <= last ==> f(i).Valid() && f(i).size == g.size
    requires forall i :: k <= i < last ==> turn(f(i), i, t) == Some((f(i + 1), t))
    requires forall i :: k < i < last ==> !won(f(i), Mover(i - 1), g.streak)
    requires won(f(last), Mover(last - 1), g.streak)
    ensures RunFrom(g, turn, won, f(k), k, t) == Finished(Mover(last - 1), f(last), last, t)
    decreases last - k
  {
    if k == last - 1 {
      RunWinStep(g, turn, won, f(k), k, t, f(k + 1), t);
    } else {
      RunStep(g, turn, won, f(k), k, t, f(k + 1), t);
      RunAlong(g, turn, won, f, k + 1, last, t);
    }
  }

  /** Turns that never wait for input: on every valid non-empty board the
      player moves. */
  ghost predicate NeverWaits(turn: Turn) {
    forall b: Board, n: nat, t: Tape :: b.Valid() && b.size >= 1 ==>
      turn.requires(b, n, t) && turn(b, n, t).Some?
  }

  /** Between the clever and the genius players no turn waits. */
  lemma AutomaticNeverWaits(px: Strategy, po: Strategy)
    requires Automatic(px) && Automatic(po)
    ensures NeverWaits(Turns(px, po))
  {
  }

  /** With turns that never wait, the loop never stalls. */
  lemma {:induction false} RunFromFinishes(g: Config, turn: Turn, won: WinTest, b: Board, moves: nat, t: Tape)
    requires g.Valid() && Plays(turn) && Detects(won) && NeverWaits(turn)
    requires b.Valid() && b.size == g.size && moves <= g.Area()
    ensures RunFrom(g, turn, won, b, moves, t).Finished?
    decreases g.Area() - moves
  {
    if moves < g.Area() {
      var r := turn(b, moves, t);
      if !won(r.value.0, Mover(moves), g.streak) {
        RunFromFinishes(g, turn, won, r.value.0, moves + 1, r.value.1);
      }
    }
  }

  /** A game between two computer players always ends, in a win or a draw. */
  lemma RunFinishes(g: Config, px: Strategy, po: Strategy, t: Tape)
    requires g.Valid() && Automatic(px) && Automatic(po)
    ensures Run(g, px, po, t).Finished?
  {
    AutomaticNeverWaits(px, po);
    RunFromFinishes(g, Turns(px, po), Wins(), NewBoard(g.size), 0, t);
  }
}
