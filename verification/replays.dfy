/** Complete games between the genius and the clever player, replayed move by
    move through the game loop for every board side of at least 4 and a
    streak of 3.  A position is described by the set of cells holding X and
    the set holding O; every move is derived from the players' rules, and
    after every move the win check is decided from the two sets. */
module Replays {
  import opened Boards
  import opened Options
  import opened WinCheck
  import opened Players
  import opened Games
  import CleverPlayer
  import GeniusPlayer
  import Scenarios
  import WinScenarios
  import Tournament

  // ---------------------------------------------------------------------
  // Positions as two sets of cells

  /** b is well formed and holds X exactly on xs, O exactly on os and BLANK
      everywhere else; no cell is in both sets. */
  ghost predicate Shows(b: Board, xs: set<Pos>, os: set<Pos>) {
    && b.Valid()
    && xs !! os
    && forall q :: b.InBounds(q) ==> b.At(q) == (if q in xs then X else if q in os then O else Blank)
  }

  /** The cells of m in a position. */
  function CellsOf(xs: set<Pos>, os: set<Pos>, m: Mark): set<Pos> {
    if m == X then xs else os
  }

  /** A fresh board shows no marks. */
  lemma ShowsNew(n: nat)
    ensures Shows(NewBoard(n), {}, {})
  {
  }

  /** Placing a real mark adds its cell to that mark's set and leaves the other set alone. */
  lemma ShowsPlaced(b1: Board, b2: Board, m: Mark, p: Pos, xs: set<Pos>, os: set<Pos>)
    requires Shows(b1, xs, os) && Placed(b1, b2, m, p) && m != Blank
    ensures Shows(b2, if m == X then xs + {p} else xs, if m == O then os + {p} else os)
  {
  }

  /** The index of a cell in the first row is its column. */
  lemma TopIndex(b: Board, c: int)
    requires b.Valid() && 0 <= c < b.size
    ensures b.PosOf(c) == Pos(0, c)
  {
    IndexOfPos(b, Pos(0, c));
  }

  /** The first four cells in row-major order are the first four of the first row. */
  lemma TopIndices(b: Board)
    requires b.Valid() && b.size >= 4
    ensures forall j :: 0 <= j < 4 ==> b.PosOf(j) == Top(j)
  {
    forall j | 0 <= j < 4
      ensures b.PosOf(j) == Top(j)
    {
      TopIndex(b, j);
    }
  }

  /** The fifth cell in row-major order starts the second row of a 4 x 4
      board and is the fifth of the first row of a larger one. */
  lemma FifthIndex(b: Board)
    requires b.Valid() && b.size >= 4
    ensures 4 < b.Area() && b.PosOf(4) == Fifth(b.size)
  {
    if b.size == 4 {
      IndexOfPos(b, Pos(1, 0));
    } else {
      TopIndex(b, 4);
    }
  }

  /** The cell c places from the end in row-major order is c places from the
      right of the last row. */
  lemma BottomIndex(b: Board, c: int)
    requires b.Valid() && 0 <= c < b.size
    ensures 0 <= b.Area() - 1 - c && b.PosOf(b.Area() - 1 - c) == Pos(b.size - 1, b.size - 1 - c)
  {
    IndexOfPos(b, Pos(b.size - 1, b.size - 1 - c));
    assert (b.size - 1) * b.size + (b.size - 1 - c) == b.Area() - 1 - c;
  }

  // ---------------------------------------------------------------------
  // Deciding the win check from the sets

  /** No three consecutive cells of a row, a column or a diagonal all lie in cs. */
  ghost predicate NoThree(cs: set<Pos>) {
    forall p: Pos, d: Dir :: !(Step(d, p, 0) in cs && Step(d, p, 1) in cs && Step(d, p, 2) in cs)
  }

  /** A line of m runs through cells of m's set only. */
  lemma LineInCells(b: Board, xs: set<Pos>, os: set<Pos>, m: Mark, p: Pos, d: Dir)
    requires Shows(b, xs, os) && m != Blank
    ensures Line(b, m, p, d, 3) ==>
      Step(d, p, 0) in CellsOf(xs, os, m) && Step(d, p, 1) in CellsOf(xs, os, m) && Step(d, p, 2) in CellsOf(xs, os, m)
  {
    if Line(b, m, p, d, 3) {
      assert b.At(Step(d, p, 0)) == m && b.At(Step(d, p, 1)) == m && b.At(Step(d, p, 2)) == m;
    }
  }

  /** With no three in a row among its cells, m has not won under a streak of 3. */
  lemma NoThreeNoWin(b: Board, xs: set<Pos>, os: set<Pos>, m: Mark)
    requires Shows(b, xs, os) && m != Blank && NoThree(CellsOf(xs, os, m))
    ensures CheckWinStreak(b, m, 3) == Blank
  {
    forall p, d
      ensures !Line(b, m, p, d, 3)
    {
      LineInCells(b, xs, os, m, p, d);
    }
  }

  /** Three cells in a line, all of them m's, win under a streak of 3. */
  lemma ThreeWins(b: Board, xs: set<Pos>, os: set<Pos>, m: Mark, p: Pos, d: Dir)
    requires Shows(b, xs, os) && m != Blank
    requires b.InBounds(Step(d, p, 0)) && b.InBounds(Step(d, p, 1)) && b.InBounds(Step(d, p, 2))
    requires Step(d, p, 0) in CellsOf(xs, os, m) && Step(d, p, 1) in CellsOf(xs, os, m)
    requires Step(d, p, 2) in CellsOf(xs, os, m)
    ensures CheckWinStreak(b, m, 3) == m
  {
    WinScenarios.ThreeInLine(b, m, p, d);
  }

  /** A mark holding the three cells at the right end of the last row has won
      under a streak of 3. */
  lemma WinsOnLastRow(b: Board, xs: set<Pos>, os: set<Pos>, m: Mark)
    requires Shows(b, xs, os) && m != Blank && b.size >= 3
    requires Last(b.size, 0) in CellsOf(xs, os, m) && Last(b.size, 1) in CellsOf(xs, os, m)
    requires Last(b.size, 2) in CellsOf(xs, os, m)
    ensures CheckWinStreak(b, m, 3) == m
  {
    ThreeWins(b, xs, os, m, Last(b.size, 2), Across);
  }

  /** A subset of a set without three in a row has none either. */
  lemma NoThreeSubset(a: set<Pos>, c: set<Pos>)
    requires a <= c && NoThree(c)
    ensures NoThree(a)
  {
  }

  // ---------------------------------------------------------------------
  // The players' moves on described positions

  /** The cell c places from the left of the first row. */
  function Top(c: int): Pos {
    Pos(0, c)
  }

  /** The cell c places from the right of the last row of a board of side n. */
  function Last(n: int, c: int): Pos {
    Pos(n - 1, n - 1 - c)
  }

  /** The clever player's mark goes to cell k when every earlier cell is taken. */
  lemma CleverTakes(b: Board, xs: set<Pos>, os: set<Pos>, m: Mark, k: int)
    requires Shows(b, xs, os) && m != Blank && 0 <= k < b.Area()
    requires b.PosOf(k) !in xs && b.PosOf(k) !in os
    requires forall j :: 0 <= j < k ==> b.PosOf(j) in xs || b.PosOf(j) in os
    ensures Shows(CleverPlayer.Move(b, m),
                  if m == X then xs + {b.PosOf(k)} else xs, if m == O then os + {b.PosOf(k)} else os)
  {
    assert CleverPlayer.IsFirstBlank(b, k);
    CleverPlayer.TakesFirstBlank(b, m, k);
    ShowsPlaced(b, CleverPlayer.Move(b, m), m, b.PosOf(k), xs, os);
  }

  /** When neither corner rule nor the block rule applies, the genius
      player's mark goes to cell k when every later cell is taken. */
  lemma GeniusTakesLast(b: Board, xs: set<Pos>, os: set<Pos>, m: Mark, k: int)
    requires Shows(b, xs, os) && b.size >= 1 && m != Blank && 0 <= k < b.Area()
    requires b.At(Pos(0, 0)) != m && !GeniusPlayer.ClaimsCorner(b, m) && !GeniusPlayer.NeedToBlock(b, m).0
    requires b.PosOf(k) !in xs && b.PosOf(k) !in os
    requires forall j :: k < j < b.Area() ==> b.PosOf(j) in xs || b.PosOf(j) in os
    ensures Shows(GeniusPlayer.Move(b, m),
                  if m == X then xs + {b.PosOf(k)} else xs, if m == O then os + {b.PosOf(k)} else os)
  {
    GeniusPlayer.TakesLastBlank(b, m, k);
    ShowsPlaced(b, GeniusPlayer.Move(b, m), m, b.PosOf(k), xs, os);
  }

  /** When the block test fires at a BLANK cell k and the corner is the
      opponent's, the genius player's mark goes to cell k. */
  lemma GeniusBlocks(b: Board, xs: set<Pos>, os: set<Pos>, m: Mark, k: int)
    requires Shows(b, xs, os) && b.size >= 1 && m != Blank
    requires b.At(Pos(0, 0)) != m && b.At(Pos(0, 0)) != Blank && GeniusPlayer.BlockAt(b, m, k)
    requires b.PosOf(k) !in xs && b.PosOf(k) !in os
    ensures Shows(GeniusPlayer.Move(b, m),
                  if m == X then xs + {b.PosOf(k)} else xs, if m == O then os + {b.PosOf(k)} else os)
  {
    GeniusPlayer.NeedToBlockFires(b, m, k);
    GeniusPlayer.MoveIsRuleChain(b, m);
    ShowsPlaced(b, GeniusPlayer.Move(b, m), m, b.PosOf(k), xs, os);
  }

  /** The opponent of m holds cell k and no other. */
  lemma SoleOpponent(b: Board, xs: set<Pos>, os: set<Pos>, m: Mark, k: int)
    requires Shows(b, xs, os) && m != Blank && 0 <= k < b.Area()
    requires CellsOf(xs, os, if m == X then O else X) == {b.PosOf(k)}
    ensures GeniusPlayer.OnlyOpponentAt(b, m, k, b.Area())
  {
    forall j | 0 <= j < b.Area() && j != k
      ensures !GeniusPlayer.IsOpponent(b.Cell(j), m)
    {
      PosOfInjective(b, j, k);
    }
  }

  /** A board of side at least 4 has room for the eight moves replayed here. */
  lemma RoomForEight(n: int)
    requires n >= 4
    ensures n * n >= 16
  {
    MulMonotone(4, n, n);
  }

  /** The cell the clever player reaches fifth in row-major order on a board of side n. */
  function Fifth(n: int): Pos {
    if n == 4 then Pos(1, 0) else Top(4)
  }

  /** Two cells at the right end of the last row and one in the first row
      are no three in a row. */
  lemma NoThreeCornerPair(n: int)
    requires n >= 4
    ensures NoThree({Last(n, 0), Last(n, 1), Top(2)})
  {
  }

  /** Columns 0, 1 and 3 of the first row and the fifth cell are no three in a row. */
  lemma NoThreeTopRow(n: int)
    requires n >= 4
    ensures NoThree({Top(0), Top(1), Top(3), Fifth(n)})
  {
  }

  /** A mark whose cells lie among two at the right end of the last row and
      the third of the first row has not won under a streak of 3. */
  lemma NoWinInCornerPair(b: Board, xs: set<Pos>, os: set<Pos>, m: Mark)
    requires Shows(b, xs, os) && m != Blank && b.size >= 4
    requires CellsOf(xs, os, m) <= {Last(b.size, 0), Last(b.size, 1), Top(2)}
    ensures CheckWinStreak(b, m, 3) == Blank
  {
    NoThreeCornerPair(b.size);
    NoThreeSubset(CellsOf(xs, os, m), {Last(b.size, 0), Last(b.size, 1), Top(2)});
    NoThreeNoWin(b, xs, os, m);
  }

  /** A mark whose cells lie among columns 0, 1 and 3 of the first row and
      the fifth cell has not won under a streak of 3. */
  lemma NoWinInTopRow(b: Board, xs: set<Pos>, os: set<Pos>, m: Mark)
    requires Shows(b, xs, os) && m != Blank && b.size >= 4
    requires CellsOf(xs, os, m) <= {Top(0), Top(1), Top(3), Fifth(b.size)}
    ensures CheckWinStreak(b, m, 3) == Blank
  {
    NoThreeTopRow(b.size);
    NoThreeSubset(CellsOf(xs, os, m), {Top(0), Top(1), Top(3), Fifth(b.size)});
    NoThreeNoWin(b, xs, os, m);
  }

  // ---------------------------------------------------------------------
  // The genius player as X against the clever player as O

  /** Move 1: on the empty board no rule fires and X takes the last cell. */
  lemma GeniusXMove1(b: Board)
    requires Shows(b, {}, {}) && b.size >= 4
    ensures Shows(GeniusPlayer.Move(b, X), {Last(b.size, 0)}, {})
  {
    Scenarios.EmptyNoOpponents(b, X);
    Scenarios.EmptyNoBlock(b, X);
    BottomIndex(b, 0);
    GeniusTakesLast(b, {}, {}, X, b.Area() - 1);
  }

  /** Move 2: O takes the first cell. */
  lemma CleverOMove2(b: Board)
    requires Shows(b, {Last(b.size, 0)}, {}) && b.size >= 4
    ensures Shows(CleverPlayer.Move(b, O), {Last(b.size, 0)}, {Top(0)})
  {
    TopIndex(b, 0);
    CleverTakes(b, {Last(b.size, 0)}, {}, O, 0);
  }

  /** Move 3: the corner is O's, one O does not trigger the block test, and
      X takes the last BLANK cell. */
  lemma GeniusXMove3(b: Board)
    requires Shows(b, {Last(b.size, 0)}, {Top(0)}) && b.size >= 4
    ensures Shows(GeniusPlayer.Move(b, X), {Last(b.size, 0), Last(b.size, 1)}, {Top(0)})
  {
    TopIndex(b, 0);
    SoleOpponent(b, {Last(b.size, 0)}, {Top(0)}, X, 0);
    GeniusPlayer.OneOpponentNoBlock(b, X, 0);
    BottomIndex(b, 0);
    BottomIndex(b, 1);
    GeniusTakesLast(b, {Last(b.size, 0)}, {Top(0)}, X, b.Area() - 2);
  }

  /** Move 4: O takes the second cell of the first row. */
  lemma CleverOMove4(b: Board)
    requires Shows(b, {Last(b.size, 0), Last(b.size, 1)}, {Top(0)}) && b.size >= 4
    ensures Shows(CleverPlayer.Move(b, O), {Last(b.size, 0), Last(b.size, 1)}, {Top(0), Top(1)})
  {
    TopIndex(b, 0);
    TopIndex(b, 1);
    CleverTakes(b, {Last(b.size, 0), Last(b.size, 1)}, {Top(0)}, O, 1);
  }

  /** Move 5: two O cells in a row fire the block test and X blocks the third. */
  lemma GeniusXMove5(b: Board)
    requires Shows(b, {Last(b.size, 0), Last(b.size, 1)}, {Top(0), Top(1)}) && b.size >= 4
    ensures Shows(GeniusPlayer.Move(b, X), {Last(b.size, 0), Last(b.size, 1), Top(2)}, {Top(0), Top(1)})
  {
    TopIndex(b, 0);
    TopIndex(b, 1);
    TopIndex(b, 2);
    assert GeniusPlayer.CountOpponents(b, X, 1) == 1;
    assert GeniusPlayer.BlockAt(b, X, 2);
    GeniusBlocks(b, {Last(b.size, 0), Last(b.size, 1)}, {Top(0), Top(1)}, X, 2);
  }

  /** Move 6: O takes the fourth cell of the first row. */
  lemma CleverOMove6(b: Board)
    requires Shows(b, {Last(b.size, 0), Last(b.size, 1), Top(2)}, {Top(0), Top(1)}) && b.size >= 4
    ensures Shows(CleverPlayer.Move(b, O), {Last(b.size, 0), Last(b.size, 1), Top(2)}, {Top(0), Top(1), Top(3)})
  {
    TopIndices(b);
    CleverTakes(b, {Last(b.size, 0), Last(b.size, 1), Top(2)}, {Top(0), Top(1)}, O, 3);
  }

  /** Move 7: X's own mark comes before the O cells are counted twice, so the
      block test stays silent, and X completes three in the last row. */
  lemma GeniusXMove7(b: Board)
    requires Shows(b, {Last(b.size, 0), Last(b.size, 1), Top(2)}, {Top(0), Top(1), Top(3)}) && b.size >= 4
    ensures Shows(GeniusPlayer.Move(b, X),
                  {Last(b.size, 0), Last(b.size, 1), Last(b.size, 2), Top(2)}, {Top(0), Top(1), Top(3)})
  {
    TopIndex(b, 0);
    TopIndex(b, 2);
    GeniusPlayer.NeedToBlockOwnMarkFirst(b, X, 2);
    BottomIndex(b, 0);
    BottomIndex(b, 1);
    BottomIndex(b, 2);
    GeniusTakesLast(b, {Last(b.size, 0), Last(b.size, 1), Top(2)}, {Top(0), Top(1), Top(3)}, X, b.Area() - 3);
  }

  // ---------------------------------------------------------------------
  // The clever player as X against the genius player as O

  /** Move 1: X takes the first cell. */
  lemma CleverXMove1(b: Board)
    requires Shows(b, {}, {}) && b.size >= 4
    ensures Shows(CleverPlayer.Move(b, X), {Top(0)}, {})
  {
    TopIndex(b, 0);
    CleverTakes(b, {}, {}, X, 0);
  }

  /** Move 2: the corner is X's, one X does not trigger the block test, and
      O takes the last cell. */
  lemma GeniusOMove2(b: Board)
    requires Shows(b, {Top(0)}, {}) && b.size >= 4
    ensures Shows(GeniusPlayer.Move(b, O), {Top(0)}, {Last(b.size, 0)})
  {
    TopIndex(b, 0);
    SoleOpponent(b, {Top(0)}, {}, O, 0);
    GeniusPlayer.OneOpponentNoBlock(b, O, 0);
    BottomIndex(b, 0);
    GeniusTakesLast(b, {Top(0)}, {}, O, b.Area() - 1);
  }

  /** Move 3: X takes the second cell of the first row. */
  lemma CleverXMove3(b: Board)
    requires Shows(b, {Top(0)}, {Last(b.size, 0)}) && b.size >= 4
    ensures Shows(CleverPlayer.Move(b, X), {Top(0), Top(1)}, {Last(b.size, 0)})
  {
    TopIndex(b, 0);
    TopIndex(b, 1);
    CleverTakes(b, {Top(0)}, {Last(b.size, 0)}, X, 1);
  }

  /** Move 4: two X cells in a row fire the block test and O blocks the third. */
  lemma GeniusOMove4(b: Board)
    requires Shows(b, {Top(0), Top(1)}, {Last(b.size, 0)}) && b.size >= 4
    ensures Shows(GeniusPlayer.Move(b, O), {Top(0), Top(1)}, {Last(b.size, 0), Top(2)})
  {
    TopIndex(b, 0);
    TopIndex(b, 1);
    TopIndex(b, 2);
    assert GeniusPlayer.CountOpponents(b, O, 1) == 1;
    assert GeniusPlayer.BlockAt(b, O, 2);
    GeniusBlocks(b, {Top(0), Top(1)}, {Last(b.size, 0)}, O, 2);
  }

  /** Move 5: X takes the fourth cell of the first row. */
  lemma CleverXMove5(b: Board)
    requires Shows(b, {Top(0), Top(1)}, {Last(b.size, 0), Top(2)}) && b.size >= 4
    ensures Shows(CleverPlayer.Move(b, X), {Top(0), Top(1), Top(3)}, {Last(b.size, 0), Top(2)})
  {
    TopIndices(b);
    CleverTakes(b, {Top(0), Top(1)}, {Last(b.size, 0), Top(2)}, X, 3);
  }

  /** Move 6: O's own mark comes before the X cells are counted twice, so the
      block test stays silent, and O takes the last BLANK cell. */
  lemma GeniusOMove6(b: Board)
    requires Shows(b, {Top(0), Top(1), Top(3)}, {Last(b.size, 0), Top(2)}) && b.size >= 4
    ensures Shows(GeniusPlayer.Move(b, O), {Top(0), Top(1), Top(3)}, {Last(b.size, 0), Last(b.size, 1), Top(2)})
  {
    TopIndex(b, 0);
    TopIndex(b, 2);
    GeniusPlayer.NeedToBlockOwnMarkFirst(b, O, 2);
    BottomIndex(b, 0);
    BottomIndex(b, 1);
    GeniusTakesLast(b, {Top(0), Top(1), Top(3)}, {Last(b.size, 0), Top(2)}, O, b.Area() - 2);
  }

  /** Move 7: X takes the fifth cell in row-major order. */
  lemma CleverXMove7(b: Board)
    requires Shows(b, {Top(0), Top(1), Top(3)}, {Last(b.size, 0), Last(b.size, 1), Top(2)}) && b.size >= 4
    ensures Shows(CleverPlayer.Move(b, X), {Top(0), Top(1), Top(3), Fifth(b.size)},
                  {Last(b.size, 0), Last(b.size, 1), Top(2)})
  {
    TopIndices(b);
    FifthIndex(b);
    CleverTakes(b, {Top(0), Top(1), Top(3)}, {Last(b.size, 0), Last(b.size, 1), Top(2)}, X, 4);
  }

  /** Move 8: the block test stays silent again and O completes three in the last row. */
  lemma GeniusOMove8(b: Board)
    requires Shows(b, {Top(0), Top(1), Top(3), Fifth(b.size)}, {Last(b.size, 0), Last(b.size, 1), Top(2)})
    requires b.size >= 4
    ensures Shows(GeniusPlayer.Move(b, O), {Top(0), Top(1), Top(3), Fifth(b.size)},
                  {Last(b.size, 0), Last(b.size, 1), Last(b.size, 2), Top(2)})
  {
    TopIndex(b, 0);
    TopIndex(b, 2);
    GeniusPlayer.NeedToBlockOwnMarkFirst(b, O, 2);
    BottomIndex(b, 0);
    BottomIndex(b, 1);
    BottomIndex(b, 2);
    GeniusTakesLast(b, {Top(0), Top(1), Top(3), Fifth(b.size)}, {Last(b.size, 0), Last(b.size, 1), Top(2)},
                    O, b.Area() - 3);
  }

  // ---------------------------------------------------------------------
  // The games through the loop

  /** The game ended with winner w after the given number of moves, left the
      tape as it was, and its final board holds X on xs and O on os. */
  ghost predicate EndsWith(o: Outcome, w: Mark, moves: nat, t: Tape, xs: set<Pos>, os: set<Pos>) {
    o.Finished? && o.winner == w && o.moves == moves && o.rest == t && Shows(o.board, xs, os)
  }

  /** The move of the genius player when m is its mark, and of the clever
      player otherwise. */
  function Reply(b: Board, m: Mark, genius: Mark): (r: Board)
    requires b.Valid() && b.size >= 1
    ensures r.Valid() && r.size == b.size
  {
    if m == genius then GeniusPlayer.Move(b, m) else CleverPlayer.Move(b, m)
  }

  /** The board k moves on from b, counting moves from 0, when every turn
      uses the tape t; a turn that does not move leaves the board as it is. */
  ghost function Along(turn: Turn, b: Board, k: nat, t: Tape): (r: Board)
    requires Plays(turn) && b.Valid() && b.size >= 1
    ensures r.Valid() && r.size == b.size
  {
    if k == 0 then b
    else
      var p := Along(turn, b, k - 1, t);
      match turn(p, k - 1, t)
      case Some((b', _)) => b'
      case None => p
  }

  /** A board the players can move on, at move n with tape t. Its only use
      is as the trigger of SeatsGenius, so that its quantifier fires only
      where a proof names a move. */
  ghost predicate Playable(b: Board, n: nat, t: Tape) {
    b.Valid() && b.size >= 1
  }

  /** turn is the genius player's when the mark to move is genius and the
      clever player's otherwise; neither reads the tape. */
  ghost predicate SeatsGenius(turn: Turn, genius: Mark) {
    forall b: Board, n: nat, t: Tape {:trigger Playable(b, n, t)} :: Playable(b, n, t) ==>
      && turn.requires(b, n, t)
      && turn(b, n, t) == Some((Reply(b, Mover(n), genius), t))
  }

  /** The loop's turns for genius as X against clever. */
  lemma GeniusSeatedAsX()
    ensures SeatsGenius(Turns(Genius, Clever), X)
  {
    var turn := Turns(Genius, Clever);
    forall b: Board, n: nat, t: Tape | Playable(b, n, t)
      ensures turn.requires(b, n, t) && turn(b, n, t) == Some((Reply(b, Mover(n), X), t))
    {
      if n % 2 == 0 {
        assert PlayerOf(Genius, Clever, n) == Genius && Mover(n) == X;
      } else {
        assert PlayerOf(Genius, Clever, n) == Clever && Mover(n) == O;
      }
    }
  }

  /** The loop's turns for clever as X against genius. */
  lemma GeniusSeatedAsO()
    ensures SeatsGenius(Turns(Clever, Genius), O)
  {
    var turn := Turns(Clever, Genius);
    forall b: Board, n: nat, t: Tape | Playable(b, n, t)
      ensures turn.requires(b, n, t) && turn(b, n, t) == Some((Reply(b, Mover(n), O), t))
    {
      if n % 2 == 0 {
        assert PlayerOf(Clever, Genius, n) == Clever && Mover(n) == X;
      } else {
        assert PlayerOf(Clever, Genius, n) == Genius && Mover(n) == O;
      }
    }
  }

  /** One move of genius against clever. */
  lemma TurnAt(turn: Turn, genius: Mark, b: Board, k: nat, t: Tape)
    requires SeatsGenius(turn, genius) && b.Valid() && b.size >= 1
    ensures turn.requires(b, k, t) && turn(b, k, t) == Some((Reply(b, Mover(k), genius), t))
  {
    assert Playable(b, k, t);
  }

  /** A win check that reports nothing means the loop's test fails. */
  lemma NotWon(won: WinTest, b: Board, m: Mark)
    requires Detects(won) && b.Valid() && m != Blank && CheckWinStreak(b, m, 3) == Blank
    ensures !won(b, m, 3)
  {
  }

  /** A win check that reports the mark means the loop's test succeeds. */
  lemma HasWon(won: WinTest, b: Board, m: Mark)
    requires Detects(won) && b.Valid() && m != Blank && CheckWinStreak(b, m, 3) == m
    ensures won(b, m, 3)
  {
  }

  /** After the first move X has no line of three. */
  lemma GeniusXAfter1(turn: Turn, n: nat, t: Tape)
    requires n >= 4 && Plays(turn) && SeatsGenius(turn, X)
    ensures Shows(Along(turn, NewBoard(n), 1, t), {Last(n, 0)}, {})
    ensures forall j :: 1 <= j <= 1 ==> CheckWinStreak(Along(turn, NewBoard(n), j, t), Mover(j - 1), 3) == Blank
  {
    ShowsNew(n);
    var b := Along(turn, NewBoard(n), 0, t);
    TurnAt(turn, X, b, 0, t);
    GeniusXMove1(b);
    assert Along(turn, NewBoard(n), 1, t) == GeniusPlayer.Move(b, X);
    RoomForEight(n);
    NoWinInCornerPair(Along(turn, NewBoard(n), 1, t), {Last(n, 0)}, {}, X);
  }

  /** After the second move O has no line of three. */
  lemma GeniusXAfter2(turn: Turn, n: nat, t: Tape)
    requires n >= 4 && Plays(turn) && SeatsGenius(turn, X)
    ensures Shows(Along(turn, NewBoard(n), 2, t), {Last(n, 0)}, {Top(0)})
    ensures forall j :: 1 <= j <= 2 ==> CheckWinStreak(Along(turn, NewBoard(n), j, t), Mover(j - 1), 3) == Blank
  {
    GeniusXAfter1(turn, n, t);
    var b := Along(turn, NewBoard(n), 1, t);
    TurnAt(turn, X, b, 1, t);
    CleverOMove2(b);
    assert Along(turn, NewBoard(n), 2, t) == CleverPlayer.Move(b, O);
    RoomForEight(n);
    NoWinInTopRow(Along(turn, NewBoard(n), 2, t), {Last(n, 0)}, {Top(0)}, O);
  }

  /** After the third move X has no line of three. */
  lemma GeniusXAfter3(turn: Turn, n: nat, t: Tape)
    requires n >= 4 && Plays(turn) && SeatsGenius(turn, X)
    ensures Shows(Along(turn, NewBoard(n), 3, t), {Last(n, 0), Last(n, 1)}, {Top(0)})
    ensures forall j :: 1 <= j <= 3 ==> CheckWinStreak(Along(turn, NewBoard(n), j, t), Mover(j - 1), 3) == Blank
  {
    GeniusXAfter2(turn, n, t);
    var b := Along(turn, NewBoard(n), 2, t);
    TurnAt(turn, X, b, 2, t);
    GeniusXMove3(b);
    assert Along(turn, NewBoard(n), 3, t) == GeniusPlayer.Move(b, X);
    RoomForEight(n);
    NoWinInCornerPair(Along(turn, NewBoard(n), 3, t), {Last(n, 0), Last(n, 1)}, {Top(0)}, X);
  }

  /** After the fourth move O has no line of three. */
  lemma GeniusXAfter4(turn: Turn, n: nat, t: Tape)
    requires n >= 4 && Plays(turn) && SeatsGenius(turn, X)
    ensures Shows(Along(turn, NewBoard(n), 4, t), {Last(n, 0), Last(n, 1)}, {Top(0), Top(1)})
    ensures forall j :: 1 <= j <= 4 ==> CheckWinStreak(Along(turn, NewBoard(n), j, t), Mover(j - 1), 3) == Blank
  {
    GeniusXAfter3(turn, n, t);
    var b := Along(turn, NewBoard(n), 3, t);
    TurnAt(turn, X, b, 3, t);
    CleverOMove4(b);
    assert Along(turn, NewBoard(n), 4, t) == CleverPlayer.Move(b, O);
    RoomForEight(n);
    NoWinInTopRow(Along(turn, NewBoard(n), 4, t), {Last(n, 0), Last(n, 1)}, {Top(0), Top(1)}, O);
  }

  /** After the fifth move X has no line of three. */
  lemma GeniusXAfter5(turn: Turn, n: nat, t: Tape)
    requires n >= 4 && Plays(turn) && SeatsGenius(turn, X)
    ensures Shows(Along(turn, NewBoard(n), 5, t), {Last(n, 0), Last(n, 1), Top(2)}, {Top(0), Top(1)})
    ensures forall j :: 1 <= j <= 5 ==> CheckWinStreak(Along(turn, NewBoard(n), j, t), Mover(j - 1), 3) == Blank
  {
    GeniusXAfter4(turn, n, t);
    var b := Along(turn, NewBoard(n), 4, t);
    TurnAt(turn, X, b, 4, t);
    GeniusXMove5(b);
    assert Along(turn, NewBoard(n), 5, t) == GeniusPlayer.Move(b, X);
    RoomForEight(n);
    NoWinInCornerPair(Along(turn, NewBoard(n), 5, t), {Last(n, 0), Last(n, 1), Top(2)}, {Top(0), Top(1)}, X);
  }

  /** After the sixth move O has no line of three. */
  lemma GeniusXAfter6(turn: Turn, n: nat, t: Tape)
    requires n >= 4 && Plays(turn) && SeatsGenius(turn, X)
    ensures Shows(Along(turn, NewBoard(n), 6, t), {Last(n, 0), Last(n, 1), Top(2)}, {Top(0), Top(1), Top(3)})
    ensures forall j :: 1 <= j <= 6 ==> CheckWinStreak(Along(turn, NewBoard(n), j, t), Mover(j - 1), 3) == Blank
  {
    GeniusXAfter5(turn, n, t);
    var b := Along(turn, NewBoard(n), 5, t);
    TurnAt(turn, X, b, 5, t);
    CleverOMove6(b);
    assert Along(turn, NewBoard(n), 6, t) == CleverPlayer.Move(b, O);
    RoomForEight(n);
    NoWinInTopRow(Along(turn, NewBoard(n), 6, t), {Last(n, 0), Last(n, 1), Top(2)}, {Top(0), Top(1), Top(3)}, O);
  }

  /** After the seventh move the X line on the last row is complete. */
  lemma GeniusXAfter7(turn: Turn, n: nat, t: Tape)
    requires n >= 4 && Plays(turn) && SeatsGenius(turn, X)
    ensures Shows(Along(turn, NewBoard(n), 7, t), {Last(n, 0), Last(n, 1), Last(n, 2), Top(2)}, {Top(0), Top(1), Top(3)})
    ensures forall j :: 1 <= j <= 6 ==> CheckWinStreak(Along(turn, NewBoard(n), j, t), Mover(j - 1), 3) == Blank
    ensures CheckWinStreak(Along(turn, NewBoard(n), 7, t), X, 3) == X
  {
    GeniusXAfter6(turn, n, t);
    var b := Along(turn, NewBoard(n), 6, t);
    TurnAt(turn, X, b, 6, t);
    GeniusXMove7(b);
    assert Along(turn, NewBoard(n), 7, t) == GeniusPlayer.Move(b, X);
    WinsOnLastRow(Along(turn, NewBoard(n), 7, t), {Last(n, 0), Last(n, 1), Last(n, 2), Top(2)}, {Top(0), Top(1), Top(3)}, X);
  }
  /** After the first move X has no line of three. */
  lemma GeniusOAfter1(turn: Turn, n: nat, t: Tape)
    requires n >= 4 && Plays(turn) && SeatsGenius(turn, O)
    ensures Shows(Along(turn, NewBoard(n), 1, t), {Top(0)}, {})
    ensures forall j :: 1 <= j <= 1 ==> CheckWinStreak(Along(turn, NewBoard(n), j, t), Mover(j - 1), 3) == Blank
  {
    ShowsNew(n);
    var b := Along(turn, NewBoard(n), 0, t);
    TurnAt(turn, O, b, 0, t);
    CleverXMove1(b);
    assert Along(turn, NewBoard(n), 1, t) == CleverPlayer.Move(b, X);
    RoomForEight(n);
    NoWinInTopRow(Along(turn, NewBoard(n), 1, t), {Top(0)}, {}, X);
  }

  /** After the second move O has no line of three. */
  lemma GeniusOAfter2(turn: Turn, n: nat, t: Tape)
    requires n >= 4 && Plays(turn) && SeatsGenius(turn, O)
    ensures Shows(Along(turn, NewBoard(n), 2, t), {Top(0)}, {Last(n, 0)})
    ensures forall j :: 1 <= j <= 2 ==> CheckWinStreak(Along(turn, NewBoard(n), j, t), Mover(j - 1), 3) == Blank
  {
    GeniusOAfter1(turn, n, t);
    var b := Along(turn, NewBoard(n), 1, t);
    TurnAt(turn, O, b, 1, t);
    GeniusOMove2(b);
    assert Along(turn, NewBoard(n), 2, t) == GeniusPlayer.Move(b, O);
    RoomForEight(n);
    NoWinInCornerPair(Along(turn, NewBoard(n), 2, t), {Top(0)}, {Last(n, 0)}, O);
  }

  /** After the third move X has no line of three. */
  lemma GeniusOAfter3(turn: Turn, n: nat, t: Tape)
    requires n >= 4 && Plays(turn) && SeatsGenius(turn, O)
    ensures Shows(Along(turn, NewBoard(n), 3, t), {Top(0), Top(1)}, {Last(n, 0)})
    ensures forall j :: 1 <= j <= 3 ==> CheckWinStreak(Along(turn, NewBoard(n), j, t), Mover(j - 1), 3) == Blank
  {
    GeniusOAfter2(turn, n, t);
    var b := Along(turn, NewBoard(n), 2, t);
    TurnAt(turn, O, b, 2, t);
    CleverXMove3(b);
    assert Along(turn, NewBoard(n), 3, t) == CleverPlayer.Move(b, X);
    RoomForEight(n);
    NoWinInTopRow(Along(turn, NewBoard(n), 3, t), {Top(0), Top(1)}, {Last(n, 0)}, X);
  }

  /** After the fourth move O has no line of three. */
  lemma GeniusOAfter4(turn: Turn, n: nat, t: Tape)
    requires n >= 4 && Plays(turn) && SeatsGenius(turn, O)
    ensures Shows(Along(turn, NewBoard(n), 4, t), {Top(0), Top(1)}, {Last(n, 0), Top(2)})
    ensures forall j :: 1 <= j <= 4 ==> CheckWinStreak(Along(turn, NewBoard(n), j, t), Mover(j - 1), 3) == Blank
  {
    GeniusOAfter3(turn, n, t);
    var b := Along(turn, NewBoard(n), 3, t);
    TurnAt(turn, O, b, 3, t);
    GeniusOMove4(b);
    assert Along(turn, NewBoard(n), 4, t) == GeniusPlayer.Move(b, O);
    RoomForEight(n);
    NoWinInCornerPair(Along(turn, NewBoard(n), 4, t), {Top(0), Top(1)}, {Last(n, 0), Top(2)}, O);
  }

  /** After the fifth move X has no line of three. */
  lemma GeniusOAfter5(turn: Turn, n: nat, t: Tape)
    requires n >= 4 && Plays(turn) && SeatsGenius(turn, O)
    ensures Shows(Along(turn, NewBoard(n), 5, t), {Top(0), Top(1), Top(3)}, {Last(n, 0), Top(2)})
    ensures forall j :: 1 <= j <= 5 ==> CheckWinStreak(Along(turn, NewBoard(n), j, t), Mover(j - 1), 3) == Blank
  {
    GeniusOAfter4(turn, n, t);
    var b := Along(turn, NewBoard(n), 4, t);
    TurnAt(turn, O, b, 4, t);
    CleverXMove5(b);
    assert Along(turn, NewBoard(n), 5, t) == CleverPlayer.Move(b, X);
    RoomForEight(n);
    NoWinInTopRow(Along(turn, NewBoard(n), 5, t), {Top(0), Top(1), Top(3)}, {Last(n, 0), Top(2)}, X);
  }

  /** After the sixth move O has no line of three. */
  lemma GeniusOAfter6(turn: Turn, n: nat, t: Tape)
    requires n >= 4 && Plays(turn) && SeatsGenius(turn, O)
    ensures Shows(Along(turn, NewBoard(n), 6, t), {Top(0), Top(1), Top(3)}, {Last(n, 0), Last(n, 1), Top(2)})
    ensures forall j :: 1 <= j <= 6 ==> CheckWinStreak(Along(turn, NewBoard(n), j, t), Mover(j - 1), 3) == Blank
  {
    GeniusOAfter5(turn, n, t);
    var b := Along(turn, NewBoard(n), 5, t);
    TurnAt(turn, O, b, 5, t);
    GeniusOMove6(b);
    assert Along(turn, NewBoard(n), 6, t) == GeniusPlayer.Move(b, O);
    RoomForEight(n);
    NoWinInCornerPair(Along(turn, NewBoard(n), 6, t), {Top(0), Top(1), Top(3)}, {Last(n, 0), Last(n, 1), Top(2)}, O);
  }

  /** After the seventh move X has no line of three. */
  lemma GeniusOAfter7(turn: Turn, n: nat, t: Tape)
    requires n >= 4 && Plays(turn) && SeatsGenius(turn, O)
    ensures Shows(Along(turn, NewBoard(n), 7, t), {Top(0), Top(1), Top(3), Fifth(n)}, {Last(n, 0), Last(n, 1), Top(2)})
    ensures forall j :: 1 <= j <= 7 ==> CheckWinStreak(Along(turn, NewBoard(n), j, t), Mover(j - 1), 3) == Blank
  {
    GeniusOAfter6(turn, n, t);
    var b := Along(turn, NewBoard(n), 6, t);
    TurnAt(turn, O, b, 6, t);
    CleverXMove7(b);
    assert Along(turn, NewBoard(n), 7, t) == CleverPlayer.Move(b, X);
    RoomForEight(n);
    NoWinInTopRow(Along(turn, NewBoard(n), 7, t), {Top(0), Top(1), Top(3), Fifth(n)}, {Last(n, 0), Last(n, 1), Top(2)}, X);
  }

  /** After the eighth move the O line on the last row is complete. */
  lemma GeniusOAfter8(turn: Turn, n: nat, t: Tape)
    requires n >= 4 && Plays(turn) && SeatsGenius(turn, O)
    ensures Shows(Along(turn, NewBoard(n), 8, t), {Top(0), Top(1), Top(3), Fifth(n)}, {Last(n, 0), Last(n, 1), Last(n, 2), Top(2)})
    ensures forall j :: 1 <= j <= 7 ==> CheckWinStreak(Along(turn, NewBoard(n), j, t), Mover(j - 1), 3) == Blank
    ensures CheckWinStreak(Along(turn, NewBoard(n), 8, t), O, 3) == O
  {
    GeniusOAfter7(turn, n, t);
    var b := Along(turn, NewBoard(n), 7, t);
    TurnAt(turn, O, b, 7, t);
    GeniusOMove8(b);
    assert Along(turn, NewBoard(n), 8, t) == GeniusPlayer.Move(b, O);
    WinsOnLastRow(Along(turn, NewBoard(n), 8, t), {Top(0), Top(1), Top(3), Fifth(n)}, {Last(n, 0), Last(n, 1), Last(n, 2), Top(2)}, O);
  }
  /** The number of moves genius needs against clever: seven as X, eight as O. */
  function GameLength(genius: Mark): nat {
    if genius == X then 7 else 8
  }

  /** Every turn of genius against clever moves and keeps the tape, so the
      game passes through the boards Along. */
  lemma GeniusMoves(turn: Turn, genius: Mark, n: nat, t: Tape)
    requires Plays(turn) && SeatsGenius(turn, genius) && n >= 1
    ensures forall k: nat :: turn(Along(turn, NewBoard(n), k, t), k, t) == Some((Along(turn, NewBoard(n), k + 1, t), t))
  {
    forall k: nat
      ensures turn(Along(turn, NewBoard(n), k, t), k, t) == Some((Along(turn, NewBoard(n), k + 1, t), t))
    {
      assert Playable(Along(turn, NewBoard(n), k, t), k, t);
    }
  }

  /** The win test fails after every move but the last, and holds for the
      genius player after the last. */
  lemma GeniusWinsLast(turn: Turn, won: WinTest, genius: Mark, n: nat, t: Tape)
    requires Plays(turn) && SeatsGenius(turn, genius) && Detects(won) && n >= 4 && genius != Blank
    ensures forall k :: 0 < k < GameLength(genius) ==> !won(Along(turn, NewBoard(n), k, t), Mover(k - 1), 3)
    ensures Mover(GameLength(genius) - 1) == genius
    ensures won(Along(turn, NewBoard(n), GameLength(genius), t), genius, 3)
  {
    if genius == X { GeniusXAfter7(turn, n, t); } else { GeniusOAfter8(turn, n, t); }
    forall k | 0 < k < GameLength(genius)
      ensures !won(Along(turn, NewBoard(n), k, t), Mover(k - 1), 3)
    {
      NotWon(won, Along(turn, NewBoard(n), k, t), Mover(k - 1));
    }
    HasWon(won, Along(turn, NewBoard(n), GameLength(genius), t), genius);
  }

  /** A game loop whose turns seat genius against clever, and whose win test
      is Game.run's, passes through the boards Along and ends with the
      genius player's win. */
  lemma GeniusRuns(g: Config, turn: Turn, won: WinTest, genius: Mark, t: Tape)
    requires g.size >= 4 && g.streak == 3 && genius != Blank
    requires Plays(turn) && Detects(won) && SeatsGenius(turn, genius)
    ensures RunFrom(g, turn, won, NewBoard(g.size), 0, t)
         == Finished(genius, Along(turn, NewBoard(g.size), GameLength(genius), t), GameLength(genius), t)
  {
    var n := g.size;
    var f := (i: nat) => Along(turn, NewBoard(n), i, t);
    RoomForEight(n);
    GeniusMoves(turn, genius, n, t);
    GeniusWinsLast(turn, won, genius, n, t);
    RunAlong(g, turn, won, f, 0, GameLength(genius), t);
  }

  // ---------------------------------------------------------------------
  // Whole games and tournaments

  /** The genius player as X beats the clever player in seven moves on every
      board of side at least 4 with a streak of 3, completing the right end
      of the last row. */
  lemma GeniusBeatsCleverAsX(n: nat, t: Tape)
    requires n >= 4
    ensures EndsWith(Run(NewConfig(n, 3), Genius, Clever, t), X, 7, t,
                     {Last(n, 0), Last(n, 1), Last(n, 2), Top(2)}, {Top(0), Top(1), Top(3)})
  {
    assert NewConfig(n, 3) == Config(n, 3);
    GeniusSeatedAsX();
    GeniusRuns(Config(n, 3), Turns(Genius, Clever), Wins(), X, t);
    GeniusXAfter7(Turns(Genius, Clever), n, t);
  }

  /** The genius player as O beats the clever player in eight moves on every
      board of side at least 4 with a streak of 3, completing the right end
      of the last row. */
  lemma GeniusBeatsCleverAsO(n: nat, t: Tape)
    requires n >= 4
    ensures EndsWith(Run(NewConfig(n, 3), Clever, Genius, t), O, 8, t,
                     {Top(0), Top(1), Top(3), Fifth(n)}, {Last(n, 0), Last(n, 1), Last(n, 2), Top(2)})
  {
    assert NewConfig(n, 3) == Config(n, 3);
    GeniusSeatedAsO();
    GeniusRuns(Config(n, 3), Turns(Clever, Genius), Wins(), O, t);
    GeniusOAfter8(Turns(Clever, Genius), n, t);
  }

  /** The no-argument game: genius against clever wins for the genius
      player whichever mark it holds. */
  lemma DefaultGames(t: Tape)
    ensures Run(DefaultConfig(), Genius, Clever, t).Finished? && Run(DefaultConfig(), Genius, Clever, t).winner == X
    ensures Run(DefaultConfig(), Clever, Genius, t).Finished? && Run(DefaultConfig(), Clever, Genius, t).winner == O
  {
    assert DefaultConfig() == NewConfig(4, 3);
    GeniusBeatsCleverAsX(4, t);
    GeniusBeatsCleverAsO(4, t);
  }

  /** A round of genius against clever is won by the mark that moves first
      in even rounds (genius as X) and by O in odd ones (genius as O), and
      leaves the tape as it was. */
  lemma RoundWinner(n: nat, round: nat, t: Tape)
    requires n >= 4
    ensures var seats := Tournament.Seats(Genius, Clever, round);
      var o := Run(NewConfig(n, 3), seats.0, seats.1, t);
      o.Finished? && o.winner == Mover(round) && o.rest == t
  {
    if round % 2 == 0 {
      GeniusBeatsCleverAsX(n, t);
    } else {
      GeniusBeatsCleverAsO(n, t);
    }
  }

  /** A finished round puts its winner in front of the winners of the
      rounds after it, which read the tape from where the round left it. */
  lemma RoundsCons(g: Config, p0: Strategy, p1: Strategy, rounds: nat, round: nat, t: Tape)
    requires g.Valid() && round < rounds
    requires Run(g, Tournament.Seats(p0, p1, round).0, Tournament.Seats(p0, p1, round).1, t).Finished?
    ensures var o := Run(g, Tournament.Seats(p0, p1, round).0, Tournament.Seats(p0, p1, round).1, t);
      Tournament.PlayRounds(g, p0, p1, rounds, round, t) == [o.winner] + Tournament.PlayRounds(g, p0, p1, rounds, round + 1, o.rest)
  {
  }

  /** The winners of `count` rounds from `round` on when X wins the even
      rounds and O the odd ones. */
  function Alternating(round: nat, count: nat): (w: seq<Mark>)
    ensures |w| == count
    decreases count
  {
    if count == 0 then [] else [Mover(round)] + Alternating(round + 1, count - 1)
  }

  /** Entry i of the alternating winners is the mark that makes move round + i. */
  lemma {:induction false} AlternatingMovers(round: nat, count: nat)
    ensures forall i :: 0 <= i < count ==> Alternating(round, count)[i] == Mover(round + i)
    decreases count
  {
    if count > 0 {
      AlternatingMovers(round + 1, count - 1);
      var w := Alternating(round, count);
      assert forall i :: 0 < i < count ==> w[i] == Alternating(round + 1, count - 1)[i - 1];
    }
  }

  /** Genius seated first on a board of side at least 4 with a streak of 3:
      every round from `round` on is played, won by X in even rounds and by
      O in odd ones. */
  lemma {:induction false} GeniusRoundsFrom(n: nat, rounds: nat, round: nat, t: Tape)
    requires n >= 4 && round <= rounds
    ensures Tournament.PlayRounds(NewConfig(n, 3), Genius, Clever, rounds, round, t) == Alternating(round, rounds - round)
    decreases rounds - round
  {
    if round < rounds {
      RoundWinner(n, round, t);
      RoundsCons(NewConfig(n, 3), Genius, Clever, rounds, round, t);
      GeniusRoundsFrom(n, rounds, round + 1, t);
    }
  }

  /** Rounds won by X in even rounds and by O in odd ones all go to the
      player seated first. */
  lemma {:induction false} AllToFirstSeat(w: seq<Mark>)
    requires forall i :: 0 <= i < |w| ==> w[i] == Mover(i)
    ensures Tournament.TallyOf(w) == Tournament.Tally(|w|, 0, 0)
  {
    if |w| > 0 {
      var k := |w| - 1;
      var prefix := w[..k];
      assert forall i :: 0 <= i < |prefix| ==> prefix[i] == Mover(i);
      AllToFirstSeat(prefix);
      assert Tournament.TallyOf(w) == Tournament.Credit(Tournament.Tally(k, 0, 0), k, Mover(k));
      CreditFirstSeat(k);
    }
  }

  /** Winners that alternate from round 0 on all go to the player seated first. */
  lemma AlternatingToFirstSeat(rounds: nat)
    ensures Tournament.TallyOf(Alternating(0, rounds)) == Tournament.Tally(rounds, 0, 0)
  {
    AlternatingMovers(0, rounds);
    AllToFirstSeat(Alternating(0, rounds));
  }

  /** The winner of round k is credited to the player seated first. */
  lemma CreditFirstSeat(k: nat)
    ensures Tournament.Credit(Tournament.Tally(k, 0, 0), k, Mover(k)) == Tournament.Tally(k + 1, 0, 0)
  {
    if k % 2 == 0 {
      assert Mover(k) == X;
    } else {
      assert Mover(k) == O && (k + 1) % 2 == 0;
    }
  }

  /** A tournament of genius against clever on a board of side at least 4
      with a streak of 3 credits every round to the genius player, with no ties. */
  lemma GeniusSweepsClever(n: nat, rounds: nat, t: Tape)
    requires n >= 4
    ensures Tournament.PlayTournament(n, 3, Genius, Clever, rounds, t) == Tournament.Tally(rounds, 0, 0)
  {
    GeniusRoundsFrom(n, rounds, 0, t);
    AlternatingToFirstSeat(rounds);
  }

  /** The command line "none genius clever" starts a tournament of the
      genius player, seated first, against the clever player. */
  lemma GeniusAgainstClever(rounds: nat, size: nat, winStreak: int, t: Tape)
    ensures Tournament.Start("none", "genius", "clever", rounds, size, winStreak, t)
         == Tournament.Played(Tournament.PlayTournament(size, winStreak, Genius, Clever, rounds, t))
  {
    assert Tournament.SameIgnoringCase("none", Tournament.RendererTypes[1]);
    assert Tournament.SameIgnoringCase("genius", Tournament.PlayerTypes[3]);
    assert Tournament.SameIgnoringCase("clever", Tournament.PlayerTypes[1]);
    Tournament.LowerMatch("genius", "genius");
    Tournament.LowerMatch("clever", "clever");
    Tournament.StartPlays("none", "genius", "clever", rounds, size, winStreak, t, Genius, Clever);
  }

  /** The program run without a renderer, genius against clever, on any
      board of side at least 4 with a streak of 3 (the command line 10000 6
      3 none genius clever among them): the genius player wins every round. */
  lemma GeniusWinsEveryRound(rounds: nat, size: nat, t: Tape)
    requires size >= 4
    ensures Tournament.Start("none", "genius", "clever", rounds, size, 3, t) == Tournament.Played(Tournament.Tally(rounds, 0, 0))
  {
    GeniusAgainstClever(rounds, size, 3, t);
    GeniusSweepsClever(size, rounds, t);
  }
}
