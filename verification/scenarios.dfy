/** The behaviours the repository's own tests check, stated over the model:
    board writes on the default board, every strategy's first placement,
    the human player's handling of rejected codes, the game constructors,
    and the win detector on the final positions of the scripted games. */
module Scenarios {
  import opened Boards
  import opened Options
  import opened WinCheck
  import opened Players
  import opened Games
  import CleverPlayer
  import GeniusPlayer
  import HumanPlayer

  /** On the default board a write at (0, 0) succeeds and reads back; writes
      with a row or column of -1 or 5 fail; a second write to (0, 0) fails
      and leaves the first mark in place. */
  lemma DefaultBoardWrites()
    ensures var b := DefaultBoard();
      && PutMark(b, X, Pos(0, 0)).1 && PutMark(b, X, Pos(0, 0)).0.At(Pos(0, 0)) == X
      && !PutMark(b, X, Pos(-1, 0)).1 && !PutMark(b, X, Pos(5, 0)).1
      && !PutMark(b, X, Pos(0, -1)).1 && !PutMark(b, X, Pos(0, 5)).1
    ensures var b1 := PutMark(DefaultBoard(), X, Pos(0, 0)).0;
      && !PutMark(b1, O, Pos(0, 0)).1 && PutMark(b1, O, Pos(0, 0)).0.At(Pos(0, 0)) == X
  {
    var b := DefaultBoard();
    assert b.At(Pos(0, 0)) == Blank;
    PutMarkThenGet(b, X, Pos(0, 0));
  }

  /** Every strategy, given an empty board and a real mark, leaves that mark
      somewhere on the board: the clever and genius players always, the human
      and random players whenever their input lets them move. */
  lemma EmptyBoardPlacement(s: Strategy, b: Board, mark: Mark, t: Tape)
    requires b.Valid() && b.size >= 1 && mark != Blank
    requires forall p :: b.InBounds(p) ==> b.At(p) == Blank
    ensures s == Clever || s == Genius ==> PlayTurn(s, b, mark, t).Some?
    ensures PlayTurn(s, b, mark, t).Some? ==>
      exists p :: b.InBounds(p) && PlayTurn(s, b, mark, t).value.0.At(p) == mark
  {
    var r := PlayTurn(s, b, mark, t);
    var last := b.Area() - 1;
    assert b.Cell(0) == Blank;
    if s == Genius {
      var corner := Pos(0, 0);
      assert b.At(corner) != mark;
      EmptyNoOpponents(b, mark);
      assert !GeniusPlayer.ClaimsCorner(b, mark);
      EmptyNoBlock(b, mark);
      assert b.Cell(last) == Blank;
      GeniusPlayer.TakesLastBlank(b, mark, last);
      assert GeniusPlayer.Move(b, mark).At(b.PosOf(last)) == mark;
    } else if r.Some? {
      var p :| Placed(b, r.value.0, mark, p);
      assert r.value.0.At(p) == mark;
    }
  }

  /** No cell of an empty board holds an opponent of a real mark. */
  lemma EmptyNoOpponents(b: Board, mark: Mark)
    requires b.Valid() && b.size >= 1 && mark != Blank
    requires forall p :: b.InBounds(p) ==> b.At(p) == Blank
    ensures !GeniusPlayer.IsGeniusVsRandom(b, mark)
  {
    forall i | 0 <= i < b.Area()
      ensures !GeniusPlayer.IsOpponent(b.Cell(i), mark)
    {
      assert b.Cell(i) == b.At(b.PosOf(i));
    }
  }

  /** An empty board gives the block rule nothing to block. */
  lemma EmptyNoBlock(b: Board, mark: Mark)
    requires b.Valid() && b.size >= 1 && mark != Blank
    requires forall p :: b.InBounds(p) ==> b.At(p) == Blank
    ensures !GeniusPlayer.NeedToBlock(b, mark).0
  {
  }

  /** The constructors: 4 and 3 by default; (5, 3) is kept; a streak above the
      side and a streak below two both fall back to the side. */
  lemma Constructors()
    ensures DefaultConfig().size == 4 && DefaultConfig().streak == 3
    ensures NewConfig(5, 3) == Config(5, 3)
    ensures NewConfig(3, 5) == Config(3, 3)
    ensures NewConfig(7, 1) == Config(7, 7)
  {
  }
}

/** The human player's handling of rejected codes, as the tests script it. */
module HumanScenarios {
  import opened Boards
  import opened Options
  import HumanPlayer

  /** The codes the scripted turns type, decoded. */
  lemma Codes()
    ensures HumanPlayer.Decode(55) == Pos(5, 5)
    ensures HumanPlayer.Decode(0) == Pos(0, 0)
    ensures HumanPlayer.Decode(1) == Pos(0, 1)
  {
    HumanPlayer.DecodeEncode(Pos(5, 5));
    HumanPlayer.DecodeEncode(Pos(0, 0));
    HumanPlayer.DecodeEncode(Pos(0, 1));
  }

  /** On the empty default board the human player skips the out-of-range
      code 55 and plays 00. */
  lemma HumanSkipsOutOfRange(b: Board)
    requires b.Valid() && b.size == DefaultBoardSize
    requires forall p :: b.InBounds(p) ==> b.At(p) == Blank
    ensures HumanPlayer.Move(b, X, [55, 0]) == Some((PutMark(b, X, Pos(0, 0)).0, []))
  {
    Codes();
    assert !HumanPlayer.Accepts(b, 55);
    assert HumanPlayer.Accepts(b, 0);
    HumanPlayer.MoveSkips(b, X, [55, 0]);
    assert [55, 0][1..] == [0];
    HumanPlayer.MoveTakes(b, X, [0]);
    assert [0][1..] == [];
  }

  /** Two turns on the empty default board with codes 00, 00, 01: the first
      plays (0, 0); the second rejects the now occupied 00 and plays (0, 1). */
  lemma HumanSkipsOccupied(b: Board)
    requires b.Valid() && b.size == DefaultBoardSize
    requires forall p :: b.InBounds(p) ==> b.At(p) == Blank
    ensures var b1 := PutMark(b, X, Pos(0, 0)).0;
      && HumanPlayer.Move(b, X, [0, 0, 1]) == Some((b1, [0, 1]))
      && HumanPlayer.Move(b1, X, [0, 1]) == Some((PutMark(b1, X, Pos(0, 1)).0, []))
  {
    var b1 := PutMark(b, X, Pos(0, 0)).0;
    Codes();
    assert HumanPlayer.Accepts(b, 0);
    HumanPlayer.MoveTakes(b, X, [0, 0, 1]);
    assert [0, 0, 1][1..] == [0, 1];
    PutMarkThenGet(b, X, Pos(0, 0));
    assert !HumanPlayer.Accepts(b1, 0);
    HumanPlayer.MoveSkips(b1, X, [0, 1]);
    assert [0, 1][1..] == [1];
    assert b1.At(Pos(0, 1)) == b.At(Pos(0, 1)) == Blank;
    assert HumanPlayer.Accepts(b1, 1);
    HumanPlayer.MoveTakes(b1, X, [1]);
    assert [1][1..] == [];
  }
}

/** The win detector on the final positions of the scripted games. */
module WinScenarios {
  import opened Boards
  import opened WinCheck

  /** One of the three cells from p in direction d holds something other than m. */
  ghost predicate Blocked(b: Board, m: Mark, p: Pos, d: Dir)
    requires b.Valid()
  {
    exists i :: 0 <= i < 3 && b.InBounds(Step(d, p, i)) && b.At(Step(d, p, i)) != m
  }

  /** A cell other than m, i steps from p, blocks the line from p. */
  lemma BlockedAt(b: Board, m: Mark, p: Pos, d: Dir, i: int)
    requires b.Valid() && 0 <= i < 3 && b.InBounds(Step(d, p, i)) && b.At(Step(d, p, i)) != m
    ensures Blocked(b, m, p, d)
  {
  }

  /** A blocked line of three is not a line of m. */
  lemma BlockedNoLine(b: Board, m: Mark, p: Pos, d: Dir)
    requires b.Valid() && Blocked(b, m, p, d)
    ensures !Line(b, m, p, d, 3)
  {
  }

  /** On a 3 x 3 board a line of three starts on the edge its direction leaves:
      the first column, the first row, or one of the two top corners. */
  lemma LineStart(p: Pos, d: Dir)
    requires 0 <= Step(d, p, 0).row <= 2 && 0 <= Step(d, p, 0).col <= 2
    requires 0 <= Step(d, p, 2).row <= 2 && 0 <= Step(d, p, 2).col <= 2
    ensures d == Across ==> p.col == 0 && 0 <= p.row < 3
    ensures d == Down ==> p.row == 0 && 0 <= p.col < 3
    ensures d == DownRight ==> p.row == 0 && p.col == 0
    ensures d == DownLeft ==> p.row == 0 && p.col == 2
  {
  }

  /** A 3 x 3 board on which every row, every column and both diagonals
      hold a cell other than m gives m no line of three. */
  lemma NoThreeInLine(b: Board, m: Mark)
    requires b.Valid() && b.size == 3
    requires forall r :: 0 <= r < 3 ==> Blocked(b, m, Pos(r, 0), Across)
    requires forall c :: 0 <= c < 3 ==> Blocked(b, m, Pos(0, c), Down)
    requires Blocked(b, m, Pos(0, 0), DownRight) && Blocked(b, m, Pos(0, 2), DownLeft)
    ensures !HasLine(b, m, 3)
  {
    forall p, d
      ensures !Line(b, m, p, d, 3)
    {
      if b.InBounds(Step(d, p, 0)) && b.InBounds(Step(d, p, 2)) {
        LineStart(p, d);
        BlockedNoLine(b, m, p, d);
      }
    }
  }

  /** The final position of the scripted tie (codes 00, 01, 02, 10, 11, 20,
      12, 22, 21): X on 00, 02, 11, 12, 21 and O on 01, 10, 20, 22. */
  ghost predicate IsTiePosition(b: Board)
    requires b.Valid() && b.size == 3
  {
    && b.At(Pos(0, 0)) == X && b.At(Pos(0, 1)) == O && b.At(Pos(0, 2)) == X
    && b.At(Pos(1, 0)) == O && b.At(Pos(1, 1)) == X && b.At(Pos(1, 2)) == X
    && b.At(Pos(2, 0)) == O && b.At(Pos(2, 1)) == X && b.At(Pos(2, 2)) == O
  }

  /** Every row, column and diagonal of the tie position holds an O. */
  lemma TieBlocksX(b: Board)
    requires b.Valid() && b.size == 3 && IsTiePosition(b)
    ensures forall r :: 0 <= r < 3 ==> Blocked(b, X, Pos(r, 0), Across)
    ensures forall c :: 0 <= c < 3 ==> Blocked(b, X, Pos(0, c), Down)
    ensures Blocked(b, X, Pos(0, 0), DownRight) && Blocked(b, X, Pos(0, 2), DownLeft)
  {
    BlockedAt(b, X, Pos(0, 0), Across, 1);
    BlockedAt(b, X, Pos(1, 0), Across, 0);
    BlockedAt(b, X, Pos(2, 0), Across, 0);
    BlockedAt(b, X, Pos(0, 0), Down, 1);
    BlockedAt(b, X, Pos(0, 1), Down, 0);
    BlockedAt(b, X, Pos(0, 2), Down, 2);
    BlockedAt(b, X, Pos(0, 0), DownRight, 2);
    BlockedAt(b, X, Pos(0, 2), DownLeft, 2);
    forall r | 0 <= r < 3
      ensures Blocked(b, X, Pos(r, 0), Across)
    {
      assert r == 0 || r == 1 || r == 2;
    }
    forall c | 0 <= c < 3
      ensures Blocked(b, X, Pos(0, c), Down)
    {
      assert c == 0 || c == 1 || c == 2;
    }
  }

  /** Every row, column and diagonal of the tie position holds an X. */
  lemma TieBlocksO(b: Board)
    requires b.Valid() && b.size == 3 && IsTiePosition(b)
    ensures forall r :: 0 <= r < 3 ==> Blocked(b, O, Pos(r, 0), Across)
    ensures forall c :: 0 <= c < 3 ==> Blocked(b, O, Pos(0, c), Down)
    ensures Blocked(b, O, Pos(0, 0), DownRight) && Blocked(b, O, Pos(0, 2), DownLeft)
  {
    BlockedAt(b, O, Pos(0, 0), Across, 0);
    BlockedAt(b, O, Pos(1, 0), Across, 1);
    BlockedAt(b, O, Pos(2, 0), Across, 1);
    BlockedAt(b, O, Pos(0, 0), Down, 0);
    BlockedAt(b, O, Pos(0, 1), Down, 1);
    BlockedAt(b, O, Pos(0, 2), Down, 0);
    BlockedAt(b, O, Pos(0, 0), DownRight, 0);
    BlockedAt(b, O, Pos(0, 2), DownLeft, 0);
    forall r | 0 <= r < 3
      ensures Blocked(b, O, Pos(r, 0), Across)
    {
      assert r == 0 || r == 1 || r == 2;
    }
    forall c | 0 <= c < 3
      ensures Blocked(b, O, Pos(0, c), Down)
    {
      assert c == 0 || c == 1 || c == 2;
    }
  }

  /** The tie position is a win for neither mark. */
  lemma TiePositionNoWinner(b: Board)
    requires b.Valid() && b.size == 3 && IsTiePosition(b)
    ensures CheckWinStreak(b, X, 3) == Blank
    ensures CheckWinStreak(b, O, 3) == Blank
  {
    TieBlocksX(b);
    NoThreeInLine(b, X);
    TieBlocksO(b);
    NoThreeInLine(b, O);
  }

  /** The tie board itself. */
  lemma TieBoardIsTie()
    ensures var b := Board(3, [[X, O, X], [O, X, X], [O, X, O]]);
      b.Valid() && CheckWinStreak(b, X, 3) == Blank && CheckWinStreak(b, O, 3) == Blank
  {
    var b := Board(3, [[X, O, X], [O, X, X], [O, X, O]]);
    assert b.Valid() && b.size == 3 && IsTiePosition(b);
    TiePositionNoWinner(b);
  }

  /** A line of three m's through the three given cells makes the check report m. */
  lemma ThreeInLine(b: Board, m: Mark, p: Pos, d: Dir)
    requires b.Valid() && m != Blank
    requires b.InBounds(Step(d, p, 0)) && b.At(Step(d, p, 0)) == m
    requires b.InBounds(Step(d, p, 1)) && b.At(Step(d, p, 1)) == m
    requires b.InBounds(Step(d, p, 2)) && b.At(Step(d, p, 2)) == m
    ensures CheckWinStreak(b, m, 3) == m
  {
    assert Line(b, m, p, d, 3);
  }

  /** X's line along the first row (codes 00, 10, 01, 11, 02). */
  lemma RowWin()
    ensures CheckWinStreak(Board(3, [[X, X, X], [O, O, Blank], [Blank, Blank, Blank]]), X, 3) == X
  {
    ThreeInLine(Board(3, [[X, X, X], [O, O, Blank], [Blank, Blank, Blank]]), X, Pos(0, 0), Across);
  }

  /** X's line along the first row again (codes 00, 11, 01, 12, 02). */
  lemma TopRowWin()
    ensures CheckWinStreak(Board(3, [[X, X, X], [Blank, O, O], [Blank, Blank, Blank]]), X, 3) == X
  {
    ThreeInLine(Board(3, [[X, X, X], [Blank, O, O], [Blank, Blank, Blank]]), X, Pos(0, 0), Across);
  }

  /** X's line along the diagonal (codes 00, 10, 11, 12, 22). */
  lemma DiagonalWin()
    ensures CheckWinStreak(Board(3, [[X, Blank, Blank], [O, X, O], [Blank, Blank, X]]), X, 3) == X
  {
    ThreeInLine(Board(3, [[X, Blank, Blank], [O, X, O], [Blank, Blank, X]]), X, Pos(0, 0), DownRight);
  }

  /** X's line along the anti-diagonal (codes 02, 10, 11, 12, 20). */
  lemma AntiDiagonalWin()
    ensures CheckWinStreak(Board(3, [[Blank, Blank, X], [O, X, O], [X, Blank, Blank]]), X, 3) == X
  {
    ThreeInLine(Board(3, [[Blank, Blank, X], [O, X, O], [X, Blank, Blank]]), X, Pos(0, 2), DownLeft);
  }

  /** X's line along the diagonal completed by the ninth move (codes 00, 01, 02, 10, 11, 12, 21, 20, 22). */
  lemma LastMoveWin()
    ensures CheckWinStreak(Board(3, [[X, O, X], [O, X, O], [O, X, X]]), X, 3) == X
  {
    ThreeInLine(Board(3, [[X, O, X], [O, X, O], [O, X, X]]), X, Pos(0, 0), DownRight);
  }
}
