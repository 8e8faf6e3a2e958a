/** The genius player: an ordered chain of rules.  If the top-left corner is
    already its own, it plays like the clever player.  Otherwise, in each
    step of a scan from the last cell backwards, it (1) claims the BLANK
    corner when exactly one opponent mark is on the board, (2) blocks when
    the block test fires, (3) takes the scanned cell when it is BLANK. */
module GeniusPlayer {
  import opened Boards
  import opened Options
  import CleverPlayer

  /** A cell holding x is an opponent's cell for the player of mark. */
  predicate IsOpponent(x: Mark, mark: Mark) {
    x != Blank && x != mark
  }

  /** The number of opponent cells among the first k in row-major order. */
  function CountOpponents(b: Board, mark: Mark, k: nat): (c: nat)
    requires b.Valid() && k <= b.Area()
    ensures c <= k
  {
    if k == 0 then 0
    else CountOpponents(b, mark, k - 1) + (if IsOpponent(b.Cell(k - 1), mark) then 1 else 0)
  }

  lemma {:induction false} CountMonotone(b: Board, mark: Mark, i: nat, k: nat)
    requires b.Valid() && i <= k <= b.Area()
    ensures CountOpponents(b, mark, i) <= CountOpponents(b, mark, k)
    decreases k - i
  {
    if i < k {
      CountMonotone(b, mark, i, k - 1);
    }
  }

  /** i is the one and only opponent cell among the first k. */
  ghost predicate OnlyOpponentAt(b: Board, mark: Mark, i: int, k: nat)
    requires b.Valid() && k <= b.Area()
  {
    && 0 <= i < k && IsOpponent(b.Cell(i), mark)
    && forall j :: 0 <= j < k && j != i ==> !IsOpponent(b.Cell(j), mark)
  }

  lemma {:induction false} CountZero(b: Board, mark: Mark, k: nat)
    requires b.Valid() && k <= b.Area()
    ensures CountOpponents(b, mark, k) == 0 <==> forall j :: 0 <= j < k ==> !IsOpponent(b.Cell(j), mark)
  {
    if k > 0 {
      CountZero(b, mark, k - 1);
    }
  }

  lemma CountOne(b: Board, mark: Mark, k: nat)
    requires b.Valid() && k <= b.Area()
    ensures CountOpponents(b, mark, k) == 1 <==> exists i :: OnlyOpponentAt(b, mark, i, k)
  {
    if CountOpponents(b, mark, k) == 1 {
      OneHasOnly(b, mark, k);
    }
    if exists i :: OnlyOpponentAt(b, mark, i, k) {
      var i :| OnlyOpponentAt(b, mark, i, k);
      OnlyCountsOne(b, mark, i, k);
    }
  }

  lemma {:induction false} OneHasOnly(b: Board, mark: Mark, k: nat)
    requires b.Valid() && k <= b.Area() && CountOpponents(b, mark, k) == 1
    ensures exists i :: OnlyOpponentAt(b, mark, i, k)
  {
    if IsOpponent(b.Cell(k - 1), mark) {
      CountZero(b, mark, k - 1);
      assert OnlyOpponentAt(b, mark, k - 1, k);
    } else {
      OneHasOnly(b, mark, k - 1);
      var i :| OnlyOpponentAt(b, mark, i, k - 1);
      assert OnlyOpponentAt(b, mark, i, k);
    }
  }

  lemma {:induction false} OnlyCountsOne(b: Board, mark: Mark, i: int, k: nat)
    requires b.Valid() && k <= b.Area() && OnlyOpponentAt(b, mark, i, k)
    ensures CountOpponents(b, mark, k) == 1
  {
    if i == k - 1 {
      CountZero(b, mark, k - 1);
    } else {
      assert OnlyOpponentAt(b, mark, i, k - 1);
      OnlyCountsOne(b, mark, i, k - 1);
    }
  }

  /** The test for playing against the random player: exactly one opponent
      cell on the board. */
  function IsGeniusVsRandom(b: Board, mark: Mark): (r: bool)
    requires b.Valid()
    ensures r <==> exists i :: OnlyOpponentAt(b, mark, i, b.Area())
  {
    CountOne(b, mark, b.Area());
    CountOpponents(b, mark, b.Area()) == 1
  }

  // ---------------------------------------------------------------------
  // The block test

  /** The block test fires at k: k comes right after the second opponent
      cell in row-major order and neither it nor any earlier cell holds the
      player's own mark. */
  ghost predicate BlockAt(b: Board, mark: Mark, k: int)
    requires b.Valid()
  {
    && 1 <= k < b.Area()
    && CountOpponents(b, mark, k) == 2
    && IsOpponent(b.Cell(k - 1), mark)
    && forall j :: 0 <= j <= k ==> b.Cell(j) != mark
  }

  /** The block test fires at one cell at most. */
  lemma BlockAtUnique(b: Board, mark: Mark, i: int, k: int)
    requires b.Valid() && BlockAt(b, mark, i) && BlockAt(b, mark, k)
    ensures i == k
  {
    if i < k {
      CountMonotone(b, mark, i, k - 1);
    } else if k < i {
      CountMonotone(b, mark, k, i - 1);
    }
  }

  /** needToBlock's scan from index k, with counter opponent cells seen so far. */
  function NeedToBlockFrom(b: Board, mark: Mark, k: nat, counter: nat): (r: (bool, Board))
    requires b.Valid() && k <= b.Area()
    requires counter == CountOpponents(b, mark, k) && counter <= 2
    requires counter == 2 ==> k >= 1 && IsOpponent(b.Cell(k - 1), mark)
    requires forall j :: 0 <= j < k ==> b.Cell(j) != mark
    ensures r.0 <==> exists i :: k <= i < b.Area() && BlockAt(b, mark, i)
    ensures r.0 ==> exists i :: k <= i < b.Area() && BlockAt(b, mark, i) && r.1 == PutMark(b, mark, b.PosOf(i)).0
    ensures !r.0 ==> r.1 == b
    decreases b.Area() - k
  {
    if k == b.Area() then (false, b)
    else if b.Cell(k) == mark then (false, b)
    else if counter == 2 then
      assert BlockAt(b, mark, k);
      (true, PutMark(b, mark, b.PosOf(k)).0)
    else
      assert !BlockAt(b, mark, k);
      NeedToBlockFrom(b, mark, k + 1, counter + (if IsOpponent(b.Cell(k), mark) then 1 else 0))
  }

  /** needToBlock: fires right after the second opponent
      cell unless the player's own mark comes first, and then writes the
      player's mark at the cell where it fired, through the board's guarded
      write, so an occupied cell is left as it is although the test reports
      that it blocked. */
  function NeedToBlock(b: Board, mark: Mark): (r: (bool, Board))
    requires b.Valid()
    ensures r.0 <==> exists i :: BlockAt(b, mark, i)
    ensures r.0 ==> exists i :: BlockAt(b, mark, i) && r.1 == PutMark(b, mark, b.PosOf(i)).0
    ensures !r.0 ==> r.1 == b
  {
    NeedToBlockFrom(b, mark, 0, 0)
  }

  /** An own mark met before the counter of opponent cells reached two at an
      earlier cell stops the test without a change: the own-mark test at a
      cell comes before the counter test there. */
  lemma NeedToBlockOwnMarkFirst(b: Board, mark: Mark, i: int)
    requires b.Valid() && 0 <= i < b.Area() && b.Cell(i) == mark
    requires i == 0 || CountOpponents(b, mark, i - 1) < 2
    ensures NeedToBlock(b, mark) == (false, b)
  {
    forall k
      ensures !BlockAt(b, mark, k)
    {
      OwnMarkBeforeBlock(b, mark, i, k);
    }
  }

  lemma OwnMarkBeforeBlock(b: Board, mark: Mark, i: int, k: int)
    requires b.Valid() && 0 <= i < b.Area() && b.Cell(i) == mark
    requires i == 0 || CountOpponents(b, mark, i - 1) < 2
    ensures !BlockAt(b, mark, k)
  {
    if 1 <= k < i {
      CountMonotone(b, mark, k, i - 1);
    }
  }

  /** With a single opponent cell on the board the counter never reaches two,
      so the block test never fires. */
  lemma OneOpponentNoBlock(b: Board, mark: Mark, i: int)
    requires b.Valid() && OnlyOpponentAt(b, mark, i, b.Area())
    ensures NeedToBlock(b, mark) == (false, b)
  {
    CountOne(b, mark, b.Area());
    if exists k :: BlockAt(b, mark, k) {
      var k :| BlockAt(b, mark, k);
      CountMonotone(b, mark, k, b.Area());
    }
  }

  /** Once two opponent cells have been counted, the next cell is written
      through the guarded write and the test reports a block, whether or not
      that cell was BLANK. */
  lemma NeedToBlockFires(b: Board, mark: Mark, k: int)
    requires b.Valid() && BlockAt(b, mark, k)
    ensures NeedToBlock(b, mark) == (true, PutMark(b, mark, b.PosOf(k)).0)
  {
    var r := NeedToBlock(b, mark);
    var i :| BlockAt(b, mark, i) && r.1 == PutMark(b, mark, b.PosOf(i)).0;
    BlockAtUnique(b, mark, i, k);
  }

  /** The block test can report a block while leaving the board unchanged:
      on a 3 x 3 board whose top row is O O O, X's test fires on the third
      O, whose write is refused. */
  lemma NeedToBlockMayNotPlace()
    ensures var b := Board(3, [[O, O, O], [Blank, Blank, Blank], [Blank, Blank, Blank]]);
      NeedToBlock(b, X) == (true, b)
  {
    var b := Board(3, [[O, O, O], [Blank, Blank, Blank], [Blank, Blank, Blank]]);
    assert BlockAt(b, X, 2);
    NeedToBlockFires(b, X, 2);
  }

  // ---------------------------------------------------------------------
  // The turn

  /** The backward scan from index k for a BLANK cell. */
  function LastBlankFrom(b: Board, k: int): (r: Option<nat>)
    requires b.Valid() && -1 <= k < b.Area()
    ensures r.Some? ==> r.value <= k && b.Cell(r.value) == Blank
    ensures r.Some? ==> forall j :: r.value < j <= k ==> b.Cell(j) != Blank
    ensures r.None? ==> forall j :: 0 <= j <= k ==> b.Cell(j) != Blank
    decreases k + 1
  {
    if k < 0 then None
    else if b.Cell(k) == Blank then Some(k)
    else LastBlankFrom(b, k - 1)
  }

  /** The corner rule's condition. */
  predicate ClaimsCorner(b: Board, mark: Mark)
    requires b.Valid() && b.size >= 1
  {
    b.At(Pos(0, 0)) == Blank && IsGeniusVsRandom(b, mark)
  }

  /** GeniusPlayer.playTurn's loop from the last cell backwards to index k: the corner
      rule and the block rule are tried again in every step, then the cell
      at index k is taken if BLANK. */
  function Scan(b: Board, mark: Mark, k: int): (r: Board)
    requires b.Valid() && b.size >= 1 && -1 <= k < b.Area()
    ensures r == b || exists p :: Placed(b, r, mark, p)
    decreases k + 1
  {
    if k < 0 then b
    else if ClaimsCorner(b, mark) then PutMark(b, mark, Pos(0, 0)).0
    else if NeedToBlock(b, mark).0 then NeedToBlock(b, mark).1
    else if b.Cell(k) == Blank then PutMark(b, mark, b.PosOf(k)).0
    else Scan(b, mark, k - 1)
  }

  /** One turn of the genius player. */
  function Move(b: Board, mark: Mark): (r: Board)
    requires b.Valid() && b.size >= 1
    ensures r == b || exists p :: Placed(b, r, mark, p)
  {
    if b.At(Pos(0, 0)) == mark then
      CleverPlayer.MoveExtends(b, mark);
      var r := CleverPlayer.Move(b, mark);
      assert !HasBlank(b) ==> r == b;
      r
    else Scan(b, mark, b.Area() - 1)
  }

  /** The rule chain with each rule decided once, in order: the corner rules,
      then the block rule, then the last BLANK cell in row-major order. */
  function RuleChain(b: Board, mark: Mark): Board
    requires b.Valid() && b.size >= 1
  {
    if b.At(Pos(0, 0)) == mark then CleverPlayer.Move(b, mark)
    else if ClaimsCorner(b, mark) then PutMark(b, mark, Pos(0, 0)).0
    else if NeedToBlock(b, mark).0 then NeedToBlock(b, mark).1
    else match LastBlankFrom(b, b.Area() - 1)
      case None => b
      case Some(i) => PutMark(b, mark, b.PosOf(i)).0
  }

  /** The corner and block tests do not depend on the scanned cell and the
      board does not change while they fail, so the loop is the rule chain. */
  lemma MoveIsRuleChain(b: Board, mark: Mark)
    requires b.Valid() && b.size >= 1
    ensures Move(b, mark) == RuleChain(b, mark)
  {
    if b.At(Pos(0, 0)) != mark && !ClaimsCorner(b, mark) && !NeedToBlock(b, mark).0 {
      ScanIsLastBlank(b, mark, b.Area() - 1);
    }
  }

  lemma {:induction false} ScanIsLastBlank(b: Board, mark: Mark, k: int)
    requires b.Valid() && b.size >= 1 && -1 <= k < b.Area()
    requires !ClaimsCorner(b, mark) && !NeedToBlock(b, mark).0
    ensures Scan(b, mark, k) == match LastBlankFrom(b, k)
      case None => b
      case Some(i) => PutMark(b, mark, b.PosOf(i)).0
    decreases k + 1
  {
    if k >= 0 && b.Cell(k) != Blank {
      ScanIsLastBlank(b, mark, k - 1);
    }
  }

  /** With its own mark in the corner, the genius player moves like the clever one. */
  lemma OwnCornerPlaysClever(b: Board, mark: Mark)
    requires b.Valid() && b.size >= 1 && b.At(Pos(0, 0)) == mark
    ensures Move(b, mark) == CleverPlayer.Move(b, mark)
  {
  }

  /** A BLANK corner and exactly one opponent cell: the corner is claimed. */
  lemma ClaimsCornerAgainstOne(b: Board, mark: Mark)
    requires b.Valid() && b.size >= 1 && mark != Blank
    requires b.At(Pos(0, 0)) == Blank && exists i :: OnlyOpponentAt(b, mark, i, b.Area())
    ensures Placed(b, Move(b, mark), mark, Pos(0, 0))
  {
    assert ClaimsCorner(b, mark);
    assert b.Area() - 1 >= 0;
  }

  /** No rule fires: the mark goes to the last BLANK cell in row-major order. */
  lemma TakesLastBlank(b: Board, mark: Mark, i: nat)
    requires b.Valid() && b.size >= 1 && b.At(Pos(0, 0)) != mark
    requires !ClaimsCorner(b, mark) && !NeedToBlock(b, mark).0
    requires i < b.Area() && b.Cell(i) == Blank
    requires forall j :: i < j < b.Area() ==> b.Cell(j) != Blank
    ensures Placed(b, Move(b, mark), mark, b.PosOf(i))
  {
    MoveIsRuleChain(b, mark);
    var r := LastBlankFrom(b, b.Area() - 1);
    assert r.Some? && r.value == i;
  }
}
