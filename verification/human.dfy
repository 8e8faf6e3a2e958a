/** The human player: reads integer codes until one names an in-range BLANK
    cell.  A code is split into row = code / 10 and column = code % 10 with
    Java's integer division, which truncates toward zero. */
module HumanPlayer {
  import opened Boards
  import opened Options

  /** Integer division by 10 truncating toward zero. */
  function Quot10(v: int): int {
    if v >= 0 then v / 10 else -((-v) / 10)
  }

  /** The remainder that goes with Quot10: it takes the sign of v. */
  function Rem10(v: int): int {
    v - Quot10(v) * 10
  }

  /** The cell a code names. */
  function Decode(code: int): (p: Pos)
    ensures code == p.row * 10 + p.col
    ensures code >= 0 ==> p.row >= 0 && 0 <= p.col <= 9
    ensures code < 0 ==> p.row <= 0 && -9 <= p.col <= 0
  {
    Pos(Quot10(code), Rem10(code))
  }

  /** The code a player types for a cell with a one-digit column. */
  function Encode(p: Pos): int {
    p.row * 10 + p.col
  }

  /** Typing a cell's code names that cell, for every cell with a
      non-negative row and a one-digit column. */
  lemma DecodeEncode(p: Pos)
    requires p.row >= 0 && 0 <= p.col <= 9
    ensures Decode(Encode(p)) == p
  {
    var v := Encode(p);
    DivModUnique(v, 10, p.row, p.col);
  }

  /** Truncating division differs from Euclidean division on negative codes:
      -5 names row 0, column -5, where Euclidean division would give row -1,
      column 5. */
  lemma NegativeCodeTruncates()
    ensures Decode(-5) == Pos(0, -5)
    ensures (-5) / 10 == -1 && (-5) % 10 == 5
  {
  }

  /** HumanPlayer.InputInRange: the range check on decoded coordinates. */
  predicate InputInRange(p: Pos, b: Board) {
    p.col >= 0 && p.col <= b.size - 1 && p.row >= 0 && p.row <= b.size - 1
  }

  /** HumanPlayer.emptyCell: the emptiness check, only asked after the range check. */
  predicate EmptyCell(p: Pos, b: Board)
    requires b.Valid() && b.InBounds(p)
  {
    b.At(p) == Blank
  }

  /** A code is accepted when it names an in-range BLANK cell. */
  ghost predicate Accepts(b: Board, code: int)
    requires b.Valid()
  {
    b.InBounds(Decode(code)) && b.At(Decode(code)) == Blank
  }

  /** r is what a turn on codes should give: None exactly when no code is
      accepted, and otherwise the board with the first accepted code played
      and the codes after it left unread. */
  ghost predicate FirstAccepted(b: Board, mark: Mark, codes: seq<int>, r: Option<(Board, seq<int>)>)
    requires b.Valid()
  {
    && (r.None? <==> forall i :: 0 <= i < |codes| ==> !Accepts(b, codes[i]))
    && (r.Some? ==> exists i ::
         && 0 <= i < |codes| && Accepts(b, codes[i])
         && (forall j :: 0 <= j < i ==> !Accepts(b, codes[j]))
         && r.value.1 == codes[i + 1..]
         && Placed(b, r.value.0, mark, Decode(codes[i])))
  }

  /** One turn: codes are read in order, rejected while out of range or
      occupied, and the first accepted one is played.  The codes after it are
      left for later turns; None when the codes run out first. */
  function Move(b: Board, mark: Mark, codes: seq<int>): (r: Option<(Board, seq<int>)>)
    requires b.Valid()
    ensures FirstAccepted(b, mark, codes, r)
  {
    if |codes| == 0 then None
    else
      var p := Decode(codes[0]);
      if !InputInRange(p, b) then
        var rest := Move(b, mark, codes[1..]);
        SkipRejected(b, mark, codes, rest);
        rest
      else if !EmptyCell(p, b) then
        var rest := Move(b, mark, codes[1..]);
        SkipRejected(b, mark, codes, rest);
        rest
      else
        assert Accepts(b, codes[0]);
        Some((PutMark(b, mark, p).0, codes[1..]))
  }

  /** A rejected first code changes nothing about the turn but its length. */
  lemma SkipRejected(b: Board, mark: Mark, codes: seq<int>, rest: Option<(Board, seq<int>)>)
    requires b.Valid() && |codes| > 0 && !Accepts(b, codes[0])
    requires FirstAccepted(b, mark, codes[1..], rest)
    ensures FirstAccepted(b, mark, codes, rest)
  {
    var tail := codes[1..];
    forall i | 0 <= i < |tail|
      ensures tail[i] == codes[i + 1]
    {
    }
    if rest.Some? {
      var i :| && 0 <= i < |tail| && Accepts(b, tail[i])
        && (forall j :: 0 <= j < i ==> !Accepts(b, tail[j]))
        && rest.value.1 == tail[i + 1..]
        && Placed(b, rest.value.0, mark, Decode(tail[i]));
      assert tail[i + 1..] == codes[i + 2..];
      forall j | 0 <= j < i + 1
        ensures !Accepts(b, codes[j])
      {
        if j > 0 {
          assert codes[j] == tail[j - 1];
        }
      }
      assert Accepts(b, codes[i + 1]);
    } else {
      forall i | 0 <= i < |codes|
        ensures !Accepts(b, codes[i])
      {
        if i > 0 {
          assert codes[i] == tail[i - 1];
        }
      }
    }
  }

  /** A turn whose first code is rejected is the turn on the codes after it. */
  lemma MoveSkips(b: Board, mark: Mark, codes: seq<int>)
    requires b.Valid() && |codes| > 0 && !Accepts(b, codes[0])
    ensures Move(b, mark, codes) == Move(b, mark, codes[1..])
  {
  }

  /** A turn whose first code is accepted plays it and leaves the rest unread. */
  lemma MoveTakes(b: Board, mark: Mark, codes: seq<int>)
    requires b.Valid() && |codes| > 0 && Accepts(b, codes[0])
    ensures Move(b, mark, codes) == Some((PutMark(b, mark, Decode(codes[0])).0, codes[1..]))
  {
  }

  /** Every negative code is rejected: it names a row or a column below zero. */
  lemma NegativeCodeRejected(b: Board, code: int)
    requires b.Valid() && code < 0
    ensures !Accepts(b, code)
  {
  }

  /** A full board accepts no code, so the turn waits for input that never helps. */
  lemma FullBoardRejectsAll(b: Board, mark: Mark, codes: seq<int>)
    requires b.Valid() && !HasBlank(b)
    ensures Move(b, mark, codes).None?
  {
    forall i | 0 <= i < |codes|
      ensures !Accepts(b, codes[i])
    {
      var p := Decode(codes[i]);
      if b.InBounds(p) {
        IndexOfPos(b, p);
        assert b.Cell(p.row * b.size + p.col) == b.At(p);
      }
    }
  }
}
