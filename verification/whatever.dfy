/** The random player: draws a row and a column until the cell they name is
    BLANK, then plays there.  The random generator becomes a parameter: a
    sequence of draws, each reduced into [0, size) as a bounded random
    integer would be. */
module WhateverPlayer {
  import opened Boards
  import opened Options

  /** The cell named by the first two draws. */
  function Drawn(b: Board, draws: seq<int>): (p: Pos)
    requires b.size >= 1 && |draws| >= 2
    ensures b.InBounds(p)
  {
    Pos(draws[0] % b.size, draws[1] % b.size)
  }

  /** One turn: pairs of draws are consumed until one names a BLANK cell,
      where the mark is placed; None when the draws run out first. */
  function Move(b: Board, mark: Mark, draws: seq<int>): (r: Option<(Board, seq<int>)>)
    requires b.Valid() && b.size >= 1
    ensures r.Some? ==> exists p :: Placed(b, r.value.0, mark, p)
    ensures r.Some? ==> |r.value.1| <= |draws| - 2 && r.value.1 == draws[|draws| - |r.value.1|..]
    decreases |draws|
  {
    if |draws| < 2 then None
    else
      var p := Drawn(b, draws);
      if b.At(p) == Blank then Some((PutMark(b, mark, p).0, draws[2..]))
      else Move(b, mark, draws[2..])
  }

  /** On a full board no draw names a BLANK cell: the turn never places a mark. */
  lemma {:induction false} FullBoardNeverPlaces(b: Board, mark: Mark, draws: seq<int>)
    requires b.Valid() && b.size >= 1 && !HasBlank(b)
    ensures Move(b, mark, draws).None?
    decreases |draws|
  {
    if |draws| >= 2 {
      var p := Drawn(b, draws);
      IndexOfPos(b, p);
      assert b.Cell(p.row * b.size + p.col) == b.At(p);
      FullBoardNeverPlaces(b, mark, draws[2..]);
    }
  }
}
