/** The clever player: takes the first BLANK cell in row-major order. */
module CleverPlayer {
  import opened Boards
  import opened Options

  /** k is the first BLANK cell in row-major order. */
  ghost predicate IsFirstBlank(b: Board, k: int)
    requires b.Valid()
  {
    0 <= k < b.Area() && b.Cell(k) == Blank && forall j :: 0 <= j < k ==> b.Cell(j) != Blank
  }

  /** The row-major scan from index k for a BLANK cell. */
  function FirstBlankFrom(b: Board, k: nat): (r: Option<nat>)
    requires b.Valid() && k <= b.Area()
    ensures r.Some? ==> k <= r.value < b.Area() && b.Cell(r.value) == Blank
    ensures r.Some? ==> forall j :: k <= j < r.value ==> b.Cell(j) != Blank
    ensures r.None? ==> forall j :: k <= j < b.Area() ==> b.Cell(j) != Blank
    decreases b.Area() - k
  {
    if k == b.Area() then None
    else if b.Cell(k) == Blank then Some(k)
    else FirstBlankFrom(b, k + 1)
  }

  /** One turn of the clever player: m goes into the first BLANK cell; a full
      board is left as it is. */
  function Move(b: Board, m: Mark): (r: Board)
    requires b.Valid()
    ensures HasBlank(b) ==> exists k :: IsFirstBlank(b, k) && Placed(b, r, m, b.PosOf(k))
    ensures !HasBlank(b) ==> r == b
  {
    match FirstBlankFrom(b, 0)
    case None => b
    case Some(k) => PutMark(b, m, b.PosOf(k)).0
  }

  /** At most one cell changes and no occupied cell is overwritten. */
  lemma MoveExtends(b: Board, m: Mark)
    requires b.Valid()
    ensures Extends(b, Move(b, m))
  {
    var r := Move(b, m);
    if HasBlank(b) {
      var k :| IsFirstBlank(b, k) && Placed(b, r, m, b.PosOf(k));
      PlacedExtends(b, r, m, b.PosOf(k));
    }
  }

  /** On a board with a BLANK cell, the player's mark is on the board afterwards. */
  lemma MovePlacesMark(b: Board, m: Mark)
    requires b.Valid() && HasBlank(b)
    ensures exists p :: b.InBounds(p) && Move(b, m).At(p) == m
  {
    var r := Move(b, m);
    var k :| IsFirstBlank(b, k) && Placed(b, r, m, b.PosOf(k));
    var p := b.PosOf(k);
    assert b.InBounds(p) && r.At(p) == m;
  }

  /** The mark goes into the first BLANK cell in row-major order. */
  lemma TakesFirstBlank(b: Board, m: Mark, k: int)
    requires b.Valid() && IsFirstBlank(b, k)
    ensures Placed(b, Move(b, m), m, b.PosOf(k))
  {
    var j :| IsFirstBlank(b, j) && Placed(b, Move(b, m), m, b.PosOf(j));
    FirstBlankUnique(b, j, k);
  }

  /** Two cells that are both the first BLANK one are the same cell. */
  lemma FirstBlankUnique(b: Board, j: int, k: int)
    requires b.Valid()
    ensures IsFirstBlank(b, j) && IsFirstBlank(b, k) ==> j == k
  {
  }
}
