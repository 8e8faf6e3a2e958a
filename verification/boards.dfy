/** The game board: a square grid of marks with bounds-checked writes.
    Cells are addressed either by a position (row, column) or, for the
    row-major scans the players and the win check perform, by a linear
    index k in [0, size * size) standing for the cell (k / size, k % size). */
module Boards {

  /** The three states of a cell; BLANK is the empty cell. */
  datatype Mark = Blank | X | O

  /** Side of the board built by the no-argument constructor. */
  const DefaultBoardSize: nat := 4

  datatype Pos = Pos(row: int, col: int)

  datatype Board = Board(size: nat, cells: seq<seq<Mark>>) {

    /** The grid really is size x size. */
    predicate Valid() {
      |cells| == size && forall r :: 0 <= r < |cells| ==> |cells[r]| == size
    }

    /** Both coordinates lie in [0, size). */
    predicate InBounds(p: Pos) {
      0 <= p.row <= size - 1 && 0 <= p.col <= size - 1
    }

    /** The mark at an in-range position. */
    function At(p: Pos): Mark
      requires Valid() && InBounds(p)
    {
      cells[p.row][p.col]
    }

    /** The number of cells, size * size. */
    function Area(): nat {
      size * size
    }

    /** The position a row-major index stands for. */
    function PosOf(k: int): (p: Pos)
      requires 0 <= k < Area()
      ensures InBounds(p)
    {
      IndexInBounds(size, k);
      Pos(k / size, k % size)
    }

    /** The mark at a row-major index. */
    function Cell(k: int): Mark
      requires Valid() && 0 <= k < Area()
    {
      At(PosOf(k))
    }
  }

  /** A fresh board of side n with every cell BLANK. */
  function NewBoard(n: nat): (b: Board)
    ensures b.Valid() && b.size == n
    ensures forall p :: b.InBounds(p) ==> b.At(p) == Blank
  {
    Board(n, seq(n, _ => seq(n, _ => Blank)))
  }

  /** The board of the no-argument constructor. */
  function DefaultBoard(): (b: Board)
    ensures b.Valid() && b.size == 4
    ensures forall p :: b.InBounds(p) ==> b.At(p) == Blank
  {
    NewBoard(DefaultBoardSize)
  }

  /** b2 is b1 with the BLANK cell p now holding m and every other cell as it was. */
  ghost predicate Placed(b1: Board, b2: Board, m: Mark, p: Pos)
    requires b1.Valid()
  {
    && b2.Valid() && b2.size == b1.size
    && b1.InBounds(p) && b1.At(p) == Blank && b2.At(p) == m
    && forall q :: b1.InBounds(q) && q != p ==> b2.At(q) == b1.At(q)
  }

  /** Every non-BLANK cell of b1 holds the same mark in b2. */
  ghost predicate Extends(b1: Board, b2: Board)
    requires b1.Valid()
  {
    && b2.Valid() && b2.size == b1.size
    && forall q :: b1.InBounds(q) && b1.At(q) != Blank ==> b2.At(q) == b1.At(q)
  }

  /** Writes m at p when p is in range and BLANK; the flag tells whether it did. */
  function PutMark(b: Board, m: Mark, p: Pos): (r: (Board, bool))
    requires b.Valid()
    ensures r.0.Valid() && r.0.size == b.size
    ensures r.1 <==> b.InBounds(p) && b.At(p) == Blank
    ensures !r.1 ==> r.0 == b
    ensures r.1 ==> Placed(b, r.0, m, p)
  {
    if !b.InBounds(p) then (b, false)
    else if b.At(p) != Blank then (b, false)
    else (Board(b.size, b.cells[p.row := b.cells[p.row][p.col := m]]), true)
  }

  /** After a successful write the cell reads back as the mark written. */
  lemma PutMarkThenGet(b: Board, m: Mark, p: Pos)
    requires b.Valid() && PutMark(b, m, p).1
    ensures PutMark(b, m, p).0.At(p) == m
  {
  }

  /** Once a cell is non-BLANK no write changes it, and no write changes the size. */
  lemma PutMarkExtends(b: Board, m: Mark, p: Pos)
    requires b.Valid()
    ensures Extends(b, PutMark(b, m, p).0)
  {
  }

  lemma ExtendsTransitive(b1: Board, b2: Board, b3: Board)
    requires b1.Valid() && Extends(b1, b2) && Extends(b2, b3)
    ensures Extends(b1, b3)
  {
  }

  /** A placement of a real mark is an extension. */
  lemma PlacedExtends(b1: Board, b2: Board, m: Mark, p: Pos)
    requires b1.Valid() && Placed(b1, b2, m, p)
    ensures Extends(b1, b2)
  {
  }

  // ---------------------------------------------------------------------
  // Row-major indexing

  lemma IndexInBounds(n: nat, k: int)
    requires 0 <= k < n * n
    ensures 0 <= k / n < n && 0 <= k % n < n
  {
  }

  /** The row-major index of an in-range position, and its inverse. */
  lemma IndexOfPos(b: Board, p: Pos)
    requires b.InBounds(p)
    ensures 0 <= p.row * b.size + p.col < b.Area()
    ensures b.PosOf(p.row * b.size + p.col) == p
  {
    var n := b.size;
    var k := p.row * n + p.col;
    MulMonotone(p.row, n - 1, n);
    assert (n - 1) * n + n == n * n;
    DivModUnique(k, n, p.row, p.col);
  }

  lemma DivModUnique(k: int, n: int, q: int, r: int)
    requires n > 0 && 0 <= r < n && k == q * n + r
    ensures k / n == q && k % n == r
  {
    var q' := k / n;
    var r' := k % n;
    assert k == q' * n + r';
    if q > q' {
      MulMonotone(q' + 1, q, n);
      assert false;
    } else if q < q' {
      MulMonotone(q + 1, q', n);
      assert false;
    }
  }

  lemma MulMonotone(a: int, b: int, n: nat)
    requires a <= b
    ensures a * n <= b * n
  {
  }

  /** Distinct indices name distinct positions. */
  lemma PosOfInjective(b: Board, j: int, k: int)
    requires 0 <= j < b.Area() && 0 <= k < b.Area() && j != k
    ensures b.PosOf(j) != b.PosOf(k)
  {
    var n := b.size;
    assert j == (j / n) * n + j % n;
    assert k == (k / n) * n + k % n;
  }

  // ---------------------------------------------------------------------
  // Occupancy

  /** The number of non-BLANK cells among the first k in row-major order. */
  function CountOccupied(b: Board, k: nat): (c: nat)
    requires b.Valid() && k <= b.Area()
    ensures c <= k
  {
    if k == 0 then 0
    else CountOccupied(b, k - 1) + (if b.Cell(k - 1) != Blank then 1 else 0)
  }

  /** The number of non-BLANK cells on the board. */
  function Occupied(b: Board): nat
    requires b.Valid()
  {
    CountOccupied(b, b.Area())
  }

  /** Fewer than all cells occupied means some cell is BLANK. */
  lemma {:induction false} NotFullHasBlank(b: Board, k: nat)
    requires b.Valid() && k <= b.Area() && CountOccupied(b, k) < k
    ensures exists j :: 0 <= j < k && b.Cell(j) == Blank
  {
    if b.Cell(k - 1) != Blank {
      NotFullHasBlank(b, k - 1);
    }
  }

  /** Placing a non-BLANK mark raises the occupancy by exactly one. */
  lemma PlacedOccupied(b1: Board, b2: Board, m: Mark, p: Pos)
    requires b1.Valid() && Placed(b1, b2, m, p) && m != Blank
    ensures Occupied(b2) == Occupied(b1) + 1
  {
    IndexOfPos(b1, p);
    var i := p.row * b1.size + p.col;
    PlacedCount(b1, b2, m, p, i, b1.Area());
  }

  lemma {:induction false} PlacedCount(b1: Board, b2: Board, m: Mark, p: Pos, i: int, k: nat)
    requires b1.Valid() && Placed(b1, b2, m, p) && m != Blank
    requires 0 <= i < b1.Area() && b1.PosOf(i) == p && k <= b1.Area()
    ensures CountOccupied(b2, k) == CountOccupied(b1, k) + (if i < k then 1 else 0)
  {
    if k > 0 {
      PlacedCount(b1, b2, m, p, i, k - 1);
      if k - 1 != i {
        PosOfInjective(b1, k - 1, i);
      }
    }
  }

  /** Some cell of b is BLANK. */
  ghost predicate HasBlank(b: Board)
    requires b.Valid()
  {
    exists k :: 0 <= k < b.Area() && b.Cell(k) == Blank
  }

  /** A board with fewer occupied cells than cells has a BLANK one. */
  lemma NotFullHasBlankCell(b: Board)
    requires b.Valid() && Occupied(b) < b.Area()
    ensures HasBlank(b)
  {
    NotFullHasBlank(b, b.Area());
  }

  /** All of the first k cells occupied means none of them is BLANK. */
  lemma {:induction false} FullHasNoBlank(b: Board, k: nat)
    requires b.Valid() && k <= b.Area() && CountOccupied(b, k) == k
    ensures forall j :: 0 <= j < k ==> b.Cell(j) != Blank
  {
    if k > 0 {
      FullHasNoBlank(b, k - 1);
    }
  }

  /** A fresh board has nothing on it. */
  lemma {:induction false} NewBoardEmpty(n: nat, k: nat)
    requires k <= n * n
    ensures CountOccupied(NewBoard(n), k) == 0
  {
    if k > 0 {
      NewBoardEmpty(n, k - 1);
    }
  }
}
