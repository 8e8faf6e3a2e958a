/** Win detection: does a mark hold a run of the required length along a
    row, a column, a diagonal or an anti-diagonal?  The search looks only
    forward from each cell, in four directions, and asks whether the run
    starting there has exactly the required length; a longer run is still
    found, from the cell where exactly the required length of it remains. */
module WinCheck {
  import opened Boards

  /** The four forward directions: along the row (column + 1), down the
      column (row + 1), down-right (both + 1) and down-left (row + 1,
      column - 1). */
  datatype Dir = Across | Down | DownRight | DownLeft

  /** The cell i steps from p in direction d. */
  function Step(d: Dir, p: Pos, i: int): Pos {
    match d
    case Across => Pos(p.row, p.col + i)
    case Down => Pos(p.row + i, p.col)
    case DownRight => Pos(p.row + i, p.col + i)
    case DownLeft => Pos(p.row + i, p.col - i)
  }

  /** A quantity that shrinks with every step in direction d. */
  function Room(n: nat, p: Pos, d: Dir): int {
    match d
    case Across => n - p.col
    case _ => n - p.row
  }

  /** A step in direction d shrinks the room left in that direction. */
  lemma RoomShrinks(n: nat, p: Pos, d: Dir)
    ensures Room(n, Step(d, p, 1), d) < Room(n, p, d)
  {
  }

  function Min(a: int, b: int): int {
    if a <= b then a else b
  }

  /** How many cells, counting p itself, lie between p and the board's edge in direction d. */
  function EdgeDistance(n: nat, p: Pos, d: Dir): int {
    match d
    case Across => n - p.col
    case Down => n - p.row
    case DownRight => Min(n - p.row, n - p.col)
    case DownLeft => Min(n - p.row, p.col + 1)
  }

  /** An in-range cell has at least itself before the edge. */
  lemma EdgeDistanceOne(n: nat, p: Pos, d: Dir)
    requires 0 <= p.row < n && 0 <= p.col < n
    ensures EdgeDistance(n, p, d) >= 1
  {
  }

  /** Game.findMaxStreakRows, findMaxStreakCols and the two diagonal helpers: the run that
      starts at the in-range cell p and continues while the next cell in
      direction d is in range and holds m.  The cell p itself is counted
      without being inspected. */
  function StreakFrom(b: Board, m: Mark, p: Pos, d: Dir): (n: nat)
    requires b.Valid() && b.InBounds(p)
    ensures 1 <= n <= EdgeDistance(b.size, p, d)
    ensures forall i :: 0 <= i < n ==> b.InBounds(Step(d, p, i))
    ensures forall i :: 1 <= i < n ==> b.At(Step(d, p, i)) == m
    ensures !b.InBounds(Step(d, p, n)) || b.At(Step(d, p, n)) != m
    decreases Room(b.size, p, d)
  {
    var next := Step(d, p, 1);
    if b.InBounds(next) && b.At(next) == m then
      RoomShrinks(b.size, p, d);
      var r := StreakFrom(b, m, next, d);
      ExtendRunBack(b, m, p, d, r);
      1 + r
    else
      assert Step(d, p, 0) == p;
      EdgeDistanceOne(b.size, p, d);
      1
  }

  /** What the helper promises of the run from p's neighbour carries back to p, one longer. */
  lemma ExtendRunBack(b: Board, m: Mark, p: Pos, d: Dir, r: nat)
    requires b.Valid() && b.InBounds(p) && r >= 1
    requires b.InBounds(Step(d, p, 1)) && b.At(Step(d, p, 1)) == m
    requires forall i :: 0 <= i < r ==> b.InBounds(Step(d, Step(d, p, 1), i))
    requires forall i :: 1 <= i < r ==> b.At(Step(d, Step(d, p, 1), i)) == m
    requires !b.InBounds(Step(d, Step(d, p, 1), r)) || b.At(Step(d, Step(d, p, 1), r)) != m
    ensures forall i :: 0 <= i < r + 1 ==> b.InBounds(Step(d, p, i))
    ensures forall i :: 1 <= i < r + 1 ==> b.At(Step(d, p, i)) == m
    ensures !b.InBounds(Step(d, p, r + 1)) || b.At(Step(d, p, r + 1)) != m
    ensures r + 1 <= EdgeDistance(b.size, p, d)
  {
    var next := Step(d, p, 1);
    forall i | 0 <= i < r + 1
      ensures b.InBounds(Step(d, p, i))
    {
      if i > 0 {
        StepStep(d, p, 1, i - 1);
      } else {
        assert Step(d, p, 0) == p;
      }
    }
    forall i | 1 <= i < r + 1
      ensures b.At(Step(d, p, i)) == m
    {
      StepStep(d, p, 1, i - 1);
    }
    StepStep(d, p, 1, r);
    assert b.InBounds(Step(d, p, r));
  }

  /** Reference definition: the length of the maximal run of m that starts
      at p and goes in direction d (0 when p is off the board or not m). */
  ghost function RunLength(b: Board, m: Mark, p: Pos, d: Dir): nat
    requires b.Valid()
    decreases if b.InBounds(p) then Room(b.size, p, d) else 0
  {
    if !b.InBounds(p) || b.At(p) != m then 0
    else 1 + RunLength(b, m, Step(d, p, 1), d)
  }

  /** The s cells starting at p in direction d are all on the board and hold m. */
  ghost predicate Line(b: Board, m: Mark, p: Pos, d: Dir, s: int)
    requires b.Valid()
  {
    forall i :: 0 <= i < s ==> b.InBounds(Step(d, p, i)) && b.At(Step(d, p, i)) == m
  }

  /** m has s consecutive cells along some row, column, diagonal or anti-diagonal. */
  ghost predicate HasLine(b: Board, m: Mark, s: int)
    requires b.Valid()
  {
    exists p, d :: Line(b, m, p, d, s)
  }

  lemma StepStep(d: Dir, p: Pos, i: int, j: int)
    ensures Step(d, Step(d, p, i), j) == Step(d, p, i + j)
  {
  }

  /** On a cell holding m, the helper's count is the maximal run. */
  lemma {:induction false} StreakFromIsRun(b: Board, m: Mark, p: Pos, d: Dir)
    requires b.Valid() && b.InBounds(p) && b.At(p) == m
    ensures StreakFrom(b, m, p, d) == RunLength(b, m, p, d)
    decreases Room(b.size, p, d)
  {
    var next := Step(d, p, 1);
    if b.InBounds(next) && b.At(next) == m {
      StreakFromIsRun(b, m, next, d);
    }
  }

  /** A line of s cells starts at p exactly when the run from p is at least s long. */
  lemma {:induction false} LineIffRun(b: Board, m: Mark, p: Pos, d: Dir, s: nat)
    requires b.Valid()
    ensures Line(b, m, p, d, s) <==> RunLength(b, m, p, d) >= s
    decreases s
  {
    if s > 0 {
      LineIffRun(b, m, Step(d, p, 1), d, s - 1);
      LineUnfold(b, m, p, d, s);
    }
  }

  /** A line of s > 0 cells is its first cell followed by a line of s - 1 from the next. */
  lemma LineUnfold(b: Board, m: Mark, p: Pos, d: Dir, s: nat)
    requires b.Valid() && s > 0
    ensures Line(b, m, p, d, s) <==>
      b.InBounds(p) && b.At(p) == m && Line(b, m, Step(d, p, 1), d, s - 1)
  {
    assert Step(d, p, 0) == p;
    if Line(b, m, p, d, s) {
      LineTail(b, m, p, d, s);
    }
    if b.InBounds(p) && b.At(p) == m && Line(b, m, Step(d, p, 1), d, s - 1) {
      LineCons(b, m, p, d, s);
    }
  }

  lemma LineTail(b: Board, m: Mark, p: Pos, d: Dir, s: nat)
    requires b.Valid() && s > 0 && Line(b, m, p, d, s)
    ensures Line(b, m, Step(d, p, 1), d, s - 1)
  {
    forall i | 0 <= i < s - 1
      ensures b.InBounds(Step(d, Step(d, p, 1), i)) && b.At(Step(d, Step(d, p, 1), i)) == m
    {
      StepStep(d, p, 1, i);
    }
  }

  lemma LineCons(b: Board, m: Mark, p: Pos, d: Dir, s: nat)
    requires b.Valid() && s > 0 && b.InBounds(p) && b.At(p) == m
    requires Line(b, m, Step(d, p, 1), d, s - 1)
    ensures Line(b, m, p, d, s)
  {
    forall i | 0 <= i < s
      ensures b.InBounds(Step(d, p, i)) && b.At(Step(d, p, i)) == m
    {
      if i > 0 {
        StepStep(d, p, 1, i - 1);
      } else {
        assert Step(d, p, 0) == p;
      }
    }
  }

  /** j steps into a run, the run that remains is j shorter. */
  lemma {:induction false} RunSuffix(b: Board, m: Mark, p: Pos, d: Dir, j: nat)
    requires b.Valid() && j <= RunLength(b, m, p, d)
    ensures RunLength(b, m, Step(d, p, j), d) == RunLength(b, m, p, d) - j
    decreases j
  {
    if j > 0 {
      var next := Step(d, p, 1);
      RunSuffix(b, m, next, d, j - 1);
      StepStep(d, p, 1, j - 1);
    } else {
      assert Step(d, p, 0) == p;
    }
  }

  /** Checks whether the run from the neighbour of p in direction d, plus p, has length exactly s. */
  function ReachesExactly(b: Board, m: Mark, p: Pos, d: Dir, s: int): bool
    requires b.Valid() && b.InBounds(p)
  {
    var next := Step(d, p, 1);
    b.InBounds(next) && b.At(next) == m && 1 + StreakFrom(b, m, next, d) == s
  }

  /** Game.findMaxStreak, the per-cell search: s as soon as one of the four directions,
      tried in the order row, column, diagonal, anti-diagonal, gives a run of
      exactly s from p; otherwise 1. */
  function FindMaxStreak(b: Board, m: Mark, p: Pos, s: int): (n: int)
    requires b.Valid() && b.InBounds(p) && b.At(p) == m
    ensures n == s || n == 1
  {
    if ReachesExactly(b, m, p, Across, s) then s
    else if ReachesExactly(b, m, p, Down, s) then s
    else if ReachesExactly(b, m, p, DownRight, s) then s
    else if ReachesExactly(b, m, p, DownLeft, s) then s
    else 1
  }

  /** The search reports s from p exactly when s is 1 or the maximal run from p
      in some direction has length exactly s. */
  lemma FindMaxStreakIffRun(b: Board, m: Mark, p: Pos, s: int)
    requires b.Valid() && b.InBounds(p) && b.At(p) == m
    ensures FindMaxStreak(b, m, p, s) == s <==> s == 1 || SomeRunIs(b, m, p, s)
  {
    ReachesIffRun(b, m, p, Across, s);
    ReachesIffRun(b, m, p, Down, s);
    ReachesIffRun(b, m, p, DownRight, s);
    ReachesIffRun(b, m, p, DownLeft, s);
  }

  /** Away from s == 1, one direction's test in the search is the reference run having length s. */
  lemma ReachesIffRun(b: Board, m: Mark, p: Pos, d: Dir, s: int)
    requires b.Valid() && b.InBounds(p) && b.At(p) == m
    ensures s != 1 ==> (ReachesExactly(b, m, p, d, s) <==> RunLength(b, m, p, d) == s)
  {
    var next := Step(d, p, 1);
    if b.InBounds(next) && b.At(next) == m {
      StreakFromIsRun(b, m, next, d);
    }
  }

  /** In one of the four directions the maximal run from p has length exactly s. */
  ghost predicate SomeRunIs(b: Board, m: Mark, p: Pos, s: int)
    requires b.Valid()
  {
    || RunLength(b, m, p, Across) == s
    || RunLength(b, m, p, Down) == s
    || RunLength(b, m, p, DownRight) == s
    || RunLength(b, m, p, DownLeft) == s
  }

  /** A run of exactly s cells of m, by the reference definition, starts at p. */
  ghost predicate StreakStartsAt(b: Board, m: Mark, p: Pos, s: int)
    requires b.Valid()
  {
    b.InBounds(p) && b.At(p) == m && (s == 1 || SomeRunIs(b, m, p, s))
  }

  /** checkWinStreak's row-major scan from index k on: the first cell holding m
      whose search reports s ends the scan with m; BLANK when none does. */
  function ScanWin(b: Board, m: Mark, s: int, k: int): (r: Mark)
    requires b.Valid() && 0 <= k <= b.Area()
    ensures r == m || r == Blank
    decreases b.Area() - k
  {
    if k == b.Area() then Blank
    else if b.Cell(k) == m && FindMaxStreak(b, m, b.PosOf(k), s) == s then m
    else ScanWin(b, m, s, k + 1)
  }

  /** The scan from k reports m exactly when a run of exactly s starts at some index from k on. */
  lemma {:induction false} ScanWinIffStart(b: Board, m: Mark, s: int, k: int)
    requires b.Valid() && 0 <= k <= b.Area() && m != Blank
    ensures ScanWin(b, m, s, k) == m <==> exists j :: k <= j < b.Area() && StreakStartsAt(b, m, b.PosOf(j), s)
    decreases b.Area() - k
  {
    if k < b.Area() {
      ScanWinIffStart(b, m, s, k + 1);
      var p := b.PosOf(k);
      if b.Cell(k) == m {
        FindMaxStreakIffRun(b, m, p, s);
      }
      if b.Cell(k) == m && FindMaxStreak(b, m, p, s) == s {
        assert StreakStartsAt(b, m, b.PosOf(k), s);
      } else {
        assert !StreakStartsAt(b, m, p, s);
        SkipNonStart(b, m, s, k);
      }
    }
  }

  lemma SkipNonStart(b: Board, m: Mark, s: int, k: int)
    requires b.Valid() && 0 <= k < b.Area() && !StreakStartsAt(b, m, b.PosOf(k), s)
    ensures (exists j :: k <= j < b.Area() && StreakStartsAt(b, m, b.PosOf(j), s))
      <==> (exists j :: k + 1 <= j < b.Area() && StreakStartsAt(b, m, b.PosOf(j), s))
  {
  }

  /** Game.checkWinStreak: the win check for m under the required streak s. */
  function CheckWinStreak(b: Board, m: Mark, s: int): (r: Mark)
    requires b.Valid()
    ensures r == m || r == Blank
    ensures m != Blank && s >= 1 ==> (r == m <==> HasLine(b, m, s))
  {
    ScanFindsLine(b, m, s);
    ScanWin(b, m, s, 0)
  }

  lemma ScanFindsLine(b: Board, m: Mark, s: int)
    requires b.Valid()
    ensures m != Blank && s >= 1 ==> (ScanWin(b, m, s, 0) == m <==> HasLine(b, m, s))
  {
    if m != Blank && s >= 1 {
      ScanWinIffStart(b, m, s, 0);
      if HasLine(b, m, s) {
        LineFindsStart(b, m, s);
      }
      if ScanWin(b, m, s, 0) == m {
        StartGivesLine(b, m, s);
      }
    }
  }

  /** Any line of at least s cells has a cell, its s-th from the end, where exactly s remain. */
  lemma LineFindsStart(b: Board, m: Mark, s: int)
    requires b.Valid() && s >= 1 && HasLine(b, m, s)
    ensures exists j :: 0 <= j < b.Area() && StreakStartsAt(b, m, b.PosOf(j), s)
  {
    var p, d :| Line(b, m, p, d, s);
    LineIffRun(b, m, p, d, s);
    var len := RunLength(b, m, p, d);
    var q := Step(d, p, len - s);
    RunSuffix(b, m, p, d, len - s);
    assert RunLength(b, m, q, d) == s;
    IndexOfPos(b, q);
    var j := q.row * b.size + q.col;
    assert StreakStartsAt(b, m, b.PosOf(j), s);
  }

  /** A cell where exactly s remain begins a line of s cells. */
  lemma StartGivesLine(b: Board, m: Mark, s: int)
    requires b.Valid() && s >= 1
    requires exists j :: 0 <= j < b.Area() && StreakStartsAt(b, m, b.PosOf(j), s)
    ensures HasLine(b, m, s)
  {
    var j :| 0 <= j < b.Area() && StreakStartsAt(b, m, b.PosOf(j), s);
    var p := b.PosOf(j);
    if s == 1 {
      assert Step(Across, p, 0) == p;
      assert Line(b, m, p, Across, 1);
    } else {
      var d :| d in {Across, Down, DownRight, DownLeft} && RunLength(b, m, p, d) == s;
      LineIffRun(b, m, p, d, s);
    }
  }
}
