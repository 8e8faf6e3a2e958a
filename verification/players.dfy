/** The player capability: a tag per strategy and one dispatching turn.
    Human input and random draws come from a tape the caller supplies. */
module Players {
  import opened Boards
  import opened Options
  import CleverPlayer
  import GeniusPlayer
  import HumanPlayer
  import WhateverPlayer

  datatype Strategy = Human | Clever | Whatever | Genius

  /** The computer players that read nothing: they never wait for input. */
  predicate Automatic(s: Strategy) {
    s == Clever || s == Genius
  }

  /** What the interactive and the random players read: typed codes and random draws. */
  datatype Tape = Tape(keys: seq<int>, draws: seq<int>)

  /** One turn of strategy s for mark on b; None when the tape ran out
      before the player could move. */
  function PlayTurn(s: Strategy, b: Board, mark: Mark, t: Tape): (r: Option<(Board, Tape)>)
    requires b.Valid() && b.size >= 1
    ensures r.Some? ==> r.value.0.Valid() && r.value.0.size == b.size
    ensures r.Some? ==> r.value.0 == b || exists p :: Placed(b, r.value.0, mark, p)
    ensures s == Clever || s == Genius ==> r.Some? && r.value.1 == t
    ensures s == Clever && HasBlank(b) ==> exists p :: Placed(b, r.value.0, mark, p)
    ensures s == Clever && !HasBlank(b) ==> r.value.0 == b
    ensures s == Human && r.Some? ==> exists p :: Placed(b, r.value.0, mark, p)
    ensures s == Whatever && r.Some? ==> exists p :: Placed(b, r.value.0, mark, p)
  {
    match s
    case Clever => Some((CleverPlayer.Move(b, mark), t))
    case Genius => Some((GeniusPlayer.Move(b, mark), t))
    case Human =>
      (match HumanPlayer.Move(b, mark, t.keys)
       case None => None
       case Some((b', keys)) => Some((b', t.(keys := keys))))
    case Whatever =>
      (match WhateverPlayer.Move(b, mark, t.draws)
       case None => None
       case Some((b', draws)) => Some((b', t.(draws := draws))))
  }
}
