/** The tournament: validation of the renderer and player names, the
    alternation of colours between rounds, and the tally of wins and ties. */
module Tournament {
  import opened Boards
  import opened Options
  import opened Players
  import opened Games
  import PlayerFactory
  import RendererFactory

  // ---------------------------------------------------------------------
  // Case-insensitive names

  /** Lower case for ASCII letters; every other character is kept. */
  function Lower(c: char): char {
    if 'A' <= c <= 'Z' then (c as int - 'A' as int + 'a' as int) as char else c
  }

  /** toLowerCase, on ASCII letters. */
  function ToLower(s: string): (r: string)
    ensures |r| == |s| && forall i :: 0 <= i < |s| ==> r[i] == Lower(s[i])
  {
    if |s| == 0 then [] else [Lower(s[0])] + ToLower(s[1..])
  }

  /** equalsIgnoreCase, on ASCII letters: same length and, position by
      position, the same character up to case. */
  predicate SameIgnoringCase(a: string, b: string) {
    |a| == |b| && forall i :: 0 <= i < |a| ==> Lower(a[i]) == Lower(b[i])
  }

  /** A string with no capital ASCII letter. */
  predicate IsLowerCase(s: string) {
    forall i :: 0 <= i < |s| ==> !('A' <= s[i] <= 'Z')
  }

  /** No two listed types are the same up to case. */
  predicate Distinct(types: seq<string>) {
    forall i, j :: 0 <= i < j < |types| ==> !SameIgnoringCase(types[i], types[j])
  }

  const PlayerTypes: seq<string> := ["human", "clever", "whatever", "genius"]
  const RendererTypes: seq<string> := ["console", "none"]

  /** The renderer check, and what "a known name" means: some listed type
      matches the name up to case. */
  function AnyMatch(types: seq<string>, name: string): (found: bool)
    ensures found <==> exists i :: 0 <= i < |types| && SameIgnoringCase(name, types[i])
  {
    if |types| == 0 then false
    else SameIgnoringCase(name, types[0]) || AnyMatch(types[1..], name)
  }

  /** The player check's count: the listed types that match either name. */
  function CountMatches(types: seq<string>, name1: string, name2: string): (n: nat)
    ensures n <= |types|
  {
    if |types| == 0 then 0
    else
      (if SameIgnoringCase(types[0], name1) || SameIgnoringCase(types[0], name2) then 1 else 0)
      + CountMatches(types[1..], name1, name2)
  }

  /** validation: the renderer name is checked first; the player names pass
      when one for "the names are equal" plus the number of player types
      matching either name comes to exactly two. */
  function Validation(rendererType: string, player1: string, player2: string): bool {
    if !AnyMatch(RendererTypes, rendererType) then false
    else
      var validNames := (if SameIgnoringCase(player1, player2) then 1 else 0)
        + CountMatches(PlayerTypes, player1, player2);
      validNames == 2
  }

  /** Over distinct types the count is the number of distinct known names
      among the two: one when the names agree up to case, otherwise one per
      known name, because no type matches two names that differ. */
  lemma {:induction false} CountMatchesKnown(types: seq<string>, name1: string, name2: string)
    requires Distinct(types)
    ensures SameIgnoringCase(name1, name2) ==>
      CountMatches(types, name1, name2) == (if AnyMatch(types, name1) then 1 else 0)
    ensures !SameIgnoringCase(name1, name2) ==>
      CountMatches(types, name1, name2) ==
        (if AnyMatch(types, name1) then 1 else 0) + (if AnyMatch(types, name2) then 1 else 0)
  {
    if |types| > 0 {
      var t, tail := types[0], types[1..];
      assert Distinct(tail) by {
        forall i, j | 0 <= i < j < |tail|
          ensures !SameIgnoringCase(tail[i], tail[j])
        {
          assert tail[i] == types[i + 1] && tail[j] == types[j + 1];
        }
      }
      CountMatchesKnown(tail, name1, name2);
      if SameIgnoringCase(t, name1) {
        NoSecondMatch(types, name1);
      }
      if SameIgnoringCase(t, name2) {
        NoSecondMatch(types, name2);
      }
      if SameIgnoringCase(t, name1) && SameIgnoringCase(t, name2) {
        assert SameIgnoringCase(name1, name2);
      }
      if SameIgnoringCase(name1, name2) {
        assert SameIgnoringCase(t, name1) <==> SameIgnoringCase(t, name2);
      }
    }
  }

  /** Over distinct types a name that matches the first type matches no other. */
  lemma NoSecondMatch(types: seq<string>, name: string)
    requires Distinct(types) && |types| > 0 && SameIgnoringCase(types[0], name)
    ensures !AnyMatch(types[1..], name)
  {
    var tail := types[1..];
    forall i | 0 <= i < |tail|
      ensures !SameIgnoringCase(name, tail[i])
    {
      assert tail[i] == types[i + 1];
      assert !SameIgnoringCase(types[0], types[i + 1]);
    }
  }

  /** The four player types are distinct up to case. */
  lemma PlayerTypesDistinct()
    ensures Distinct(PlayerTypes)
  {
    var t := PlayerTypes;
    assert |t[0]| == 5 && |t[1]| == 6 && |t[2]| == 8 && |t[3]| == 6;
    assert Lower(t[1][0]) != Lower(t[3][0]);
  }

  /** The counting test is the same as "both names are known". */
  lemma ValidationIff(rendererType: string, player1: string, player2: string)
    ensures Validation(rendererType, player1, player2) <==>
      AnyMatch(RendererTypes, rendererType) && AnyMatch(PlayerTypes, player1) && AnyMatch(PlayerTypes, player2)
  {
    PlayerTypesDistinct();
    CountMatchesKnown(PlayerTypes, player1, player2);
    if SameIgnoringCase(player1, player2) {
      if AnyMatch(PlayerTypes, player1) {
        var i :| 0 <= i < |PlayerTypes| && SameIgnoringCase(player1, PlayerTypes[i]);
        assert SameIgnoringCase(player2, PlayerTypes[i]);
      }
      if AnyMatch(PlayerTypes, player2) {
        var i :| 0 <= i < |PlayerTypes| && SameIgnoringCase(player2, PlayerTypes[i]);
        assert SameIgnoringCase(player1, PlayerTypes[i]);
      }
    }
  }

  /** Lower-casing a name that matches a lower-case type gives that type. */
  lemma LowerMatch(name: string, t: string)
    requires SameIgnoringCase(name, t) && IsLowerCase(t)
    ensures ToLower(name) == t
  {
    forall i | 0 <= i < |t|
      ensures ToLower(name)[i] == t[i]
    {
      assert Lower(t[i]) == t[i];
    }
  }

  /** A bad renderer name fails validation whatever the player names are. */
  lemma BadRendererFirst(rendererType: string, player1: string, player2: string)
    requires !AnyMatch(RendererTypes, rendererType)
    ensures !Validation(rendererType, player1, player2)
  {
  }

  /** main lower-cases the validated player names before building, so both
      build a player. */
  lemma ValidatedPlayersBuild(rendererType: string, player1: string, player2: string)
    requires Validation(rendererType, player1, player2)
    ensures PlayerFactory.BuildPlayer(ToLower(player1)).Some?
    ensures PlayerFactory.BuildPlayer(ToLower(player2)).Some?
  {
    ValidationIff(rendererType, player1, player2);
    KnownBuilds(player1);
    KnownBuilds(player2);
  }

  /** A known player name, lower-cased, is one of the factory's names. */
  lemma KnownBuilds(name: string)
    requires AnyMatch(PlayerTypes, name)
    ensures PlayerFactory.BuildPlayer(ToLower(name)).Some?
  {
    var i :| 0 <= i < |PlayerTypes| && SameIgnoringCase(name, PlayerTypes[i]);
    var t := PlayerTypes[i];
    assert IsLowerCase(t);
    LowerMatch(name, t);
  }

  /** The renderer name is not lower-cased: "Console" passes the
      case-insensitive check, yet builds no renderer. */
  lemma CapitalisedRendererBuildsNothing()
    ensures AnyMatch(RendererTypes, "Console")
    ensures RendererFactory.BuildRenderer("Console", 4).None?
  {
    assert SameIgnoringCase("Console", RendererTypes[0]);
  }

  /** A renderer name that passes the check builds a renderer exactly when it
      is already in lower case. */
  lemma KnownRendererBuilds(name: string, size: int)
    requires AnyMatch(RendererTypes, name)
    ensures RendererFactory.BuildRenderer(name, size).Some? <==> IsLowerCase(name)
  {
    var i :| 0 <= i < |RendererTypes| && SameIgnoringCase(name, RendererTypes[i]);
    var t := RendererTypes[i];
    assert IsLowerCase(t);
    if IsLowerCase(name) {
      LowerMatch(name, t);
      LowerUnchanged(name);
    }
  }

  /** Lower-casing a lower-case string changes nothing. */
  lemma LowerUnchanged(s: string)
    requires IsLowerCase(s)
    ensures ToLower(s) == s
  {
  }

  // ---------------------------------------------------------------------
  // Rounds and the tally

  /** The two players of a round: players[r % 2] plays X and
      players[(r + 1) % 2] plays O. */
  function Seats(p0: Strategy, p1: Strategy, round: nat): (s: (Strategy, Strategy))
    ensures s.0 == [p0, p1][round % 2] && s.1 == [p0, p1][(round + 1) % 2]
  {
    if round % 2 == 0 then (p0, p1) else (p1, p0)
  }

  /** The index of the player who held mark m in a round. */
  function SeatOf(round: nat, m: Mark): (i: nat)
    ensures i < 2
  {
    if m == X then round % 2 else (round + 1) % 2
  }

  /** playerWins[0], playerWins[1] and ties. */
  datatype Tally = Tally(wins0: nat, wins1: nat, ties: nat) {
    function Total(): nat {
      wins0 + wins1 + ties
    }

    function Wins(i: nat): nat
      requires i < 2
    {
      if i == 0 then wins0 else wins1
    }
  }

  /** One round's result: an X win credits the player seated as X, an O win
      the player seated as O, and BLANK a tie. */
  function Credit(s: Tally, round: nat, winner: Mark): (s': Tally)
    ensures s'.Total() == s.Total() + 1
    ensures winner == Blank ==> s'.ties == s.ties + 1 && s'.wins0 == s.wins0 && s'.wins1 == s.wins1
    ensures winner != Blank ==>
      && s'.ties == s.ties
      && s'.Wins(SeatOf(round, winner)) == s.Wins(SeatOf(round, winner)) + 1
      && s'.Wins(1 - SeatOf(round, winner)) == s.Wins(1 - SeatOf(round, winner))
  {
    match winner
    case X => if round % 2 == 0 then s.(wins0 := s.wins0 + 1) else s.(wins1 := s.wins1 + 1)
    case O => if (round + 1) % 2 == 0 then s.(wins0 := s.wins0 + 1) else s.(wins1 := s.wins1 + 1)
    case Blank => s.(ties := s.ties + 1)
  }

  /** The tally after rounds 0 .. |winners| - 1 with the given winners. */
  function TallyOf(winners: seq<Mark>): (s: Tally)
    ensures s.Total() == |winners|
  {
    if |winners| == 0 then Tally(0, 0, 0)
    else Credit(TallyOf(winners[..|winners| - 1]), |winners| - 1, winners[|winners| - 1])
  }

  /** The rounds that player i won. */
  ghost function RoundsWon(winners: seq<Mark>, i: nat): set<nat> {
    set r: nat | r < |winners| && winners[r] != Blank && SeatOf(r, winners[r]) == i
  }

  /** The rounds that ended in a tie. */
  ghost function RoundsTied(winners: seq<Mark>): set<nat> {
    set r: nat | r < |winners| && winners[r] == Blank
  }

  /** The ties counter counts exactly the tied rounds. */
  lemma {:induction false} TallyCountsTies(winners: seq<Mark>)
    ensures TallyOf(winners).ties == |RoundsTied(winners)|
  {
    var n := |winners|;
    if n > 0 {
      var prefix, w := winners[..n - 1], winners[n - 1];
      TallyCountsTies(prefix);
      LastRoundTied(winners);
      assert TallyOf(winners) == Credit(TallyOf(prefix), n - 1, w);
    } else {
      assert RoundsTied(winners) == {};
    }
  }

  /** Player i's counter counts exactly the rounds player i won. */
  lemma {:induction false} TallyCountsWins(winners: seq<Mark>, i: nat)
    requires i < 2
    ensures TallyOf(winners).Wins(i) == |RoundsWon(winners, i)|
  {
    var n := |winners|;
    if n > 0 {
      var prefix, w := winners[..n - 1], winners[n - 1];
      TallyCountsWins(prefix, i);
      LastRoundWon(winners, i);
      assert TallyOf(winners) == Credit(TallyOf(prefix), n - 1, w);
      if w != Blank && SeatOf(n - 1, w) != i {
        assert 1 - SeatOf(n - 1, w) == i;
      }
    } else {
      assert RoundsWon(winners, i) == {};
    }
  }

  /** The last round is a tie exactly when it joins the tied rounds. */
  lemma LastRoundTied(winners: seq<Mark>)
    requires |winners| > 0
    ensures var n, w, prefix := |winners|, winners[|winners| - 1], winners[..|winners| - 1];
      && RoundsTied(winners) == RoundsTied(prefix) + (if w == Blank then {n - 1} else {})
      && n - 1 !in RoundsTied(prefix)
  {
  }

  /** The last round joins player i's won rounds exactly when player i won it. */
  lemma LastRoundWon(winners: seq<Mark>, i: nat)
    requires |winners| > 0
    ensures var n, w, prefix := |winners|, winners[|winners| - 1], winners[..|winners| - 1];
      && RoundsWon(winners, i) == RoundsWon(prefix, i) + (if w != Blank && SeatOf(n - 1, w) == i then {n - 1} else {})
      && n - 1 !in RoundsWon(prefix, i)
  {
  }

  /** The winners of rounds `round` .. rounds - 1, each round a fresh game
      with the seats swapped from the last; the tape of typed codes and
      random draws runs on from round to round.  A round that stalls ends
      the list. */
  function PlayRounds(g: Config, p0: Strategy, p1: Strategy, rounds: nat, round: nat, t: Tape): (w: seq<Mark>)
    requires g.Valid() && round <= rounds
    ensures |w| <= rounds - round
    decreases rounds - round
  {
    if round == rounds then []
    else
      var seats := Seats(p0, p1, round);
      match Run(g, seats.0, seats.1, t)
      case Stalled(_, _) => []
      case Finished(winner, _, _, rest) => [winner] + PlayRounds(g, p0, p1, rounds, round + 1, rest)
  }

  /** playTournament: every round is a game of the given side and requested
      streak; the result is the tally of the rounds played. */
  function PlayTournament(size: nat, winStreak: int, p0: Strategy, p1: Strategy, rounds: nat, t: Tape): (s: Tally)
    ensures s.Total() <= rounds
    ensures |PlayRounds(NewConfig(size, winStreak), p0, p1, rounds, 0, t)| == rounds ==> s.Total() == rounds
  {
    TallyOf(PlayRounds(NewConfig(size, winStreak), p0, p1, rounds, 0, t))
  }

  /** Between two computer players no round stalls: every round from
      `round` on is played. */
  lemma {:induction false} AutomaticRoundsPlayed(g: Config, p0: Strategy, p1: Strategy, rounds: nat, round: nat, t: Tape)
    requires g.Valid() && round <= rounds && Automatic(p0) && Automatic(p1)
    ensures |PlayRounds(g, p0, p1, rounds, round, t)| == rounds - round
    decreases rounds - round
  {
    if round < rounds {
      var seats := Seats(p0, p1, round);
      RunFinishes(g, seats.0, seats.1, t);
      AutomaticRoundsPlayed(g, p0, p1, rounds, round + 1, Run(g, seats.0, seats.1, t).rest);
    }
  }

  /** A tournament between two computer players counts every round: its
      wins and ties add up to the number of rounds. */
  lemma AutomaticTournamentTotal(size: nat, winStreak: int, p0: Strategy, p1: Strategy, rounds: nat, t: Tape)
    requires Automatic(p0) && Automatic(p1)
    ensures PlayTournament(size, winStreak, p0, p1, rounds, t).Total() == rounds
  {
    AutomaticRoundsPlayed(NewConfig(size, winStreak), p0, p1, rounds, 0, t);
  }

  /** What a run of the program ends in. */
  datatype Launch =
    | Rejected
    | NoRenderer
    | Played(tally: Tally)

  /** main without the argument parsing: validate, build the renderer from the
      name as given and the players from the lower-cased names, and play.  A
      renderer that builds nothing fails at the first drawing of a board,
      which happens only when some round makes a move: at least one round on
      a board with at least one cell. */
  function Start(rendererType: string, player1: string, player2: string,
                 rounds: nat, size: nat, winStreak: int, t: Tape): (r: Launch)
    ensures r != Rejected <==>
      AnyMatch(RendererTypes, rendererType) && AnyMatch(PlayerTypes, player1) && AnyMatch(PlayerTypes, player2)
    ensures r == NoRenderer <==>
      Validation(rendererType, player1, player2) && !IsLowerCase(rendererType) && rounds > 0 && size > 0
    ensures r.Played? ==> r.tally.Total() <= rounds
  {
    ValidationIff(rendererType, player1, player2);
    if !Validation(rendererType, player1, player2) then Rejected
    else
      KnownRendererBuilds(rendererType, size);
      var renderer := RendererFactory.BuildRenderer(rendererType, size);
      if renderer.None? && rounds > 0 && size > 0 then NoRenderer
      else
        ValidatedPlayersBuild(rendererType, player1, player2);
        var p0 := PlayerFactory.BuildPlayer(ToLower(player1)).value;
        var p1 := PlayerFactory.BuildPlayer(ToLower(player2)).value;
        Played(PlayTournament(size, winStreak, p0, p1, rounds, t))
  }

  /** Names that validate, a renderer name that builds, and player names
      that lower-case to p0 and p1: the run plays the tournament of p0
      against p1. */
  lemma StartPlays(rendererType: string, player1: string, player2: string,
                   rounds: nat, size: nat, winStreak: int, t: Tape, p0: Strategy, p1: Strategy)
    requires AnyMatch(RendererTypes, rendererType) && IsLowerCase(rendererType)
    requires AnyMatch(PlayerTypes, player1) && AnyMatch(PlayerTypes, player2)
    requires PlayerFactory.BuildPlayer(ToLower(player1)) == Some(p0)
    requires PlayerFactory.BuildPlayer(ToLower(player2)) == Some(p1)
    ensures Start(rendererType, player1, player2, rounds, size, winStreak, t)
         == Played(PlayTournament(size, winStreak, p0, p1, rounds, t))
  {
    ValidationIff(rendererType, player1, player2);
    KnownRendererBuilds(rendererType, size);
  }
}
