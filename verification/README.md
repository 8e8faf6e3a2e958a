# Tic-Tac-Toe in Dafny

This project models a generalised tic-tac-toe program and proves properties
of the model. The program plays on an n x n board with a configurable winning
streak. It has four kinds of players:

- a human reading coordinate codes;
- a "clever" player taking the first free cell;
- a "genius" player following a chain of rules;
- a "whatever" player choosing cells at random.

A tournament plays a fixed number of rounds and swaps colours every round.

The model is purely functional. A board is an immutable value, and every
player's turn is a function from a board to a new board. Keyboard input and
random numbers come from a `Tape`, which holds the typed codes and the random
draws. When the tape runs out, the turn yields `None` and the game
`Stalled`. The game loop is written once, over two parameters:

- a turn function, constrained by `Games.Plays`;
- a win test, constrained by `Games.Detects`.

`Games.Run` instantiates the loop with the program's players
(`Games.Turns`) and its win check (`Games.Wins`).

Modules, one file each:

- `Boards` (boards.dfy): marks, positions, the board and its guarded write.
  Also row-major indexing and occupancy counting.
- `WinCheck` (win.dfy): the four direction helpers, the per-cell search,
  the row-major win scan, and a reference definition of "m has s in a line".
- `CleverPlayer`, `GeniusPlayer`, `HumanPlayer`, `WhateverPlayer`: one
  player each.
- `Players` (players.dfy): one dispatching turn over the four strategies.
- `Games` (game.dfy): the configuration rules and the turn loop.
- `PlayerFactory`, `RendererFactory` (factories.dfy): name-to-object
  factories.
- `Tournament` (tournament.dfy): argument validation, seating, the tally and
  the entry point.
- `Scenarios`, `HumanScenarios`, `WinScenarios` (scenarios.dfy): the
  situations the repository's unit tests script, stated as lemmas.
- `Replays` (replays.dfy): the games and tournaments between the genius and
  the clever player, replayed move by move through the game loop for every
  board side of at least 4 with a streak of 3.

## Model

| member | source | states |
|---|---|---|
| Boards.NewBoard | src/Board.java:26-40 | A new board of side n is well formed, has size n, and every cell is BLANK. |
| Boards.DefaultBoard | src/Board.java:11-21 | The no-argument board has side 4 and is all BLANK. |
| Boards.PutMark | src/Board.java:55-75 | A write succeeds exactly when the position is in range and BLANK. A refused write leaves the board as it was. A successful write puts the mark at that cell, changes nothing else, and never changes the size. |
| Boards.PutMarkThenGet | src/Board.java:82-84 | After a successful write, reading the cell gives back the mark written. |
| Boards.PutMarkExtends | src/Board.java:60-63 | No write changes a non-BLANK cell. |
| Boards.ExtendsTransitive | src/Board.java:60-63 | Boards in which no occupied cell ever changes compose: the relation is transitive. |
| Boards.PlacedExtends | src/Board.java:60-64 | Putting a mark on a BLANK cell never changes an occupied cell. |
| Boards.IndexOfPos | src/Game.java:116-117 | The nested row/column loops visit the cells in row-major order: an in-range position has an index in [0, n*n) that maps back to it. |
| Boards.PosOfInjective | src/Game.java:116-117 | Distinct row-major indices name distinct cells. |
| Boards.NotFullHasBlankCell | src/Game.java:106-109 | Fewer occupied cells than cells means some cell is BLANK. |
| Boards.PlacedOccupied | src/Board.java:64 | Writing a real mark on a BLANK cell raises the number of occupied cells by exactly one. |
| Boards.FullHasNoBlank | src/Game.java:106-109 | When every cell is counted as occupied, no cell is BLANK. |
| Boards.NewBoardEmpty | src/Board.java:34-40 | A fresh board has no occupied cell. |
| WinCheck.StreakFrom | src/Game.java:177-207 | The direction helper's count from an in-range cell is at least 1 and at most the distance to the board's edge. Every counted cell after the first is in range and holds the mark. The next cell is off the board or holds something else. |
| WinCheck.StreakFromIsRun | src/Game.java:177-207 | On a cell holding the mark, the helper's count equals the reference maximal run length. |
| WinCheck.LineIffRun | src/Game.java:177-207 | s cells of m start at p in direction d exactly when the reference run from p is at least s long. |
| WinCheck.RunSuffix | src/Game.java:177-207 | j steps into a run, the run that remains is exactly j shorter. |
| WinCheck.FindMaxStreak | src/Game.java:137-172 | The per-cell search returns either the required streak or 1, never any other length. |
| WinCheck.FindMaxStreakIffRun | src/Game.java:137-172 | The search reports the required streak s exactly when s is 1 or, in some direction, the maximal run from the cell has length exactly s. |
| WinCheck.ReachesIffRun | src/Game.java:140-146 | Away from s = 1, one direction's test in the search holds exactly when that direction's maximal run is s long. |
| WinCheck.ScanWin | src/Game.java:116-125 | The row-major scan returns the mark or BLANK, never the other player's mark. |
| WinCheck.ScanWinIffStart | src/Game.java:116-125 | The scan from index k reports the mark exactly when a run of exactly s starts at some index from k on. |
| WinCheck.CheckWinStreak | src/Game.java:115-126 | For a real mark and a streak of at least 1, the check reports the mark exactly when the mark has at least s consecutive cells along a row, a column, a diagonal or an anti-diagonal. Otherwise it reports BLANK. |
| WinCheck.LineFindsStart | src/Game.java:115-126 | A line of at least s cells has a cell from which exactly s remain, so the scan, which asks for exactly s, still finds every longer line. |
| CleverPlayer.FirstBlankFrom | src/CleverPlayer.java:20-27 | The scan from k returns the first BLANK index at or after k, or None exactly when there is none. |
| CleverPlayer.Move | src/CleverPlayer.java:19-28 | If a cell is BLANK, the mark goes into the first BLANK cell in row-major order and nothing else changes. A full board is left as it is. |
| CleverPlayer.MoveExtends | src/CleverPlayer.java:22-24 | The clever player never overwrites a mark. |
| CleverPlayer.MovePlacesMark | src/CleverPlayer.java:19-28 | On a board with a BLANK cell, the player's mark is on the board afterwards. |
| CleverPlayer.TakesFirstBlank | src/CleverPlayer.java:20-24 | When cell k is the first BLANK cell in row-major order, the move puts the mark exactly at cell k. |
| GeniusPlayer.CountZero | src/GeniusPlayer.java:54-64 | The opponent count is 0 exactly when no cell holds an opponent mark. |
| GeniusPlayer.CountOne | src/GeniusPlayer.java:54-64 | The opponent count is 1 exactly when one cell, and only that cell, holds an opponent mark. |
| GeniusPlayer.CountMonotone | src/GeniusPlayer.java:56-62 | The opponent count over a row-major prefix never decreases as the prefix grows. |
| GeniusPlayer.IsGeniusVsRandom | src/GeniusPlayer.java:54-64 | The random-opponent test holds exactly when the board holds exactly one opponent mark. |
| GeniusPlayer.BlockAtUnique | src/GeniusPlayer.java:87-105 | The block test can fire at one cell at most. |
| GeniusPlayer.NeedToBlockFrom | src/GeniusPlayer.java:89-104 | The block scan from k reports a block exactly when the block condition holds at some later cell. The condition is: right after the second opponent cell, with no own mark up to it. When the scan reports a block, the board is the guarded write of the mark at that cell. Otherwise the board is unchanged. |
| GeniusPlayer.NeedToBlock | src/GeniusPlayer.java:87-105 | The block test reports true exactly when the block condition holds somewhere. It then attempts the mark at that cell; when it reports false, the board is unchanged. |
| GeniusPlayer.NeedToBlockOwnMarkFirst | src/GeniusPlayer.java:91-93 | An own mark met before two opponent cells are counted ends the test with false and no change. |
| GeniusPlayer.OneOpponentNoBlock | src/GeniusPlayer.java:87-105 | With exactly one opponent cell on the board the counter never reaches two: the test reports false and leaves the board unchanged. |
| GeniusPlayer.NeedToBlockFires | src/GeniusPlayer.java:94-97 | Once the block condition holds at a cell, the test reports true and attempts the mark exactly there. |
| GeniusPlayer.NeedToBlockMayNotPlace | src/GeniusPlayer.java:94-97 | The test can report a block without placing anything. On a 3 x 3 board whose top row is O O O, X's test fires at the third O, and the write there is refused. |
| GeniusPlayer.LastBlankFrom | src/GeniusPlayer.java:27-28 | The backward scan from k returns the last BLANK index at or before k, or None exactly when there is none. |
| GeniusPlayer.Scan | src/GeniusPlayer.java:27-45 | Each step of the backward loop either places the mark on one BLANK cell or leaves the board unchanged. |
| GeniusPlayer.Move | src/GeniusPlayer.java:18-46 | A genius turn places the mark on exactly one BLANK cell with nothing else changing, or leaves the board as it was. |
| GeniusPlayer.MoveIsRuleChain | src/GeniusPlayer.java:18-46 | The loop, which retries the corner and block rules at every step, equals an ordered rule chain. First comes "own corner, play clever", then "claim a BLANK corner against one opponent mark", then "block", then "take the last BLANK cell". |
| GeniusPlayer.ScanIsLastBlank | src/GeniusPlayer.java:40-43 | When neither the corner rule nor the block rule fires, the loop takes the last BLANK cell at or before its start. |
| GeniusPlayer.OwnCornerPlaysClever | src/GeniusPlayer.java:22-25 | With its own mark in the top-left corner, the genius player moves exactly like the clever player. |
| GeniusPlayer.ClaimsCornerAgainstOne | src/GeniusPlayer.java:31-34 | With a BLANK corner and exactly one opponent mark on the board, the genius player places its mark in the corner. |
| GeniusPlayer.TakesLastBlank | src/GeniusPlayer.java:40-43 | When no earlier rule fires, the mark goes to the last BLANK cell in row-major order. |
| HumanPlayer.Decode | src/HumanPlayer.java:31-32 | The code splits as row * 10 + column under truncating division. A non-negative code gives a non-negative row and a column in 0..9. A negative code gives a row and a column that are both at most 0. |
| HumanPlayer.DecodeEncode | src/HumanPlayer.java:31-32 | Typing row * 10 + column names the cell (row, column) for every non-negative row and one-digit column. |
| HumanPlayer.NegativeCodeTruncates | src/HumanPlayer.java:31-32 | Code -5 names row 0, column -5, unlike Euclidean division (row -1, column 5). |
| HumanPlayer.Move | src/HumanPlayer.java:24-45 | The turn is None exactly when no code names an in-range BLANK cell. Otherwise it plays the first such code, leaves every later code unread, and changes only that cell. |
| HumanPlayer.SkipRejected | src/HumanPlayer.java:33-39 | A rejected first code is only consumed: the rest of the turn is the turn on the later codes. |
| HumanPlayer.MoveSkips | src/HumanPlayer.java:33-39 | A turn whose first code is out of range or occupied is the turn on the codes after it. |
| HumanPlayer.MoveTakes | src/HumanPlayer.java:40-43 | A turn whose first code is accepted writes there and leaves the remaining codes unread. |
| HumanPlayer.NegativeCodeRejected | src/HumanPlayer.java:66-68 | The range check rejects every negative code. |
| HumanPlayer.FullBoardRejectsAll | src/HumanPlayer.java:29-44 | On a full board no code is accepted, so the turn never completes. |
| WhateverPlayer.Drawn | src/WhateverPlayer.java:24-25 | The two bounded draws name an in-range cell. |
| WhateverPlayer.Move | src/WhateverPlayer.java:23-30 | A completed random turn places the mark on one BLANK cell with nothing else changing, and consumes at least one pair of draws. |
| WhateverPlayer.FullBoardNeverPlaces | src/WhateverPlayer.java:23-29 | On a full board no draw names a BLANK cell, so the turn never completes. |
| Players.PlayTurn | src/Player.java:16 | Each strategy's turn keeps the board well formed at its size. It either places the mover's mark on one BLANK cell or changes nothing. The clever and genius players always move and read no input. The clever, human and random players, whenever they move, place exactly one mark. |
| Games.DefaultConfig | src/Game.java:28-34 | The default game is a 4 x 4 board with a streak of 3. |
| Games.NewConfig | src/Game.java:43-52 | The requested streak is kept exactly when it is strictly between 2 and the side, or equals it. Otherwise the streak is the side. The result is always a well-formed configuration. |
| Games.MinimumStreakFallsBack | src/Game.java:49-51 | A requested streak of 2 is not kept: the guard is strict. |
| Games.Mover | src/Game.java:78-92 | X makes the even-numbered moves and O the odd-numbered ones, and the mover is never BLANK. |
| Games.Turns | src/Game.java:78-88 | The program's players satisfy what the loop relies on. Each turn is defined on every non-empty board, keeps it well formed at its size, and never overwrites a mark. |
| Games.PlayTurnExtends | src/Game.java:78-88 | A turn that places one mark, or none, never overwrites a mark. |
| Games.Wins | src/Game.java:81-91 | The program's win test, on a real mark and a positive streak, is true exactly when the mark has a line of that length. |
| Games.RunFrom | src/Game.java:71-101 | The loop ends on a board that extends the one it started from. The move counter ends between its start value and n*n. |
| Games.RunFromEnds | src/Game.java:74-98 | A game ends as a draw only when n*n moves were counted. A win goes only to the mark that moved last. After at least one move, the game is a win exactly when that mark has a line of the required length. The win test comes before the draw test, so a full-board win is a win. |
| Games.RunFromCounts | src/Game.java:75-90 | For any board measure that each turn raises by one, the loop's move counter equals the measure of the final board. |
| Games.NonGeniusPlacesOne | src/Game.java:78-88 | Without the genius player, every turn on a board with a BLANK cell that moves places one mark. |
| Games.PlacesOneRaises | src/Game.java:80 | Turns that place one mark raise the number of occupied cells by one per move. |
| Games.TurnOccupies | src/Game.java:78-80 | A turn on a board that is not full occupies exactly one more cell. |
| Games.DrawFillsBoard | src/Game.java:106-109 | Between players other than the genius player, a game ends in a draw only on a board with no BLANK cell. |
| Games.RunStep | src/Game.java:81-87 | A move that does not win hands the game to the next move on the new board. |
| Games.RunWinStep | src/Game.java:81-84 | A move that wins ends the game with the mover as winner, on that board, counting that move. |
| Games.RunAlong | src/Game.java:71-101 | A game that passes through given boards, where no move before the last completes a line and the last one does, ends with the last mover as winner on the last board, after that many moves. |
| Games.AutomaticNeverWaits | src/Game.java:78-88 | When both seats hold the clever or the genius player, every turn on a non-empty board moves. |
| Games.RunFromFinishes | src/Game.java:71-101 | With turns that never wait for input, the loop always ends in a win or a draw and never stalls. |
| Games.RunFinishes | src/Game.java:71-101 | A game between two computer players (clever or genius, in either seat) always ends in a win or a draw. |
| PlayerFactory.BuildPlayer | src/PlayerFactory.java:19-39 | A built player's name is exactly the given string. Nothing is built for a string that is no player's name. |
| PlayerFactory.BuildNameOf | src/PlayerFactory.java:21-33 | Every player type is built back from its own name. |
| PlayerFactory.CapitalisedNameBuildsNothing | src/PlayerFactory.java:34-36 | Matching is case-sensitive: "Human" and "invalid" build nothing. |
| RendererFactory.BuildRenderer | src/RendererFactory.java:19-32 | "console" builds a console renderer carrying the size, and "none" builds the void renderer. Every other string builds nothing. |
| RendererFactory.BuildKindName | src/RendererFactory.java:21-27 | Every renderer is built back from its own name. |
| RendererFactory.RendererNames | src/RendererFactory.java:21-29 | The void renderer ignores the size. An unknown or capitalised name builds nothing. |
| Tournament.ToLower | src/Tournament.java:44-45 | Lower-casing keeps the length and lowers each character in place. |
| Tournament.AnyMatch | src/Tournament.java:63-68 | The renderer check passes exactly when some listed type equals the name ignoring case. |
| Tournament.CountMatches | src/Tournament.java:77-81 | The player-name count never exceeds the number of listed types. |
| Tournament.CountMatchesKnown | src/Tournament.java:73-81 | Over distinct types, the count equals the number of distinct known names among the two. |
| Tournament.PlayerTypesDistinct | src/Tournament.java:60 | No two player types are equal ignoring case. |
| Tournament.ValidationIff | src/Tournament.java:59-88 | The counting check passes exactly when the renderer name and both player names are known, ignoring case. |
| Tournament.BadRendererFirst | src/Tournament.java:69-72 | An unknown renderer name fails validation whatever the player names are. |
| Tournament.LowerMatch | src/Tournament.java:44-45 | A name equal to a lower-case type ignoring case lower-cases to that type. |
| Tournament.LowerUnchanged | src/Tournament.java:44-45 | Lower-casing a lower-case name leaves it as it is. |
| Tournament.KnownBuilds | src/Tournament.java:44-45 | A known player name, once lower-cased, builds a player. |
| Tournament.ValidatedPlayersBuild | src/Tournament.java:39-45 | After validation passes, both player names build players. |
| Tournament.KnownRendererBuilds | src/Tournament.java:43 | A renderer name that passes validation builds a renderer exactly when it is already lower-case, because it is not lower-cased before building. |
| Tournament.CapitalisedRendererBuildsNothing | src/Tournament.java:43 | "Console" passes the case-insensitive check but builds no renderer. |
| Tournament.Seats | src/Tournament.java:99-101 | In round r, players[r % 2] plays X and players[(r + 1) % 2] plays O. |
| Tournament.SeatOf | src/Tournament.java:103-108 | The seat credited for a mark is one of the two players. |
| Tournament.Credit | src/Tournament.java:102-111 | Each round adds exactly one to the total. An X win credits the X seat, an O win credits the O seat, and BLANK credits a tie. Nothing else changes. |
| Tournament.TallyOf | src/Tournament.java:98-113 | The tally's total is the number of rounds played. |
| Tournament.TallyCountsTies | src/Tournament.java:109-111 | The ties counter is the number of tied rounds. |
| Tournament.TallyCountsWins | src/Tournament.java:103-108 | Each player's counter is the number of rounds that player won, whichever colour they held. |
| Tournament.LastRoundTied | src/Tournament.java:109-111 | The last round joins the tied rounds exactly when it was a tie. |
| Tournament.LastRoundWon | src/Tournament.java:103-108 | The last round joins a player's won rounds exactly when that player won it. |
| Tournament.PlayRounds | src/Tournament.java:98-113 | No more winners are recorded than rounds remain. |
| Tournament.PlayTournament | src/Tournament.java:97-115 | The tally never counts more rounds than requested. It counts exactly that many when no round stalls. |
| Tournament.AutomaticRoundsPlayed | src/Tournament.java:98-113 | Between two computer players every remaining round is played: one winner per round. |
| Tournament.AutomaticTournamentTotal | src/Tournament.java:97-115 | A tournament between two computer players counts wins and ties adding up to exactly the number of rounds requested. |
| Tournament.Start | src/Tournament.java:38-50 | The program plays exactly when the renderer name and both player names are known, ignoring case. It reports a missing renderer exactly when validation passed, the renderer name is not lower-case, and some round would draw a board. |
| Tournament.StartPlays | src/Tournament.java:38-50 | Names that validate, a lower-case renderer name, and player names that lower-case to players p0 and p1 make the run play the tournament of p0, seated first, against p1. |
| Scenarios.DefaultBoardWrites | tests/Ex1Tests.java:110-150 | On the default board: a write at (0,0) succeeds and reads back; writes with row or column -1 or 5 fail; a second write to (0,0) fails and keeps the first mark. |
| Scenarios.EmptyBoardPlacement | tests/Ex1Tests.java:238-275 | Each strategy leaves its mark on an empty board: the clever and genius players always, and the human and random players whenever their input lets them move. |
| Scenarios.EmptyNoOpponents | src/GeniusPlayer.java:54-64 | An empty board never triggers the random-opponent rule. |
| Scenarios.EmptyNoBlock | src/GeniusPlayer.java:87-105 | An empty board never triggers the block rule. |
| Scenarios.Constructors | tests/Ex1Tests.java:285-307 | The configurations for the default game and for (5, 3), (3, 5) and (7, 1) are (4, 3), (5, 3), (3, 3) and (7, 7). |
| HumanScenarios.Codes | tests/Ex1Tests.java:205-235 | Codes 55, 00 and 01 name cells (5,5), (0,0) and (0,1). |
| HumanScenarios.HumanSkipsOutOfRange | tests/Ex1Tests.java:204-218 | On the empty default board, codes 55 then 00 skip 55 and play (0,0). |
| HumanScenarios.HumanSkipsOccupied | tests/Ex1Tests.java:220-235 | Codes 00, 00, 01 over two turns: the first turn plays (0,0). The second rejects the occupied 00 and plays (0,1). |
| WinScenarios.BlockedNoLine | src/Game.java:115-126 | Three cells containing one that is not m are not a line of m. |
| WinScenarios.LineStart | src/Game.java:177-207 | On a 3 x 3 board, a line of three starts on the edge its direction leaves. |
| WinScenarios.NoThreeInLine | src/Game.java:115-126 | On a 3 x 3 board whose every row, column and diagonal is blocked for m, m has no line of three. |
| WinScenarios.TiePositionNoWinner | tests/Ex1Tests.java:333-367 | The final position of the scripted tie is a win for neither mark. |
| WinScenarios.TieBoardIsTie | tests/Ex1Tests.java:333-367 | The literal tie board is well formed and a win for neither mark. |
| WinScenarios.ThreeInLine | src/Game.java:115-126 | Three m's along any of the four directions make the check report m. |
| WinScenarios.RowWin | tests/Ex1Tests.java:409-421 | X wins on the final position of the codes 00, 10, 01, 11, 02. |
| WinScenarios.TopRowWin | tests/Ex1Tests.java:423-435 | X wins on the final position of the codes 00, 11, 01, 12, 02. |
| WinScenarios.DiagonalWin | tests/Ex1Tests.java:437-449 | X wins on the final position of the codes 00, 10, 11, 12, 22. |
| WinScenarios.AntiDiagonalWin | tests/Ex1Tests.java:451-463 | X wins on the final position of the codes 02, 10, 11, 12, 20. |
| WinScenarios.LastMoveWin | tests/Ex1Tests.java:372-407 | X wins on the final position of the nine codes that fill the board with X's diagonal. |
| Replays.GeniusSeatedAsX | src/Game.java:78-88 | In the game of genius as X against clever as O, the even moves are the genius player's and the odd ones the clever player's, and no move reads the tape. |
| Replays.GeniusSeatedAsO | src/Game.java:78-88 | In the game of clever as X against genius as O, the odd moves are the genius player's and the even ones the clever player's, and no move reads the tape. |
| Replays.GeniusXAfter7 | src/GeniusPlayer.java:18-46 | Genius as X against clever on any side n of at least 4: after seven moves X holds the three rightmost cells of the last row and (0,2), and O holds (0,0), (0,1) and (0,3). No earlier move completes three in a line, and the seventh does for X. |
| Replays.GeniusOAfter8 | src/GeniusPlayer.java:18-46 | Clever as X against genius on any side n of at least 4: after eight moves O holds the three rightmost cells of the last row and (0,2), and X holds (0,0), (0,1), (0,3) and the fifth cell in row-major order. No earlier move completes three in a line, and the eighth does for O. |
| Replays.GeniusRuns | src/Game.java:71-101 | Any loop whose turns seat genius against clever, and whose win test agrees with the win check, ends with the genius player's win after 7 moves as X or 8 as O, leaving the tape unread. |
| Replays.GeniusBeatsCleverAsX | tests/Ex1Tests.java:309-319 | On every side of at least 4 with a streak of 3, genius as X beats clever after 7 moves, on the final position named above, with the tape unread. |
| Replays.GeniusBeatsCleverAsO | tests/Ex1Tests.java:321-331 | On every side of at least 4 with a streak of 3, genius as O beats clever as X after 8 moves, on the final position named above, with the tape unread. |
| Replays.DefaultGames | tests/Ex1Tests.java:309-331 | In the default game, genius as X beats clever, and genius as O beats clever playing X. |
| Replays.RoundWinner | src/Tournament.java:99-102 | A tournament round of genius, seated first, against clever is won by X in even rounds and by O in odd rounds, and leaves the tape as it was. |
| Replays.GeniusRoundsFrom | src/Tournament.java:98-113 | Every round from a given one on is played, and the winners alternate X, O, X, ... with the round number. |
| Replays.AlternatingToFirstSeat | src/Tournament.java:103-108 | Winners alternating X, O, ... from round 0 are all credited to the player seated first: no wins for the second seat and no ties. |
| Replays.GeniusSweepsClever | tests/Ex1Tests.java:575-598 | On every side of at least 4 with a streak of 3 and for any number of rounds, the tournament credits every round to the genius player, none to the clever player, and records no tie. |
| Replays.GeniusAgainstClever | src/Tournament.java:38-50 | The names "none", "genius", "clever" run the tournament of the genius player, seated first, against the clever player, for any rounds, side and streak. |
| Replays.GeniusWinsEveryRound | tests/Ex1Tests.java:549-560 | Starting with "none", "genius", "clever" on a side of at least 4 with a streak of 3 (among them 10000 rounds on side 6) gives the genius player every round, the clever player none, and no tie. |

## Left out

- Console output is left out: prompts, error messages, board drawing and the final score print (`printTheFinalScore`). A renderer is an inert tag.
- Argument parsing in `main` (`Integer.parseInt`, the `args` array) is left out. `Tournament.Start` receives the parsed values.
- A negative board side, which makes the source throw on array allocation, is excluded by typing the side as a natural number.
- Reading outside the board with `getMark` is a precondition of `Board.At`, not a modelled exception. No modelled caller reads out of range.
- Randomness is a parameter. `WhateverPlayer.Move` reduces each pair of draws into [0, n) as `nextInt(n)` would, but the distribution is not modelled.
- WhateverPlayer.Move: the source retries forever on a full board. Here the turn returns None when the draws run out (`Stalled`).
- HumanPlayer.Move: when no input ever names a free cell, the source blocks waiting for input. Here the turn returns None when the codes run out (`Stalled`).
- Non-numeric keyboard input is left out. `KeyboardInput` is not part of this model; codes are already integers.
- Tournament.ToLower, Tournament.ValidationIff, Tournament.ValidatedPlayersBuild, Tournament.Start: case folding covers ASCII letters only, not the full Unicode case mapping of `toLowerCase` and `equalsIgnoreCase`. A name such as "GENİUS" (with U+0130, capital I with dot above) passes Java's `equalsIgnoreCase` against "genius". Its `toLowerCase` is 7 characters long, so `buildPlayer` returns null and the first turn throws a `NullPointerException`. The model instead returns `Rejected` for such a name.
- Tournament.Start: a renderer name that builds nothing (for example "Console") makes the source fail at the first board drawing. Here that is the outcome `NoRenderer`, without the partial tally the source may have printed. A first-round human turn that never completes would block instead of failing; that case is also reported as `NoRenderer`.
- Games.DrawFillsBoard: proved only for games without the genius player. Its block rule can report a move without placing a mark (`GeniusPlayer.NeedToBlockMayNotPlace`), so the move counter can outrun the occupied cells. A counted draw then need not mean a full board.
- The win-rate assertions against the random player (the genius player winning at least 55% of 10000 rounds) are statistical and are not stated.
- Replays.GeniusSweepsClever: the tournament test loops over sides 4 to 9 and every streak from 3 to the side. Only streak 3 is replayed, for every side of at least 4. Longer streaks lead to other games that are not replayed.
- The tournament test reads the wins through reflection on a field named `playersWins`, while the field in `Tournament` is `playerWins`. The model states the tally the test evidently means.
- The scripted human games are covered by their final positions (`WinScenarios`) together with the per-move lemmas on the human player. The tape-driven loop is not replayed for them.
- `Game.getWinStreak` and `Game.getBoardSize` are the fields of `Games.Config`.
