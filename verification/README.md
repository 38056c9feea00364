# Verified model of fastchess

Fastchess runs tournaments between chess engines. This project models the parts of it in which a
mistake silently spoils a result: which games are generated and in which order, how finished games
become standings, what a save file means, who is blamed for the end of a game, and the small
algorithms around them (checksums, line framing, PGN wrapping, suggestions, clocks). Classes keep the
source's fields and change them in place; each method is proved against a function on values, and the
properties are proved about those functions for all inputs, all runs and all interleavings.

`dafny verify dfyconfig.toml` checks everything. Modules, by area:

- Tournament: `Scheduler` (pairing generator), `OpeningBook`, `ThreadPool`, `Tournament` (the step
  system of all worker threads), `RoundRobin` (the tournament object), `PlayGame` (one game on a worker
  thread), `Games` (a pairing from the generator to the scoreboard), `CachePool` (engines shared by
  running games).
- Standings: `Stats`, `ScoreBoard`, `Tallies` (what the reports ought to be), `Standings` (the reports of
  a complete tournament against that tally), `Elo`.
- Saving and resuming: `StatsJson`, `SaveResume`, `ResumePoints` (which pairs a resumed run plays),
  `ResumedStandings` (its final reports against those of an uninterrupted tournament).
- One match: `Adjudication` (draw and resign trackers), `MatchSteps` (a match as a function of
  everything the engines and the stop flag may do), `Rulings` (when exactly each ending comes about, and
  for which colour), `Match` (the object carrying those steps out), `Fairness` (who loses by
  resignation), `TimeControl`.
- Algorithms: `Levenshtein`, `Gf2Division` and `Crc32` (section 8 of RFC 1952), `FileWriter`,
  `LineFraming`, `PgnGenerator` with `PgnReader` and `PgnText`; helpers in `Collections`, `DivMod`, `Options`.

Engines, pipes, clocks, random numbers and threads appear as parameters: a match receives the list of
everything its engines will answer, including failures, exceptions and readings of the stop flag; the
tournament is a step system in which any enabled step may come next; a shuffle receives the numbers
drawn. The chess library is a record of functions on an abstract board (`MatchSteps.Rules`) of which
only two things are assumed (`MatchSteps.Chess`): a reason for the end of the game comes exactly with
the results lose or draw, and a move passes the turn.

## What the proofs show about the code

Most of what the code promises holds as promised. Where it does not, the exact condition is proved:

- A gauntlet with 0 seeds announces 0 games but its generator deals one pair per round; the announced
  total is right in all other cases (`Scheduler.TotalIsEmitted`).
- The scoreboard inverts the first game of a pair whatever its colours were. With exchanged colours every
  report counts each game of the completed pairs once and from the right side
  (`Tallies.StandingsAreRight`, `Standings.FinalStandingsAreRight`). With `noswap`, which does not switch
  pair accounting off (app/src/cli/sanitize.cpp:31-34), the first game is credited to the wrong player:
  two wins are reported as a win and a loss (`Tallies.TwoWinsReportedAsOne`). A pair with equal colours is
  reported rightly exactly when its first game was a draw (`Tallies.EqualPairRightIff`). Games stored
  singly are always reported rightly (`Tallies.SinglyIsRight`), so the standings of all complete runs are
  right for all outcomes exactly when `noswap` or pair accounting is off (`Standings.RightExactlyWhen`).
  The order in which games with equal colours finish matters, too, unless they ended alike
  (`ScoreBoard.SameColoursOrderMatters`).
- A resumed two-engine run restores every report and plays the right number of games, but it goes by
  the number of recorded games. If the second of two pairs is completed first, the resumed run plays the
  second pair again and never finishes the first (`ResumePoints.SecondPairFirst`). It plays exactly the
  missing pairs at every save point of every run if and only if the concurrency is 1 or at most one pair
  was outstanding (`ResumePoints.ResumesExactlyWhen`); then the final reports are those of a tournament
  that was never interrupted (`ResumedStandings.ResumedTournamentIsTheSame`). In general pairs that were
  complete and are played again count twice and pairs that are neither are missing, and nothing else
  differs (`ResumedStandings.ResumedAgainstWhole`).
- After a number of games that is not a whole number of pairs, which only games stored singly allow, a
  resumed run begins the open pair anew (`Scheduler.ResumeEmitsRestExactlyWhen`), and with two games per
  pair all its pairs begin with the colours exchanged (`RoundRobin.ColoursOfPair`).
- A saved entry is read back under its own names exactly when the first name followed by a space does
  not contain the separator (`StatsJson.ParseFormat`), and whole results come back unchanged exactly when
  this holds for all their entries (`StatsJson.JsonRoundTrip`). For the report of two engines the exact
  condition is `SaveResume.ReportKeptExactlyWhen`.
- An exception inside a turn interrupts a match without stopping the tournament, so a worker's chain of
  games ends. A tournament that comes to rest has counted every game exactly when this never happened;
  with fewer such games than chains only they are missing (`Tournament.RestMeansComplete`), and with as
  many as there are chains the remaining games are never started (`Tournament.AllChainsDie`).
- A resignation is earned by the loser's own moves, whatever the engines and the other options do, exactly
  when the move count is 1, or at least 2 with a positive score threshold, or, for the two-sided rule, at
  least 1 (`Fairness.FairMatchesExactlyWhen`). The default threshold is 0; with it and a count of 2 an
  engine can lose after a single bad move of its own (`Fairness.UnearnedMatch`). A count of 0, which the
  command line accepts (app/src/cli/cli.cpp:395-396), ends a match before its first move on a negative score
  left over from an earlier game (`Fairness.LeftOverResigns`).
- The draw rule asks for a quiet tail exactly when its move count is positive; otherwise no match gets past
  the move number (`Adjudication.DrawQuietExactlyWhen`, `MatchSteps.DrawnAtMoveNumber`).
- Only a base time or a fixed time per move is enforced (app/src/matchmaking/player.hpp:28). An engine
  with an increment and no base time, which the command line accepts (app/src/cli/sanitize.cpp:120-121)
  and the engine is told of (app/src/engine/uci_engine.cpp:142-158), never loses on time
  (`Rulings.CanBeLateExactlyWhen`).
- When an engine fails before the first move, the reported reason names the side to move, which is the
  side that failed only by coincidence (`MatchSteps.StartupReason`).
- The assertions that end `gameLoop` (app/src/matchmaking/match/match.cpp:423-425) do not all hold: a
  stop before the first move leaves both results unset (`MatchSteps.StoppedAtOnce`). A finished match has
  results exactly when its last turn met no stop flag, neither before the turn nor right after a search
  that did not throw (`MatchSteps.ResultsSetExactlyWhen`). Such a match is never reported
  (`PlayGame.PlayGame`).
- When an engine's output is read up to a search word, what the same read returned after that line is
  lost. The lines of a second reading are then those of the stream exactly when only line ends were lost
  (`LineFraming.DroppedHarmlessExactlyWhen`).
- The text of a game is read back, with its numbers, moves and comments, exactly when no comment contains
  a closing brace; the writer does not replace one (`PgnText.TextReadBackExactlyWhen`). Its headers are read
  back exactly when no name contains a space or a line end and no value a line end
  (`PgnReader.HeadersReadBackExactlyWhen`).
- `resize` leaves twice as many thread slots as live workers, and one chain of games is seeded per slot;
  the number of concurrent games is still bounded by the live workers (`ThreadPool.ThreadPool.Resize`,
  `Tournament.ConcurrencyBound`).

## Model

| member | source | states |
|---|---|---|
| Scheduler.Scheduler.constructor | app/src/matchmaking/tournament/schedule/base_scheduler.hpp:16-33 | a scheduler resuming after some games stands at position 0 of its own run |
| Scheduler.Scheduler.Next | app/src/matchmaking/tournament/schedule/base_scheduler.hpp:36-78 | call number k returns exactly the k-th pairing of the lexicographic enumeration (round, players, pair and game numbers, opening), and nothing once the enumeration is exhausted; GeneratesEveryGame, FreshNumbers and PairNumbers say what that enumeration is |
| Scheduler.FreshNumbers | app/src/matchmaking/tournament/schedule/base_scheduler.hpp:49-49 | a fresh run hands out exactly the game numbers from 1 to the announced total |
| Scheduler.NumbersContinue | app/src/matchmaking/tournament/schedule/base_scheduler.hpp:49-49 | game numbers grow from game to game and continue the number of games played, without a gap |
| Scheduler.ResumedNumbers | app/src/matchmaking/tournament/schedule/base_scheduler.hpp:22-49 | a two-engine run resumed after whole pairs hands out exactly the missing numbers |
| Scheduler.PairNumbers | app/src/matchmaking/tournament/schedule/base_scheduler.hpp:52-64 | pairs are numbered from those played on, and each number goes to as many successive games as a pair has |
| Scheduler.Scheduler.MoveToNextPair | app/src/matchmaking/tournament/schedule/base_scheduler.hpp:59-75 | advances players, round and pair number to the next pair |
| Scheduler.StepPairCounts | app/src/matchmaking/tournament/schedule/base_scheduler.hpp:61-74 | that walk raises the lexicographic number of the pair by exactly one, for either limit |
| Scheduler.UnrankOfRank | app/src/matchmaking/tournament/schedule/base_scheduler.hpp:61-67 | every pair i < j has a number below n(n-1)/2 from which it is recovered |
| Scheduler.RankOfUnrank | app/src/matchmaking/tournament/schedule/base_scheduler.hpp:61-67 | every number below n(n-1)/2 is the number of the pair it decodes to |
| Scheduler.GeneratesEveryGame | app/src/matchmaking/tournament/schedule/base_scheduler.hpp:36-78 | a fresh run generates every (round, pair, game) of the tournament, at its lexicographic place |
| Scheduler.GeneratesOnlyGames | app/src/matchmaking/tournament/schedule/base_scheduler.hpp:36-78 | and nothing else, so each game appears exactly once; a gauntlet without seeds deals pairs that are no games of the tournament |
| Scheduler.AllPairs | app/src/matchmaking/tournament/roundrobin/scheduler.hpp:19-25 | the round-robin closed form counts the pairs below its limit |
| Scheduler.SeedPairs | app/src/matchmaking/tournament/gauntlet/scheduler.hpp:20-26 | the gauntlet closed form counts the pairs whose first player is a seed |
| Scheduler.TotalIsEmitted | app/src/matchmaking/tournament/gauntlet/scheduler.hpp:17-26 | the announced total is the number of generated games if and only if the tournament is not a gauntlet with 0 seeds |
| Scheduler.ResumeEmitsRest | app/src/matchmaking/tournament/schedule/base_scheduler.hpp:22-28 | with two engines a run resumed after whole pairs generates exactly the announced total minus the games played |
| Scheduler.ResumeEmitsRestExactlyWhen | app/src/matchmaking/tournament/schedule/base_scheduler.hpp:22-28 | for any number of games played, this holds if and only if they are whole pairs; otherwise the games of the open pair are generated again |
| Scheduler.ResumeContinues | app/src/matchmaking/tournament/schedule/base_scheduler.hpp:22-53 | each later pairing of a resumed two-engine run equals the one of an uninterrupted run with the same game number |
| Scheduler.ResumedGameIsTheSame | app/src/matchmaking/tournament/base/tournament.cpp:31-39 | with two engines each game of a run resumed after whole pairs has the players, numbers and opening of the uninterrupted run's game with that number |
| Scheduler.PairHasOppositeParity | app/src/matchmaking/tournament/schedule/base_scheduler.hpp:47-56 | the two games of a pair have consecutive numbers of different parity |
| OpeningBook.Shuffle | app/src/game/book/opening_book.hpp:21-27 | the array afterwards is the book shuffled by the choices drawn, one index in [i, n) per position |
| OpeningBook.ShuffledPermutes | app/src/game/book/opening_book.hpp:21-27 | the shuffle only permutes the book |
| OpeningBook.ShuffleReachesAll | app/src/game/book/opening_book.hpp:21-27 | every permutation of the book is the result of some choices |
| OpeningBook.ShuffleInjective | app/src/game/book/opening_book.hpp:21-27 | different choices give different permutations, so choices and permutations correspond one to one |
| OpeningBook.RotatedAt | app/src/game/book/opening_book.hpp:31-33 | element i of the rotated book is element (i + offset) mod n of the original |
| OpeningBook.OpeningBook.constructor | app/src/game/book/opening_book.cpp:15-25 | the prepared book starts at start - 1 + played / games, in the drawn order, cut to the number of rounds |
| OpeningBook.OpeningBook.Setup | app/src/game/book/opening_book.cpp:27-52 | shuffle, rotation and truncation in this order |
| OpeningBook.OrderedReachesAll | app/src/game/book/opening_book.cpp:40-43 | with random order every permutation of the book is the prepared order for some draws; otherwise the order is that of the file |
| OpeningBook.OpeningBook.FetchId | app/src/game/book/opening_book.cpp:70-76 | identifiers are dealt cyclically; an empty book deals none |
| OpeningBook.DealtOpening | app/src/game/book/opening_book.cpp:45-76 | fetch number k deals opening (k mod size + offset) mod n of the book as ordered |
| OpeningBook.ResumedOpening | app/src/game/book/opening_book.cpp:23-50 | a run resumed after some rounds deals each later round the opening an uninterrupted run deals it, through rotation, truncation and wrap-around |
| ThreadPool.ThreadPool.constructor | app/src/core/threading/threadpool.hpp:17-19 | every slot of a fresh pool holds a live worker |
| ThreadPool.ThreadPool.Enqueue | app/src/core/threading/threadpool.hpp:22-34 | the task goes to the end of the queue; a stopped pool refuses it |
| ThreadPool.ThreadPool.Take | app/src/core/threading/threadpool.hpp:82-94 | a worker takes the oldest task |
| ThreadPool.ThreadPool.Kill | app/src/core/threading/threadpool.hpp:51-67 | stops the pool once and empties queue and slots |
| ThreadPool.ThreadPool.Resize | app/src/core/threading/threadpool.hpp:36-49 | to a different size: 2n slots of which n hold live workers; 0 is refused, the same size changes nothing |
| ThreadPool.TournamentPool | app/src/matchmaking/tournament/base/tournament.cpp:58-58 | the pool of a tournament has as many workers as the concurrency and, unless that is 1, twice as many slots |
| Tournament.StepKeepsInv | app/src/matchmaking/tournament/roundrobin/roundrobin.cpp:54-76 | every step of every thread keeps: generated = queued + running + counted + lost, the queue holds the latest games in order, no game is with two workers or counted twice, every chain is accounted for |
| Tournament.RunKeepsInv | app/src/matchmaking/tournament/roundrobin/roundrobin.cpp:54-76 | these invariants hold in every reachable state |
| Tournament.StartsInOrder | app/src/core/threading/threadpool.hpp:86-93 | games start in increasing order of their numbers and none is skipped |
| Tournament.ConcurrencyBound | app/src/matchmaking/tournament/base/tournament.cpp:118-126 | games under way never exceed the live workers, however many chains were seeded |
| Tournament.OneChainInOrder | app/src/matchmaking/tournament/base/tournament.cpp:118-126 | with a single chain at most one game is queued or under way and games are counted in the order of their numbers |
| Tournament.SeedsQueueGames | app/src/matchmaking/tournament/base/tournament.cpp:118-126 | starting n chains queues the first n games, or all if there are fewer |
| Tournament.LostCountsAborts | app/src/matchmaking/tournament/base/tournament.cpp:263-280 | without a stop the lost games are exactly those that ended in an exception |
| Tournament.RestMeansComplete | app/src/matchmaking/tournament/base/tournament.cpp:263-280 | a tournament at rest without a stop has counted every game exactly once if and only if no game ended in an exception; with fewer exceptions than chains exactly those games are missing |
| Tournament.AllChainsDie | app/src/matchmaking/tournament/base/tournament.cpp:263-280 | for any numbers of chains and workers: as many exceptions as chains bring the tournament to rest with games never started |
| Tournament.NeverStuck | app/src/matchmaking/tournament/roundrobin/roundrobin.cpp:44-51 | while games are outstanding, none is lost and there is no stop, some thread can move |
| Tournament.StepDecreasesMeasure | app/src/matchmaking/tournament/roundrobin/roundrobin.cpp:54-76 | every step other than a stop consumes a bounded resource |
| Tournament.RunsAreBounded | app/src/matchmaking/tournament/roundrobin/roundrobin.cpp:54-76 | a run without a stop has at most 4 * games + chains steps |
| RoundRobin.RoundRobin.StartNext | app/src/matchmaking/tournament/roundrobin/roundrobin.cpp:54-76 | hands the next pairing of the enumeration to the end of the queue, or nothing after a stop or at the end; this is the pull of the step system |
| RoundRobin.RoundRobin.Create | app/src/matchmaking/tournament/base/tournament.cpp:118-126 | seeds one chain per slot of the pool: queue, generator and counters are those of the step system after as many seed steps, so the queue holds the first pairings in order |
| RoundRobin.RoundRobin.AssignColours | app/src/matchmaking/tournament/roundrobin/roundrobin.cpp:80-91 | colours alternate with the parity of the game number unless noswap is set, and reverse exchanges them |
| RoundRobin.ColoursOfPair | app/src/matchmaking/tournament/roundrobin/roundrobin.cpp:85-91 | the engine named first has White in the first game of each pair and Black in the second; reverse exchanges this, so does resuming after an odd number of games, and noswap keeps the colours |
| Games.CreateMatch | app/src/matchmaking/tournament/roundrobin/roundrobin.cpp:79-135 | from a pairing to the board: a report goes under the names of those who had White and Black and nothing else touches the board; counted singly their report has one more win exactly if the engine with White won the match, one more loss exactly if the engine with Black did, else one more draw |
| RoundRobin.RoundRobin.FinishGame | app/src/matchmaking/tournament/roundrobin/roundrobin.cpp:101-135 | the board afterwards is the old one with this game recorded, pairwise or singly, up to entries without games; the game is counted |
| RoundRobin.SameBoardReportsAlike | app/src/matchmaking/tournament/roundrobin/roundrobin.cpp:120-120 | entries created by merely reading a report never show in any later report |
| RoundRobin.CountedGamesInPairs | app/src/matchmaking/tournament/schedule/base_scheduler.hpp:42-56 | among the games counted at any time, no pair has more than two |
| RoundRobin.CountedGamesSwapColours | app/src/matchmaking/tournament/roundrobin/roundrobin.cpp:85-91 | and unless noswap is set the two have exchanged colours |
| RoundRobin.FinalStandings | app/src/matchmaking/tournament/roundrobin/roundrobin.cpp:32-135 | the reports of a complete run do not depend on the number of workers or the interleaving |
| Standings.FinalStandingsAreRight | app/src/matchmaking/tournament/roundrobin/roundrobin.cpp:32-135 | after any complete run, with any number of workers and any interleaving, counting in pairs without noswap or singly with any number of games per pair, the report for two players is the initial one plus every game between them, each counted once from the right side |
| Standings.FinalPairsAreRight | app/src/matchmaking/tournament/roundrobin/roundrobin.cpp:32-135 | counting in pairs, the pair counts are the initial ones plus the kind of every pair, decided by the points of its two games |
| Standings.OneWinReportedWrongly | app/src/matchmaking/tournament/roundrobin/roundrobin.cpp:85-118 | with noswap and pair accounting a tournament in which White wins game 0 and all else is drawn is reported wrongly |
| Standings.RightExactlyWhen | app/src/matchmaking/tournament/roundrobin/roundrobin.cpp:85-118 | the standings of every complete run are right for all outcomes if and only if noswap or pair accounting is off |
| Tallies.SinglyIsRight | app/src/matchmaking/scoreboard.hpp:110-115 | games stored singly make a report of the initial one plus each game once, whatever the colours |
| Tallies.TallyOfPermutation | app/src/matchmaking/scoreboard.hpp:110-115 | the order of the games does not matter for it |
| Standings.SoloIsComplete | app/src/matchmaking/tournament/base/tournament.cpp:263-280 | for any numbers of chains and workers there is a complete run, which counts all games in order |
| Tallies.StandingsAreRight | app/src/matchmaking/scoreboard.hpp:119-156 | with exchanged colours every report is the initial one plus all games of completed pairs, each once from the right side |
| Tallies.ReportsAreRight | app/src/matchmaking/scoreboard.hpp:119-156 | and each completed pair is counted under the kind of the two tallies it consists of |
| Tallies.KindByPoints | app/src/matchmaking/scoreboard.hpp:132-139 | that kind is decided by the points of the pair, with two drawn games apart from a win and a loss |
| Tallies.TwoWinsReportedAsOne | app/src/matchmaking/scoreboard.hpp:126-141 | two wins of the same player with the same colours are reported as one win, one loss and a WL pair |
| Tallies.EqualPairRightIff | app/src/matchmaking/scoreboard.hpp:126-141 | on any board a pair with equal colours is reported rightly if and only if its first game was drawn |
| Tallies.EqualColoursRightIff | app/src/matchmaking/scoreboard.hpp:119-156 | with equal colours a report is right if and only if the first games of completed pairs were won as often as lost, and it is off by that difference |
| ScoreBoard.ScoreBoard.UpdateNonPair | app/src/matchmaking/scoreboard.hpp:110-115 | adds the game to the entry of (white, black) |
| ScoreBoard.MatchIsReported | app/src/matchmaking/scoreboard.hpp:110-156 | a match stored by itself adds one win, loss or draw to the report of White against Black as White won, lost or drew it, the opposite to the report of Black against White, and nothing to any other report |
| ScoreBoard.ScoreBoard.UpdatePair | app/src/matchmaking/scoreboard.hpp:119-146 | the first game of a pair waits in the cache from the other perspective, the second stores the finished pair; the result says whether the pair is complete |
| ScoreBoard.ScoreBoard.GetStats | app/src/matchmaking/scoreboard.hpp:149-156 | reports both colour orders from one perspective, and changes no report although it may create entries |
| ScoreBoard.ScoreBoard.GetAllStats | app/src/matchmaking/scoreboard.hpp:158-172 | the perspective-adjusted sum over all entries of an engine, for any order of walking the map |
| ScoreBoard.SumOverPick | app/src/matchmaking/scoreboard.hpp:163-169 | that sum does not depend on which entry comes first |
| ScoreBoard.TotalIsSumOfViews | app/src/matchmaking/scoreboard.hpp:158-172 | the total of an engine is the sum of its reports against each opponent |
| ScoreBoard.CacheHoldsHalfPairs | app/src/matchmaking/scoreboard.hpp:123-143 | after any games the cache holds exactly the pairs with one finished game, from the other perspective |
| ScoreBoard.ViewIsSumOfPairs | app/src/matchmaking/scoreboard.hpp:119-156 | after any games, whatever the colours, a report is the initial one plus what the board stores for every completed pair |
| ScoreBoard.SwappedPair | app/src/matchmaking/scoreboard.hpp:126-141 | a pair contributes the same whichever of its colour-swapped games finished first |
| ScoreBoard.OrderIndependent | app/src/matchmaking/scoreboard.hpp:119-156 | the same games finishing in any two orders give the same reports |
| ScoreBoard.SameColoursOrderMatters | app/src/matchmaking/scoreboard.hpp:126-141 | on any board, if both games of a pair had the same colours, the two finishing orders agree if and only if the games ended alike |
| ScoreBoard.RunStaysBalanced | app/src/matchmaking/scoreboard.hpp:132-141 | every entry reachable in pair mode satisfies wins = 2WW+WD+WL, draws = WD+2DD+LD, losses = 2LL+LD+WL |
| ScoreBoard.ViewBalanced | app/src/matchmaking/scoreboard.hpp:149-156 | so do all reports, and the two sides of a report mirror each other |
| Stats.PlusLaws | app/src/matchmaking/stats.hpp:31-49 | addition of results is commutative and associative with a neutral element |
| Stats.InvertLaws | app/src/matchmaking/stats.hpp:52-58 | inversion is its own inverse and respects sums and the bookkeeping of pairs |
| Stats.BalancedLaws | app/src/matchmaking/stats.hpp:31-58 | sums and inversion keep game counts and pair counts consistent |
| Stats.MatchIsOneGame | app/src/matchmaking/stats.hpp:20-29 | complementary results count as exactly one game: a win if and only if White won, a loss if and only if White lost, a draw if and only if both drew; exchanging the players inverts it |
| Stats.FinishedPairIsBalanced | app/src/matchmaking/scoreboard.hpp:132-139 | two single games make exactly one pair that agrees with their game counts |
| StatsJson.ParseFormat | app/src/matchmaking/scoreboard.hpp:52-61 | an entry is read back under its own names if and only if the first name and a space do not contain the separator |
| StatsJson.ToJson | app/src/matchmaking/scoreboard.hpp:46-56 | for any names: every entry is written under its text, every member holds an entry with that text, and every member name contains the separator |
| StatsJson.FromJson | app/src/matchmaking/scoreboard.hpp:58-65 | reading fails exactly on a name too short to be cut, and otherwise every member is read and every entry read holds a member with its names |
| StatsJson.JsonRoundTrip | app/src/matchmaking/scoreboard.hpp:46-65 | results come back unchanged if and only if the separator cuts none of their names |
| StatsJson.JsonHasSeparators | app/src/matchmaking/scoreboard.hpp:52-52 | reading what was written never fails |
| Elo.ScoresAgree | app/src/matchmaking/elo/elo_pentanomial.cpp:27-35 | on whole pairs the pentanomial score equals the trinomial score |
| Elo.PentaInvert | app/src/matchmaking/elo/elo_pentanomial.cpp:27-51 | the opponent has score 1 - s and the same variance |
| Elo.WdlInvert | app/src/matchmaking/elo/elo_wdl.cpp:30-46 | the same for the trinomial model |
| Elo.VarianceGap | app/src/matchmaking/elo/elo_wdl.cpp:37-46 | pairing lowers the variance by exactly the spread inside the mixed pairs |
| SaveResume.MergedResults | app/src/matchmaking/tournament/base/tournament.cpp:133-162 | the saved map has one entry for every two different names, under the one named first, holding their report |
| SaveResume.MergingKeepsReports | app/src/matchmaking/tournament/base/tournament.cpp:155-156 | merging keeps every report, whichever way round it is asked for |
| SaveResume.LoadResults | app/src/matchmaking/tournament/base/tournament.cpp:331-345 | installs the results and returns the number of games in them |
| SaveResume.RecordedGames | app/src/matchmaking/scoreboard.hpp:123-143 | at any moment the counted games are those of completed pairs plus those waiting in the cache, and only completed pairs show in the report |
| SaveResume.RecordedAtSavePoint | app/src/matchmaking/tournament/base/tournament.cpp:128-166 | for any save point of any run the recorded number of games is even and every entry is balanced |
| SaveResume.LoadedIsSaved | app/src/matchmaking/scoreboard.hpp:46-65 | the two-engine results read from a file are those written if and only if the separator does not cut the first name |
| SaveResume.ReportKeptExactlyWhen | app/src/matchmaking/scoreboard.hpp:46-65 | and the report of the two engines survives if and only if this holds, there is nothing to report, or the names come back exchanged under a report that is its own mirror image |
| SaveResume.TotalLoaded | app/src/matchmaking/tournament/base/tournament.cpp:331-345 | whatever the names, a loaded file counts two games for each completed pair besides those loaded before |
| SaveResume.SaveAndResume | app/src/matchmaking/tournament/base/tournament.cpp:128-166 | saving at any moment to a file and loading it restores every report, loads the counted games minus the half-finished pairs, and the resumed generator yields exactly the announced total minus that number, unless the separator cuts the first name |
| ResumePoints.ResumedPairs | app/src/matchmaking/tournament/schedule/base_scheduler.hpp:22-28 | a resumed run generates exactly the pairs from half the loaded number of games on |
| ResumePoints.ResumeIsSuffix | app/src/matchmaking/tournament/base/tournament.cpp:331-345 | for the file of any save point: resuming plays exactly the missing pairs if and only if no completed pair lies beyond the number of pairs the file counts |
| ResumePoints.SecondPairFirst | app/src/matchmaking/tournament/base/tournament.cpp:331-345 | with two workers and two pairs outstanding a run completes the second pair first; resuming then plays that pair again and never finishes the other |
| ResumePoints.OneChainResumes | app/src/matchmaking/tournament/base/tournament.cpp:58-58 | with one chain resuming is exact at every save point, whatever goes wrong |
| ResumePoints.ResumesExactlyWhen | app/src/matchmaking/tournament/base/tournament.cpp:331-345 | resuming is exact at every save point of every run if and only if the concurrency is 1 or at most one pair was outstanding |
| ResumedStandings.ResumedReport | app/src/matchmaking/tournament/base/tournament.cpp:331-345 | the final reports of a resumed run are the initial ones plus the pairs complete at the save point and those from half the loaded count on |
| ResumedStandings.ResumedAgainstWhole | app/src/matchmaking/tournament/base/tournament.cpp:331-345 | against any uninterrupted run in which every game ends alike: pairs complete and played again count twice, pairs neither complete nor played again are missing, nothing else differs |
| ResumedStandings.ResumedTournamentIsTheSame | app/src/matchmaking/tournament/base/tournament.cpp:128-166 | with a concurrency of 1 or at most one pair outstanding: run, save at any moment, load, run to the end with any number of workers; every report is that of an uninterrupted tournament, and right |
| ResumedStandings.SecondPairTwice | app/src/matchmaking/tournament/base/tournament.cpp:331-345 | with two workers a run after which resuming counts the second pair twice and never the first, so the reports agree only if the two ended alike |
| Adjudication.DrawTracker.Update | app/src/matchmaking/match/match.hpp:48-58 | the counter is again the longest quiet suffix of all reports |
| Adjudication.DrawTracker.Invalidate | app/src/matchmaking/match/match.hpp:64-64 | the same after a move without a score |
| Adjudication.DrawTracker.Adjudicatable | app/src/matchmaking/match/match.hpp:60-62 | a draw is due exactly when that suffix spans the move count for both sides, late enough in the game |
| Adjudication.DrawCountIsLongest | app/src/matchmaking/match/match.hpp:48-58 | the counter is the length of the longest suffix of near-zero scores not interrupted by an irreversible move |
| Adjudication.DrawQuietExactlyWhen | app/src/matchmaking/match/match.hpp:48-62 | a draw needs a quiet move from each side, and as many as configured, if and only if the move count is positive; otherwise the move number alone decides |
| Adjudication.ResignTracker.Update | app/src/matchmaking/match/match.hpp:85-100 | each counter is again the longest qualifying suffix: of all reports, or of the reports of one player |
| Adjudication.ResignTracker.Invalidate | app/src/matchmaking/match/match.hpp:107-118 | the same after a move without a score |
| Adjudication.ResignTracker.Resignable | app/src/matchmaking/match/match.hpp:102-105 | resignation is due exactly when such a suffix reaches the move count |
| Adjudication.DrawishExactlyWhen | app/src/matchmaking/match/match.hpp:52-52 | a score is near zero if and only if it is in centipawns between the two limits, which count; a mate never is |
| Adjudication.LosingExactlyWhen | app/src/matchmaking/match/match.hpp:94-94 | a score is losing if and only if it is at or below the limit, or a mate against the player |
| Adjudication.DecisiveExactlyWhen | app/src/matchmaking/match/match.hpp:87-87 | two-sided, a score counts if and only if it is at or beyond the limit for either side, or any mate |
| Adjudication.ResignDueExactlyWhen | app/src/matchmaking/match/match.hpp:102-105 | resignation is due if and only if the last reports of one player, as many as configured, were losing or, two-sided, twice as many of both were decisive |
| Adjudication.DrawDueExactlyWhen | app/src/matchmaking/match/match.hpp:60-62 | a draw is due if and only if the move number is reached and, with a positive move count, twice as many reports form a quiet tail |
| Adjudication.CountsStep | app/src/matchmaking/match/match.hpp:93-98 | a report moves only the counter of its own player |
| Adjudication.ResignIsEarned | app/src/matchmaking/match/match.hpp:85-118 | with a positive threshold and count, when resignation first fires the last move count moves of the losing engine were all losing and the opponent stayed below the limit |
| Adjudication.TwoSidedResign | app/src/matchmaking/match/match.hpp:86-103 | with the two-sided rule both engines agreed for the whole move count and the last score is negative |
| Adjudication.FairIsEarned | app/src/matchmaking/match/match.hpp:85-118 | with fair settings resignation fires only after a report, and whoever made the last one has earned it |
| Adjudication.FiresAtOnce | app/src/matchmaking/match/match.hpp:102-105 | with a count of 0 or less it fires on any negative score, also on one left over before the first move |
| Adjudication.UnearnedGame | app/src/matchmaking/match/match.hpp:85-118 | a game that blames the wrong engine, for every threshold of at most 0 and every count of at least 2 |
| Adjudication.FairExactlyWhen | app/src/matchmaking/match/match.hpp:85-118 | whatever is reported and left over, every resignation is earned if and only if the count is 1, or at least 2 with a positive threshold, or, two-sided, at least 1 |
| MatchSteps.TurnSettles | app/src/matchmaking/match/match.cpp:428-575 | a turn either leaves the match undecided or decides it with complementary results and the right engine blamed, or interrupts it |
| MatchSteps.MatchSettles | app/src/matchmaking/match/match.cpp:393-426 | whatever the engines do, a match that is over is interrupted or has complementary results; timeouts, stalls, crashes and illegal moves lose for the player to move, tables decide as they say, and every reason names the right player |
| MatchSteps.TurnCases | app/src/matchmaking/match/match.cpp:428-552 | a turn that ends before the reply leaves record, board and clocks alone; adjudication is decided only from the state before the turn |
| MatchSteps.RecordKept | app/src/matchmaking/match/match.cpp:515-554 | before every turn the recorded moves are legal and lead from the start to the board; at the end only a last illegal or late move may be missing from the board, and every legality flag is true |
| MatchSteps.LogKept | app/src/matchmaking/match/match.cpp:560-570 | reports alternate between the players, resignation did not fire earlier, and the move limit is not exceeded |
| MatchSteps.ResignedGamesAreLost | app/src/matchmaking/match/match.cpp:777-789 | every game ended by the one-sided resign rule is lost by the engine whose own last moves were all losing |
| MatchSteps.DrawnGamesAreQuiet | app/src/matchmaking/match/match.cpp:791-809 | an adjudicated draw ran to the move limit, or is past the move number with a quiet tail for both sides if the move count is positive |
| MatchSteps.DrawnAtMoveNumber | app/src/matchmaking/match/match.cpp:791-799 | with a draw move count of 0 or less no match gets past the move number: unless stopped or ended by the rules it is adjudicated there, the record unchanged |
| MatchSteps.MoveLimit | app/src/matchmaking/match/match.cpp:801-809 | with a move limit no match, finished or not, has more engine moves than twice that number |
| MatchSteps.StoppedAtOnce | app/src/matchmaking/match/match.cpp:394-425 | a stop before the first move ends the match with both results unset |
| MatchSteps.ResultsSetExactlyWhen | app/src/matchmaking/match/match.cpp:393-426 | a finished match has a termination, and its results are set if and only if its last turn met no stop flag before the turn or right after a search that did not throw |
| MatchSteps.TurnDecides | app/src/matchmaking/match/match.cpp:428-491 | a turn that ends the match sets both results or, exactly if it was stopped, neither |
| MatchSteps.ClocksKept | app/src/matchmaking/match/match.cpp:519-521 | each clock has run for exactly the moves of its own player, all in time |
| MatchSteps.TimeLossIsReal | app/src/matchmaking/match/match.cpp:532-552 | a loss on time means that the moves of the loser took more than all the time ever granted, what was written off and the margin or, with a fixed time per move, that the last one alone took longer than that and the margin; the overrun told is exactly what is missing |
| MatchSteps.CheckInSettles | app/src/matchmaking/match/match.cpp:363-372 | a failed check before the first move decides the match for the opponent of the engine that failed last, and touches nothing else |
| MatchSteps.CheckInTermination | app/src/matchmaking/match/match.cpp:363-372 | it is a stall exactly if the last check ran out of time, otherwise a disconnection, or an interruption if the stop flag was set at the last failure |
| MatchSteps.StartupReason | app/src/matchmaking/match/match.cpp:602-635 | the reason of such a failure names the loser if and only if the loser is to move |
| Rulings.FinishedGameEnds | app/src/matchmaking/match/match.cpp:429-446 | in any state in which the game is over, a turn that is not stopped ends the match in the normal way with the results of the position, a lost one being lost for the player to move, and leaves the record alone |
| Rulings.MatchEndsByRules | app/src/matchmaking/match/match.cpp:429-446 | over whole matches: every recorded engine move was made in a position in which the game was not over, and unless interrupted a match ends in the normal way if and only if the game is over on its last board |
| Rulings.MoveNumbers | app/src/matchmaking/match/match.cpp:791-791 | the draw rule counts full moves from 0, and a board counter of 0 wraps to the largest number |
| Rulings.AdjudicatedExactlyWhen | app/src/matchmaking/match/match.cpp:737-812 | a turn in an open position is adjudicated if and only if tables, resignation, draw rule or length apply, said of the tables and the reports alone; tables come first and decide as they say if that verdict is asked for, then the player to move wins by resignation, else it is a draw |
| Rulings.TurnEndsExactlyWhen | app/src/matchmaking/match/match.cpp:448-575 | for a turn that rules and adjudication leave open: exactly which answers of the engine make it a stall, a crash, a loss on time, an illegal move or let the match go on, in the order of the dialogue; the player to move loses each unless the stop flag was read right after the search |
| Rulings.TurnPlayed | app/src/matchmaking/match/match.cpp:519-570 | a turn that goes on has put the move on the board, in the record and in the report of its own player, and run that player's clock only |
| Rulings.CanBeLateExactlyWhen | app/src/matchmaking/player.hpp:28-28 | a player can lose on time if and only if it has a fixed time per move or a running clock with a base time |
| Rulings.EndByParity | app/src/matchmaking/match/match.cpp:374-420 | the side to move begins, and unless interrupted the player to move on the last board is the one whose turn was the last |
| Rulings.SettledByColour | app/src/matchmaking/match/match.cpp:602-672 | the side to move on the last board has lost by stall, crash, lateness, illegal move or a lost position; an adjudicated win is won by the colour it names |
| Rulings.ClocksMatchRecord | app/src/matchmaking/match/match.cpp:519-525 | before every turn the clock of each colour has run for exactly the recorded engine moves made with that colour to move |
| Rulings.ClocksAtEnd | app/src/matchmaking/match/match.cpp:519-552 | so at the end, with a last turn that gave no move on top |
| Fairness.MatchesStartFresh | app/src/matchmaking/match/match.cpp:233-271 | whoever moves first, a match starts with the opening as book moves, nothing reported and nothing decided |
| Fairness.ResignationsAreEarned | app/src/matchmaking/match/match.cpp:777-789 | with fair settings whoever loses a match by resignation has earned it by moves of this match |
| Fairness.UnearnedMatch | app/src/matchmaking/match/match.cpp:777-789 | a match lost by resignation after a single bad move, for every count of at least 2 and threshold of at most 0 |
| Fairness.LeftOverResigns | app/src/matchmaking/match/match.cpp:777-789 | with a count of 0 or less a negative score left over from an earlier game ends a match before any move |
| Fairness.FairMatchesExactlyWhen | app/src/matchmaking/match/match.cpp:777-789 | every resignation in every match, whatever the library, the engines and the other options, is earned if and only if the settings are fair |
| Match.Match.constructor | app/src/matchmaking/match/match.cpp:233-271 | a match starts with the opening played on its board and recorded as legal book moves |
| Match.Match.Adjudicate | app/src/matchmaking/match/match.cpp:737-812 | tables, resignation, draw and move limit in this order; otherwise nothing changes |
| Match.Match.ValidConnection | app/src/matchmaking/match/match.cpp:577-591 | a timeout is a stall, any other failure a crash of the engine that was asked |
| Match.Match.SetEngineCrashStatus | app/src/matchmaking/match/match.cpp:602-620 | the loser loses, the winner wins; the match counts as interrupted if the tournament is stopping |
| Match.Match.PlayMove | app/src/matchmaking/match/match.cpp:428-575 | the turn of the abstract match, exceptions included, of which FinishedGameEnds, AdjudicatedExactlyWhen, TurnEndsExactlyWhen and TurnPlayed say exactly when it ends how and what it does otherwise |
| Match.Match.GameLoop | app/src/matchmaking/match/match.cpp:393-426 | players alternate until the match is over, with the state of the abstract match after the turns used |
| Match.Match.Start | app/src/matchmaking/match/match.cpp:332-391 | without both engines the match never begins and the tournament is stopping; once begun and over it ends as the abstract match does after the checks and the turns used, has a termination, is interrupted or complementary, and its record replays; by colour, the side to move on the last board lost if its engine failed, was late or moved illegally and in a lost position, adjudicated wins go to the colour named, no engine moved after the end of the game, only an engine with a time limit was late, and each colour's clock has run for the moves recorded for that colour |
| PlayGame.PlayGame | app/src/matchmaking/tournament/base/tournament.cpp:214-280 | a game is reported at most once, never interrupted, with the winner by colour, and counts as exactly one game; the next game is requested exactly by a match reported in the normal way; a stall without recovery reports once and stops the tournament |
| PlayGame.EffectIsSteps | app/src/matchmaking/tournament/base/tournament.cpp:214-280 | every effect of a game is a run of steps of the tournament: counted exactly if reported, lost otherwise, the worker free again, the queue touched only by a request for the next game |
| TimeControl.TimeControl.constructor | app/src/game/timecontrol/timecontrol.cpp:17-25 | the initial clock |
| TimeControl.TimeControl.UpdateTime | app/src/game/timecontrol/timecontrol.cpp:31-60 | one move on the clock, and whether it was in time |
| TimeControl.MovesCounted | app/src/game/timecontrol/timecontrol.cpp:32-39 | after n moves the counter is moves - n mod moves |
| TimeControl.TimeConserved | app/src/game/timecontrol/timecontrol.cpp:31-60 | time used plus time left equals all the time granted plus the overruns written off, which are at most the margin for each move; after a move at least the increment is left |
| TimeControl.RejectedExactlyWhenOverBudget | app/src/game/timecontrol/timecontrol.cpp:45-49 | a move is rejected if and only if all moves together exceed the time granted so far, what was written off and the margin; the clock then shows what is missing |
| TimeControl.FixedTimeResets | app/src/game/timecontrol/timecontrol.cpp:57-57 | with a fixed time per move every move starts from the same clock |
| TimeControl.RejectedExactlyWhenTooLong | app/src/game/timecontrol/timecontrol.cpp:31-57 | with a fixed time per move a move is rejected if and only if it alone took longer than that time, a new period if one begins, and the margin; the clock then shows what is missing |
| CachePool.CachePool.GetEntry | app/src/core/memory/cache.hpp:40-54 | hands out the first free entry of the id, or a new one only if there is none |
| CachePool.CachePool.LeaveScope | app/src/core/memory/scope_guard.hpp:34-37 | frees exactly the entry of the guard |
| CachePool.CachePool.DeleteFromCache | app/src/core/memory/cache.hpp:56-61 | removes exactly that entry and keeps the order of the others |
| CachePool.StepKeepsInv | app/src/matchmaking/tournament/base/tournament.cpp:214-284 | every game taking, ending with or bailing out on an engine keeps: unavailable entries are exactly the held or abandoned ones |
| CachePool.RunKeepsInv | app/src/matchmaking/tournament/base/tournament.cpp:214-284 | this holds over every interleaving of games |
| CachePool.TakenFromNobody | app/src/core/memory/cache.hpp:40-54 | the entry a game takes is held by no other game and was abandoned by none |
| CachePool.EntriesWithinPeak | app/src/core/memory/cache.hpp:43-53 | entries of an id never exceed the largest number in use at one moment |
| CachePool.EntriesReachPeak | app/src/core/memory/cache.hpp:43-53 | for an engine that never restarts they are exactly that number |
| Levenshtein.Levenshtein | app/src/cli/cli.hpp:112-136 | the two-row in-place table returns the length of a shortest edit script |
| Levenshtein.DistanceIsShortest | app/src/cli/cli.hpp:112-136 | the recurrence is achieved by a script and no script is shorter |
| Levenshtein.DistanceSymmetric | app/src/cli/cli.hpp:113-114 | exchanging the operands is sound |
| Levenshtein.DistanceTriangle | app/src/cli/cli.hpp:112-136 | the triangle inequality, by fusing scripts |
| Levenshtein.DistanceZeroIffEqual | app/src/cli/cli.hpp:112-136 | distance 0 means equality |
| Levenshtein.NeighbourDistance | app/src/cli/cli.hpp:112-136 | one changed, missing or additional character is a distance of 1, wherever it stands |
| Levenshtein.FindSuggestion | app/src/cli/cli.hpp:138-156 | the first nearest option, if and only if some option is within distance 2 |
| Gf2Division.RegisterIsRemainder | app/src/core/crc32.hpp:44-44 | a bitwise register is the remainder of the division by the generator, and the only one |
| Gf2Division.BurstDetected | app/src/core/crc32.hpp:44-44 | messages that differ only inside 32 consecutive bits leave different registers |
| Gf2Division.BitStepsInjective | app/src/core/crc32.hpp:44-44 | every step is a bijection of the register |
| Crc32.GenerateCrcTable | app/src/core/crc32.hpp:12-26 | every entry is its index after eight bitwise division steps |
| Crc32.TableStep | app/src/core/crc32.hpp:44-44 | one table look-up absorbs the eight bits of one byte |
| Crc32.IncrementalCrc32 | app/src/core/crc32.hpp:59-65 | the bitwise register after the input, from any state |
| Crc32.CalculateCrc32 | app/src/core/crc32.hpp:30-49 | the checksum of the whole file, independent of the 4096-byte buffer; no value exactly when the file cannot be opened |
| Crc32.CrcIsRemainder | app/src/core/crc32.hpp:30-67 | a checksum is the complemented remainder of polynomial division, in the bit order of section 8 of RFC 1952 |
| Crc32.CrcUnique | app/src/core/crc32.hpp:30-67 | a file has one checksum |
| Crc32.FourByteBurstChangesCrc | app/src/core/crc32.hpp:30-67 | changing up to four consecutive bytes always changes the checksum, whatever surrounds them |
| FileWriter.FileWriter.constructor | app/src/core/filesystem/file_writer.hpp:16-59 | the initial state matches the content found on disk |
| FileWriter.FileWriter.Write | app/src/core/filesystem/file_writer.hpp:25-34 | appends and keeps the checksum of everything in the file |
| FileWriter.FileWriter.GetCrc32 | app/src/core/filesystem/file_writer.hpp:36-39 | the checksum of old content followed by all writes |
| FileWriter.SameContentSameCrc | app/src/core/filesystem/file_writer.hpp:25-39 | the same bytes written in any pieces give the same checksum |
| LineFraming.Stream.ReadLine | app/src/engine/process/process_posix.hpp:76-120 | one read emits exactly the lines it completes, up to the first that starts with the search word, and keeps the unfinished rest; after such a line the rest of the read is dropped. OK means that the last line emitted agrees with the word character by character and no other does, NONE that none does |
| LineFraming.ReadOutput | app/src/engine/process/process_posix.hpp:261-320 | the lines and the outcome depend only on the concatenation of the chunks: OK if and only if some closed segment of the stream begins with the non-empty word; reading stops right after the first such line |
| LineFraming.FoundExactlyWhen | app/src/engine/process/process_posix.hpp:109-109 | on the characters of the stream: something is found if and only if the word is not empty and some segment closed by a delimiter has the word as its first characters |
| LineFraming.WordIsFound | app/src/engine/process/process_posix.hpp:109-109 | after any finished line, the word, any rest of the line and a delimiter are found |
| LineFraming.ThroughFirst | app/src/engine/process/process_posix.hpp:99-113 | what is read ends with the first line that begins with the word |
| LineFraming.StopIsUnique | app/src/engine/process/process_posix.hpp:99-105 | the place where reading stops depends on the stream alone |
| LineFraming.DroppedHarmlessExactlyWhen | app/src/engine/process/process_posix.hpp:99-105 | what comes later yields the lines of the stream, whatever it is, if and only if only delimiters were dropped |
| LineFraming.LinesAreSegments | app/src/engine/process/process_win.hpp:268-310 | lines are the non-empty segments between delimiters, for either platform, also when CR and LF arrive in different reads |
| PgnGenerator.PGNGenerator.SetResult | app/src/game/pgn/pgn_gen.hpp:43-56 | the first Result header is replaced, or one is added |
| PgnGenerator.ResultHeader | app/src/game/pgn/pgn_gen.hpp:43-56 | only the first header named Result changes; without one, one is added at the end unless the result is empty |
| PgnReader.HeadersReadBackExactlyWhen | app/src/game/pgn/pgn_gen.hpp:61-69 | names, values and order of the headers are read back from the text of a game if and only if no name contains a space or a line end and no value a line end |
| PgnReader.TokenReadBack | app/src/game/pgn/pgn_gen.hpp:92-116 | from the text of a half-move its number, move and comment are read back |
| PgnReader.GameReadBack | app/src/game/pgn/pgn_builder.cpp:99-121 | from the tokens of a game all moves and comments are recovered; White's moves carry their full-move number, Black's only at the start and then with three dots |
| PgnText.ResultsAreWords | app/src/game/pgn/pgn_builder.cpp:198-209 | each of the four results is a word the reader tells apart from a move number |
| PgnText.TextReadBackExactlyWhen | app/src/game/pgn/pgn_gen.hpp:58-125 | from the wrapped text of a game its half-moves, numbers, comments and result are read back if and only if no comment contains a closing brace |
| PgnGenerator.PGNGenerator.Generate | app/src/game/pgn/pgn_gen.hpp:58-125 | headers, a blank line, and the tokens of the game wrapped greedily |
| PgnGenerator.AppendText | app/src/game/pgn/pgn_gen.hpp:73-88 | one token: a line break when it and its space would pass column 80, else a space |
| PgnGenerator.WrappingLosesNothing | app/src/game/pgn/pgn_gen.hpp:73-88 | with line ends replaced by spaces the movetext is the tokens joined by single spaces; every line is at most 80 characters or one token |
| PgnGenerator.GreedyUsesFewestLines | app/src/game/pgn/pgn_gen.hpp:73-88 | no wrapping of the same tokens within the bound has fewer lines |
| PgnGenerator.GameIsWrappedWell | app/src/game/pgn/pgn_gen.hpp:90-122 | both properties for the tokens of any game without blank half-moves |

## Left out

- Process creation, pipes, polling, signals, CPU affinity, logging, terminal output, JSON syntax and compression: input and output, or foreign code.
- Chess rules, move notation, FEN/EPD/PGN reading and endgame-table probing: the chess library is a parameter.
- SPRT statistics, Elo logarithms, error bars and likelihood of superiority: floating point; the SPRT decision to stop is a stop step.
- Option tables, most command-line handlers, configuration clean-up and the output formatters: wide but shallow.
- The texts of the commands sent to an engine (position, moves, clocks): a command arrives, fails or raises an exception.
- Ratio helpers of Stats (points, draw ratio, pairs ratio): single expressions.
- Warnings about principal variations and mate scores, latency and other fields of a move record that decide nothing.
- Fixed-width integers: counters are unbounded, except the unsigned conversion of the move number in draw adjudication, which is written out.
- The weak memory below the mutex and the atomic flags: every critical section is one step.
- Uniqueness of engine names: two names that denote different players are taken to be different strings.
- The per-thread engine caches used with CPU affinity: each is a pool like the shared one.
- Replacement of an engine object inside its cache entry after a stall with recovery: the entry and its holder stay the same.
- LineFraming.ReadOutput: does not model a failing read, the timeout that flushes a partial line, interruption, or the second pipe; it says what the chunks read so far have produced.
- PgnGenerator.GameIsWrappedWell: says nothing about half-moves with neither text nor comment, which the writer turns into stray spaces.
- Match.Match.Start: does not model an exception before the first move, which leaves the match altogether and makes the pool thread stop the tournament (a stop step of the step system).
- PlayGame.PlayGame: the PGN and EPD texts written before a report are not part of its effect.
- Tournament.NeverStuck: does not model the waiting of the main thread, the pause between games, or fairness of the thread scheduler.
- Match.Match.constructor: does not model an opening position the board refuses, on which the program stops the tournament.
- OpeningBook.OpeningBook.constructor: reading the book file is a parameter; the readers refuse a file without openings.
- SaveResume.SaveAndResume: is about two engines counted in pairs, because results of more engines are dropped on loading (app/src/cli/cli.cpp:529-532); it is about a first name that the separator does not cut, and SaveResume.ReportKeptExactlyWhen says what becomes of the others.
- PgnReader.GameReadBack: is about moves written without spaces that begin with neither a digit nor a brace, as the chess library writes them.
- PgnText.TextReadBackExactlyWhen: is about such moves, also without line ends, and about games in which no half-move is blank and none without text follows one without comment, as the builder makes them (app/src/game/pgn/pgn_builder.cpp:88-121).
- ResumedStandings.ResumedAgainstWhole: is about exchanged colours, because with noswap the reports of a pair depend on the order of its games.
