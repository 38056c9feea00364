/**
  One pairing from the generator to the scoreboard: createMatch and its finish callback
  (app/src/matchmaking/tournament/roundrobin/roundrobin.cpp) around playGame.
 */
module Games {
  import opened Adjudication
  import opened Stats
  import opened ScoreBoard
  import opened MatchSteps
  import opened Rulings
  import opened RoundRobin
  import opened PlayGame
  import Scheduler
  import M = Match

  /**
    Colours are assigned, the game is played, and a report is added to the board under the names of
    those who had White and Black. Nothing else touches the board. Counted singly, the report of the
    two players has one more win exactly if the engine with White won the match, one more loss
    exactly if the engine with Black did, and else one more draw. `engine` holds the engines by name.
   */
  method CreateMatch<B(!new)>(rr: RoundRobin, pairing: Scheduler.Pairing, engine: string -> Engine,
                              rules: Rules<B>, config: Config, start: B, opening: seq<string>,
                              e: Startup, turns: seq<Turn>, around: Around)
    returns (effect: Effect, white: string, black: string, match_: M.Match<B>)
    requires Chess(rules) && pairing.player1 < |rr.names| && pairing.player2 < |rr.names|
    modifies rr`matchCount, rr.scoreboard
    ensures {white, black} == {rr.names[pairing.player1], rr.names[pairing.player2]}
    ensures !rr.noswap && !rr.reverse ==>
              (white == rr.names[pairing.player1] && black == rr.names[pairing.player2] && pairing.game % 2 == 1) ||
              (white == rr.names[pairing.player2] && black == rr.names[pairing.player1] && pairing.game % 2 == 0)
    ensures Possible(effect)
    ensures effect.reports == [] ==>
              rr.matchCount == old(rr.matchCount) && rr.scoreboard.Value() == old(rr.scoreboard.Value())
    ensures effect.reports != [] ==>
              && rr.matchCount == old(rr.matchCount) + 1
              && Complementary(match_.players.0, match_.players.1) && match_.rules == rules
              && (e.AllWell() ==>
                    && WonByColour(rules, match_.board, match_.termination, match_.reason, match_.players)
                    && (match_.termination == TIMEOUT ==>
                          var late := engine(if rules.sideToMove(match_.board) == White then white else black).limits;
                          late.time != 0 || late.fixedTime != 0))
    ensures effect.reports != [] && white != black && !rr.reportPenta ==>
              var was, now := old(View(rr.scoreboard.results, white, black)), View(rr.scoreboard.results, white, black);
              && now.wins == was.wins + (if match_.players.0 == WIN then 1 else 0)
              && now.losses == was.losses + (if match_.players.1 == WIN then 1 else 0)
              && now.draws == was.draws + (if match_.players.0 == DRAW then 1 else 0)
    ensures effect.reports != [] && rr.reportPenta ==>
              var game := Event(white, black, FromMatch(match_.players.0, match_.players.1), pairing.pairing);
              SameBoard(rr.scoreboard.Value(), AfterPair(old(rr.scoreboard.Value()), game))
  {
    hide Chess, WonByColour, Complementary, FromMatch, AfterPair, AddTo, View, SameBoard;
    white, black := rr.AssignColours(pairing);
    var over;
    effect, over, match_ :=
      PlayGame.PlayGame(rules, config, start, opening, engine(white), engine(black), e, turns, around);
    if effect.reports != [] {
      var result := effect.reports[0];
      assert result in effect.reports;
      ghost var was := rr.scoreboard.Value();
      ghost var game := Event(white, black, FromMatch(result.0, result.1), pairing.pairing);
      rr.FinishGame(pairing, white, black, FromMatch(result.0, result.1));
      if white != black && !rr.reportPenta {
        MatchIsReported(was.results, white, black, result.0, result.1, white, black);
        SameBoardReportsAlike(false, rr.scoreboard.Value(), AfterGame(false, was, game), game, white, black);
      }
    }
  }
}
