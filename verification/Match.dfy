/**
  The match as the program holds it (app/src/matchmaking/match/match.cpp, match.hpp, player.hpp):
  players, trackers and record are changed in place, turn by turn, as module MatchSteps describes.
 */
module Match {
  import opened Options
  import opened Adjudication
  import opened Stats
  import opened MatchSteps
  import opened Rulings
  import TimeControl

  class MaxMovesTracker {
    const moveCount: int
    var maxMoves: int

    constructor (moveCount: int)
      ensures this.moveCount == moveCount && maxMoves == 0
    {
      this.moveCount, maxMoves := moveCount, 0;
    }

    method Update()
      modifies this
      ensures maxMoves == old(maxMoves) + 1
    {
      maxMoves := maxMoves + 1;
    }

    predicate MaxMovesReached()
      reads this
    {
      maxMoves >= moveCount * 2
    }
  }

  /** A player and the part of its engine the match looks at: the score last read from it. */
  class Player {
    const timeControl: TimeControl.TimeControl
    var result: GameResult
    var score: Option<Score>

    constructor (engine: Engine)
      ensures fresh(timeControl) && View() == engine.AtStart()
    {
      timeControl := new TimeControl.TimeControl(engine.limits);
      result, score := NONE, engine.score;
    }

    function View(): Side
      reads this, timeControl
    {
      Side(result, timeControl.limits, timeControl.Value(), score)
    }

    method SetLost()
      modifies this`result
      ensures result == LOSE
    {
      result := LOSE;
    }

    method SetDraw()
      modifies this`result
      ensures result == DRAW
    {
      result := DRAW;
    }

    method SetWon()
      modifies this`result
      ensures result == WIN
    {
      result := WIN;
    }
  }

  class Match<B(!new)> {
    const rules: Rules<B>
    const config: Config
    const drawTracker: DrawTracker
    const resignTracker: ResignTracker
    const maxmovesTracker: MaxMovesTracker
    var board: B
    var moves: seq<MoveData>
    var termination: Termination
    var reason: Reason
    var stallOrDisconnect: bool
    var players: (GameResult, GameResult)

    ghost predicate Valid()
      reads this, drawTracker, resignTracker, maxmovesTracker
    {
      && drawTracker.config == config.draw && resignTracker.config == config.resign
      && maxmovesTracker.moveCount == config.maxMoveCount
      && drawTracker.Valid() && resignTracker.Valid()
      && resignTracker.log == drawTracker.log && maxmovesTracker.maxMoves == |drawTracker.log|
    }

    /** The match seen by the player to move. */
    ghost function View(us: Player, them: Player): State<B>
      reads this`board, this`moves, this`termination, this`reason, this`stallOrDisconnect, drawTracker
      reads us, us.timeControl, them, them.timeControl
    {
      State(board, moves, drawTracker.log, us.View(), them.View(), termination, reason, stallOrDisconnect)
    }

    /** The opening's moves are played on the board and recorded as book moves. */
    constructor (rules: Rules<B>, config: Config, start: B, opening: seq<string>)
      ensures Valid() && this.rules == rules && this.config == config
      ensures fresh(drawTracker) && fresh(resignTracker) && fresh(maxmovesTracker)
      ensures termination == Unset && reason == NoReason && !stallOrDisconnect && drawTracker.log == []
      ensures players == (NONE, NONE)
      ensures InStepOnBook(rules, start, board, moves)
      ensures |moves| == |opening| && forall k :: 0 <= k < |moves| ==> moves[k].move == opening[k]
    {
      hide DrawCount, LossCount, DecisiveCount, InStepOnBook;
      EmptyBook(rules, start);
      this.rules, this.config := rules, config;
      drawTracker := new DrawTracker(config.draw);
      resignTracker := new ResignTracker(config.resign);
      maxmovesTracker := new MaxMovesTracker(config.maxMoveCount);
      board, moves, termination, reason, stallOrDisconnect := start, [], Unset, NoReason, false;
      players := (NONE, NONE);
      new;
      for k := 0 to |opening|
        invariant Valid() && drawTracker.log == []
        invariant termination == Unset && reason == NoReason && !stallOrDisconnect && players == (NONE, NONE)
        invariant fresh(drawTracker) && fresh(resignTracker) && fresh(maxmovesTracker)
        invariant |moves| == k && forall j :: 0 <= j < k ==> moves[j].move == opening[j]
        invariant InStepOnBook(rules, start, board, moves)
      {
        var m := MoveData(opening[k], 0, true, true);
        BookMove(rules, start, board, moves, m);
        board := rules.play(board, opening[k]);
        moves := moves + [m];
      }
    }

    method SetEngineCrashStatus(loser: Player, winner: Player, stop: bool)
      requires loser != winner
      modifies this`termination, this`reason, this`stallOrDisconnect, loser`result, winner`result
      ensures View(loser, winner) == Crash(rules, old(View(loser, winner)), stop)
    {
      loser.SetLost();
      winner.SetWon();
      stallOrDisconnect := true;
      var color := rules.sideToMove(board);
      if stop {
        termination, reason := INTERRUPT, Interrupted;
      } else {
        termination, reason := DISCONNECT, Disconnects(color);
      }
    }

    method SetEngineStallStatus(loser: Player, winner: Player)
      requires loser != winner
      modifies this`termination, this`reason, this`stallOrDisconnect, loser`result, winner`result
      ensures View(loser, winner) == Stall(rules, old(View(loser, winner)))
    {
      loser.SetLost();
      winner.SetWon();
      stallOrDisconnect := true;
      termination, reason := STALL, Stalls(rules.sideToMove(board));
    }

    method SetEngineTimeoutStatus(loser: Player, winner: Player, overrun: int)
      requires loser != winner
      modifies this`termination, this`reason, loser`result, winner`result
      ensures View(loser, winner) == LateMove(rules, old(View(loser, winner)), overrun)
    {
      loser.SetLost();
      winner.SetWon();
      termination, reason := TIMEOUT, LosesOnTime(rules.sideToMove(board), overrun);
    }

    method SetEngineIllegalMoveStatus(loser: Player, winner: Player)
      requires loser != winner
      modifies this`termination, this`reason, loser`result, winner`result
      ensures View(loser, winner) == BadMove(rules, old(View(loser, winner)))
    {
      loser.SetLost();
      winner.SetWon();
      termination, reason := ILLEGAL_MOVE, IllegalMove(rules.sideToMove(board));
    }

    /** Answers whether the engine is ready; `threw` when the question raised an exception. */
    method ValidConnection(us: Player, them: Player, reply: Reply, stop: bool) returns (ok: bool, threw: bool)
      requires us != them
      modifies this`termination, this`reason, this`stallOrDisconnect, us`result, them`result
      ensures Tagged(ok, threw, View(us, them)) == Connected(rules, old(View(us, them)), reply, stop)
    {
      if reply == Reply.Threw { return false, true; }
      if reply == Reply.TimedOut {
        SetEngineStallStatus(us, them);
        return false, false;
      }
      if reply != Reply.Fine {
        SetEngineCrashStatus(us, them, stop);
        return false, false;
      }
      return true, false;
    }

    /** What the endgame tables decide; called with the players exchanged, like `Adjudicate`. */
    method TbAdjudicate(us: Player, them: Player, result: GameResult) returns (done: bool)
      requires us != them
      modifies this`termination, this`reason, us`result, them`result
      ensures (if done then Some(View(them, us)) else None) ==
              TbVerdict(rules, config, old(View(them, us)), Some(result))
      ensures !done ==> View(them, us) == old(View(them, us))
    {
      hide Player.View;
      if (result == WIN || result == LOSE) && config.tbWinLoss {
        if result == WIN {
          Declare(us, them, LOSE, WIN, TbWin(rules.sideToMove(board)));
        } else {
          Declare(us, them, WIN, LOSE, TbWin(rules.sideToMove(board).Other()));
        }
        return true;
      }
      if result == DRAW && config.tbDraw {
        Declare(us, them, DRAW, DRAW, TbDraw);
        return true;
      }
      return false;
    }

    /** Called with the players exchanged: `us` has just moved, `them` is to move. */
    method Adjudicate(us: Player, them: Player) returns (done: bool)
      requires Valid() && us != them
      modifies this`termination, this`reason, us`result, them`result
      ensures (if done then Some(View(them, us)) else None) == Adjudicated(rules, config, old(View(them, us)))
      ensures !done ==> View(them, us) == old(View(them, us))
    {
      hide ResignDue, DrawDue, TbVerdict, DrawCount, LossCount, DecisiveCount, State.Results, State.Ends;
      var tb := if config.tbEnabled then rules.tb(board) else None;
      NoTables(rules, config, View(them, us));
      if tb.Some? {
        done := TbAdjudicate(us, them, tb.value);
        if done { return; }
      }
      ghost var s := View(them, us);
      assert s.them.score == us.score && s.log == drawTracker.log && s.board == board;
      assert us.score.Some? ==> us.score.value == s.them.score.value;
      hide Player.View;
      var resignable := resignTracker.Resignable();
      if config.resign.enabled && resignable && us.score.Some? && us.score.value.value < 0 {
        Declare(us, them, LOSE, WIN, AdjudicatedWin(rules.sideToMove(board)));
        return true;
      }
      var drawish := drawTracker.Adjudicatable(UintPlies(rules.fullMove(board)));
      var tooLong := maxmovesTracker.MaxMovesReached();
      if (config.draw.enabled && drawish) || (config.maxEnabled && tooLong) {
        Declare(us, them, DRAW, DRAW, AdjudicatedDraw);
        return true;
      }
      return false;
    }

    method Declare(us: Player, them: Player, mine: GameResult, theirs: GameResult, why: Reason)
      requires us != them
      modifies this`termination, this`reason, us`result, them`result
      ensures View(them, us) == old(View(them, us)).Results(theirs, mine).Ends(ADJUDICATION, why)
    {
      us.result, them.result := mine, theirs;
      termination, reason := ADJUDICATION, why;
    }

    /** The end of the game by the rules, which comes before everything else. */
    method EndedByRules(us: Player, them: Player) returns (go: bool)
      requires us != them
      modifies this`termination, this`reason, us`result, them`result
      ensures Tagged(go, false, View(us, them)) == RulesEnd(rules, old(View(us, them)))
    {
      var (why, result) := rules.over(board);
      if result == DRAW {
        us.SetDraw();
        them.SetDraw();
      }
      if result == LOSE {
        us.SetLost();
        them.SetWon();
      }
      if why != NotOver {
        termination := NORMAL;
        reason := if why == CHECKMATE then Mates(rules.sideToMove(board).Other()) else RuleDraw(why);
        return false;
      }
      return true;
    }

    /** A command that either arrives or means that the engine is gone. */
    method Send(us: Player, them: Player, reply: Reply, stop: bool) returns (ok: bool, threw: bool)
      requires us != them
      modifies this`termination, this`reason, this`stallOrDisconnect, us`result, them`result
      ensures Tagged(ok, threw, View(us, them)) == Sent(rules, old(View(us, them)), reply, stop)
    {
      if reply == Reply.Threw { return false, true; }
      if reply != Reply.Fine {
        SetEngineCrashStatus(us, them, stop);
        return false, false;
      }
      return true, false;
    }

    /** Position and search command, with the checks between them. */
    method AskEngine(us: Player, them: Player, t: Turn) returns (ok: bool, threw: bool)
      requires us != them
      modifies this`termination, this`reason, this`stallOrDisconnect, us`result, them`result
      ensures Tagged(ok, threw, View(us, them)) == Asked(rules, old(View(us, them)), t)
    {
      hide Crash, Stall;
      ok, threw := ValidConnection(us, them, t.ready, t.stopAtCrash);
      if !ok { return; }
      ok, threw := Send(us, them, t.position, t.stopAtCrash);
      if !ok { return; }
      ok, threw := ValidConnection(us, them, t.readyAfterPosition, t.stopAtCrash);
      if !ok { return; }
      ok, threw := Send(us, them, t.go, t.stopAtCrash);
    }

    /** The wait for the engine's move. */
    method Search(us: Player, them: Player, t: Turn) returns (ok: bool, threw: bool)
      requires us != them
      modifies this`termination, this`reason, this`stallOrDisconnect, us`result, us`score, them`result
      ensures Tagged(ok, threw, View(us, them)) == Searched(rules, old(View(us, them)), t)
    {
      hide Crash, Stall;
      if t.read == Reply.Threw { return false, true; }
      us.score := t.score;
      if t.stopAfterRead {
        termination := INTERRUPT;
        return false, false;
      }
      if t.read == Reply.Failed {
        SetEngineCrashStatus(us, them, t.stopAtCrash);
        return false, false;
      }
      ok, threw := ValidConnection(us, them, t.readyAfterRead, t.stopAtCrash);
    }

    /** The clock after the move; `overrun` is what the loser of a timeout is told. */
    method StopClock(us: Player, elapsed: int) returns (timeout: bool, overrun: int)
      modifies us.timeControl
      ensures (us.View(), !timeout) == Ticked(old(us.View()), elapsed) && overrun == Overrun(us.View())
    {
      hide TimeControl.Tick;
      var timeleft := 0;
      timeout := false;
      if us.View().HasTimeControl() {
        var inTime := us.timeControl.UpdateTime(elapsed);
        timeout, timeleft := !inTime, us.timeControl.timeLeft;
      }
      overrun := if timeleft < 0 then -timeleft else 0;
    }

    /** What becomes of the engine's move. */
    method Receive(us: Player, them: Player, t: Turn) returns (ok: bool, threw: bool)
      requires Valid() && us != them && us.timeControl != them.timeControl
      modifies this, us`result, them`result, us.timeControl, drawTracker, resignTracker, maxmovesTracker
      ensures Valid()
      ensures Tagged(ok, threw, View(us, them)) == Replied(rules, old(View(us, them)), t)
    {
      hide Ticked, Overrun, LateMove, BadMove, Player.View;
      var timeout, overrun := StopClock(us, t.elapsed);
      if t.bestmove.None? {
        if timeout {
          SetEngineTimeoutStatus(us, them, overrun);
        } else {
          SetEngineIllegalMoveStatus(us, them);
        }
        return false, false;
      }
      if t.recordThrows { return false, true; }
      var move := t.bestmove.value;
      var legal := rules.legal(board, move);
      moves := moves + [MoveData(move, t.elapsed, legal, false)];
      if !legal {
        SetEngineIllegalMoveStatus(us, them);
        return false, false;
      }
      if timeout {
        SetEngineTimeoutStatus(us, them, overrun);
        return false, false;
      }
      Advance(us, them, move);
      return !t.endThrows, t.endThrows;
    }

    /** The move is made and reported to the trackers. */
    method Advance(us: Player, ghost them: Player, move: string)
      requires Valid()
      modifies this`board, drawTracker, resignTracker, maxmovesTracker
      ensures Valid() && View(us, them) == Played(rules, old(View(us, them)), move)
    {
      hide DrawCount, LossCount, DecisiveCount;
      board := rules.play(board, move);
      var mover := rules.sideToMove(board).Other();
      if us.score.Some? {
        drawTracker.Update(us.score.value, rules.halfMoveClock(board), mover);
        resignTracker.Update(us.score.value, mover, rules.halfMoveClock(board));
      } else {
        drawTracker.Invalidate(mover, rules.halfMoveClock(board));
        resignTracker.Invalidate(mover, rules.halfMoveClock(board));
      }
      maxmovesTracker.Update();
    }

    method PlayMove(us: Player, them: Player, t: Turn) returns (ok: bool, threw: bool)
      requires Valid() && us != them && us.timeControl != them.timeControl
      modifies this, us, them`result, us.timeControl, drawTracker, resignTracker, maxmovesTracker
      ensures Valid()
      ensures Tagged(ok, threw, View(us, them)) == MatchSteps.PlayMove(rules, config, old(View(us, them)), t)
    {
      hide RulesEnd, Adjudicated, Asked, Searched, Replied;
      threw := false;
      ok := EndedByRules(us, them);
      if !ok { return; }
      var done := Adjudicate(them, us);
      if done { return false, false; }
      ok, threw := AskEngine(us, them, t);
      if !ok { return; }
      ok, threw := Search(us, them, t);
      if !ok { return; }
      ok, threw := Receive(us, them, t);
    }

    /** One turn of the loop, with the checks around it. */
    method TakeTurn(current: Player, opponent: Player, t: Turn) returns (ok: bool)
      requires Valid() && current != opponent && current.timeControl != opponent.timeControl
      modifies this, current, opponent`result, current.timeControl, drawTracker, resignTracker, maxmovesTracker
      ensures Valid()
      ensures MatchSteps.TakeTurn(rules, config, old(View(current, opponent)), t) ==
              if ok then Going(View(opponent, current)) else Over(View(current, opponent))
    {
      hide MatchSteps.PlayMove, Player.View;
      if t.stopBefore {
        termination, reason := INTERRUPT, Interrupted;
        return false;
      }
      var threw;
      ok, threw := PlayMove(current, opponent, t);
      if !ok && threw { Fail(current, opponent); }
    }

    /** An exception during a turn. */
    method Fail(current: Player, opponent: Player)
      requires current != opponent
      modifies this`termination, this`reason, current`result, opponent`result
      ensures View(current, opponent) == old(View(current, opponent)).Results(LOSE, WIN).Ends(INTERRUPT, Interrupted)
    {
      current.SetLost();
      opponent.SetWon();
      termination, reason := INTERRUPT, Interrupted;
    }

    /**
      The players take turns until the match is over; `turns` is what the outside world has in
      store, and `used` says how much of it was met.
     */
    method GameLoop(first: Player, second: Player, turns: seq<Turn>) returns (over: bool, used: nat)
      requires Valid() && first != second && first.timeControl != second.timeControl
      modifies this, first, second, first.timeControl, second.timeControl, drawTracker, resignTracker, maxmovesTracker
      ensures Valid() && used <= |turns| && (over || used == |turns|)
      ensures over ==> used > 0 && After(rules, config, old(View(first, second)), turns[..used - 1]).Going?
      ensures var o := After(rules, config, old(View(first, second)), turns[..used]);
              if over then o == Over(if used % 2 == 1 then View(first, second) else View(second, first))
              else o == Going(if used % 2 == 0 then View(first, second) else View(second, first))
    {
      hide MatchSteps.TakeTurn, Player.View, DrawCount, LossCount, DecisiveCount;
      ghost var start := View(first, second);
      assert After(rules, config, start, turns[..0]) == Going(start);
      hide After;
      used, over := 0, false;
      while used < |turns|
        invariant Valid() && used <= |turns| && !over
        invariant After(rules, config, start, turns[..used]) ==
                  Going(if used % 2 == 0 then View(first, second) else View(second, first))
      {
        AfterNext(rules, config, start, turns, used);
        var ok;
        if used % 2 == 0 {
          ok := TakeTurn(first, second, turns[used]);
        } else {
          ok := TakeTurn(second, first, turns[used]);
        }
        used := used + 1;
        if !ok { return true, used; }
      }
    }

    /** The checks before the first move. */
    method CheckIn(white: Player, black: Player, e: Startup)
      requires white != black
      modifies this`termination, this`reason, this`stallOrDisconnect, white`result, black`result
      ensures View(white, black) == CheckedIn(rules, old(View(white, black)), e)
    {
      hide Crash, Stall;
      if !e.whiteUci { SetEngineCrashStatus(white, black, e.stopAtWhite); }
      if !e.blackUci { SetEngineCrashStatus(black, white, e.stopAtBlack); }
      var ok, threw := ValidConnection(white, black, e.Answer(), e.stopAtReady);
    }

    /** The match was over with turn number `used`, at which time it looked like this to the player of that turn. */
    ghost predicate Reached(s: State<B>, turns: seq<Turn>, used: nat, white: Player, black: Player)
      requires used <= |turns|
      reads this`board, this`moves, this`termination, this`reason, this`stallOrDisconnect, drawTracker
      reads white, white.timeControl, black, black.timeControl
    {
      var whiteFirst := rules.sideToMove(s.board) == White;
      var first := if whiteFirst then s else s.Swap();
      && used > 0 && After(rules, config, first, turns[..used - 1]).Going?
      && After(rules, config, first, turns[..used]) ==
         Over(if (used % 2 == 1) == whiteFirst then View(white, black) else View(black, white))
    }

    /** The game loop, White or Black first. */
    method Loop(white: Player, black: Player, turns: seq<Turn>) returns (over: bool, used: nat)
      requires Valid() && white != black && white.timeControl != black.timeControl
      modifies this, white, black, white.timeControl, black.timeControl, drawTracker, resignTracker, maxmovesTracker
      ensures Valid() && used <= |turns|
      ensures over ==> Reached(old(View(white, black)), turns, used, white, black)
    {
      hide After;
      var whiteFirst := rules.sideToMove(board) == White;
      var first := if whiteFirst then white else black;
      var second := if whiteFirst then black else white;
      over, used := GameLoop(first, second, turns);
    }

    /** Checks and game loop on the players of this match. */
    method Play(white: Player, black: Player, e: Startup, turns: seq<Turn>) returns (over: bool, used: nat)
      requires Valid() && white != black && white.timeControl != black.timeControl
      modifies this, white, black, white.timeControl, black.timeControl, drawTracker, resignTracker, maxmovesTracker
      ensures Valid() && used <= |turns|
      ensures over ==> players == (white.result, black.result)
      ensures over ==>
                var s := CheckedIn(rules, old(View(white, black)), e);
                if s.termination == Unset then Reached(s, turns, used, white, black) else View(white, black) == s
    {
      hide CheckedIn, After, Player.View, Reached;
      CheckIn(white, black, e);
      over, used := true, 0;
      if termination == Unset {
        over, used := Loop(white, black, turns);
      }
      players := (white.result, black.result);
    }

    /**
      The whole match. Without both engines running it never begins, and the tournament is told to
      stop. Once begun and over, it is interrupted or has complementary results, and its record
      replays. If an engine fails the checks before the first move, the one that failed last loses
      and nothing is played. Otherwise the match has gone through the turns of the abstract match;
      whose turn it is on the last board says who lost, no engine moved after the end of the game, and
      the clock of each colour has run for the moves recorded for that colour.
     */
    method Start(white: Engine, black: Engine, e: Startup, turns: seq<Turn>, ghost opening: B)
      returns (begun: bool, over: bool, stopped: bool, ghost used: nat, ghost w: Player, ghost b: Player)
      requires Valid() && Chess(rules) && drawTracker.log == [] && InStepOnBook(rules, opening, board, moves)
      requires termination == Unset && reason == NoReason && !stallOrDisconnect && players == (NONE, NONE)
      modifies this, drawTracker, resignTracker, maxmovesTracker
      ensures Valid() && begun == e.BothStart() && stopped == !begun && used <= |turns|
      ensures w.timeControl.limits == white.limits && b.timeControl.limits == black.limits
      ensures !begun ==> termination == Unset && players == (NONE, NONE) && !stallOrDisconnect && !over
      ensures begun && over ==>
                && players == (w.result, b.result)
                && (var s := CheckedIn(rules, Initial(old(board), old(moves), white, black), e);
                    if s.termination == Unset then Reached(s, turns, used, w, b) else View(w, b) == s)
                && termination != Unset
                && (termination == INTERRUPT || Complementary(players.0, players.1))
                && (stallOrDisconnect ==> termination in {STALL, DISCONNECT, INTERRUPT})
                && Recorded(rules, opening, View(w, b))
      ensures begun && over && !e.AllWell() ==>
                && board == old(board) && moves == old(moves) && Complementary(players.0, players.1)
                && (players.0 == LOSE <==> !e.ready || (!e.whiteUci && e.blackUci))
      ensures begun && over && e.AllWell() ==>
                && WonByColour(rules, board, termination, reason, players)
                && PlayedOn(rules, opening, moves)
                && (termination != INTERRUPT ==> (termination == NORMAL <==> rules.over(board).0 != NotOver))
      ensures begun && over && e.AllWell() ==>
                && (termination == TIMEOUT ==>
                      var l := if rules.sideToMove(board) == White then white.limits else black.limits;
                      l.time != 0 || l.fixedTime != 0)
                && used > 0
                && ClockAtEnd(rules, opening, View(w, b), White, w.View(), turns[used - 1])
                && ClockAtEnd(rules, opening, View(w, b), Black, b.View(), turns[used - 1])
    {
      hide CheckedIn, Reached, Recorded, InStepOnBook, After, Chess, Complementary, ClockAtEnd, PlayedOn, WonByColour;
      over, stopped, used := false, false, 0;
      var whitePlayer := new Player(white);
      var blackPlayer := new Player(black);
      w, b := whitePlayer, blackPlayer;
      if !e.whiteStarts { return false, false, true, 0, w, b; }
      if !e.blackStarts { return false, false, true, 0, w, b; }
      if e.stopAfterStart { return false, false, true, 0, w, b; }
      begun := true;
      ghost var s := View(whitePlayer, blackPlayer);
      assert s == Initial(board, moves, white, black);
      var n;
      over, n := Play(whitePlayer, blackPlayer, e, turns);
      used := n;
      if over {
        Failed(s, e, turns, used, w, b);
        Finished(s, e, turns, used, w, b, opening);
        if e.AllWell() { PlayedOut(s, white, black, turns, used, w, b, opening); }
      }
    }

    lemma Failed(s: State<B>, e: Startup, turns: seq<Turn>, used: nat, w: Player, b: Player)
      requires Playing(s) && used <= |turns|
      requires var u := CheckedIn(rules, s, e);
               if u.termination == Unset then Reached(u, turns, used, w, b) else View(w, b) == u
      ensures e.AllWell() ==> Reached(s, turns, used, w, b)
      ensures !e.AllWell() ==>
                && board == s.board && moves == s.moves && Complementary(w.result, b.result)
                && (w.result == LOSE <==> !e.ready || (!e.whiteUci && e.blackUci))
    {
      hide CheckedIn, Reached, Complementary;
      CheckInSettles(rules, s, e);
    }

    /** With both engines well the match has gone through its turns. */
    lemma PlayedOut(s: State<B>, white: Engine, black: Engine, turns: seq<Turn>, used: nat, w: Player, b: Player,
                    opening: B)
      requires Chess(rules) && s == Initial(s.board, s.moves, white, black)
      requires InStepOnBook(rules, opening, s.board, s.moves) && used <= |turns| && Reached(s, turns, used, w, b)
      requires w.timeControl.limits == white.limits && b.timeControl.limits == black.limits
      ensures WonByColour(rules, board, termination, reason, (w.result, b.result))
      ensures PlayedOn(rules, opening, moves)
      ensures termination != INTERRUPT ==> (termination == NORMAL <==> rules.over(board).0 != NotOver)
      ensures termination == TIMEOUT ==>
                var l := if rules.sideToMove(board) == White then white.limits else black.limits;
                l.time != 0 || l.fixedTime != 0
      ensures used > 0
      ensures ClockAtEnd(rules, opening, View(w, b), White, w.View(), turns[used - 1])
      ensures ClockAtEnd(rules, opening, View(w, b), Black, b.View(), turns[used - 1])
    {
      hide Reached, InStepOnBook, Chess, ClockAtEnd, PlayedOn, Player.View, ClocksInStep, Timed, WonByColour;
      LastMoverLost(s, turns, used, w, b);
      EndedByTheRules(s, turns, used, w, b, opening);
      StartClocks(s, white, black, opening);
      LateByColour(s, turns, used, w, b);
      ClocksOfColours(s, turns, used, w, b, opening);
    }

    /** What the theorems on abstract matches say about this one. */
    lemma Finished(s: State<B>, e: Startup, turns: seq<Turn>, used: nat, w: Player, b: Player, opening: B)
      requires Chess(rules) && Playing(s) && InStepOnBook(rules, opening, s.board, s.moves) && used <= |turns|
      requires var u := CheckedIn(rules, s, e);
               if u.termination == Unset then Reached(u, turns, used, w, b) else View(w, b) == u
      ensures termination != Unset && (termination == INTERRUPT || Complementary(w.result, b.result))
      ensures stallOrDisconnect ==> termination in {STALL, DISCONNECT, INTERRUPT}
      ensures Recorded(rules, opening, View(w, b))
    {
      hide CheckedIn, After, Chess, Honest, AllLegal, Replay, Front;
      var u := CheckedIn(rules, s, e);
      CheckInSettles(rules, s, e);
      UntouchedRecord(rules, opening, s, s);
      if u.termination == Unset {
        var v := if rules.sideToMove(u.board) == White then u else u.Swap();
        MatchSettles(rules, config, v, turns[..used]);
        RecordKept(rules, config, opening, v, turns[..used]);
      }
    }

    /** The match as the side to move on the last board sees it. */
    ghost function ViewOf(side: Colour, w: Player, b: Player): State<B>
      reads this, drawTracker, w, w.timeControl, b, b.timeControl
    {
      if side == White then View(w, b) else View(b, w)
    }

    lemma LastMover(s: State<B>, turns: seq<Turn>, used: nat, w: Player, b: Player)
      requires Chess(rules) && Playing(s) && used <= |turns| && Reached(s, turns, used, w, b)
      ensures termination != INTERRUPT ==> Settled(rules, Over(ViewOf(rules.sideToMove(board), w, b)))
    {
      hide After, Chess, Settled, Player.View;
      var first := if rules.sideToMove(s.board) == White then s else s.Swap();
      MatchSettles(rules, config, first, turns[..used]);
      if termination != INTERRUPT { EndByParity(rules, config, first, turns, used - 1); }
    }

    lemma LastMoverLost(s: State<B>, turns: seq<Turn>, used: nat, w: Player, b: Player)
      requires Chess(rules) && Playing(s) && used <= |turns| && Reached(s, turns, used, w, b)
      ensures WonByColour(rules, board, termination, reason, (w.result, b.result))
    {
      LastMover(s, turns, used, w, b);
      hide Reached, Chess, Settled;
      if termination != INTERRUPT { SettledByColour(rules, ViewOf(rules.sideToMove(board), w, b)); }
    }

    lemma LateByColour(s: State<B>, turns: seq<Turn>, used: nat, w: Player, b: Player)
      requires Chess(rules) && Playing(s) && Timed(s.us, []) && Timed(s.them, [])
      requires used <= |turns| && Reached(s, turns, used, w, b)
      ensures termination == TIMEOUT ==>
                var loser := if rules.sideToMove(board) == White then w else b;
                loser.timeControl.limits.time != 0 || loser.timeControl.limits.fixedTime != 0
    {
      hide After, Chess, Timed;
      var first := if rules.sideToMove(s.board) == White then s else s.Swap();
      if termination == TIMEOUT {
        EndByParity(rules, config, first, turns, used - 1);
        var before, last := TimeLossIsReal(rules, config, first, turns[..used]);
      }
    }

    lemma EndedByTheRules(s: State<B>, turns: seq<Turn>, used: nat, w: Player, b: Player, opening: B)
      requires Chess(rules) && Playing(s) && InStepOnBook(rules, opening, s.board, s.moves) && used <= |turns|
      requires Reached(s, turns, used, w, b)
      ensures PlayedOn(rules, opening, moves)
      ensures termination != INTERRUPT ==> (termination == NORMAL <==> rules.over(board).0 != NotOver)
    {
      hide After, Chess, PlayedOn, Player.View, Honest, AllLegal, Replay;
      BookIsPlayedOn(rules, opening, s.moves);
      var first := if rules.sideToMove(s.board) == White then s else s.Swap();
      MatchEndsByRules(rules, config, opening, first, turns[..used]);
    }

    lemma StartClocks(s: State<B>, white: Engine, black: Engine, opening: B)
      requires s == Initial(s.board, s.moves, white, black) && InStepOnBook(rules, opening, s.board, s.moves)
      ensures ClocksInStep(rules, opening, s) && ClocksInStep(rules, opening, s.Swap())
      ensures Timed(s.us, []) && Timed(s.them, [])
    {
      hide Honest, AllLegal, Replay, EngineMoves, Shows, MoveTimes;
      var side := rules.sideToMove(s.board);
      NoTimesYet(rules, opening, s.moves, side);
      NoTimesYet(rules, opening, s.moves, side.Other());
      ShowsAtStart(white);
      ShowsAtStart(black);
    }

    lemma ClocksOfColours(s: State<B>, turns: seq<Turn>, used: nat, w: Player, b: Player, opening: B)
      requires Chess(rules) && Playing(s) && used <= |turns| && Reached(s, turns, used, w, b)
      requires ClocksInStep(rules, opening, s) && ClocksInStep(rules, opening, s.Swap())
      ensures used > 0
      ensures ClockAtEnd(rules, opening, View(w, b), White, w.View(), turns[used - 1])
      ensures ClockAtEnd(rules, opening, View(w, b), Black, b.View(), turns[used - 1])
    {
      hide After, Chess, ClocksInStep, Player.View, MoveTimes, Shows;
      var first := if rules.sideToMove(s.board) == White then s else s.Swap();
      var n := used - 1;
      var o := After(rules, config, first, turns[..n]);
      MatchSettles(rules, config, first, turns[..n]);
      StillPlaying(rules, o);
      MoverByParity(rules, config, first, turns[..n]);
      ClocksMatchRecord(rules, config, opening, first, turns[..n]);
      AfterNext(rules, config, first, turns, n);
      hide MatchSteps.TakeTurn, Playing;
      ClocksAtEnd(rules, config, opening, o.s, turns[n]);
    }
  }

  lemma {:induction false} BookIsPlayedOn<B>(r: Rules<B>, opening: B, moves: seq<MoveData>)
    requires EngineMoves(moves) == 0
    ensures PlayedOn(r, opening, moves)
  {
    if moves != [] {
      var n := |moves| - 1;
      BookIsPlayedOn(r, opening, moves[..n]);
      forall k | 0 <= k < |moves| && !moves[k].book ensures r.over(Replay(r, opening, moves[..k])).0 == NotOver {
        assert k < n && moves[..n][..k] == moves[..k];
      }
    }
  }

  /** The opening has been played on the board and is recorded as book moves only. */
  ghost predicate InStepOnBook<B>(r: Rules<B>, start: B, board: B, moves: seq<MoveData>) {
    && Honest(r, start, moves) && AllLegal(moves) && Replay(r, start, moves) == board
    && EngineMoves(moves) == 0
  }

  lemma EmptyBook<B>(r: Rules<B>, start: B)
    ensures InStepOnBook(r, start, start, [])
  {}

  lemma BookMove<B>(r: Rules<B>, start: B, board: B, moves: seq<MoveData>, m: MoveData)
    requires InStepOnBook(r, start, board, moves) && m.book
    ensures InStepOnBook(r, start, r.play(board, m.move), moves + [m])
  {
    hide Honest, AllLegal, Replay, Front, EngineMoves;
    HonestStep(r, start, moves, m);
    EngineMovesStep(moves, m);
  }

  ghost function Tagged<B>(ok: bool, threw: bool, s: State<B>): Outcome<B> {
    if ok then Going(s) else if threw then Raised(s) else Over(s)
  }
}
