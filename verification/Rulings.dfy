/**
  What a turn and a whole match come to (app/src/matchmaking/match/match.cpp), said of the board, the
  reports, the engine's answers and the record alone: when exactly each ending comes about, that the
  game ends where the rules end it, and which colour the results and the clocks belong to.
 */
module Rulings {
  import opened Options
  import opened Adjudication
  import opened Stats
  import opened MatchSteps
  import TimeControl

  // ---------- The rules of chess ----------

  /** A position in which the game is over ends the match, with the result of that position. */
  lemma FinishedGameEnds<B(!new)>(r: Rules<B>, c: Config, s: State<B>, t: Turn)
    requires Chess(r) && !t.stopBefore && r.over(s.board).0 != NotOver
    ensures var o := TakeTurn(r, c, s, t);
            && o.Over? && o.s.termination == NORMAL && Untouched(s, o.s)
            && (r.over(s.board).1 == LOSE ==> o.s.us.result == LOSE && o.s.them.result == WIN)
            && (r.over(s.board).1 == DRAW ==> o.s.us.result == DRAW && o.s.them.result == DRAW)
            && (o.s.reason == Mates(r.sideToMove(s.board).Other()) <==> r.over(s.board).0 == CHECKMATE)
  {}

  /** Every move of an engine was made in a position in which the game was not over. */
  ghost predicate PlayedOn<B>(r: Rules<B>, start: B, moves: seq<MoveData>) {
    forall k :: 0 <= k < |moves| && !moves[k].book ==> r.over(Replay(r, start, moves[..k])).0 == NotOver
  }

  lemma PlayedOnStep<B>(r: Rules<B>, start: B, moves: seq<MoveData>, m: MoveData)
    requires PlayedOn(r, start, moves) && r.over(Replay(r, start, moves)).0 == NotOver
    ensures PlayedOn(r, start, moves + [m])
  {
    var after := moves + [m];
    forall k | 0 <= k < |after| && !after[k].book ensures r.over(Replay(r, start, after[..k])).0 == NotOver {
      assert after[..k] == if k < |moves| then moves[..k] else moves;
    }
  }

  /** A match ends in the normal way exactly when the game is over on its last board. */
  ghost predicate EndsByRules<B>(r: Rules<B>, u: State<B>) {
    u.termination != INTERRUPT ==> (u.termination == NORMAL <==> r.over(u.board).0 != NotOver)
  }

  lemma TurnPlaysOn<B(!new)>(r: Rules<B>, c: Config, start: B, s: State<B>, t: Turn)
    requires Chess(r) && Playing(s) && InStep(r, start, s) && PlayedOn(r, start, s.moves)
    ensures var o := TakeTurn(r, c, s, t);
            PlayedOn(r, start, o.s.moves) && (o.Over? ==> EndsByRules(r, o.s))
  {
    hide TakeTurn, Adjudicated, Replied, PlayedOn, Honest, AllLegal, Replay, Chess, Playing;
    TurnCases(r, c, s, t);
    TurnSettles(r, c, s, t);
    if r.over(s.board).0 != NotOver {
      if t.stopBefore { StopInterrupts(r, c, s, t); } else { FinishedGameEnds(r, c, s, t); }
    } else {
      var v := WithScore(s, t);
      ReplyShapes(r, v, t);
      if t.bestmove.Some? {
        var move := t.bestmove.value;
        PlayedOnStep(r, start, s.moves, MoveData(move, t.elapsed, r.legal(s.board, move), false));
      }
    }
  }

  lemma StopInterrupts<B>(r: Rules<B>, c: Config, s: State<B>, t: Turn)
    requires t.stopBefore
    ensures TakeTurn(r, c, s, t) == Over(s.Ends(INTERRUPT, Interrupted))
  {}

  /** In every match: no engine moves after the end of the game, and the game's end is the match's. */
  lemma {:induction false} MatchEndsByRules<B(!new)>(
      r: Rules<B>, c: Config, start: B, s: State<B>, turns: seq<Turn>)
    requires Chess(r) && Playing(s) && InStep(r, start, s) && PlayedOn(r, start, s.moves)
    ensures var o := After(r, c, s, turns);
            PlayedOn(r, start, o.s.moves) && (o.Over? ==> EndsByRules(r, o.s))
  {
    hide TakeTurn, Chess, Playing, Settled, InStep, PlayedOn, EndsByRules, Recorded;
    if turns != [] {
      var n := |turns| - 1;
      MatchEndsByRules(r, c, start, s, turns[..n]);
      MatchSettles(r, c, s, turns[..n]);
      RecordKept(r, c, start, s, turns[..n]);
      if After(r, c, s, turns[..n]).Going? {
        StillPlaying(r, After(r, c, s, turns[..n]));
        TurnPlaysOn(r, c, start, After(r, c, s, turns[..n]).s, turns[n]);
      }
    }
  }

  // ---------- Adjudication ----------

  /** The endgame tables know the position and their verdict is among those asked for. */
  predicate TablesApply<B>(r: Rules<B>, c: Config, s: State<B>) {
    c.tbEnabled && r.tb(s.board).Some? &&
    match r.tb(s.board).value
    case WIN => c.tbWinLoss
    case LOSE => c.tbWinLoss
    case DRAW => c.tbDraw
    case NONE => false
  }

  /** The player who moved last has a negative score, and the last reports call for a resignation. */
  predicate ResignApplies<B>(c: Config, s: State<B>) {
    && c.resign.enabled && s.them.score.Some? && s.them.score.value.value < 0
    && (if c.resign.twosided then DecisiveTail(c.resign, s.log, 2 * c.resign.moveCount)
        else LosingTail(c.resign, Own(s.log, White), c.resign.moveCount) ||
             LosingTail(c.resign, Own(s.log, Black), c.resign.moveCount))
  }

  /** The move number is reached, and the last reports are near zero if a move count asks for it. */
  predicate DrawApplies<B>(r: Rules<B>, c: Config, s: State<B>) {
    && c.draw.enabled && UintPlies(r.fullMove(s.board)) >= c.draw.moveNumber
    && (c.draw.moveCount >= 1 ==> DrawSuffix(c.draw, s.log, 2 * c.draw.moveCount))
  }

  predicate LengthApplies<B>(c: Config, s: State<B>) { c.maxEnabled && |s.log| >= 2 * c.maxMoveCount }

  predicate Due<B>(r: Rules<B>, c: Config, s: State<B>) {
    TablesApply(r, c, s) || ResignApplies(c, s) || DrawApplies(r, c, s) || LengthApplies(c, s)
  }

  /** The draw rule counts full moves from 0; a board whose counter is 0 is taken to be far ahead. */
  lemma MoveNumbers(fullMove: int)
    ensures 1 <= fullMove <= 0x1_0000_0000 ==> UintPlies(fullMove) == fullMove - 1
    ensures UintPlies(0) == 0xFFFF_FFFF
  {}

  lemma DueNow<B>(r: Rules<B>, c: Config, s: State<B>)
    ensures c.resign.enabled && ResignDueNow(c, s) <==> ResignApplies(c, s)
    ensures c.draw.enabled && DrawDueNow(r, c, s) <==> DrawApplies(r, c, s)
  {
    hide ResignDue, DrawDue, DecisiveTail, LosingTail, DrawSuffix, UintPlies;
    ResignDueExactlyWhen(c.resign, s.log);
    DrawDueExactlyWhen(c.draw, s.log, UintPlies(r.fullMove(s.board)));
  }

  lemma AdjudicatedWhenDue<B>(r: Rules<B>, c: Config, s: State<B>)
    ensures Adjudicated(r, c, s).Some? <==> Due(r, c, s)
    ensures Due(r, c, s) ==>
              var u := Adjudicated(r, c, s).value;
              && u.termination == ADJUDICATION && Complementary(u.us.result, u.them.result)
              && (if TablesApply(r, c, s) then
                    u.us.result == r.tb(s.board).value && (u.reason.TbWin? || u.reason.TbDraw?)
                  else if ResignApplies(c, s) then u.us.result == WIN && u.reason.AdjudicatedWin?
                  else u.us.result == DRAW && u.reason.AdjudicatedDraw?)
  {
    hide ResignDueNow, DrawDueNow, ResignApplies, DrawApplies;
    DueNow(r, c, s);
  }

  /**
    A turn that begins in an open position is adjudicated exactly if a rule calls for it: the tables
    come first and decide as they say, then the player to move wins by resignation, then it is a draw.
   */
  lemma AdjudicatedExactlyWhen<B(!new)>(r: Rules<B>, c: Config, s: State<B>, t: Turn)
    requires Chess(r) && Playing(s) && !t.stopBefore && r.over(s.board).0 == NotOver
    ensures var o := TakeTurn(r, c, s, t);
            && (o.Over? && o.s.termination == ADJUDICATION <==> Due(r, c, s))
            && (Due(r, c, s) ==>
                  && Complementary(o.s.us.result, o.s.them.result)
                  && (if TablesApply(r, c, s) then o.s.us.result == r.tb(s.board).value
                      else if ResignApplies(c, s) then o.s.us.result == WIN && o.s.reason.AdjudicatedWin?
                      else o.s.us.result == DRAW && o.s.reason.AdjudicatedDraw?))
  {
    hide Adjudicated, Asked, Searched, Replied, Chess, Due, TablesApply, ResignApplies, Complementary, Settled;
    RulesEndSettles(r, s);
    OpenPosition(r, s);
    AdjudicatedWhenDue(r, c, s);
    TurnCases(r, c, s, t);
    hide RulesEnd;
  }

  lemma OpenPosition<B(!new)>(r: Rules<B>, s: State<B>)
    requires Chess(r) && r.over(s.board).0 == NotOver
    ensures RulesEnd(r, s) == Going(s)
  {}

  // ---------- What the engine answers ----------

  /** The engine is there, takes the position and is there still, and takes the command to search. */
  predicate Begun(t: Turn) {
    t.ready == Fine && t.position == Fine && t.readyAfterPosition == Fine && t.go == Fine
  }

  /** The search comes to its end; running out of time is one. */
  predicate Finished(t: Turn) { Begun(t) && (t.read == Fine || t.read == TimedOut) && !t.stopAfterRead }

  /** And the engine is still there. */
  predicate Answered(t: Turn) { Finished(t) && t.readyAfterRead == Fine }

  /** At one of the three checks the engine does not answer in time. */
  predicate Stalled(t: Turn) {
    || t.ready == TimedOut
    || (t.ready == Fine && t.position == Fine && t.readyAfterPosition == TimedOut)
    || (Finished(t) && t.readyAfterRead == TimedOut)
  }

  /** A check, the search or, in any way, a command fails. */
  predicate Crashed(t: Turn) {
    || t.ready == Failed
    || (t.ready == Fine && (t.position == TimedOut || t.position == Failed))
    || (t.ready == Fine && t.position == Fine && t.readyAfterPosition == Failed)
    || (t.ready == Fine && t.position == Fine && t.readyAfterPosition == Fine && (t.go == TimedOut || t.go == Failed))
    || (Begun(t) && t.read == Failed && !t.stopAfterRead)
    || (Finished(t) && t.readyAfterRead == Failed)
  }

  /** The clock does not allow the move; it is only asked with a base time or a fixed time. */
  predicate Late(s: Side, elapsed: int) {
    (s.limits.time != 0 || s.limits.fixedTime != 0) && !TimeControl.Tick(s.limits, s.clock, elapsed).1
  }

  /**
    A player can lose on time exactly with a fixed time per move or a running clock that has a base
    time; an increment alone is announced to the engine but never enforced.
   */
  lemma CanBeLateExactlyWhen(s: Side)
    ensures (exists elapsed :: Late(s, elapsed)) <==>
            s.limits.fixedTime != 0 || (s.limits.time != 0 && s.limits.time + s.limits.increment != 0)
  {
    var l := s.limits;
    if l.fixedTime != 0 || (l.time != 0 && l.time + l.increment != 0) {
      assert Late(s, TimeControl.Available(l, s.clock) + l.timemargin + 1);
    }
  }

  /** Nothing but the engine decides this turn. */
  predicate Open<B>(r: Rules<B>, c: Config, s: State<B>, t: Turn) {
    !t.stopBefore && r.over(s.board).0 == NotOver && !Due(r, c, s)
  }

  /** The engine to move has lost, unless the stop flag was read right after its search. */
  ghost predicate Charged<B>(t: Turn, u: State<B>) {
    if Begun(t) && t.read != Threw && t.stopAfterRead then Undecided(u) else u.us.result == LOSE && u.them.result == WIN
  }

  predicate Recordable(t: Turn) { t.bestmove.Some? && !t.recordThrows }

  lemma DialogueEndings<B>(r: Rules<B>, s: State<B>, t: Turn)
    requires Playing(s)
    ensures var o := Looped(var a := Asked(r, s, t); if a.Going? then Searched(r, s, t) else a);
            && (o.Going? <==> Answered(t)) && (o.Going? ==> o.s == WithScore(s, t).Swap())
            && (o.Over? && o.s.termination == STALL <==> Stalled(t))
            && (o.Over? && o.s.stallOrDisconnect && o.s.termination != STALL <==> Crashed(t))
            && (Crashed(t) ==> o.s.termination == if t.stopAtCrash then INTERRUPT else DISCONNECT)
            && (o.Over? ==> o.s.termination != TIMEOUT && o.s.termination != ILLEGAL_MOVE && Charged(t, o.s))
  {}

  lemma ReplyEndings<B>(r: Rules<B>, s: State<B>, t: Turn)
    requires Playing(s)
    ensures var o, late := Looped(Replied(r, s, t)), Late(s.us, t.elapsed);
            var legal := t.bestmove.Some? && r.legal(s.board, t.bestmove.value);
            && (o.Going? <==> Recordable(t) && legal && !late && !t.endThrows)
            && (o.Over? && o.s.termination == TIMEOUT <==> late && (t.bestmove.None? || (legal && Recordable(t))))
            && (o.Over? && o.s.termination == ILLEGAL_MOVE <==>
                  if t.bestmove.None? then !late else !legal && Recordable(t))
            && (o.Over? ==> o.s.termination in {TIMEOUT, ILLEGAL_MOVE, INTERRUPT} && !o.s.stallOrDisconnect)
            && (o.Over? ==> o.s.us.result == LOSE && o.s.them.result == WIN)
  {
    hide TimeControl.Tick;
  }

  lemma OpenTurn<B(!new)>(r: Rules<B>, c: Config, s: State<B>, t: Turn)
    requires Chess(r) && Playing(s) && Open(r, c, s, t)
    ensures var a := Asked(r, s, t);
            var d := if a.Going? then Searched(r, s, t) else a;
            TakeTurn(r, c, s, t) == if d.Going? then Looped(Replied(r, WithScore(s, t), t)) else Looped(d)
  {
    hide Asked, Searched, Replied, Adjudicated, Due, Chess, Playing;
    OpenPosition(r, s);
    AdjudicatedWhenDue(r, c, s);
    AskedSettles(r, s, t);
    SearchedSettles(r, s, t);
    hide RulesEnd;
  }

  /**
    Exactly when a turn that nothing else decides ends in each way. The checks come in the order of
    the dialogue, an illegal move comes before a late one, and a match goes on only if the engine is
    well throughout and gives a legal move in time.
   */
  lemma TurnEndsExactlyWhen<B(!new)>(r: Rules<B>, c: Config, s: State<B>, t: Turn)
    requires Chess(r) && Playing(s) && Open(r, c, s, t)
    ensures var o, late := TakeTurn(r, c, s, t), Late(s.us, t.elapsed);
            var legal := t.bestmove.Some? && r.legal(s.board, t.bestmove.value);
            && (o.Going? <==> Answered(t) && Recordable(t) && legal && !late && !t.endThrows)
            && (o.Over? && o.s.termination == STALL <==> Stalled(t))
            && (o.Over? && o.s.stallOrDisconnect && o.s.termination != STALL <==> Crashed(t))
            && (Crashed(t) ==> o.s.termination == if t.stopAtCrash then INTERRUPT else DISCONNECT)
            && (o.Over? && o.s.termination == TIMEOUT <==>
                  Answered(t) && late && (t.bestmove.None? || (legal && Recordable(t))))
            && (o.Over? && o.s.termination == ILLEGAL_MOVE <==>
                  Answered(t) && if t.bestmove.None? then !late else !legal && Recordable(t))
            && (o.Over? ==> Charged(t, o.s))
  {
    hide TakeTurn, Asked, Searched, Replied, Chess, Open, Answered, Stalled, Crashed, Charged;
    OpenTurn(r, c, s, t);
    DialogueEndings(r, s, t);
    ReplyEndings(r, WithScore(s, t), t);
    SearchScores(s, t);
    var o := TakeTurn(r, c, s, t);
    if Answered(t) && o.Over? { AnsweredIsCharged(t, o.s); }
  }

  lemma AnsweredIsCharged<B>(t: Turn, u: State<B>)
    requires Answered(t) && u.us.result == LOSE && u.them.result == WIN
    ensures Charged(t, u)
  {}

  /** What a turn that goes on has done: the move is on the board, in the record and reported, the clock has run. */
  lemma TurnPlayed<B(!new)>(r: Rules<B>, c: Config, s: State<B>, t: Turn)
    requires Chess(r) && Playing(s) && TakeTurn(r, c, s, t).Going?
    ensures t.bestmove.Some?
    ensures var u, mover := TakeTurn(r, c, s, t).s, s.us.(score := t.score);
            && u.board == r.play(s.board, t.bestmove.value)
            && u.moves == s.moves + [MoveData(t.bestmove.value, t.elapsed, true, false)]
            && u.log == s.log + [Report(r.sideToMove(s.board), t.score, r.halfMoveClock(u.board))]
            && u.us == s.them
            && u.them == (if mover.limits.time == 0 && mover.limits.fixedTime == 0 then mover
                          else mover.(clock := TimeControl.Tick(mover.limits, mover.clock, t.elapsed).0))
  {
    hide TakeTurn, Adjudicated, Replied, RulesEnd, TimeControl.Tick;
    TurnCases(r, c, s, t);
    var v := WithScore(s, t);
    ReplyReports(r, v, t);
    ReplyTicks(r, v, t);
    assert r.sideToMove(r.play(s.board, t.bestmove.value)) == r.sideToMove(s.board).Other();
  }

  lemma SearchScores<B>(s: State<B>, t: Turn)
    ensures Late(WithScore(s, t).us, t.elapsed) == Late(s.us, t.elapsed)
    ensures Playing(s) ==> Playing(WithScore(s, t))
    ensures WithScore(s, t).board == s.board
  {}

  // ---------- Whose turn it was ----------

  /** Who makes turn number `n` of the game loop. */
  function PlayerAt(first: Colour, n: nat): Colour { if n % 2 == 0 then first else first.Other() }

  lemma {:induction false} MoverByParity<B(!new)>(r: Rules<B>, c: Config, s: State<B>, turns: seq<Turn>)
    requires Chess(r) && Playing(s)
    ensures var o := After(r, c, s, turns);
            o.Going? ==> r.sideToMove(o.s.board) == PlayerAt(r.sideToMove(s.board), |turns|)
  {
    hide TakeTurn, Playing, Settled;
    if turns != [] {
      var n := |turns| - 1;
      MoverByParity(r, c, s, turns[..n]);
      MatchSettles(r, c, s, turns[..n]);
      var o := After(r, c, s, turns[..n]);
      if o.Going? && TakeTurn(r, c, o.s, turns[n]).Going? {
        StillPlaying(r, o);
        TurnPlayed(r, c, o.s, turns[n]);
        assert r.sideToMove(r.play(o.s.board, turns[n].bestmove.value)) == r.sideToMove(o.s.board).Other();
      }
    }
  }

  /** The board of a turn that ends the match is that of its beginning, unless an exception came after the move. */
  lemma LastBoard<B(!new)>(r: Rules<B>, c: Config, s: State<B>, t: Turn)
    requires Chess(r) && Playing(s) && TakeTurn(r, c, s, t).Over?
    ensures TakeTurn(r, c, s, t).s.termination != INTERRUPT ==> TakeTurn(r, c, s, t).s.board == s.board
  {
    hide TakeTurn, Adjudicated, RulesEnd, Replied, Chess, Playing;
    TurnCases(r, c, s, t);
    ReplyShapes(r, WithScore(s, t), t);
  }

  /** Unless it was interrupted, the player to move at the end is the one whose turn was the last. */
  lemma EndByParity<B(!new)>(r: Rules<B>, c: Config, s: State<B>, turns: seq<Turn>, n: nat)
    requires Chess(r) && Playing(s) && n < |turns| && After(r, c, s, turns[..n]).Going?
    requires After(r, c, s, turns[..n + 1]).Over? && After(r, c, s, turns[..n + 1]).s.termination != INTERRUPT
    ensures r.sideToMove(After(r, c, s, turns[..n + 1]).s.board) == PlayerAt(r.sideToMove(s.board), n)
  {
    hide TakeTurn, Playing, Settled, Chess, After;
    AfterNext(r, c, s, turns, n);
    MatchSettles(r, c, s, turns[..n]);
    StillPlaying(r, After(r, c, s, turns[..n]));
    MoverByParity(r, c, s, turns[..n]);
    LastBoard(r, c, After(r, c, s, turns[..n]).s, turns[n]);
  }

  /**
    Who has won, by colour. The side to move on the last board has lost if its engine failed, was late
    or moved illegally, and in a position that is lost; an adjudicated win is won by the colour it names.
   */
  ghost predicate WonByColour<B>(
      r: Rules<B>, board: B, termination: Termination, reason: Reason, players: (GameResult, GameResult))
  {
    var toMoveLoses := players == if r.sideToMove(board) == White then (LOSE, WIN) else (WIN, LOSE);
    && (termination in {TIMEOUT, STALL, DISCONNECT, ILLEGAL_MOVE} ==> toMoveLoses)
    && (termination == NORMAL ==> if r.over(board).1 == LOSE then toMoveLoses else players == (DRAW, DRAW))
    && (termination == ADJUDICATION ==>
          || (reason in {AdjudicatedWin(White), TbWin(White)} && players == (WIN, LOSE))
          || (reason in {AdjudicatedWin(Black), TbWin(Black)} && players == (LOSE, WIN))
          || (reason in {AdjudicatedDraw, TbDraw} && players == (DRAW, DRAW)))
  }

  /** Seen by the side to move. */
  lemma SettledByColour<B(!new)>(r: Rules<B>, u: State<B>)
    requires Chess(r) && Settled(r, Over(u))
    ensures WonByColour(r, u.board, u.termination, u.reason,
                        if r.sideToMove(u.board) == White then (u.us.result, u.them.result)
                        else (u.them.result, u.us.result))
  {}

  // ---------- The clocks and the record ----------

  /** The times of the recorded engine moves made with `side` to move. */
  function MoveTimes<B>(r: Rules<B>, start: B, moves: seq<MoveData>, side: Colour): seq<int> {
    if moves == [] then []
    else
      var n := |moves| - 1;
      MoveTimes(r, start, moves[..n], side) +
      if !moves[n].book && r.sideToMove(Replay(r, start, moves[..n])) == side then [moves[n].elapsed] else []
  }

  /** The player's clock has run for moves of these times; without base time and fixed time it stands still. */
  predicate Shows(player: Side, times: seq<int>) {
    player.clock == if player.limits.time != 0 || player.limits.fixedTime != 0
                    then TimeControl.After(player.limits, times).0 else TimeControl.Start(player.limits)
  }

  lemma TimesStep<B>(r: Rules<B>, start: B, moves: seq<MoveData>, m: MoveData, side: Colour)
    ensures MoveTimes(r, start, moves + [m], side) == MoveTimes(r, start, moves, side) +
              if !m.book && r.sideToMove(Replay(r, start, moves)) == side then [m.elapsed] else []
  {
    assert (moves + [m])[..|moves|] == moves;
  }

  lemma {:induction false} NoTimesYet<B>(r: Rules<B>, start: B, moves: seq<MoveData>, side: Colour)
    requires EngineMoves(moves) == 0
    ensures MoveTimes(r, start, moves, side) == []
  {
    if moves != [] { NoTimesYet(r, start, moves[..|moves| - 1], side); }
  }

  lemma ShowsAtStart(engine: Engine)
    ensures Shows(engine.AtStart(), [])
  {}

  lemma ShowsStep(player: Side, times: seq<int>, elapsed: int)
    requires Shows(player, times)
    ensures Shows(Ticked(player, elapsed).0, times + [elapsed])
    ensures Ticked(player, elapsed).0.limits == player.limits
  {
    assert (times + [elapsed])[..|times|] == times;
  }

  lemma SameShown(player: Side, other: Side, times: seq<int>)
    requires Shows(player, times) && other.limits == player.limits && other.clock == player.clock
    ensures Shows(other, times)
  {}

  /** Before every turn each clock shows the recorded moves of its own colour. */
  ghost predicate ClocksInStep<B>(r: Rules<B>, start: B, s: State<B>) {
    var side := r.sideToMove(s.board);
    && InStep(r, start, s)
    && Shows(s.us, MoveTimes(r, start, s.moves, side)) && Shows(s.them, MoveTimes(r, start, s.moves, side.Other()))
  }

  lemma ClocksStep<B(!new)>(r: Rules<B>, c: Config, start: B, s: State<B>, t: Turn)
    requires Chess(r) && Playing(s) && ClocksInStep(r, start, s) && TakeTurn(r, c, s, t).Going?
    requires InStep(r, start, TakeTurn(r, c, s, t).s)
    ensures ClocksInStep(r, start, TakeTurn(r, c, s, t).s)
  {
    hide TakeTurn, Playing, Honest, AllLegal, Replay, Shows, TimeControl.Tick, MoveTimes;
    TurnPlayed(r, c, s, t);
    var side, u := r.sideToMove(s.board), TakeTurn(r, c, s, t).s;
    var m, mover := MoveData(t.bestmove.value, t.elapsed, true, false), s.us.(score := t.score);
    assert r.sideToMove(u.board) == side.Other() by {
      assert r.sideToMove(r.play(s.board, t.bestmove.value)) == r.sideToMove(s.board).Other();
    }
    TimesStep(r, start, s.moves, m, side);
    TimesStep(r, start, s.moves, m, side.Other());
    var mine, theirs := MoveTimes(r, start, s.moves, side), MoveTimes(r, start, s.moves, side.Other());
    assert theirs + [] == theirs;
    SameShown(s.us, mover, mine);
    ShowsStep(mover, mine, t.elapsed);
  }

  /** In every match, before every turn. */
  lemma {:induction false} ClocksMatchRecord<B(!new)>(r: Rules<B>, c: Config, start: B, s: State<B>, turns: seq<Turn>)
    requires Chess(r) && Playing(s) && ClocksInStep(r, start, s)
    ensures After(r, c, s, turns).Going? ==> ClocksInStep(r, start, After(r, c, s, turns).s)
  {
    hide TakeTurn, Playing, Chess, Settled, Shows, Honest, AllLegal, Replay, MoveTimes;
    if turns != [] {
      var n := |turns| - 1;
      ClocksMatchRecord(r, c, start, s, turns[..n]);
      MatchSettles(r, c, s, turns[..n]);
      RecordKept(r, c, start, s, turns);
      var o := After(r, c, s, turns[..n]);
      if o.Going? && TakeTurn(r, c, o.s, turns[n]).Going? {
        StillPlaying(r, o);
        hide ClocksInStep;
        ClocksStep(r, c, start, o.s, turns[n]);
      }
    }
  }

  /** The last turn took time on the clock of `side` that no recorded move shows. */
  predicate Unrecorded<B>(r: Rules<B>, u: State<B>, side: Colour, t: Turn) {
    t.bestmove.None? && (u.termination == TIMEOUT || u.termination == ILLEGAL_MOVE) && r.sideToMove(u.board) == side
  }

  /**
    The clock of `side` at the end of a match whose last turn was `t`: exactly the recorded moves of
    that colour, and a last turn without a move; an interrupted turn may or may not be on the clock.
   */
  ghost predicate ClockAtEnd<B>(r: Rules<B>, start: B, u: State<B>, side: Colour, player: Side, t: Turn) {
    var times := MoveTimes(r, start, u.moves, side);
    || Shows(player, if Unrecorded(r, u, side, t) then times + [t.elapsed] else times)
    || (u.termination == INTERRUPT && Shows(player, times + [t.elapsed]))
  }

  /** Before the reply nothing is recorded and no time is taken. */
  ghost predicate EndsEarly<B>(s: State<B>, u: State<B>) {
    Untouched(s, u) && u.termination != TIMEOUT && u.termination != ILLEGAL_MOVE
  }

  lemma DialogueIsEarly<B>(r: Rules<B>, s: State<B>, t: Turn)
    requires Playing(s)
    ensures var o := Looped(var a := Asked(r, s, t); if a.Going? then Searched(r, s, t) else a);
            o.Over? ==> EndsEarly(s, o.s)
  {}

  lemma EarlyOrReplied<B(!new)>(r: Rules<B>, c: Config, s: State<B>, t: Turn)
    requires Chess(r) && Playing(s)
    ensures var o := TakeTurn(r, c, s, t);
            (o.Over? && EndsEarly(s, o.s)) || o == Looped(Replied(r, WithScore(s, t), t))
  {
    hide TakeTurn, Adjudicated, Asked, Searched, Replied, Chess, Playing, Due;
    if t.stopBefore {
      StopInterrupts(r, c, s, t);
    } else if r.over(s.board).0 != NotOver {
      FinishedGameEnds(r, c, s, t);
    } else if Due(r, c, s) {
      AdjudicatedExactlyWhen(r, c, s, t);
      TurnCases(r, c, s, t);
      AdjudicationLeavesRecord(r, c, s);
    } else {
      OpenTurn(r, c, s, t);
      DialogueIsEarly(r, s, t);
    }
  }

  lemma ReplyClocks<B>(r: Rules<B>, s: State<B>, t: Turn)
    ensures var o, ticked := Replied(r, s, t), Ticked(s.us, t.elapsed).0;
            && o.s.us.clock == ticked.clock && o.s.us.limits == ticked.limits
            && o.s.them.clock == s.them.clock && o.s.them.limits == s.them.limits
            && (Recordable(t) ==>
                  var move := t.bestmove.value;
                  o.s.moves == s.moves + [MoveData(move, t.elapsed, r.legal(s.board, move), false)])
            && (!Recordable(t) ==> !o.Going? && o.s.moves == s.moves)
            && (t.bestmove.None? ==> o.Over? && o.s.board == s.board)
            && (o.Over? ==> o.s.termination in {TIMEOUT, ILLEGAL_MOVE} && (t.bestmove.None? || Recordable(t)))
  {
    hide TimeControl.Tick;
  }

  lemma ClocksAtEnd<B(!new)>(r: Rules<B>, c: Config, start: B, s: State<B>, t: Turn)
    requires Chess(r) && Playing(s) && ClocksInStep(r, start, s) && TakeTurn(r, c, s, t).Over?
    ensures var u, side := TakeTurn(r, c, s, t).s, r.sideToMove(s.board);
            ClockAtEnd(r, start, u, side, u.us, t) && ClockAtEnd(r, start, u, side.Other(), u.them, t)
  {
    hide TakeTurn, Adjudicated, RulesEnd, Replied, Chess, Playing, Shows, Ticked, Honest, AllLegal, Replay, MoveTimes;
    EarlyOrReplied(r, c, s, t);
    var side, u, v := r.sideToMove(s.board), TakeTurn(r, c, s, t).s, WithScore(s, t);
    var mine, theirs := MoveTimes(r, start, s.moves, side), MoveTimes(r, start, s.moves, side.Other());
    if EndsEarly(s, u) {
      SameShown(s.us, u.us, mine);
      SameShown(s.them, u.them, theirs);
    } else {
      ReplyClocks(r, v, t);
      SameShown(s.us, v.us, mine);
      ShowsStep(v.us, mine, t.elapsed);
      SameShown(Ticked(v.us, t.elapsed).0, u.us, mine + [t.elapsed]);
      SameShown(s.them, u.them, theirs);
      if Recordable(t) {
        var m := MoveData(t.bestmove.value, t.elapsed, r.legal(s.board, t.bestmove.value), false);
        TimesStep(r, start, s.moves, m, side);
        TimesStep(r, start, s.moves, m, side.Other());
        assert theirs + [] == theirs;
      }
    }
  }
}
