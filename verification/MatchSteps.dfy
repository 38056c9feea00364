/**
  One match between two engines (app/src/matchmaking/match/match.cpp) over an abstract board and
  arbitrary engine behaviour. Every function here describes one step on values; class Match in
  Match.dfy carries the steps out in place.
 */
module MatchSteps {
  import opened Options
  import opened Adjudication
  import opened Stats
  import TimeControl

  datatype Termination = NORMAL | ADJUDICATION | TIMEOUT | DISCONNECT | STALL | ILLEGAL_MOVE | INTERRUPT | Unset

  datatype OverReason = NotOver | CHECKMATE | STALEMATE | INSUFFICIENT_MATERIAL | THREEFOLD_REPETITION | FIFTY_MOVE_RULE

  datatype Reason =
    | NoReason | Mates(winner: Colour) | RuleDraw(why: OverReason)
    | TbWin(winner: Colour) | TbDraw | AdjudicatedWin(winner: Colour) | AdjudicatedDraw
    | LosesOnTime(loser: Colour, overrun: int) | Disconnects(loser: Colour) | Stalls(loser: Colour)
    | IllegalMove(loser: Colour) | Interrupted

  /** The chess library: end of game, legality, making a move, and the endgame tables. */
  datatype Rules<!B> = Rules(
    over: B -> (OverReason, GameResult),
    legal: (B, string) -> bool,
    play: (B, string) -> B,
    sideToMove: B -> Colour,
    halfMoveClock: B -> int,
    fullMove: B -> int,
    tb: B -> Option<GameResult>)

  /** What is assumed of the library. */
  ghost predicate Chess<B(!new)>(r: Rules<B>) {
    && (forall b :: r.over(b).0 != NotOver <==> r.over(b).1 == LOSE || r.over(b).1 == DRAW)
    && (forall b, m :: r.sideToMove(r.play(b, m)) == r.sideToMove(b).Other())
  }

  datatype Config = Config(
    tbEnabled: bool, tbWinLoss: bool, tbDraw: bool,
    draw: DrawConfig, resign: ResignConfig, maxEnabled: bool, maxMoveCount: int)

  datatype MoveData = MoveData(move: string, elapsed: int, legal: bool, book: bool)

  /** How an engine answers a request; `Threw` stands for an exception. */
  datatype Reply = Fine | TimedOut | Failed | Threw

  /** Everything from outside that one turn can meet, including each reading of the stop flag. */
  datatype Turn = Turn(
    stopBefore: bool,
    ready: Reply, position: Reply, readyAfterPosition: Reply, go: Reply,
    read: Reply, stopAfterRead: bool, readyAfterRead: Reply,
    bestmove: Option<string>, elapsed: int, score: Option<Score>,
    recordThrows: bool, endThrows: bool, stopAtCrash: bool)

  datatype Side = Side(result: GameResult, limits: TimeControl.Limits, clock: TimeControl.Clock, score: Option<Score>) {
    predicate HasTimeControl() { limits.time != 0 || limits.fixedTime != 0 }
  }

  /** A match seen by the player to move (`us`); `log` holds the reports to the adjudication trackers. */
  datatype State<B> = State(
    board: B, moves: seq<MoveData>, log: seq<Report>, us: Side, them: Side,
    termination: Termination, reason: Reason, stallOrDisconnect: bool)
  {
    function Swap(): State<B> { this.(us := them, them := us) }

    function Results(mine: GameResult, theirs: GameResult): State<B> {
      this.(us := us.(result := mine), them := them.(result := theirs))
    }

    function Ends(t: Termination, why: Reason): State<B> { this.(termination := t, reason := why) }
  }

  datatype Outcome<B> = Going(s: State<B>) | Over(s: State<B>) | Raised(s: State<B>)

  // ---------- One turn ----------

  function Crash<B>(r: Rules<B>, s: State<B>, stop: bool): State<B> {
    var t := s.Results(LOSE, WIN).(stallOrDisconnect := true);
    if stop then t.Ends(INTERRUPT, Interrupted) else t.Ends(DISCONNECT, Disconnects(r.sideToMove(s.board)))
  }

  function Stall<B>(r: Rules<B>, s: State<B>): State<B> {
    s.Results(LOSE, WIN).(stallOrDisconnect := true).Ends(STALL, Stalls(r.sideToMove(s.board)))
  }

  function LateMove<B>(r: Rules<B>, s: State<B>, overrun: int): State<B> {
    s.Results(LOSE, WIN).Ends(TIMEOUT, LosesOnTime(r.sideToMove(s.board), overrun))
  }

  function BadMove<B>(r: Rules<B>, s: State<B>): State<B> {
    s.Results(LOSE, WIN).Ends(ILLEGAL_MOVE, IllegalMove(r.sideToMove(s.board)))
  }

  function Connected<B>(r: Rules<B>, s: State<B>, reply: Reply, stop: bool): Outcome<B> {
    match reply
    case Fine => Going(s)
    case TimedOut => Over(Stall(r, s))
    case Failed => Over(Crash(r, s, stop))
    case Threw => Raised(s)
  }

  /** A request that only fails or succeeds. */
  function Sent<B>(r: Rules<B>, s: State<B>, reply: Reply, stop: bool): Outcome<B> {
    match reply
    case Fine => Going(s)
    case Threw => Raised(s)
    case _ => Over(Crash(r, s, stop))
  }

  /** The end of the game by the rules of chess; the player to move may have lost. */
  function RulesEnd<B>(r: Rules<B>, s: State<B>): Outcome<B> {
    var (why, result) := r.over(s.board);
    var t := if result == DRAW then s.Results(DRAW, DRAW) else if result == LOSE then s.Results(LOSE, WIN) else s;
    if why == NotOver then Going(t)
    else Over(t.Ends(NORMAL, if why == CHECKMATE then Mates(r.sideToMove(s.board).Other()) else RuleDraw(why)))
  }

  function UintPlies(fullMove: int): nat { (fullMove - 1) % 0x1_0000_0000 }

  /** What an entry of the endgame tables means for the player to move. */
  function TbVerdict<B>(r: Rules<B>, c: Config, s: State<B>, tb: Option<GameResult>): Option<State<B>> {
    var side := r.sideToMove(s.board);
    if tb == Some(WIN) && c.tbWinLoss then Some(s.Results(WIN, LOSE).Ends(ADJUDICATION, TbWin(side)))
    else if tb == Some(LOSE) && c.tbWinLoss then Some(s.Results(LOSE, WIN).Ends(ADJUDICATION, TbWin(side.Other())))
    else if tb == Some(DRAW) && c.tbDraw then Some(s.Results(DRAW, DRAW).Ends(ADJUDICATION, TbDraw))
    else None
  }

  lemma NoTables<B>(r: Rules<B>, c: Config, s: State<B>)
    ensures TbVerdict(r, c, s, None).None?
  {}

  /** Adjudication before the player to move thinks: tables, resignation, draw, length, in that order. */
  function Adjudicated<B>(r: Rules<B>, c: Config, s: State<B>): Option<State<B>> {
    var tb := TbVerdict(r, c, s, if c.tbEnabled then r.tb(s.board) else None);
    if tb.Some? then tb
    else if c.resign.enabled && ResignDueNow(c, s) then
      Some(s.Results(WIN, LOSE).Ends(ADJUDICATION, AdjudicatedWin(r.sideToMove(s.board))))
    else if (c.draw.enabled && DrawDueNow(r, c, s)) || (c.maxEnabled && |s.log| >= 2 * c.maxMoveCount) then
      Some(s.Results(DRAW, DRAW).Ends(ADJUDICATION, AdjudicatedDraw))
    else None
  }

  predicate ResignDueNow<B>(c: Config, s: State<B>) {
    ResignDue(c.resign, s.log) && s.them.score.Some? && s.them.score.value.value < 0
  }

  predicate DrawDueNow<B>(r: Rules<B>, c: Config, s: State<B>) {
    DrawDue(c.draw, s.log, UintPlies(r.fullMove(s.board)))
  }

  /** The dialogue with the engine up to the start of its search. */
  function Asked<B>(r: Rules<B>, s: State<B>, t: Turn): Outcome<B> {
    if t.ready != Fine then Connected(r, s, t.ready, t.stopAtCrash)
    else if t.position != Fine then Sent(r, s, t.position, t.stopAtCrash)
    else if t.readyAfterPosition != Fine then Connected(r, s, t.readyAfterPosition, t.stopAtCrash)
    else Sent(r, s, t.go, t.stopAtCrash)
  }

  /** The search: its output fixes the engine's last score. */
  function Searched<B>(r: Rules<B>, s: State<B>, t: Turn): Outcome<B> {
    if t.read == Threw then Raised(s)
    else
      var u := s.(us := s.us.(score := t.score));
      if t.stopAfterRead then Over(u.(termination := INTERRUPT))
      else if t.read == Failed then Over(Crash(r, u, t.stopAtCrash))
      else Connected(r, u, t.readyAfterRead, t.stopAtCrash)
  }

  function Ticked(s: Side, elapsed: int): (Side, bool) {
    if s.HasTimeControl() then
      var (clock, ok) := TimeControl.Tick(s.limits, s.clock, elapsed);
      (s.(clock := clock), ok)
    else (s, true)
  }

  function Overrun(s: Side): int {
    if s.HasTimeControl() && s.clock.timeLeft < 0 then -s.clock.timeLeft else 0
  }

  /** The reply: recorded if there is one, and played only if it is legal and in time. */
  function Replied<B>(r: Rules<B>, s: State<B>, t: Turn): Outcome<B> {
    var (us, inTime) := Ticked(s.us, t.elapsed);
    var u := s.(us := us);
    match t.bestmove
    case None => Over(if inTime then BadMove(r, u) else LateMove(r, u, Overrun(us)))
    case Some(move) =>
      if t.recordThrows then Raised(u)
      else
        var legal := r.legal(s.board, move);
        var v := u.(moves := u.moves + [MoveData(move, t.elapsed, legal, false)]);
        if !legal then Over(BadMove(r, v))
        else if !inTime then Over(LateMove(r, v, Overrun(us)))
        else
          var w := Played(r, v, move);
          if t.endThrows then Raised(w) else Going(w)
  }

  function Played<B>(r: Rules<B>, s: State<B>, move: string): State<B> {
    var b := r.play(s.board, move);
    s.(board := b, log := s.log + [Report(r.sideToMove(b).Other(), s.us.score, r.halfMoveClock(b))])
  }

  function PlayMove<B>(r: Rules<B>, c: Config, s: State<B>, t: Turn): Outcome<B> {
    var a := RulesEnd(r, s);
    if !a.Going? then a
    else match Adjudicated(r, c, a.s)
      case Some(u) => Over(u)
      case None =>
        var b := Asked(r, a.s, t);
        if !b.Going? then b
        else
          var d := Searched(r, b.s, t);
          if !d.Going? then d else Replied(r, d.s, t)
  }

  /** Back in the game loop: exceptions interrupt, and a match that goes on is the other player's turn. */
  function Looped<B>(o: Outcome<B>): Outcome<B> {
    match o
    case Raised(u) => Over(u.Results(LOSE, WIN).Ends(INTERRUPT, Interrupted))
    case Over(u) => Over(u)
    case Going(u) => Going(u.Swap())
  }

  function TakeTurn<B>(r: Rules<B>, c: Config, s: State<B>, t: Turn): Outcome<B> {
    if t.stopBefore then Over(s.Ends(INTERRUPT, Interrupted)) else Looped(PlayMove(r, c, s, t))
  }

  /** The match after these turns; once it is over nothing more happens. */
  function After<B>(r: Rules<B>, c: Config, s: State<B>, turns: seq<Turn>): Outcome<B> {
    if turns == [] then Going(s)
    else match After(r, c, s, turns[..|turns| - 1])
      case Going(u) => TakeTurn(r, c, u, turns[|turns| - 1])
      case o => o
  }

  lemma AfterNext<B>(r: Rules<B>, c: Config, s: State<B>, turns: seq<Turn>, n: nat)
    requires n < |turns|
    ensures After(r, c, s, turns[..n + 1]) ==
            match After(r, c, s, turns[..n])
            case Going(u) => TakeTurn(r, c, u, turns[n])
            case o => o
  {
    assert turns[..n + 1][..n] == turns[..n];
  }

  // ---------- How a match ends ----------

  ghost predicate Decided<B>(s: State<B>) {
    s.termination == INTERRUPT || (s.termination != Unset && Complementary(s.us.result, s.them.result))
  }

  /** The reason names the right player; `us` is the one to move. */
  ghost predicate Named<B>(r: Rules<B>, s: State<B>) {
    var side := r.sideToMove(s.board);
    match s.termination
    case TIMEOUT => s.reason.LosesOnTime? && s.reason.loser == side && s.reason.overrun >= 0
    case DISCONNECT => s.reason == Disconnects(side)
    case STALL => s.reason == Stalls(side)
    case ILLEGAL_MOVE => s.reason == IllegalMove(side)
    case NORMAL =>
      var why := r.over(s.board).0;
      s.reason == if why == CHECKMATE then Mates(side.Other()) else RuleDraw(why)
    case ADJUDICATION =>
      && (s.reason.TbWin? || s.reason.AdjudicatedWin? || s.reason.TbDraw? || s.reason.AdjudicatedDraw?)
      && (s.reason.TbWin? || s.reason.AdjudicatedWin? ==> (s.reason.winner == side <==> s.us.result == WIN))
      && (s.reason.TbDraw? || s.reason.AdjudicatedDraw? <==> s.us.result == DRAW)
      && (s.reason.TbWin? ==> r.tb(s.board) == Some(s.us.result))
      && (s.reason.TbDraw? ==> r.tb(s.board) == Some(DRAW))
    case _ => true
  }

  /** Who gets the blame, for each way a match can end. */
  ghost predicate Blame<B>(r: Rules<B>, s: State<B>) {
    && Named(r, s)
    && (s.termination in {TIMEOUT, DISCONNECT, STALL, ILLEGAL_MOVE} ==> s.us.result == LOSE && s.them.result == WIN)
    && (s.termination == NORMAL ==> r.over(s.board).1 == s.us.result && r.over(s.board).0 != NotOver)
    && (s.termination in {DISCONNECT, STALL} ==> s.stallOrDisconnect)
    && (s.stallOrDisconnect ==> s.termination in {DISCONNECT, STALL, INTERRUPT})
  }

  ghost predicate Playing<B>(s: State<B>) {
    s.termination == Unset && s.reason == NoReason && s.us.result == s.them.result == NONE && !s.stallOrDisconnect
  }

  ghost predicate EndsElsewhere<B>(o: Outcome<B>) {
    o.Over? ==> o.s.termination != ADJUDICATION
  }

  ghost predicate Settled<B>(r: Rules<B>, o: Outcome<B>) {
    match o
    case Going(u) => Playing(u)
    case Over(u) => Decided(u) && Blame(r, u)
    case Raised(u) => true
  }

  lemma RulesEndSettles<B(!new)>(r: Rules<B>, s: State<B>)
    requires Chess(r) && Playing(s)
    ensures EndsElsewhere(RulesEnd(r, s))
    ensures Settled(r, RulesEnd(r, s)) && (RulesEnd(r, s).Going? ==> RulesEnd(r, s).s == s)
  {
    assert r.over(s.board).0 != NotOver <==> r.over(s.board).1 == LOSE || r.over(s.board).1 == DRAW;
  }

  lemma AdjudicationSettles<B>(r: Rules<B>, c: Config, s: State<B>)
    requires Playing(s)
    ensures Adjudicated(r, c, s).Some? ==> Settled(r, Over(Adjudicated(r, c, s).value))
  {
    hide ResignDueNow, DrawDueNow;
  }

  lemma AskedSettles<B>(r: Rules<B>, s: State<B>, t: Turn)
    requires Playing(s)
    ensures EndsElsewhere(Asked(r, s, t))
    ensures Settled(r, Asked(r, s, t)) && (Asked(r, s, t).Going? ==> Asked(r, s, t).s == s)
  {}

  lemma SearchedSettles<B>(r: Rules<B>, s: State<B>, t: Turn)
    requires Playing(s)
    ensures EndsElsewhere(Searched(r, s, t))
    ensures Settled(r, Searched(r, s, t))
    ensures Searched(r, s, t).Going? ==> Searched(r, s, t).s == s.(us := s.us.(score := t.score))
  {}

  lemma RepliedSettles<B>(r: Rules<B>, s: State<B>, t: Turn)
    requires Playing(s)
    ensures EndsElsewhere(Replied(r, s, t))
    ensures Settled(r, Replied(r, s, t))
  {
    hide TimeControl.Tick;
  }

  /** A turn leaves the match undecided, or decides it completely. */
  lemma TurnSettles<B(!new)>(r: Rules<B>, c: Config, s: State<B>, t: Turn)
    requires Chess(r) && Playing(s)
    ensures Settled(r, TakeTurn(r, c, s, t)) && !TakeTurn(r, c, s, t).Raised?
  {
    hide RulesEnd, Adjudicated, Asked, Searched, Replied, Chess;
    RulesEndSettles(r, s);
    AdjudicationSettles(r, c, s);
    AskedSettles(r, s, t);
    SearchedSettles(r, s, t);
    RepliedSettles(r, s.(us := s.us.(score := t.score)), t);
  }

  /** Whatever the engines do: a match that is over is interrupted or has complementary results. */
  lemma {:induction false} MatchSettles<B(!new)>(r: Rules<B>, c: Config, s: State<B>, turns: seq<Turn>)
    requires Chess(r) && Playing(s)
    ensures Settled(r, After(r, c, s, turns)) && !After(r, c, s, turns).Raised?
  {
    hide TakeTurn, Settled, Chess, Playing;
    if turns == [] {
      StartSettled(r, s);
    } else {
      var n := |turns| - 1;
      MatchSettles(r, c, s, turns[..n]);
      if After(r, c, s, turns[..n]).Going? {
        StillPlaying(r, After(r, c, s, turns[..n]));
        TurnSettles(r, c, After(r, c, s, turns[..n]).s, turns[n]);
      }
    }
  }

  lemma StartSettled<B>(r: Rules<B>, s: State<B>)
    requires Playing(s)
    ensures Settled(r, Going(s))
  {}

  lemma StillPlaying<B>(r: Rules<B>, o: Outcome<B>)
    requires Settled(r, o) && o.Going?
    ensures Playing(o.s)
  {}

  // ---------- The record of moves ----------

  /** The match record and the clocks are as before. */
  ghost predicate Untouched<B>(s: State<B>, u: State<B>) {
    && u.board == s.board && u.moves == s.moves && u.log == s.log
    && u.us.clock == s.us.clock && u.us.limits == s.us.limits
    && u.them.clock == s.them.clock && u.them.limits == s.them.limits
  }

  ghost predicate InTime<B>(o: Outcome<B>) {
    o.Over? ==> o.s.termination != TIMEOUT
  }

  lemma AdjudicationLeavesRecord<B>(r: Rules<B>, c: Config, s: State<B>)
    ensures Adjudicated(r, c, s).Some? ==>
              Untouched(s, Adjudicated(r, c, s).value) && Adjudicated(r, c, s).value.termination == ADJUDICATION
  {
    hide ResignDueNow, DrawDueNow;
  }

  lemma AskedLeavesRecord<B>(r: Rules<B>, s: State<B>, t: Turn)
    ensures Untouched(s, Asked(r, s, t).s) && InTime(Asked(r, s, t))
  {}

  lemma RulesEndLeavesRecord<B>(r: Rules<B>, s: State<B>)
    ensures Untouched(s, RulesEnd(r, s).s) && InTime(RulesEnd(r, s))
  {}

  lemma SearchLeavesRecord<B>(r: Rules<B>, s: State<B>, t: Turn)
    ensures Untouched(s, Searched(r, s, t).s) && InTime(Searched(r, s, t))
  {}

  function WithScore<B>(s: State<B>, t: Turn): State<B> { s.(us := s.us.(score := t.score)) }

  /** A turn ends the match before the reply and touches nothing, or passes every check up to it. */
  lemma TurnCases<B(!new)>(r: Rules<B>, c: Config, s: State<B>, t: Turn)
    requires Chess(r) && Playing(s)
    ensures var o := TakeTurn(r, c, s, t);
            || (o.Over? && Untouched(s, o.s) && InTime(o))
            || (RulesEnd(r, s).Going? && Adjudicated(r, c, s).None? && o == Looped(Replied(r, WithScore(s, t), t)))
    ensures var o := TakeTurn(r, c, s, t);
            o.Over? && o.s.termination == ADJUDICATION ==> Adjudicated(r, c, s) == Some(o.s)
  {
    hide RulesEnd, Adjudicated, Asked, Searched, Replied, Chess;
    RulesEndSettles(r, s);
    AskedSettles(r, s, t);
    SearchedSettles(r, s, t);
    AdjudicationLeavesRecord(r, c, s);
    AskedLeavesRecord(r, s, t);
    RulesEndLeavesRecord(r, s);
    SearchLeavesRecord(r, s, t);
    RepliedSettles(r, s.(us := s.us.(score := t.score)), t);
  }

  function Replay<B>(r: Rules<B>, start: B, moves: seq<MoveData>): B {
    if moves == [] then start else r.play(Replay(r, start, moves[..|moves| - 1]), moves[|moves| - 1].move)
  }

  /** The legality flag of every move from an engine is the truth about the position it was made in. */
  ghost predicate Honest<B>(r: Rules<B>, start: B, moves: seq<MoveData>) {
    forall k :: 0 <= k < |moves| && !moves[k].book ==>
      (moves[k].legal <==> r.legal(Replay(r, start, moves[..k]), moves[k].move))
  }

  ghost predicate AllLegal(moves: seq<MoveData>) {
    forall k :: 0 <= k < |moves| ==> moves[k].book || moves[k].legal
  }

  function Front(moves: seq<MoveData>): seq<MoveData> {
    if moves == [] then [] else moves[..|moves| - 1]
  }

  /** Before every turn the recorded moves are legal and lead from the start to the board. */
  ghost predicate InStep<B>(r: Rules<B>, start: B, s: State<B>) {
    Honest(r, start, s.moves) && AllLegal(s.moves) && Replay(r, start, s.moves) == s.board
  }

  /**
    At the end, the last move may be missing from the board: an illegal one, flagged as such, or
    one that came too late.
   */
  ghost predicate Recorded<B>(r: Rules<B>, start: B, s: State<B>) {
    && Honest(r, start, s.moves) && AllLegal(Front(s.moves))
    && (AllLegal(s.moves) || s.termination == ILLEGAL_MOVE)
    && (s.board == Replay(r, start, s.moves) ||
        (s.termination in {ILLEGAL_MOVE, TIMEOUT} && s.moves != [] && s.board == Replay(r, start, Front(s.moves))))
  }

  lemma HonestStep<B>(r: Rules<B>, start: B, moves: seq<MoveData>, m: MoveData)
    requires Honest(r, start, moves)
    requires m.book || (m.legal <==> r.legal(Replay(r, start, moves), m.move))
    ensures Honest(r, start, moves + [m])
    ensures Front(moves + [m]) == moves
    ensures Replay(r, start, moves + [m]) == r.play(Replay(r, start, moves), m.move)
    ensures AllLegal(moves) ==> (AllLegal(moves + [m]) <==> m.book || m.legal)
  {
    var after := moves + [m];
    assert after[..|moves|] == moves;
    forall k | 0 <= k < |after| && !after[k].book
      ensures after[k].legal <==> r.legal(Replay(r, start, after[..k]), after[k].move)
    {
      if k < |moves| { assert after[..k] == moves[..k]; }
    }
    assert after[|moves|] == m;
  }

  /** The three shapes of a reply: nothing recorded; recorded but not played; recorded and played. */
  lemma ReplyShapes<B>(r: Rules<B>, s: State<B>, t: Turn)
    ensures var o := Replied(r, s, t);
            || (!o.Going? && o.s.moves == s.moves && o.s.board == s.board && (t.bestmove.None? || t.recordThrows))
            || (t.bestmove.Some? &&
                var move := t.bestmove.value;
                var legal := r.legal(s.board, move);
                && o.s.moves == s.moves + [MoveData(move, t.elapsed, legal, false)]
                && ((o.Over? && o.s.board == s.board && o.s.termination == (if legal then TIMEOUT else ILLEGAL_MOVE)) ||
                    (!o.Over? && legal && o.s.board == r.play(s.board, move))))
  {
    hide TimeControl.Tick;
  }

  lemma RepliedRecords<B>(r: Rules<B>, start: B, s: State<B>, t: Turn)
    requires InStep(r, start, s)
    ensures match Looped(Replied(r, s, t))
            case Going(u) => InStep(r, start, u)
            case Over(u) => Recorded(r, start, u)
            case Raised(u) => false
  {
    hide Replied, Replay, Honest, AllLegal;
    FrontLegal(s.moves);
    ReplyShapes(r, s, t);
    if t.bestmove.Some? {
      var move := t.bestmove.value;
      HonestStep(r, start, s.moves, MoveData(move, t.elapsed, r.legal(s.board, move), false));
      hide Front;
    }
  }

  lemma FrontLegal(moves: seq<MoveData>)
    requires AllLegal(moves)
    ensures AllLegal(Front(moves))
  {}

  lemma {:induction false} RecordKept<B(!new)>(r: Rules<B>, c: Config, start: B, s: State<B>, turns: seq<Turn>)
    requires Chess(r) && Playing(s) && InStep(r, start, s)
    ensures match After(r, c, s, turns)
            case Going(u) => InStep(r, start, u)
            case Over(u) => Recorded(r, start, u)
            case Raised(u) => false
  {
    hide TakeTurn, Playing, Chess, Settled, Replied, InStep, Recorded;
    if turns != [] {
      var n := |turns| - 1;
      RecordKept(r, c, start, s, turns[..n]);
      MatchSettles(r, c, s, turns[..n]);
      var o := After(r, c, s, turns[..n]);
      if o.Going? {
        StillPlaying(r, o);
        TurnCases(r, c, o.s, turns[n]);
        UntouchedRecord(r, start, o.s, TakeTurn(r, c, o.s, turns[n]).s);
        SameRecord(r, start, o.s, WithScore(o.s, turns[n]));
        RepliedRecords(r, start, WithScore(o.s, turns[n]), turns[n]);
      }
    }
  }

  lemma SameRecord<B>(r: Rules<B>, start: B, s: State<B>, u: State<B>)
    requires InStep(r, start, s) && u.moves == s.moves && u.board == s.board
    ensures InStep(r, start, u)
  {}

  lemma UntouchedRecord<B>(r: Rules<B>, start: B, s: State<B>, u: State<B>)
    requires InStep(r, start, s)
    ensures Untouched(s, u) ==> Recorded(r, start, u)
  {
    FrontLegal(s.moves);
  }

  // ---------- Adjudication over whole games ----------

  /**
    What the trackers have been told, at the start of every turn; `start` is the score left over with
    the player who does not move first.
   */
  ghost predicate LogInv<B>(r: Rules<B>, c: Config, start: Option<Score>, s: State<B>) {
    && Alternates(s.log) && s.them.score == LastScore(start, s.log)
    && (s.log != [] ==> s.log[|s.log| - 1].mover == r.sideToMove(s.board).Other() &&
                        s.log[|s.log| - 1].halfMoveClock == r.halfMoveClock(s.board))
    && (c.resign.enabled ==> forall n :: 0 <= n < |s.log| ==> !Fires(c.resign, start, s.log[..n]))
    && (c.maxEnabled && s.log != [] ==> |s.log| <= 2 * c.maxMoveCount)
    && |s.log| == EngineMoves(s.moves)
  }

  function EngineMoves(moves: seq<MoveData>): nat {
    if moves == [] then 0
    else EngineMoves(moves[..|moves| - 1]) + (if moves[|moves| - 1].book then 0 else 1)
  }

  lemma EngineMovesStep(moves: seq<MoveData>, m: MoveData)
    ensures EngineMoves(moves + [m]) == EngineMoves(moves) + (if m.book then 0 else 1)
  {
    assert (moves + [m])[..|moves|] == moves;
  }

  /** A turn that goes on was not due for adjudication. */
  lemma NotDue<B>(r: Rules<B>, c: Config, s: State<B>)
    requires Adjudicated(r, c, s).None?
    ensures c.resign.enabled ==> !ResignDueNow(c, s)
    ensures c.draw.enabled ==> !DrawDueNow(r, c, s)
    ensures c.maxEnabled ==> |s.log| < 2 * c.maxMoveCount
  {
    hide ResignDueNow, DrawDueNow;
  }

  lemma ReplyReports<B>(r: Rules<B>, s: State<B>, t: Turn)
    requires Replied(r, s, t).Going?
    ensures t.bestmove.Some?
    ensures var u := Replied(r, s, t).s;
            var b := r.play(s.board, t.bestmove.value);
            && u.board == b && u.them == s.them && u.us.score == s.us.score
            && u.moves == s.moves + [MoveData(t.bestmove.value, t.elapsed, true, false)]
            && u.log == s.log + [Report(r.sideToMove(b).Other(), s.us.score, r.halfMoveClock(b))]
  {
    hide TimeControl.Tick;
  }

  lemma LogStep<B(!new)>(r: Rules<B>, c: Config, start: Option<Score>, s: State<B>, t: Turn)
    requires Chess(r) && LogInv(r, c, start, s) && Adjudicated(r, c, s).None?
    requires Replied(r, WithScore(s, t), t).Going?
    ensures LogInv(r, c, start, Replied(r, WithScore(s, t), t).s.Swap())
  {
    hide Adjudicated, Replied, ResignDue, DrawDue, EngineMoves;
    NotDue(r, c, s);
    ReplyReports(r, WithScore(s, t), t);
    var u := Replied(r, WithScore(s, t), t).s;
    EngineMovesStep(s.moves, MoveData(t.bestmove.value, t.elapsed, true, false));
    assert r.sideToMove(r.play(s.board, t.bestmove.value)) == r.sideToMove(s.board).Other();
    if c.resign.enabled {
      forall n | 0 <= n < |u.log| ensures !Fires(c.resign, start, u.log[..n]) {
        if n < |s.log| { assert u.log[..n] == s.log[..n]; } else { assert u.log[..n] == s.log; }
      }
    }
  }

  lemma {:induction false} LogKept<B(!new)>(
      r: Rules<B>, c: Config, start: Option<Score>, s: State<B>, turns: seq<Turn>)
    requires Chess(r) && Playing(s) && LogInv(r, c, start, s)
    ensures After(r, c, s, turns).Going? ==> LogInv(r, c, start, After(r, c, s, turns).s)
  {
    hide TakeTurn, Playing, Chess, Settled, Replied, LogInv, Adjudicated, RulesEnd;
    if turns != [] {
      var n := |turns| - 1;
      LogKept(r, c, start, s, turns[..n]);
      MatchSettles(r, c, s, turns[..n]);
      var o := After(r, c, s, turns[..n]);
      if o.Going? {
        StillPlaying(r, o);
        TurnCases(r, c, o.s, turns[n]);
        if Replied(r, WithScore(o.s, turns[n]), turns[n]).Going? && Adjudicated(r, c, o.s).None? {
          LogStep(r, c, start, o.s, turns[n]);
        }
      }
    }
  }

  /** The turn that ended a match, and the match before it. */
  lemma {:induction false} LastTurn<B(!new)>(r: Rules<B>, c: Config, s: State<B>, turns: seq<Turn>) returns (n: nat)
    requires Chess(r) && Playing(s) && After(r, c, s, turns).Over?
    ensures n < |turns| && After(r, c, s, turns[..n]).Going?
    ensures TakeTurn(r, c, After(r, c, s, turns[..n]).s, turns[n]) == After(r, c, s, turns)
  {
    hide TakeTurn, Playing, Chess, Settled;
    n := |turns| - 1;
    MatchSettles(r, c, s, turns[..n]);
    if !After(r, c, s, turns[..n]).Going? {
      n := LastTurn(r, c, s, turns[..n]);
      assert turns[..|turns| - 1][..n] == turns[..n];
    }
  }

  lemma AdjudicatedCases<B>(r: Rules<B>, c: Config, s: State<B>)
    requires Adjudicated(r, c, s).Some?
    ensures var u := Adjudicated(r, c, s).value;
            && u.log == s.log && u.board == s.board
            && (u.reason.AdjudicatedWin? ==>
                  u.us.result == WIN && u.them.result == LOSE && u.reason.winner == r.sideToMove(s.board) &&
                  c.resign.enabled && ResignDueNow(c, s))
            && (u.reason.AdjudicatedDraw? ==>
                  u.us.result == DRAW && u.them.result == DRAW &&
                  ((c.draw.enabled && DrawDueNow(r, c, s)) || (c.maxEnabled && |s.log| >= 2 * c.maxMoveCount)))
  {
    hide ResignDueNow, DrawDueNow;
  }

  /**
    Every game ended by the one-sided resign rule, with a positive threshold, is lost by the engine
    whose own last `moveCount` moves were all losing, while the winner's counter was below the limit.
   */
  lemma ResignedGamesAreLost<B(!new)>(r: Rules<B>, c: Config, s: State<B>, turns: seq<Turn>)
    requires Chess(r) && Playing(s) && s.log == [] && EngineMoves(s.moves) == 0
    requires !c.resign.twosided && c.resign.score > 0 && c.resign.moveCount >= 1
    requires After(r, c, s, turns).Over? && After(r, c, s, turns).s.termination == ADJUDICATION
    requires After(r, c, s, turns).s.reason.AdjudicatedWin?
    ensures var u := After(r, c, s, turns).s;
            && u.us.result == WIN && u.them.result == LOSE && u.reason.winner == r.sideToMove(u.board)
            && LossCount(c.resign, u.log, u.reason.winner.Other()) >= c.resign.moveCount
            && LossCount(c.resign, u.log, u.reason.winner) < c.resign.moveCount
  {
    hide TakeTurn, Chess, Adjudicated, After, LossCount, EngineMoves, Fires;
    var n := LastTurn(r, c, s, turns);
    var v := After(r, c, s, turns[..n]).s;
    MatchSettles(r, c, s, turns[..n]);
    LogKept(r, c, s.them.score, s, turns[..n]);
    hide Playing;
    StillPlaying(r, After(r, c, s, turns[..n]));
    TurnCases(r, c, v, turns[n]);
    AdjudicatedCases(r, c, v);
    ResignNeedsReports(c, v);
    FiringIsLast(r, c, s.them.score, v);
    ResignIsEarned(c.resign, s.them.score, v.log);
  }

  lemma ResignNeedsReports<B>(c: Config, s: State<B>)
    requires !c.resign.twosided && c.resign.moveCount >= 1 && ResignDueNow(c, s)
    ensures s.log != []
  {
    NoReports(c.resign, White);
    NoReports(c.resign, Black);
  }

  lemma FiringIsLast<B>(r: Rules<B>, c: Config, start: Option<Score>, s: State<B>)
    requires LogInv(r, c, start, s) && c.resign.enabled && ResignDueNow(c, s)
    ensures EndsByResign(c.resign, start, s.log)
  {
    hide ResignDue;
  }

  /**
    A game drawn by adjudication either ran to the move limit, or has reached the move number and its
    last `2 * moveCount` reports were all near zero with no irreversible move among the later ones.
    With a move count of 0 or less the move number alone decides: see `DrawnAtMoveNumber`.
   */
  lemma DrawnGamesAreQuiet<B(!new)>(r: Rules<B>, c: Config, s: State<B>, turns: seq<Turn>)
    requires Chess(r) && Playing(s)
    requires After(r, c, s, turns).Over? && After(r, c, s, turns).s.termination == ADJUDICATION
    requires After(r, c, s, turns).s.reason.AdjudicatedDraw?
    ensures var u := After(r, c, s, turns).s;
            && u.us.result == u.them.result == DRAW
            && ((c.maxEnabled && |u.log| >= 2 * c.maxMoveCount) ||
                (c.draw.enabled && UintPlies(r.fullMove(u.board)) >= c.draw.moveNumber &&
                 (c.draw.moveCount >= 1 ==> DrawSuffix(c.draw, u.log, 2 * c.draw.moveCount))))
  {
    hide TakeTurn, Chess, Adjudicated, After, Playing, DrawSuffix, DrawDue;
    var n := LastTurn(r, c, s, turns);
    var v := After(r, c, s, turns[..n]).s;
    MatchSettles(r, c, s, turns[..n]);
    StillPlaying(r, After(r, c, s, turns[..n]));
    TurnCases(r, c, v, turns[n]);
    AdjudicatedCases(r, c, v);
    DrawQuietExactlyWhen(c.draw);
    DueIsLate(c.draw, v.log, UintPlies(r.fullMove(v.board)));
  }

  lemma DueIsLate(c: DrawConfig, log: seq<Report>, plies: nat)
    ensures DrawDue(c, log, plies) ==> plies >= c.moveNumber
  {}

  /**
    With a move count of 0 or less no match gets past the move number: a turn that starts there ends
    the match and leaves the record alone. Unless it is stopped or ends by the rules, it is adjudicated.
   */
  lemma DrawnAtMoveNumber<B(!new)>(r: Rules<B>, c: Config, s: State<B>, turns: seq<Turn>, n: nat)
    requires Chess(r) && Playing(s) && c.draw.enabled && c.draw.moveCount <= 0 && n < |turns|
    requires After(r, c, s, turns[..n]).Going?
    requires UintPlies(r.fullMove(After(r, c, s, turns[..n]).s.board)) >= c.draw.moveNumber
    ensures var u, o := After(r, c, s, turns[..n]).s, After(r, c, s, turns[..n + 1]);
            && o.Over? && Untouched(u, o.s)
            && (!turns[n].stopBefore && RulesEnd(r, u).Going? ==> o.s.termination == ADJUDICATION)
            && (!turns[n].stopBefore && RulesEnd(r, u).Going? && !c.tbEnabled && !c.resign.enabled ==>
                  o.s.reason == AdjudicatedDraw && o.s.us.result == o.s.them.result == DRAW)
  {
    hide After, Chess, Playing, Settled, DrawDue, TbVerdict;
    var u := After(r, c, s, turns[..n]).s;
    AfterNext(r, c, s, turns, n);
    MatchSettles(r, c, s, turns[..n]);
    StillPlaying(r, After(r, c, s, turns[..n]));
    DrawQuietExactlyWhen(c.draw);
    RulesEndSettles(r, u);
    RulesEndLeavesRecord(r, u);
    AdjudicationLeavesRecord(r, c, u);
    NoTables(r, c, u);
    hide RulesEnd;
  }

  /** With a move limit no match, finished or not, has more than that many moves from each side. */
  lemma MoveLimit<B(!new)>(r: Rules<B>, c: Config, s: State<B>, turns: seq<Turn>)
    requires Chess(r) && Playing(s) && s.log == [] && EngineMoves(s.moves) == 0 && c.maxEnabled && c.maxMoveCount >= 0
    ensures EngineMoves(After(r, c, s, turns).s.moves) <= 2 * c.maxMoveCount
  {
    hide After, Chess, Playing, EngineMoves, TakeTurn, Settled;
    MatchSettles(r, c, s, turns);
    if After(r, c, s, turns).Going? {
      LogKept(r, c, s.them.score, s, turns);
    } else {
      assert After(r, c, s, turns).Over?;
      var n := LastTurn(r, c, s, turns);
      LogKept(r, c, s.them.score, s, turns[..n]);
      MatchSettles(r, c, s, turns[..n]);
      StillPlaying(r, After(r, c, s, turns[..n]));
      LastMoveFits(r, c, s.them.score, After(r, c, s, turns[..n]).s, turns[n]);
    }
  }

  /** A turn that is not cut short by adjudication adds at most one move. */
  lemma LastMoveFits<B(!new)>(r: Rules<B>, c: Config, start: Option<Score>, s: State<B>, t: Turn)
    requires Chess(r) && Playing(s) && LogInv(r, c, start, s) && c.maxEnabled && c.maxMoveCount >= 0
    requires TakeTurn(r, c, s, t).Over?
    ensures EngineMoves(TakeTurn(r, c, s, t).s.moves) <= 2 * c.maxMoveCount
  {
    hide TakeTurn, Chess, Playing, Adjudicated, RulesEnd, Replied;
    TurnCases(r, c, s, t);
    hide EngineMoves;
    if !Untouched(s, TakeTurn(r, c, s, t).s) {
      NotDue(r, c, s);
      ReplyShapes(r, WithScore(s, t), t);
      if t.bestmove.Some? {
        var move := t.bestmove.value;
        EngineMovesStep(s.moves, MoveData(move, t.elapsed, r.legal(s.board, move), false));
      }
    }
  }

  // ---------- When the results are left unset ----------

  /** The turn meets the stop flag before it begins, or right after a search that did not throw. */
  predicate Stopped<B>(r: Rules<B>, c: Config, s: State<B>, t: Turn) {
    t.stopBefore ||
    (RulesEnd(r, s).Going? && Adjudicated(r, c, s).None? && Asked(r, s, t).Going? && t.read != Threw && t.stopAfterRead)
  }

  ghost predicate Undecided<B>(s: State<B>) { s.us.result == s.them.result == NONE }

  lemma BothOrNone<B>(r: Rules<B>, o: Outcome<B>)
    requires Settled(r, o) && o.Over? && o.s.termination != INTERRUPT
    ensures o.s.us.result != NONE && o.s.them.result != NONE
  {}

  lemma AskedBlames<B>(r: Rules<B>, s: State<B>, t: Turn)
    ensures Asked(r, s, t).Over? ==> Asked(r, s, t).s.us.result == LOSE && Asked(r, s, t).s.them.result == WIN
  {}

  lemma SearchedBlames<B>(r: Rules<B>, s: State<B>, t: Turn)
    requires Undecided(s) && Searched(r, s, t).Over?
    ensures var u := Searched(r, s, t).s;
            if t.stopAfterRead then Undecided(u) else u.us.result == LOSE && u.them.result == WIN
    ensures t.read != Threw
  {}

  lemma RepliedBlames<B>(r: Rules<B>, s: State<B>, t: Turn)
    ensures Replied(r, s, t).Over? ==> Replied(r, s, t).s.us.result == LOSE && Replied(r, s, t).s.them.result == WIN
  {
    hide TimeControl.Tick;
  }

  lemma SearchGoesOn<B>(r: Rules<B>, s: State<B>, t: Turn)
    requires !Searched(r, s, t).Over?
    ensures !(t.read != Threw && t.stopAfterRead)
  {}

  /** A turn that ends a match leaves both results unset, or neither; unset exactly if it was stopped. */
  lemma TurnDecides<B(!new)>(r: Rules<B>, c: Config, s: State<B>, t: Turn)
    requires Chess(r) && Playing(s) && TakeTurn(r, c, s, t).Over?
    ensures var u := TakeTurn(r, c, s, t).s;
            if Stopped(r, c, s, t) then Undecided(u) else u.us.result != NONE && u.them.result != NONE
  {
    hide RulesEnd, Adjudicated, Asked, Searched, Replied, Chess, Settled;
    RulesEndSettles(r, s);
    AdjudicationSettles(r, c, s);
    AdjudicationLeavesRecord(r, c, s);
    AskedSettles(r, s, t);
    AskedBlames(r, s, t);
    SearchedSettles(r, s, t);
    if !t.stopBefore {
      if RulesEnd(r, s).Over? {
        RulesDecide(r, s);
      } else if Adjudicated(r, c, s).Some? {
        BothOrNone(r, Over(Adjudicated(r, c, s).value));
      } else if Searched(r, s, t).Over? {
        SearchedBlames(r, s, t);
      } else {
        SearchGoesOn(r, s, t);
        RepliedBlames(r, WithScore(s, t), t);
      }
    }
  }

  lemma RulesDecide<B(!new)>(r: Rules<B>, s: State<B>)
    requires Chess(r) && RulesEnd(r, s).Over?
    ensures RulesEnd(r, s).s.us.result != NONE && RulesEnd(r, s).s.them.result != NONE
  {
    assert r.over(s.board).0 != NotOver;
  }

  /**
    Which of the assertions at the end of the game loop hold: a finished match has a termination,
    and its results are set if and only if its last turn was not stopped.
   */
  lemma ResultsSetExactlyWhen<B(!new)>(r: Rules<B>, c: Config, s: State<B>, turns: seq<Turn>) returns (n: nat)
    requires Chess(r) && Playing(s) && After(r, c, s, turns).Over?
    ensures n < |turns| && After(r, c, s, turns[..n]).Going?
    ensures TakeTurn(r, c, After(r, c, s, turns[..n]).s, turns[n]) == After(r, c, s, turns)
    ensures var u := After(r, c, s, turns).s;
            && u.termination != Unset
            && (u.us.result != NONE <==> !Stopped(r, c, After(r, c, s, turns[..n]).s, turns[n]))
            && (u.them.result != NONE <==> !Stopped(r, c, After(r, c, s, turns[..n]).s, turns[n]))
  {
    hide After, Chess, Playing, TakeTurn, Stopped;
    n := LastTurn(r, c, s, turns);
    MatchSettles(r, c, s, turns);
    MatchSettles(r, c, s, turns[..n]);
    StillPlaying(r, After(r, c, s, turns[..n]));
    TurnDecides(r, c, After(r, c, s, turns[..n]).s, turns[n]);
  }

  /** A stop before the first move: the match is over and neither player has a result. */
  lemma StoppedAtOnce<B>(r: Rules<B>, c: Config, s: State<B>, t: Turn)
    requires Playing(s) && t.stopBefore
    ensures var o := After(r, c, s, [t]);
            o.Over? && o.s.termination == INTERRUPT && o.s.us.result == NONE && o.s.them.result == NONE
  {
    hide PlayMove;
    AfterNext(r, c, s, [t], 0);
    assert [t][..1] == [t] && [t][..0] == [];
  }

  // ---------- The clocks ----------

  /** The times of the moves of the player to move, and of the other one. */
  function TimesUs(turns: seq<Turn>): seq<int> {
    if turns == [] then [] else TimesThem(turns[..|turns| - 1])
  }

  function TimesThem(turns: seq<Turn>): seq<int> {
    if turns == [] then [] else TimesUs(turns[..|turns| - 1]) + [turns[|turns| - 1].elapsed]
  }

  ghost predicate Timed(s: Side, times: seq<int>) {
    s.HasTimeControl() ==> TimeControl.After(s.limits, times) == (s.clock, true)
  }

  lemma TimedStep(s: Side, times: seq<int>, elapsed: int)
    requires Timed(s, times)
    ensures Ticked(s, elapsed).1 ==> Timed(Ticked(s, elapsed).0, times + [elapsed])
    ensures !Ticked(s, elapsed).1 ==> s.HasTimeControl() && !TimeControl.After(s.limits, times + [elapsed]).1
    ensures Ticked(s, elapsed).0.limits == s.limits
  {
    assert (times + [elapsed])[..|times|] == times;
  }

  lemma ReplyTicks<B>(r: Rules<B>, s: State<B>, t: Turn)
    ensures var o := Replied(r, s, t);
            && (o.Going? ==> Ticked(s.us, t.elapsed) == (o.s.us, true) && o.s.them == s.them)
            && o.s.us.limits == s.us.limits
            && (o.Over? && o.s.termination == TIMEOUT ==>
                  !Ticked(s.us, t.elapsed).1 && o.s.reason.LosesOnTime? &&
                  o.s.reason.overrun == Overrun(Ticked(s.us, t.elapsed).0))
  {
    hide TimeControl.Tick;
  }

  /** Each clock has run for exactly the moves of its own player, all of them in time. */
  lemma {:induction false} ClocksKept<B(!new)>(r: Rules<B>, c: Config, s: State<B>, turns: seq<Turn>)
    requires Chess(r) && Playing(s) && Timed(s.us, []) && Timed(s.them, [])
    ensures var o := After(r, c, s, turns);
            o.Going? ==> Timed(o.s.us, TimesUs(turns)) && Timed(o.s.them, TimesThem(turns))
  {
    hide TakeTurn, Playing, Chess, Settled, Replied, Adjudicated, RulesEnd, Timed, Ticked;
    if turns != [] {
      var n := |turns| - 1;
      ClocksKept(r, c, s, turns[..n]);
      MatchSettles(r, c, s, turns[..n]);
      var o := After(r, c, s, turns[..n]);
      if o.Going? {
        StillPlaying(r, o);
        TurnCases(r, c, o.s, turns[n]);
        var v := WithScore(o.s, turns[n]);
        SameClock(o.s.us, v.us, TimesUs(turns[..n]));
        ReplyTicks(r, v, turns[n]);
        TimedStep(v.us, TimesUs(turns[..n]), turns[n].elapsed);
      }
    }
  }

  lemma SameClock(s: Side, u: Side, times: seq<int>)
    requires Timed(s, times) && u.limits == s.limits && u.clock == s.clock
    ensures Timed(u, times)
  {}

  /** The fixed time of move number `n`, with a new period if one begins. */
  function FixedLimit(l: TimeControl.Limits, n: nat): int {
    l.fixedTime + if l.moves > 0 && n % l.moves == 0 then l.time else 0
  }

  /** What a player had for its moves so far, of which the last one was too late. */
  function Granted(l: TimeControl.Limits, before: seq<int>): int {
    TimeControl.Budget(l, |before| + 1) - l.increment + TimeControl.WrittenOff(l, before)
  }

  /**
    A loss on time is deserved: the loser's moves together took more than all the time it was ever
    given, increments and new periods included, what was written off, and the margin; with a fixed
    time per move the last move alone took longer than that time and the margin. The overrun told is
    what is missing, without the margin. Nobody loses on time without a limit.
   */
  lemma TimeLossIsReal<B(!new)>(r: Rules<B>, c: Config, s: State<B>, turns: seq<Turn>)
    returns (before: seq<int>, last: int)
    requires Chess(r) && Playing(s) && Timed(s.us, []) && Timed(s.them, [])
    requires After(r, c, s, turns).Over? && After(r, c, s, turns).s.termination == TIMEOUT
    ensures exists n :: 0 <= n < |turns| && before == TimesUs(turns[..n]) && last == turns[n].elapsed
    ensures var u := After(r, c, s, turns).s;
            var l := u.us.limits;
            && (l.time != 0 || l.fixedTime != 0) && TimeControl.After(l, before).1
            && (l.Running() || l.fixedTime != 0)
            && u.reason.LosesOnTime?
            && (l.Running() ==>
                  var missing := TimeControl.Elapsed(before) + last - Granted(l, before);
                  missing > l.timemargin && u.reason.overrun == TimeControl.Excess(missing, 0))
            && (l.fixedTime != 0 ==>
                  var missing := last - FixedLimit(l, |before| + 1);
                  missing > l.timemargin && u.reason.overrun == TimeControl.Excess(missing, 0))
  {
    hide TakeTurn, Chess, Adjudicated, After, Playing, Replied, Timed, RulesEnd, TimesUs, Granted;
    var n := LastTurn(r, c, s, turns);
    var v := After(r, c, s, turns[..n]).s;
    MatchSettles(r, c, s, turns[..n]);
    StillPlaying(r, After(r, c, s, turns[..n]));
    ClocksKept(r, c, s, turns[..n]);
    TurnCases(r, c, v, turns[n]);
    var w := WithScore(v, turns[n]);
    before, last := TimesUs(turns[..n]), turns[n].elapsed;
    SameClock(v.us, w.us, before);
    ReplyTicks(r, w, turns[n]);
    TimedStep(w.us, before, last);
    OverBudget(w.us, before, last);
  }

  lemma OverBudget(s: Side, times: seq<int>, elapsed: int)
    requires Timed(s, times) && s.HasTimeControl() && !TimeControl.After(s.limits, times + [elapsed]).1
    ensures TimeControl.After(s.limits, times).1
    ensures s.limits.Running() ==>
              var missing := TimeControl.Elapsed(times) + elapsed - Granted(s.limits, times);
              missing > s.limits.timemargin && Overrun(Ticked(s, elapsed).0) == TimeControl.Excess(missing, 0)
    ensures s.limits.fixedTime != 0 ==>
              var missing := elapsed - FixedLimit(s.limits, |times| + 1);
              missing > s.limits.timemargin && Overrun(Ticked(s, elapsed).0) == TimeControl.Excess(missing, 0)
    ensures s.limits.Running() || s.limits.fixedTime != 0
  {
    hide TimeControl.Budget, TimeControl.WrittenOff, TimeControl.Tick;
    assert (times + [elapsed])[..|times|] == times;
    assert TimeControl.After(s.limits, times + [elapsed]).0 == Ticked(s, elapsed).0.clock;
    if s.limits.fixedTime != 0 {
      TimeControl.RejectedExactlyWhenTooLong(s.limits, times, elapsed);
    } else if !s.limits.Running() {
      TimeControl.UnlimitedIsInTime(s.limits, times + [elapsed]);
    }
    if s.limits.Running() { TimeControl.RejectedExactlyWhenOverBudget(s.limits, times, elapsed); }
  }

  // ---------- Starting the engines ----------

  /** How the engines come up; the stop flag is read anew at every step. */
  datatype Startup = Startup(
    whiteStarts: bool, blackStarts: bool, stopAfterStart: bool,
    whiteUci: bool, stopAtWhite: bool, blackUci: bool, stopAtBlack: bool,
    ready: bool, timedOut: bool, stopAtReady: bool)
  {
    predicate BothStart() { whiteStarts && blackStarts && !stopAfterStart }

    predicate AllWell() { whiteUci && blackUci && ready }

    function Answer(): Reply { if ready then Fine else if timedOut then TimedOut else Failed }
  }

  /** The checks before the first move, seen by White; a later failure replaces the results of an earlier one. */
  function CheckedIn<B>(r: Rules<B>, s: State<B>, e: Startup): State<B> {
    var a := if e.whiteUci then s else Crash(r, s, e.stopAtWhite);
    var b := if e.blackUci then a else Crash(r, a.Swap(), e.stopAtBlack).Swap();
    Connected(r, b, e.Answer(), e.stopAtReady).s
  }

  /** A failed check decides the match completely, too, and loses it for the engine that failed last. */
  lemma CheckInSettles<B>(r: Rules<B>, s: State<B>, e: Startup)
    requires Playing(s)
    ensures var u := CheckedIn(r, s, e);
            && (if e.whiteUci && e.blackUci && e.ready then u == s else Decided(u) && u.stallOrDisconnect)
            && (u.termination != Unset ==> Complementary(u.us.result, u.them.result))
            && (u.us.result == LOSE <==> !e.ready || (!e.whiteUci && e.blackUci))
            && u.board == s.board && u.moves == s.moves && u.log == s.log
            && (u.stallOrDisconnect ==> u.termination in {DISCONNECT, STALL, INTERRUPT})
  {}

  /**
    What such a match is called: a stall if the last check ran out of time, otherwise a disconnection, or
    an interruption if the stop flag was set at the last failure. A failed last check comes after the others.
   */
  lemma CheckInTermination<B>(r: Rules<B>, s: State<B>, e: Startup)
    requires Playing(s) && !e.AllWell()
    ensures var t := CheckedIn(r, s, e).termination;
            && (!e.ready && e.timedOut ==> t == STALL)
            && (!e.ready && !e.timedOut ==> t == if e.stopAtReady then INTERRUPT else DISCONNECT)
            && (e.ready && !e.blackUci ==> t == if e.stopAtBlack then INTERRUPT else DISCONNECT)
            && (e.ready && e.blackUci ==> t == if e.stopAtWhite then INTERRUPT else DISCONNECT)
  {}

  /** The reported reason names the side to move, which need not be the side whose engine failed. */
  lemma StartupReason<B>(r: Rules<B>, s: State<B>, e: Startup)
    requires Playing(s) && !(e.whiteUci && e.blackUci && e.ready) && CheckedIn(r, s, e).termination != INTERRUPT
    ensures var u := CheckedIn(r, s, e);
            var loser := if u.us.result == LOSE then White else Black;
            && (u.reason == Disconnects(loser) || u.reason == Stalls(loser) <==> r.sideToMove(s.board) == loser)
  {}

  /** What a match sees of an engine before the start: its limits, and a score left over from an earlier game. */
  datatype Engine = Engine(limits: TimeControl.Limits, score: Option<Score>) {
    function AtStart(): Side { Side(NONE, limits, TimeControl.Start(limits), score) }
  }

  /** The match with its opening played, seen by White. */
  function Initial<B>(board: B, moves: seq<MoveData>, white: Engine, black: Engine): State<B> {
    State(board, moves, [], white.AtStart(), black.AtStart(), Unset, NoReason, false)
  }
}
