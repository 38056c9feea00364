/**
  Who loses by resignation, over whole matches (app/src/matchmaking/match/match.cpp and match.hpp):
  the settings under which every resignation is earned, whatever the engines and the other options do.
 */
module Fairness {
  import opened Options
  import opened Adjudication
  import opened Stats
  import opened MatchSteps
  import TimeControl

  /** Nothing has been reported yet; scores left over from earlier games are possible. */
  ghost predicate Fresh<B>(s: State<B>) {
    Playing(s) && s.log == [] && EngineMoves(s.moves) == 0
  }

  ghost predicate Resigned<B>(o: Outcome<B>) {
    o.Over? && o.s.termination == ADJUDICATION && o.s.reason.AdjudicatedWin?
  }

  lemma {:induction false} BookMovesAreNoEngineMoves(moves: seq<MoveData>)
    requires forall m :: m in moves ==> m.book
    ensures EngineMoves(moves) == 0
  {
    if moves != [] { BookMovesAreNoEngineMoves(moves[..|moves| - 1]); }
  }

  /** Every match starts like this, the opening played. */
  lemma MatchesStartFresh<B>(board: B, moves: seq<MoveData>, white: Engine, black: Engine)
    requires forall m :: m in moves ==> m.book
    ensures Fresh(Initial(board, moves, white, black)) && Fresh(Initial(board, moves, white, black).Swap())
  {
    BookMovesAreNoEngineMoves(moves);
  }

  /** With fair settings the player who loses by resignation has earned it by the moves of this match. */
  lemma ResignationsAreEarned<B(!new)>(r: Rules<B>, c: Config, s: State<B>, turns: seq<Turn>)
    requires Chess(r) && Fresh(s) && FairSettings(c.resign) && Resigned(After(r, c, s, turns))
    ensures var u := After(r, c, s, turns).s;
            && u.us.result == WIN && u.them.result == LOSE && u.reason.winner == r.sideToMove(u.board)
            && Earned(c.resign, u.log, u.reason.winner.Other())
  {
    hide TakeTurn, Chess, Adjudicated, After, EngineMoves, Fires, Earned, ResignDueNow, EndsByResign;
    var n := LastTurn(r, c, s, turns);
    var v := After(r, c, s, turns[..n]).s;
    MatchSettles(r, c, s, turns[..n]);
    LogKept(r, c, s.them.score, s, turns[..n]);
    hide Playing;
    StillPlaying(r, After(r, c, s, turns[..n]));
    TurnCases(r, c, v, turns[n]);
    AdjudicatedCases(r, c, v);
    FiringIsLast(r, c, s.them.score, v);
    FairIsEarned(c.resign, s.them.score, v.log);
  }

  /** Whatever the library, the other options, the engines and the scores left over: it is earned. */
  ghost predicate AlwaysEarned(rc: ResignConfig) {
    forall r: Rules<nat>, c: Config, s: State<nat>, turns: seq<Turn> ::
      c.resign == rc && Chess(r) && Fresh(s) && Resigned(After(r, c, s, turns)) ==>
        Earned(rc, After(r, c, s, turns).s.log, After(r, c, s, turns).s.reason.winner.Other())
  }

  // ---------- Matches with unearned resignations ----------

  function SideAt(plies: nat): Colour { if plies % 2 == 0 then White else Black }

  /** A game that never ends by itself; the board is the number of half-moves. */
  function Endless(): Rules<nat> {
    Rules(b => (NotOver, NONE), (b, m) => true, (b, m) => b + 1, SideAt, b => 1, b => 1, b => None)
  }

  lemma EndlessIsChess()
    ensures Chess(Endless())
  {}

  function OnlyResign(rc: ResignConfig): Config {
    Config(false, false, false, DrawConfig(false, 0, 1, 0), rc, false, 0)
  }

  /** A move that is found and reported with this score. */
  function Scored(score: Option<Score>): Turn {
    Turn(false, Fine, Fine, Fine, Fine, Fine, false, Fine, Some("e2e4"), 0, score, false, false, false)
  }

  function Untimed(score: Option<Score>): Engine {
    Engine(TimeControl.Limits(0, 0, 0, 0, 0), score)
  }

  /** The match of two engines without clocks; `leftOver` is the score of the second one. */
  function Match(leftOver: Option<Score>): (s: State<nat>)
    ensures Fresh(s) && s.board == 0 && s.moves == [] && s.them.score == leftOver && NoClocks(s)
  {
    Initial(0, [], Untimed(None), Untimed(leftOver))
  }

  predicate NoClocks<B>(s: State<B>) { !s.us.HasTimeControl() && !s.them.HasTimeControl() }

  /** What a turn does to the match unless the resign rule is due. */
  ghost predicate Reported(s: State<nat>, u: State<nat>, score: Option<Score>) {
    && Playing(u) && NoClocks(u) && u.board == s.board + 1 && u.them.score == score
    && u.log == s.log + [Report(SideAt(s.board), score, 1)]
  }

  lemma QuietTurn(rc: ResignConfig, s: State<nat>, score: Option<Score>)
    requires Playing(s) && NoClocks(s) && !ResignDueNow(OnlyResign(rc), s)
    ensures var o := TakeTurn(Endless(), OnlyResign(rc), s, Scored(score));
            o.Going? && Reported(s, o.s, score)
  {
    hide ResignDueNow;
    NoTables(Endless(), OnlyResign(rc), s);
  }

  lemma DueTurn(rc: ResignConfig, s: State<nat>, t: Turn)
    requires rc.enabled && ResignDueNow(OnlyResign(rc), s) && !t.stopBefore
    ensures var o := TakeTurn(Endless(), OnlyResign(rc), s, t);
            Resigned(o) && o.s.log == s.log && o.s.reason.winner == SideAt(s.board)
  {
    hide ResignDueNow;
    NoTables(Endless(), OnlyResign(rc), s);
  }

  function GrudgeTurn(rc: ResignConfig, i: nat): Turn { Scored(GrudgeMove(rc, i).score) }

  function GrudgeTurns(rc: ResignConfig, n: nat): seq<Turn> {
    if n == 0 then [] else GrudgeTurns(rc, n - 1) + [GrudgeTurn(rc, n - 1)]
  }

  lemma TurnAppended<B>(r: Rules<B>, c: Config, s: State<B>, turns: seq<Turn>, t: Turn)
    requires After(r, c, s, turns).Going?
    ensures After(r, c, s, turns + [t]) == TakeTurn(r, c, After(r, c, s, turns).s, t)
  {
    hide TakeTurn;
    assert (turns + [t])[..|turns|] == turns;
  }

  /** After `n` turns of the grudge. */
  ghost predicate InGrudge(rc: ResignConfig, s: State<nat>, n: nat) {
    && Playing(s) && NoClocks(s) && s.board == n && s.log == Grudge(rc, n)
    && s.them.score == LastScore(None, s.log)
  }

  lemma GrudgeNotDue(rc: ResignConfig, s: State<nat>, n: nat)
    requires rc.score <= 0 && InGrudge(rc, s, n)
    ensures !ResignDueNow(OnlyResign(rc), s)
  {
    hide ResignDue, Grudge;
    GrudgeIsPeaceful(rc, n);
  }

  lemma GrudgeStep(rc: ResignConfig, s: State<nat>, u: State<nat>, n: nat)
    requires InGrudge(rc, s, n) && Reported(s, u, GrudgeMove(rc, n).score)
    ensures InGrudge(rc, u, n + 1)
  {
    hide Playing, Grudge;
    GrudgeNext(rc, n);
  }

  lemma {:induction false} GrudgeGoesOn(rc: ResignConfig, n: nat)
    requires rc.score <= 0
    ensures var o := After(Endless(), OnlyResign(rc), Match(None), GrudgeTurns(rc, n));
            o.Going? && InGrudge(rc, o.s, n)
  {
    hide InGrudge, TakeTurn, Playing;
    if n == 0 {
      GrudgeStarts(rc);
    } else {
      GrudgeGoesOn(rc, n - 1);
      var s := After(Endless(), OnlyResign(rc), Match(None), GrudgeTurns(rc, n - 1)).s;
      GrudgePlays(rc, s, n - 1);
      hide After;
      TurnAppended(Endless(), OnlyResign(rc), Match(None), GrudgeTurns(rc, n - 1), GrudgeTurn(rc, n - 1));
    }
  }

  lemma GrudgeStarts(rc: ResignConfig)
    ensures InGrudge(rc, Match(None), 0)
  {
    GrudgeNext(rc, 0);
  }

  lemma GrudgePlays(rc: ResignConfig, s: State<nat>, n: nat)
    requires rc.score <= 0 && InGrudge(rc, s, n)
    ensures var o := TakeTurn(Endless(), OnlyResign(rc), s, GrudgeTurn(rc, n));
            o.Going? && InGrudge(rc, o.s, n + 1)
  {
    hide TakeTurn, ResignDueNow, Reported;
    GrudgeNotDue(rc, s, n);
    QuietTurn(rc, s, GrudgeMove(rc, n).score);
    GrudgeStep(rc, s, TakeTurn(Endless(), OnlyResign(rc), s, GrudgeTurn(rc, n)).s, n);
  }

  /** A match that Black loses by resignation after a single bad move of its own. */
  lemma UnearnedMatch(rc: ResignConfig) returns (turns: seq<Turn>)
    requires rc.enabled && !rc.twosided && rc.moveCount >= 2 && rc.score <= 0
    ensures var o := After(Endless(), OnlyResign(rc), Match(None), turns);
            Resigned(o) && o.s.reason.winner == White && !Earned(rc, o.s.log, Black)
  {
    hide TakeTurn, After, ResignDueNow, InGrudge, Earned, Resigned;
    var n := 2 * rc.moveCount - 1;
    var r, c, m := Endless(), OnlyResign(rc), Match(None);
    var s := After(r, c, m, GrudgeTurns(rc, n)).s;
    GrudgeGoesOn(rc, n);
    StrawPlays(rc, s);
    TurnAppended(r, c, m, GrudgeTurns(rc, n), Scored(LAST_STRAW.score));
    var u := After(r, c, m, GrudgeTurns(rc, n) + [Scored(LAST_STRAW.score)]).s;
    DueTurn(rc, u, Scored(None));
    turns := GrudgeTurns(rc, n) + [Scored(LAST_STRAW.score)] + [Scored(None)];
    TurnAppended(r, c, m, GrudgeTurns(rc, n) + [Scored(LAST_STRAW.score)], Scored(None));
    LastStraw(rc);
  }

  lemma StrawPlays(rc: ResignConfig, s: State<nat>)
    requires !rc.twosided && rc.moveCount >= 2 && rc.score <= 0 && InGrudge(rc, s, 2 * rc.moveCount - 1)
    ensures var o := TakeTurn(Endless(), OnlyResign(rc), s, Scored(LAST_STRAW.score));
            && o.Going? && ResignDueNow(OnlyResign(rc), o.s) && SideAt(o.s.board) == White
            && o.s.log == Grudge(rc, 2 * rc.moveCount - 1) + [LAST_STRAW]
  {
    hide TakeTurn, ResignDue, Grudge, Earned;
    var n := 2 * rc.moveCount - 1;
    GrudgeNotDue(rc, s, n);
    QuietTurn(rc, s, LAST_STRAW.score);
    LastStraw(rc);
  }

  /** With a count of 0 or less a score left over from an earlier game ends the match before any move. */
  lemma LeftOverResigns(rc: ResignConfig, score: Score)
    requires rc.enabled && rc.moveCount <= 0 && score.value < 0
    ensures var o := After(Endless(), OnlyResign(rc), Match(Some(score)), [Scored(None)]);
            Resigned(o) && o.s.log == [] && o.s.moves == [] && forall loser :: !Earned(rc, o.s.log, loser)
  {
    hide TakeTurn, Earned, After, Resigned, Playing;
    var m := Match(Some(score));
    FiresAtOnce(rc, score, [], White);
    forall loser ensures !Earned(rc, [], loser) {
      FiresAtOnce(rc, score, [], loser);
    }
    NothingPlayed(OnlyResign(rc), m);
    TurnAppended(Endless(), OnlyResign(rc), m, [], Scored(None));
    assert [] + [Scored(None)] == [Scored(None)];
    DueTurn(rc, m, Scored(None));
    DueLeavesRecord(rc, m, Scored(None));
  }

  lemma NothingPlayed(c: Config, m: State<nat>)
    ensures After(Endless(), c, m, []) == Going(m)
  {}

  lemma DueLeavesRecord(rc: ResignConfig, s: State<nat>, t: Turn)
    requires rc.enabled && ResignDueNow(OnlyResign(rc), s) && !t.stopBefore
    ensures TakeTurn(Endless(), OnlyResign(rc), s, t).s.moves == s.moves
  {
    hide ResignDueNow;
    NoTables(Endless(), OnlyResign(rc), s);
  }

  /**
    Every resignation in every match is earned if and only if the settings are fair: two-sided with a
    positive count, or one-sided with a count of 1, or of more and a positive threshold.
   */
  lemma FairMatchesExactlyWhen(rc: ResignConfig)
    requires rc.enabled
    ensures AlwaysEarned(rc) <==> FairSettings(rc)
  {
    hide After, Earned, Fresh, Chess;
    EndlessIsChess();
    if FairSettings(rc) {
      forall r: Rules<nat>, c: Config, s: State<nat>, turns: seq<Turn>
        | c.resign == rc && Chess(r) && Fresh(s) && Resigned(After(r, c, s, turns))
        ensures Earned(rc, After(r, c, s, turns).s.log, After(r, c, s, turns).s.reason.winner.Other())
      {
        ResignationsAreEarned(r, c, s, turns);
      }
    } else if rc.moveCount <= 0 {
      LeftOverResigns(rc, Score(CP, -1));
    } else {
      var turns := UnearnedMatch(rc);
    }
  }
}
