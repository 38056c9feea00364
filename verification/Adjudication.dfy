/**
  Draw and resign adjudication over whole games (app/src/matchmaking/match/match.hpp). The
  trackers keep counters; here the counters are the longest qualifying suffixes of everything
  reported so far, and the resign rule blames the engine that really scored badly.
 */
module Adjudication {
  import opened Options

  datatype Colour = White | Black {
    function Other(): Colour { if this == White then Black else White }
  }

  datatype ScoreType = CP | MATE

  datatype Score = Score(kind: ScoreType, value: int)

  /** What one move reports: who moved, the score if it could be read, the half-move clock after it. */
  datatype Report = Report(mover: Colour, score: Option<Score>, halfMoveClock: int)

  datatype DrawConfig = DrawConfig(enabled: bool, moveNumber: nat, moveCount: int, score: int)

  datatype ResignConfig = ResignConfig(enabled: bool, moveCount: int, score: int, twosided: bool)

  function Abs(x: int): nat { if x < 0 then -x else x }

  // ---------- Draws ----------

  predicate Drawish(c: DrawConfig, r: Report) {
    r.score.Some? && r.score.value.kind == CP && Abs(r.score.value.value) <= c.score
  }

  /** What the draw counter should be after these reports. */
  function DrawCount(c: DrawConfig, log: seq<Report>): nat {
    if c.moveCount <= 0 || log == [] || !Drawish(c, log[|log| - 1]) then 0
    else if log[|log| - 1].halfMoveClock == 0 then 1
    else 1 + DrawCount(c, log[..|log| - 1])
  }

  /** The last `k` reports are all near zero, and no irreversible move interrupts them. */
  predicate DrawSuffix(c: DrawConfig, log: seq<Report>, k: nat) {
    && k <= |log|
    && (forall i :: |log| - k <= i < |log| ==> Drawish(c, log[i]))
    && (forall i :: |log| - k < i < |log| ==> log[i].halfMoveClock != 0)
  }

  /** The counter is the longest such suffix. */
  lemma {:induction false} DrawCountIsLongest(c: DrawConfig, log: seq<Report>, k: nat)
    requires c.moveCount > 0
    ensures DrawSuffix(c, log, DrawCount(c, log))
    ensures DrawSuffix(c, log, k) ==> k <= DrawCount(c, log)
  {
    if log != [] {
      var n := |log| - 1;
      var init := log[..n];
      if k > 0 {
        DrawCountIsLongest(c, init, k - 1);
        if DrawSuffix(c, log, k) && k > 1 {
          forall i | |init| - (k - 1) <= i < |init| ensures Drawish(c, init[i]) { assert init[i] == log[i]; }
          forall i | |init| - (k - 1) < i < |init| ensures init[i].halfMoveClock != 0 { assert init[i] == log[i]; }
          assert DrawSuffix(c, init, k - 1);
        }
      } else {
        DrawCountIsLongest(c, init, 0);
      }
    }
  }

  class DrawTracker {
    const config: DrawConfig
    var drawMoves: int
    ghost var log: seq<Report>

    ghost predicate Valid()
      reads this
    {
      drawMoves == DrawCount(config, log)
    }

    constructor (config: DrawConfig)
      ensures Valid() && log == [] && this.config == config
    {
      this.config, drawMoves, log := config, 0, [];
    }

    method Update(score: Score, hmvc: int, ghost mover: Colour)
      requires Valid()
      modifies this
      ensures Valid() && log == old(log) + [Report(mover, Some(score), hmvc)]
    {
      if hmvc == 0 { drawMoves := 0; }
      if config.moveCount > 0 {
        if Abs(score.value) <= config.score && score.kind == CP {
          drawMoves := drawMoves + 1;
        } else {
          drawMoves := 0;
        }
      }
      log := log + [Report(mover, Some(score), hmvc)];
      assert log[..|log| - 1] == old(log);
    }

    method Invalidate(ghost mover: Colour, ghost hmvc: int)
      requires Valid()
      modifies this
      ensures Valid() && log == old(log) + [Report(mover, None, hmvc)]
    {
      drawMoves := 0;
      log := log + [Report(mover, None, hmvc)];
    }

    predicate Adjudicatable(plies: nat)
      requires Valid()
      reads this
      ensures Adjudicatable(plies) <==> DrawDue(config, log, plies)
    {
      plies >= config.moveNumber && drawMoves >= config.moveCount * 2
    }
  }

  predicate DrawDue(c: DrawConfig, log: seq<Report>, plies: nat) {
    plies >= c.moveNumber && DrawCount(c, log) >= c.moveCount * 2
  }

  /**
    A draw is preceded by at least one quiet move from each side, and by as many as configured, in
    every game, exactly if the move count is positive; otherwise the move number alone decides.
   */
  lemma DrawQuietExactlyWhen(c: DrawConfig)
    ensures (forall log: seq<Report>, plies: nat ::
               DrawDue(c, log, plies) ==> DrawSuffix(c, log, 2 * AtLeastOne(c.moveCount)))
            <==> c.moveCount >= 1
    ensures c.moveCount <= 0 ==>
              forall log: seq<Report>, plies: nat :: DrawDue(c, log, plies) <==> plies >= c.moveNumber
  {
    hide DrawSuffix, DrawCount;
    if c.moveCount >= 1 {
      forall log: seq<Report>, plies: nat | DrawDue(c, log, plies) ensures DrawSuffix(c, log, 2 * c.moveCount) {
        DrawCountIsLongest(c, log, 0);
        ShorterSuffix(c, log, DrawCount(c, log), 2 * c.moveCount);
      }
    } else {
      assert DrawDue(c, [], c.moveNumber);
      ShortLog(c);
    }
  }

  lemma ShorterSuffix(c: DrawConfig, log: seq<Report>, k: nat, j: nat)
    requires DrawSuffix(c, log, k) && j <= k
    ensures DrawSuffix(c, log, j)
  {}

  lemma ShortLog(c: DrawConfig)
    ensures !DrawSuffix(c, [], 2)
  {}

  function AtLeastOne(n: int): nat { if n < 1 then 1 else n }

  // ---------- Resignations ----------

  predicate Losing(c: ResignConfig, r: Report) {
    r.score.Some? &&
    (if r.score.value.kind == CP then r.score.value.value <= -c.score else r.score.value.value < 0)
  }

  predicate Decisive(c: ResignConfig, r: Report) {
    r.score.Some? && (r.score.value.kind == MATE || Abs(r.score.value.value) >= c.score)
  }

  /** The reports of one player. */
  function Own(log: seq<Report>, mover: Colour): seq<Report> {
    if log == [] then []
    else Own(log[..|log| - 1], mover) + if log[|log| - 1].mover == mover then [log[|log| - 1]] else []
  }

  /** How many reports at the end satisfy `p`. */
  function Trailing(p: Report -> bool, log: seq<Report>): (n: nat)
    ensures n <= |log|
    ensures forall i :: |log| - n <= i < |log| ==> p(log[i])
    ensures n < |log| ==> !p(log[|log| - n - 1])
  {
    if log == [] || !p(log[|log| - 1]) then 0 else 1 + Trailing(p, log[..|log| - 1])
  }

  /** One-sided: how many of this player's own last moves were losing. */
  function LossCount(c: ResignConfig, log: seq<Report>, mover: Colour): nat {
    Trailing(r => Losing(c, r), Own(log, mover))
  }

  function DecisiveCount(c: ResignConfig, log: seq<Report>): nat {
    Trailing(r => Decisive(c, r), log)
  }

  class ResignTracker {
    const config: ResignConfig
    var resignMoves: int
    var resignMovesBlack: int
    var resignMovesWhite: int
    ghost var log: seq<Report>

    ghost predicate Valid()
      reads this
    {
      if config.twosided then resignMoves == DecisiveCount(config, log)
      else resignMovesWhite == LossCount(config, log, White) && resignMovesBlack == LossCount(config, log, Black)
    }

    constructor (config: ResignConfig)
      ensures Valid() && log == [] && this.config == config
    {
      this.config, resignMoves, resignMovesBlack, resignMovesWhite, log := config, 0, 0, 0, [];
    }

    method Update(score: Score, color: Colour, ghost hmvc: int)
      requires Valid()
      modifies this
      ensures Valid() && log == old(log) + [Report(color, Some(score), hmvc)]
    {
      hide LossCount, DecisiveCount, Abs;
      if config.twosided {
        if (Abs(score.value) >= config.score && score.kind == CP) || score.kind == MATE {
          resignMoves := resignMoves + 1;
        } else {
          resignMoves := 0;
        }
      } else {
        var counter := if color == Black then resignMovesBlack else resignMovesWhite;
        if (score.value <= -config.score && score.kind == CP) || (score.value < 0 && score.kind == MATE) {
          counter := counter + 1;
        } else {
          counter := 0;
        }
        if color == Black { resignMovesBlack := counter; } else { resignMovesWhite := counter; }
      }
      CountsStep(config, log, Report(color, Some(score), hmvc));
      log := log + [Report(color, Some(score), hmvc)];
    }

    method Invalidate(color: Colour, ghost hmvc: int)
      requires Valid()
      modifies this
      ensures Valid() && log == old(log) + [Report(color, None, hmvc)]
    {
      CountsStep(config, log, Report(color, None, hmvc));
      hide LossCount, DecisiveCount;
      log := log + [Report(color, None, hmvc)];
      if config.twosided {
        resignMoves := 0;
        return;
      }
      if color == Black { resignMovesBlack := 0; } else { resignMovesWhite := 0; }
    }

    predicate Resignable()
      requires Valid()
      reads this
      ensures Resignable() <==> ResignDue(config, log)
    {
      if config.twosided then resignMoves >= config.moveCount * 2
      else resignMovesBlack >= config.moveCount || resignMovesWhite >= config.moveCount
    }
  }

  predicate ResignDue(c: ResignConfig, log: seq<Report>) {
    if c.twosided then DecisiveCount(c, log) >= c.moveCount * 2
    else LossCount(c, log, Black) >= c.moveCount || LossCount(c, log, White) >= c.moveCount
  }

  lemma OwnStep(log: seq<Report>, r: Report, mover: Colour)
    ensures Own(log + [r], mover) == Own(log, mover) + if r.mover == mover then [r] else []
  {
    assert (log + [r])[..|log|] == log;
  }

  lemma TrailingStep(p: Report -> bool, log: seq<Report>, r: Report)
    ensures Trailing(p, log + [r]) == if p(r) then Trailing(p, log) + 1 else 0
  {
    assert (log + [r])[..|log|] == log;
  }

  /** A report moves only its own player's counter. */
  lemma CountsStep(c: ResignConfig, log: seq<Report>, r: Report)
    ensures LossCount(c, log + [r], r.mover) == if Losing(c, r) then LossCount(c, log, r.mover) + 1 else 0
    ensures LossCount(c, log + [r], r.mover.Other()) == LossCount(c, log, r.mover.Other())
    ensures DecisiveCount(c, log + [r]) == if Decisive(c, r) then DecisiveCount(c, log) + 1 else 0
  {
    OwnStep(log, r, r.mover);
    OwnStep(log, r, r.mover.Other());
    assert Own(log, r.mover.Other()) + [] == Own(log, r.mover.Other());
    TrailingStep(x => Losing(c, x), Own(log, r.mover), r);
    TrailingStep(x => Decisive(c, x), log, r);
  }

  // ---------- The rules on the reports themselves ----------

  /** A score is near zero if it is in centipawns, not a mate, and between the two limits, which count. */
  lemma DrawishExactlyWhen(c: DrawConfig, r: Report)
    ensures Drawish(c, r) <==>
            exists v :: r.score == Some(Score(CP, v)) && -c.score <= v <= c.score
  {
    if r.score.Some? {
      var v := r.score.value.value;
      if -c.score <= v <= c.score && r.score.value.kind == CP { assert r.score == Some(Score(CP, v)); }
    }
  }

  /** A player is losing when it is to be mated or at or below the limit; a mate for the player is no loss. */
  lemma LosingExactlyWhen(c: ResignConfig, r: Report)
    ensures Losing(c, r) <==>
            exists v ::
              (r.score == Some(Score(CP, v)) && v + c.score <= 0) || (r.score == Some(Score(MATE, v)) && v < 0)
  {
    if r.score.Some? {
      var v := r.score.value.value;
      assert r.score == Some(Score(r.score.value.kind, v));
    }
  }

  /** Two-sided, any mate counts, and any score at or beyond the limit for either side. */
  lemma DecisiveExactlyWhen(c: ResignConfig, r: Report)
    ensures Decisive(c, r) <==>
            exists v ::
              r.score == Some(Score(MATE, v)) || (r.score == Some(Score(CP, v)) && (v >= c.score || -v >= c.score))
  {
    if r.score.Some? {
      var v := r.score.value.value;
      assert r.score == Some(Score(r.score.value.kind, v));
    }
  }

  /** The last `n` of these reports exist and are losing; of none nothing is asked. */
  predicate LosingTail(c: ResignConfig, log: seq<Report>, n: int) {
    n <= |log| && forall i :: 0 <= i < |log| && |log| - n <= i ==> Losing(c, log[i])
  }

  predicate DecisiveTail(c: ResignConfig, log: seq<Report>, n: int) {
    n <= |log| && forall i :: 0 <= i < |log| && |log| - n <= i ==> Decisive(c, log[i])
  }

  lemma LossCountReaches(c: ResignConfig, log: seq<Report>, mover: Colour, n: int)
    ensures LossCount(c, log, mover) >= n <==> LosingTail(c, Own(log, mover), n)
  {
    hide Losing, Own;
    var own, k := Own(log, mover), LossCount(c, log, mover);
    if n > k && k < |own| { assert !Losing(c, own[|own| - k - 1]); }
  }

  lemma DecisiveCountReaches(c: ResignConfig, log: seq<Report>, n: int)
    ensures DecisiveCount(c, log) >= n <==> DecisiveTail(c, log, n)
  {
    hide Decisive;
    var k := DecisiveCount(c, log);
    if n > k && k < |log| { assert !Decisive(c, log[|log| - k - 1]); }
  }

  /**
    Resignation is due exactly if the last reports of one player, as many as configured, were losing
    or, two-sided, twice as many reports of either player were decisive.
   */
  lemma ResignDueExactlyWhen(c: ResignConfig, log: seq<Report>)
    ensures ResignDue(c, log) <==>
            if c.twosided then DecisiveTail(c, log, 2 * c.moveCount)
            else LosingTail(c, Own(log, White), c.moveCount) || LosingTail(c, Own(log, Black), c.moveCount)
  {
    hide LossCount, DecisiveCount, LosingTail, DecisiveTail, Own;
    DecisiveCountReaches(c, log, 2 * c.moveCount);
    LossCountReaches(c, log, White, c.moveCount);
    LossCountReaches(c, log, Black, c.moveCount);
  }

  /** A draw is due exactly from the move number on, after a quiet tail if the move count is positive. */
  lemma DrawDueExactlyWhen(c: DrawConfig, log: seq<Report>, plies: nat)
    ensures DrawDue(c, log, plies) <==>
            plies >= c.moveNumber && (c.moveCount >= 1 ==> DrawSuffix(c, log, 2 * c.moveCount))
  {
    hide DrawSuffix;
    if c.moveCount >= 1 {
      DrawCountIsLongest(c, log, 2 * c.moveCount);
      if DrawCount(c, log) >= 2 * c.moveCount { ShorterSuffix(c, log, DrawCount(c, log), 2 * c.moveCount); }
    }
  }

  // ---------- Whole games ----------

  /** The score the rule looks at: the last one reported, or what was left over before the first move. */
  function LastScore(start: Option<Score>, log: seq<Report>): Option<Score> {
    if log == [] then start else log[|log| - 1].score
  }

  /** Resignation fires after these reports; the player who moved last, or is not to move, loses. */
  ghost predicate Fires(c: ResignConfig, start: Option<Score>, log: seq<Report>) {
    ResignDue(c, log) && LastScore(start, log).Some? && LastScore(start, log).value.value < 0
  }

  /** It fires and did not fire earlier: the game ends here. */
  ghost predicate EndsByResign(c: ResignConfig, start: Option<Score>, log: seq<Report>) {
    Fires(c, start, log) && forall n :: 0 <= n < |log| ==> !Fires(c, start, log[..n])
  }

  /** The last losing report of a player already sufficed for that player's whole count. */
  lemma {:induction false} LastOwnReport(c: ResignConfig, log: seq<Report>, mover: Colour) returns (n: nat)
    requires LossCount(c, log, mover) > 0
    ensures 0 < n <= |log| && log[n - 1].mover == mover && Losing(c, log[n - 1])
    ensures LossCount(c, log[..n], mover) == LossCount(c, log, mover)
  {
    if log == [] { NoReports(c, mover); }
    hide LossCount;
    var init, r := log[..|log| - 1], log[|log| - 1];
    assert log == init + [r];
    CountsStep(c, init, r);
    if r.mover == mover {
      n := |log|;
      assert log[..n] == log;
    } else {
      n := LastOwnReport(c, init, mover);
      assert init[..n] == log[..n];
    }
  }

  /** The opponent of the last player cannot have reached the limit without ending the game itself. */
  lemma FiredBefore(c: ResignConfig, start: Option<Score>, log: seq<Report>) returns (n: nat)
    requires !c.twosided && c.score > 0 && c.moveCount >= 1 && log != []
    requires LossCount(c, log, log[|log| - 1].mover.Other()) >= c.moveCount
    ensures n < |log| && Fires(c, start, log[..n])
  {
    hide LossCount;
    n := LastOwnReport(c, log, log[|log| - 1].mover.Other());
  }

  /**
    With a positive threshold and a count of at least one, the engine that resigns is the one whose
    own last `moveCount` moves were all losing; the opponent's counter is still below the limit.
   */
  lemma ResignIsEarned(c: ResignConfig, start: Option<Score>, log: seq<Report>)
    requires !c.twosided && c.score > 0 && c.moveCount >= 1 && log != [] && EndsByResign(c, start, log)
    ensures var loser := log[|log| - 1].mover;
            LossCount(c, log, loser) >= c.moveCount > LossCount(c, log, loser.Other())
  {
    hide LossCount;
    var loser := log[|log| - 1].mover;
    if LossCount(c, log, loser.Other()) >= c.moveCount {
      var n := FiredBefore(c, start, log);
    }
  }

  /** Two-sided: both engines agreed for `moveCount` moves each, and the last score is losing. */
  lemma TwoSidedResign(c: ResignConfig, start: Option<Score>, log: seq<Report>)
    requires c.twosided && Fires(c, start, log)
    ensures |log| >= 2 * c.moveCount
    ensures forall i :: |log| - 2 * c.moveCount <= i < |log| ==> Decisive(c, log[i])
    ensures LastScore(start, log).Some? && LastScore(start, log).value.value < 0
  {
    assert DecisiveCount(c, log) >= 2 * c.moveCount;
  }

  predicate Alternates(log: seq<Report>) {
    forall i :: 0 < i < |log| ==> log[i].mover == log[i - 1].mover.Other()
  }

  // ---------- Exactly when resignation is fair ----------

  /**
    `loser` deserved to lose: for the configured number of moves, and at least for one, its own moves
    were losing or, two-sided, all moves were decisive and its last one had a negative score.
   */
  ghost predicate Earned(c: ResignConfig, log: seq<Report>, loser: Colour) {
    if c.twosided then
      && DecisiveCount(c, log) >= 2 * AtLeastOne(c.moveCount)
      && log != [] && log[|log| - 1].mover == loser
      && log[|log| - 1].score.Some? && log[|log| - 1].score.value.value < 0
    else
      LossCount(c, log, loser) >= AtLeastOne(c.moveCount)
  }

  /** The settings that a caller must choose. */
  predicate FairSettings(c: ResignConfig) {
    if c.twosided then c.moveCount >= 1 else c.moveCount == 1 || (c.moveCount >= 2 && c.score > 0)
  }

  /** With such settings resignation needs a report, and the player who made the last one has earned it. */
  lemma FairIsEarned(c: ResignConfig, start: Option<Score>, log: seq<Report>)
    requires FairSettings(c) && EndsByResign(c, start, log)
    ensures log != [] && Earned(c, log, log[|log| - 1].mover)
  {
    hide LossCount, DecisiveCount;
    NoReports(c, White);
    NoReports(c, Black);
    NoDecisions(c);
    if !c.twosided {
      if c.score > 0 {
        ResignIsEarned(c, start, log);
      } else {
        var init, r := log[..|log| - 1], log[|log| - 1];
        assert log == init + [r];
        CountsStep(c, init, r);
      }
    }
  }

  function GrudgeMove(c: ResignConfig, i: nat): Report {
    if i % 2 == 0 then Report(White, Some(Score(CP, 0)), 1) else Report(Black, Some(Score(CP, 1 - c.score)), 1)
  }

  /** White keeps scoring 0 while Black is happy. */
  function Grudge(c: ResignConfig, n: nat): (log: seq<Report>)
    ensures |log| == n
    ensures forall i :: 0 <= i < n ==> log[i] == GrudgeMove(c, i)
  {
    seq(n, i requires 0 <= i < n => GrudgeMove(c, i))
  }

  lemma GrudgeNext(c: ResignConfig, n: nat)
    ensures Grudge(c, 0) == [] && Grudge(c, n + 1) == Grudge(c, n) + [GrudgeMove(c, n)]
  {}

  lemma {:induction false} GrudgeCounts(c: ResignConfig, n: nat)
    requires !c.twosided && c.score <= 0
    ensures LossCount(c, Grudge(c, n), White) == (n + 1) / 2
    ensures LossCount(c, Grudge(c, n), Black) == 0
  {
    hide LossCount, Grudge;
    if n == 0 {
      NoReports(c, White);
      NoReports(c, Black);
      GrudgeNext(c, n);
    } else {
      GrudgeCounts(c, n - 1);
      GrudgeNext(c, n - 1);
      CountsStep(c, Grudge(c, n - 1), GrudgeMove(c, n - 1));
    }
  }

  lemma NoReports(c: ResignConfig, mover: Colour)
    ensures LossCount(c, [], mover) == 0
  {}

  lemma NoDecisions(c: ResignConfig)
    ensures DecisiveCount(c, []) == 0
  {}

  /** No score of the grudge is negative, so it never ends the game. */
  lemma GrudgeIsPeaceful(c: ResignConfig, n: nat)
    requires c.score <= 0
    ensures !Fires(c, None, Grudge(c, n)) && Alternates(Grudge(c, n))
  {
    hide LossCount, ResignDue;
  }

  const LAST_STRAW := Report(Black, Some(Score(CP, -1)), 1)

  /** One bad move of Black then ends the game on White's account. */
  lemma LastStraw(c: ResignConfig)
    requires !c.twosided && c.score <= 0 && c.moveCount >= 2
    ensures var log := Grudge(c, 2 * c.moveCount - 1) + [LAST_STRAW];
            Fires(c, None, log) && Alternates(log) && !Earned(c, log, Black)
  {
    hide LossCount, Grudge;
    GrudgeCounts(c, 2 * c.moveCount - 1);
    CountsStep(c, Grudge(c, 2 * c.moveCount - 1), LAST_STRAW);
  }

  /** A game of alternating moves that blames Black for White's scores. */
  lemma UnearnedGame(c: ResignConfig) returns (log: seq<Report>)
    requires !c.twosided && c.score <= 0 && c.moveCount >= 2
    ensures Alternates(log) && log != [] && EndsByResign(c, None, log) && !Earned(c, log, log[|log| - 1].mover)
  {
    var n := 2 * c.moveCount - 1;
    log := Grudge(c, n) + [LAST_STRAW];
    LastStraw(c);
    forall k | 0 <= k < |log| ensures !Fires(c, None, log[..k]) {
      assert log[..k] == Grudge(c, k);
      GrudgeIsPeaceful(c, k);
    }
  }

  /** With a count of 0 or less the rule fires on any negative score, also on one left over from before. */
  lemma FiresAtOnce(c: ResignConfig, start: Score, log: seq<Report>, loser: Colour)
    requires c.moveCount <= 0 && start.value < 0
    ensures EndsByResign(c, Some(start), []) && !Earned(c, [], loser)
    ensures LastScore(None, log) == Some(start) ==> Fires(c, None, log)
  {
    hide LossCount, DecisiveCount;
    NoReports(c, loser);
    NoDecisions(c);
  }

  /**
    Every resignation is earned, whatever is reported and whatever score was left over, exactly for
    these settings.
   */
  lemma FairExactlyWhen(c: ResignConfig)
    ensures (forall start: Option<Score>, log: seq<Report> :: Alternates(log) && EndsByResign(c, start, log) ==>
               log != [] && Earned(c, log, log[|log| - 1].mover)) <==>
            FairSettings(c)
  {
    hide LossCount, ResignDue, Earned, EndsByResign, Alternates;
    if FairSettings(c) {
      forall start: Option<Score>, log: seq<Report> | EndsByResign(c, start, log)
        ensures log != [] && Earned(c, log, log[|log| - 1].mover)
      {
        FairIsEarned(c, start, log);
      }
    } else if c.moveCount <= 0 {
      FiresAtOnce(c, Score(CP, -1), [], White);
      NoReportsAlternate();
    } else {
      var log := UnearnedGame(c);
    }
  }

  lemma NoReportsAlternate()
    ensures Alternates([])
  {}
}
