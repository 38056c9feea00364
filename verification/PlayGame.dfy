/**
  A pool thread playing one game (app/src/matchmaking/tournament/base/tournament.cpp): which games
  are reported as finished, and which of them pull the next one into the queue.
 */
module PlayGame {
  import opened Adjudication
  import opened Stats
  import opened MatchSteps
  import opened Rulings
  import M = Match
  import T = Tournament

  /** The readings of the stop flag around the match, and the recover option. */
  datatype Around = Around(stopBefore: bool, stopAtStall: bool, stopAtEnd: bool, recover: bool)

  /** What the thread did: reports to the finish callback, and whether it asked for the next game. */
  datatype Effect = Effect(reports: seq<(GameResult, GameResult)>, next: bool, stop: bool)

  /** The stop flag is never cleared, so a match that met it leaves it set. */
  predicate MetStop(stopped: bool, termination: Termination, stallOrDisconnect: bool) {
    stopped || (termination == INTERRUPT && stallOrDisconnect)
  }

  /** What the thread of worker `w` does with its game, in the steps of module Tournament. */
  function StepsOf(e: Effect, w: nat): seq<T.Step> {
    if e.next then [T.Finish(w), T.Pull(w)]
    else if e.reports != [] then [T.StallStop(w)]
    else if e.stop then [T.Stop, T.Drop(w)]
    else [T.Abort(w)]
  }

  /** Effects that `PlayGame` can have. */
  predicate Possible(e: Effect) {
    && |e.reports| <= 1
    && (e.next ==> |e.reports| == 1 && !e.stop)
    && (|e.reports| == 1 && !e.next ==> e.stop)
  }

  /**
    Every effect is a step of the tournament: the game is counted exactly if it was reported, lost
    otherwise, the worker is free again, and only a request for the next game touches the queue. A
    thread that reports has read the stop flag as not set.
   */
  lemma EffectIsSteps(p: T.Params, xs: seq<T.Step>, w: nat, e: Effect)
    requires T.IsRun(p, xs) && w in T.After(p, xs).playing && Possible(e)
    requires e.reports != [] ==> !T.After(p, xs).stop
    requires T.After(p, xs).stop ==> e.stop
    ensures T.IsRun(p, xs + StepsOf(e, w))
    ensures var s, t := T.After(p, xs), T.After(p, xs + StepsOf(e, w));
            && !t.Busy(w) && t.stop == e.stop
            && t.finished == (if e.reports == [] then s.finished else s.finished + [s.playing[w]])
            && t.lost == s.lost + (if e.reports == [] then 1 else 0)
            && t.queue == s.queue + (if e.next && s.generated < p.total then [s.generated] else [])
  {
    hide T.IsRun, T.After;
    T.RunKeepsInv(p, xs);
    var s := T.After(p, xs);
    assert w !in s.counted by { NotCounted(p, s, w); }
    hide T.Inv;
    if e.next {
      T.Extend(p, xs, T.Finish(w));
      T.Extend(p, xs + [T.Finish(w)], T.Pull(w));
      assert xs + [T.Finish(w), T.Pull(w)] == xs + [T.Finish(w)] + [T.Pull(w)];
    } else if e.reports != [] {
      T.Extend(p, xs, T.StallStop(w));
    } else if e.stop {
      T.Extend(p, xs, T.Stop);
      T.Extend(p, xs + [T.Stop], T.Drop(w));
      assert xs + [T.Stop, T.Drop(w)] == xs + [T.Stop] + [T.Drop(w)];
    } else {
      T.Extend(p, xs, T.Abort(w));
    }
  }

  lemma NotCounted(p: T.Params, s: T.State, w: nat)
    requires T.Inv(p, s) && w in s.playing
    ensures w !in s.counted
  {
    assert w in s.playing.Keys;
  }

  /**
    A game is reported at most once, always with complementary results, so it counts as exactly one
    game on the scoreboard; the next game is asked for exactly by games reported in the normal way.
    `over` is false only if `turns` was too short for the match.
   */
  method PlayGame<B(!new)>(rules: Rules<B>, config: Config, start: B, opening: seq<string>,
                           white: Engine, black: Engine, e: Startup, turns: seq<Turn>, around: Around)
    returns (effect: Effect, over: bool, match_: M.Match<B>)
    requires Chess(rules)
    ensures Possible(effect)
    ensures forall g :: g in effect.reports ==>
              g == match_.players && Complementary(g.0, g.1) && FromMatch(g.0, g.1).SingleGame()
    ensures |effect.reports| == 1 && !effect.next ==> match_.stallOrDisconnect && !around.recover
    ensures fresh(match_) && match_.rules == rules
    ensures effect.reports != [] ==> match_.termination != INTERRUPT && match_.termination != Unset
    ensures effect.reports != [] && e.AllWell() ==>
              && WonByColour(rules, match_.board, match_.termination, match_.reason, match_.players)
              && (match_.termination == NORMAL <==> rules.over(match_.board).0 != NotOver)
              && (match_.termination == TIMEOUT ==>
                    var late := if rules.sideToMove(match_.board) == White then white.limits else black.limits;
                    late.time != 0 || late.fixedTime != 0)
    ensures effect.reports != [] && !e.AllWell() ==>
              (match_.players.0 == LOSE <==> !e.ready || (!e.whiteUci && e.blackUci))
    ensures over && !around.stopBefore && !MetStop(!e.BothStart(), match_.termination, match_.stallOrDisconnect) ==>
              if match_.stallOrDisconnect && !around.recover then
                effect.stop && (|effect.reports| == 1 <==> !around.stopAtStall)
              else
                (effect.next <==> !around.stopAtEnd && match_.termination != INTERRUPT)
    ensures around.stopBefore || !e.BothStart() ==> effect.reports == [] && effect.stop
  {
    hide Chess, Recorded, CheckedIn, Initial, After, M.InStepOnBook, FromMatch, Complementary, Stats.SingleGame;
    hide WonByColour, ClockAtEnd, PlayedOn, M.Match.Reached;
    match_ := new M.Match(rules, config, start, opening);
    effect, over := Effect([], false, around.stopBefore), true;
    if around.stopBefore { return; }
    var begun, finished, stopped;
    ghost var used, w, b;
    begun, finished, stopped, used, w, b := match_.Start(white, black, e, turns, start);
    over := finished || !begun;
    if !over { return; }
    var met := MetStop(stopped, match_.termination, match_.stallOrDisconnect);
    if match_.stallOrDisconnect && !around.recover {
      if !(around.stopAtStall || met) {
        MatchIsOneGame(match_.players.0, match_.players.1);
        effect := effect.(reports := [match_.players]);
      }
      effect := effect.(stop := true);
      return;
    }
    var stop := around.stopAtEnd || met;
    effect := effect.(stop := stop);
    if match_.termination != INTERRUPT && !stop {
      MatchIsOneGame(match_.players.0, match_.players.1);
      effect := effect.(reports := [match_.players], next := true);
    }
  }
}
