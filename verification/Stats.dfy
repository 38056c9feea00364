/** Win/draw/loss and pentanomial counts (app/src/matchmaking/stats.hpp). */
module Stats {

  datatype GameResult = WIN | LOSE | DRAW | NONE

  datatype Stats = Stats(
    wins: int, losses: int, draws: int,
    ww: int, wd: int, wl: int, dd: int, ld: int, ll: int)
  {
    function Plus(s: Stats): Stats {
      Stats(wins + s.wins, losses + s.losses, draws + s.draws,
            ww + s.ww, wd + s.wd, wl + s.wl, dd + s.dd, ld + s.ld, ll + s.ll)
    }

    /** The same games seen by the opponent. */
    function Invert(): Stats {
      Stats(losses, wins, draws, ll, ld, wl, dd, wd, ww)
    }

    function Sum(): int { wins + losses + draws }

    function TotalPairs(): int { ww + wd + wl + dd + ld + ll }

    /** Exactly one game, not yet counted as part of a pair. */
    predicate SingleGame() {
      this == ZERO.(wins := 1) || this == ZERO.(losses := 1) || this == ZERO.(draws := 1)
    }

    /** The game counts are those of the recorded pairs. */
    predicate Balanced() {
      && wins == ww + ww + wd + wl
      && draws == wd + dd + dd + ld
      && losses == ll + ll + ld + wl
      && ww >= 0 && wd >= 0 && wl >= 0 && dd >= 0 && ld >= 0 && ll >= 0
    }
  }

  lemma PlusLaws(a: Stats, b: Stats, c: Stats)
    ensures a.Plus(b) == b.Plus(a)
    ensures a.Plus(b).Plus(c) == a.Plus(b.Plus(c))
    ensures a.Plus(ZERO) == a
  {}

  lemma PlusZero(a: Stats)
    ensures a.Plus(ZERO) == a && ZERO.Plus(a) == a
  {}

  lemma PlusCancels(v: Stats, a: Stats, b: Stats)
    ensures v.Plus(a) == v.Plus(b) <==> a == b
  {}

  lemma PlusExchange(a: Stats, b: Stats, c: Stats)
    ensures a.Plus(b).Plus(c) == a.Plus(c).Plus(b)
  {}

  lemma PlusRegroup(a: Stats, b: Stats, c: Stats, d: Stats)
    ensures a.Plus(b).Plus(c.Plus(d).Invert()) == a.Plus(c.Invert()).Plus(b.Plus(d.Invert()))
  {}

  /** Inverting twice changes nothing, and inversion respects sums and pair bookkeeping. */
  lemma InvertLaws(a: Stats, b: Stats)
    ensures a.Invert().Invert() == a
    ensures a.Plus(b).Invert() == a.Invert().Plus(b.Invert())
    ensures FinishPair(a.Invert()) == FinishPair(a).Invert()
    ensures ZERO.Invert() == ZERO
  {}

  lemma BalancedLaws(a: Stats, b: Stats)
    ensures ZERO.Balanced()
    ensures a.Balanced() ==> a.Invert().Balanced()
    ensures a.Balanced() && b.Balanced() ==> a.Plus(b).Balanced()
  {
    if a.Balanced() && b.Balanced() { PlusBalanced(a, b); }
  }

  lemma PlusBalanced(a: Stats, b: Stats)
    requires a.Balanced() && b.Balanced()
    ensures a.Plus(b).Balanced()
  {}

  const ZERO := Stats(0, 0, 0, 0, 0, 0, 0, 0, 0)

  /** One finished match, from the white player's side. */
  function FromMatch(white: GameResult, black: GameResult): Stats {
    if white == WIN then ZERO.(wins := 1)
    else if white == LOSE then ZERO.(losses := 1)
    else if white == DRAW || black == DRAW then ZERO.(draws := 1)
    else ZERO
  }

  predicate Complementary(white: GameResult, black: GameResult) {
    (white == WIN && black == LOSE) || (white == LOSE && black == WIN) || (white == DRAW && black == DRAW)
  }

  /**
    Complementary results count as one game: as a win exactly if White won, as a loss exactly if White
    lost, as a draw exactly if both drew. Swapping the players inverts it.
   */
  lemma MatchIsOneGame(white: GameResult, black: GameResult)
    requires Complementary(white, black)
    ensures FromMatch(white, black).SingleGame()
    ensures FromMatch(white, black).wins == 1 <==> white == WIN
    ensures FromMatch(white, black).losses == 1 <==> white == LOSE
    ensures FromMatch(white, black).draws == 1 <==> white == DRAW && black == DRAW
    ensures FromMatch(black, white) == FromMatch(white, black).Invert()
  {}

  /** The pentanomial bookkeeping of a finished pair. */
  function FinishPair(s: Stats): Stats {
    Stats(s.wins, s.losses, s.draws,
          s.ww + (if s.wins == 2 then 1 else 0),
          s.wd + (if s.wins == 1 && s.draws == 1 then 1 else 0),
          s.wl + (if s.wins == 1 && s.losses == 1 then 1 else 0),
          s.dd + (if s.draws == 2 then 1 else 0),
          s.ld + (if s.losses == 1 && s.draws == 1 then 1 else 0),
          s.ll + (if s.losses == 2 then 1 else 0))
  }

  /** The six kinds of finished pairs. */
  predicate OfOneKind(s: Stats) {
    || s == Stats(2, 0, 0, 1, 0, 0, 0, 0, 0) || s == Stats(1, 0, 1, 0, 1, 0, 0, 0, 0)
    || s == Stats(1, 1, 0, 0, 0, 1, 0, 0, 0) || s == Stats(0, 0, 2, 0, 0, 0, 1, 0, 0)
    || s == Stats(0, 1, 1, 0, 0, 0, 0, 1, 0) || s == Stats(0, 2, 0, 0, 0, 0, 0, 0, 1)
  }

  /** The six results of two games, before they are counted as a pair. */
  predicate TwoGames(s: Stats) {
    || s == ZERO.(wins := 2) || s == ZERO.(losses := 2) || s == ZERO.(draws := 2)
    || s == ZERO.(wins := 1, losses := 1) || s == ZERO.(wins := 1, draws := 1) || s == ZERO.(losses := 1, draws := 1)
  }

  lemma SumOfSingles(s: Stats, t: Stats)
    requires s.SingleGame() && t.SingleGame()
    ensures TwoGames(s.Plus(t))
  {}

  lemma TwoGamesMakeKind(s: Stats)
    requires TwoGames(s)
    ensures OfOneKind(FinishPair(s))
  {}

  lemma InvertSingle(s: Stats)
    requires s.SingleGame()
    ensures s.Invert().SingleGame()
  {}

  lemma SinglesMakeKind(s: Stats, t: Stats)
    requires s.SingleGame() && t.SingleGame()
    ensures OfOneKind(FinishPair(s.Invert().Plus(t)))
  {
    hide FinishPair, OfOneKind, Stats.Plus, Stats.Invert, Stats.SingleGame, TwoGames;
    InvertSingle(s);
    SumOfSingles(s.Invert(), t);
    TwoGamesMakeKind(s.Invert().Plus(t));
  }

  lemma KindBalanced(s: Stats)
    requires OfOneKind(s)
    ensures s.Balanced()
  {}

  lemma KindIsOnePair(s: Stats)
    requires OfOneKind(s)
    ensures s.TotalPairs() == 1
  {}

  lemma KindIsTwoGames(s: Stats)
    requires OfOneKind(s)
    ensures s.Sum() == 2
  {}

  /** Two single games make exactly one pair, consistent with their game counts. */
  lemma FinishedPairIsBalanced(first: Stats, second: Stats)
    requires first.SingleGame() && second.SingleGame()
    ensures var p := FinishPair(first.Invert().Plus(second));
            p.Balanced() && p.TotalPairs() == 1 && p.Sum() == 2
  {
    hide FinishPair, OfOneKind, Stats.Balanced, Stats.TotalPairs, Stats.Plus, Stats.Invert, Stats.SingleGame, Stats.Sum;
    var p := FinishPair(first.Invert().Plus(second));
    SinglesMakeKind(first, second);
    KindBalanced(p);
    KindIsOnePair(p);
    KindIsTwoGames(p);
  }
}
