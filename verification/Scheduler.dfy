/**
  The pairing generator (app/src/matchmaking/tournament/schedule/base_scheduler.hpp) with its
  round-robin and gauntlet variants, proved to be the lexicographic enumeration of all
  (round, pair, game) combinations.
 */
module Scheduler {
  import opened Options
  import opened DivMod
  import opened OpeningBook

  datatype Kind = RoundRobin | Gauntlet(seeds: nat)

  datatype Plan = Plan(players: nat, rounds: nat, games: nat, kind: Kind) {

    predicate Accepted() { players >= 2 && rounds >= 1 && games >= 1 }

    /** First players range below this. */
    function Limit(): (n: nat)
      requires players >= 1
      ensures n < players
    {
      match kind
      case RoundRobin => players - 1
      case Gauntlet(seeds) => if seeds <= players - 1 then seeds else players - 1
    }

    /** The number of games the tournament announces. */
    function Total(): nat
      requires Accepted()
    {
      match kind
      case RoundRobin =>
        AllPairs(players);
        var pairs: nat := players * (players - 1) / 2;
        Product(pairs, rounds, games);
        pairs * rounds * games
      case Gauntlet(_) =>
        var s := Limit();
        SeedPairs(players, s);
        var pairs: nat := s * players - s * (s + 1) / 2;
        Product(pairs, rounds, games);
        pairs * rounds * games
    }

    /** Pairs dealt in one round; without seeds a round still deals one. */
    function PairsPerRound(): (n: nat)
      requires Accepted()
      ensures n >= 1
    {
      if Limit() == 0 then 1
      else
        PairsBeforeGrows(players, 1, Limit());
        PairsBefore(players, Limit())
    }

    /** The pairs that `played` games amount to. */
    function Done(played: nat): nat
      requires Accepted()
    {
      played / games
    }

    /** Pairings generated by a run that starts with `played` games already played. */
    function Emitted(played: nat): nat
      requires Accepted()
    {
      var done := Done(played);
      if done <= rounds then
        var left: nat, n := rounds - done, PairsPerRound();
        left * n * games
      else 0
    }
  }

  datatype Pairing = Pairing(round: nat, pairing: nat, game: nat, opening: Option<nat>, player1: nat, player2: nat)

  // ---------- Numbering the pairs of a round ----------

  /** Pairs (x, y) with x < i and x < y < n. */
  function PairsBefore(n: nat, i: nat): nat
    requires i < n
  {
    if i == 0 then 0 else PairsBefore(n, i - 1) + (n - i)
  }

  lemma {:induction false} PairsBeforeGrows(n: nat, i: nat, j: nat)
    requires i <= j < n
    ensures PairsBefore(n, i) + (j - i) <= PairsBefore(n, j)
  {
    if i < j { PairsBeforeGrows(n, i, j - 1); }
  }

  lemma {:induction false} PairsBeforeClosed(n: nat, i: nat)
    requires i < n
    ensures 2 * PairsBefore(n, i) == i * (2 * n - i - 1)
  {
    if i > 0 {
      PairsBeforeClosed(n, i - 1);
      assert (i - 1) * (2 * n - i) == i * (2 * n - i) - (2 * n - i);
      assert i * (2 * n - i - 1) == i * (2 * n - i) - i;
    }
  }

  lemma SeedPairs(n: nat, s: nat)
    requires s < n
    ensures s * n - s * (s + 1) / 2 == PairsBefore(n, s)
  {
    PairsBeforeClosed(n, s);
    assert s * (2 * n - s - 1) == 2 * (s * n) - s * (s + 1);
  }

  lemma AllPairs(n: nat)
    requires n >= 1
    ensures n * (n - 1) / 2 == PairsBefore(n, n - 1)
  {
    PairsBeforeClosed(n, n - 1);
    assert (n - 1) * (2 * n - (n - 1) - 1) == n * (n - 1);
  }

  function PairRank(n: nat, i: nat, j: nat): nat
    requires i < j < n
  {
    PairsBefore(n, i) + (j - i - 1)
  }

  function PairUnrank(n: nat, q: nat): (p: (nat, nat))
    requires n >= 2 && q < PairsBefore(n, n - 1)
    ensures p.0 < p.1 < n
  {
    if q < n - 1 then (0, q + 1)
    else
      DropFirstPlayer(n, n - 2);
      var (i, j) := PairUnrank(n - 1, q - (n - 1));
      (i + 1, j + 1)
  }

  lemma {:induction false} DropFirstPlayer(n: nat, i: nat)
    requires i + 1 < n
    ensures PairsBefore(n, i + 1) == n - 1 + PairsBefore(n - 1, i)
  {
    if i > 0 { DropFirstPlayer(n, i - 1); }
  }

  lemma RankInBounds(n: nat, i: nat, j: nat)
    requires i < j < n
    ensures PairRank(n, i, j) < PairsBefore(n, n - 1)
  {
    PairsBeforeGrows(n, i + 1, n - 1);
  }

  lemma RankShifts(n: nat, i: nat, j: nat)
    requires 0 < i < j < n
    ensures PairRank(n, i, j) == n - 1 + PairRank(n - 1, i - 1, j - 1)
  {
    DropFirstPlayer(n, i - 1);
  }

  lemma {:induction false} UnrankOfRank(n: nat, i: nat, j: nat)
    requires i < j < n
    ensures PairRank(n, i, j) < PairsBefore(n, n - 1)
    ensures PairUnrank(n, PairRank(n, i, j)) == (i, j)
  {
    RankInBounds(n, i, j);
    if i == 0 {
      assert PairsBefore(n, 0) == 0;
    } else {
      hide PairsBefore, PairRank;
      RankShifts(n, i, j);
      UnrankOfRank(n - 1, i - 1, j - 1);
    }
  }

  lemma {:induction false} RankOfUnrank(n: nat, q: nat)
    requires n >= 2 && q < PairsBefore(n, n - 1)
    ensures var p := PairUnrank(n, q); PairRank(n, p.0, p.1) == q
  {
    if q < n - 1 {
      assert PairsBefore(n, 0) == 0;
    } else {
      hide PairsBefore;
      DropFirstPlayer(n, n - 2);
      RankOfUnrank(n - 1, q - (n - 1));
      DropFirstPlayer(n, PairUnrank(n - 1, q - (n - 1)).0);
    }
  }

  /** Counting lexicographically, the pairs with a first player below `limit` come first. */
  lemma RankBelowLimit(n: nat, i: nat, j: nat, limit: nat)
    requires i < j < n && limit < n
    ensures i < limit <==> PairRank(n, i, j) < PairsBefore(n, limit)
  {
    if i < limit { PairsBeforeGrows(n, i + 1, limit); } else { PairsBeforeGrows(n, limit, i); }
  }

  // ---------- The enumeration ----------

  lemma RoundFits(p: Plan)
    requires p.Accepted()
    ensures p.PairsPerRound() <= PairsBefore(p.players, p.players - 1)
  {
    PairsBeforeGrows(p.players, p.Limit(), p.players - 1);
    PairsBeforeGrows(p.players, 1, p.players - 1);
  }

  /** The players of pair number `pair`, cycling through the rounds. */
  function PlayersAt(p: Plan, pair: nat): (r: (nat, nat))
    requires p.Accepted()
    ensures r.0 < r.1 < p.players
  {
    RoundFits(p);
    PairUnrank(p.players, pair % p.PairsPerRound())
  }

  /** Pairing number `k` of a run, counted from 0. `bookSize` is the number of openings. */
  function PairingAt(p: Plan, played: nat, bookSize: nat, k: nat): Pairing
    requires p.Accepted()
  {
    var pair := k / p.games;
    var (i, j) := PlayersAt(p, pair);
    Pairing(
      round := p.Done(played) + pair / p.PairsPerRound() + 1,
      pairing := p.Done(played) + pair,
      game := played + k + 1,
      opening := IdAt(bookSize, pair),
      player1 := i,
      player2 := j)
  }

  class Scheduler {
    const plan: Plan
    const played: nat
    const book: OpeningBook
    var opening: Option<nat>
    var currentRound: nat
    var gameCounter: nat
    var player1: nat
    var player2: nat
    var gamesPerPair: nat
    var pairCounter: nat

    constructor (plan: Plan, played: nat, book: OpeningBook)
      requires plan.Accepted() && book.openingIndex == 0
      ensures Valid() && Position() == 0
      ensures this.plan == plan && this.played == played && this.book == book
    {
      this.plan, this.played, this.book := plan, played, book;
      opening := None;
      currentRound := played / plan.games + 1;
      gameCounter := played;
      player1, player2 := 0, 1;
      gamesPerPair := 0;
      pairCounter := played / plan.games;
      new;
      assert PairRank(plan.players, 0, 1) == 0;
    }

    predicate InRange()
      reads this
    {
      && plan.Accepted()
      && plan.Done(played) + 1 <= currentRound
      && player1 < player2 < plan.players
      && (player1 < plan.Limit() || (player1 == 0 && player2 == 1))
      && gamesPerPair < plan.games
    }

    function PairPosition(): nat
      requires InRange()
      reads this
    {
      Mixed(currentRound - 1 - plan.Done(played), plan.PairsPerRound(), PairRank(plan.players, player1, player2))
    }

    /** How many pairings have been generated, recovered from the fields. */
    function Position(): nat
      requires InRange()
      reads this
    {
      Mixed(PairPosition(), plan.games, gamesPerPair)
    }

    predicate Valid()
      reads this, book
    {
      && InRange()
      && pairCounter == plan.Done(played) + PairPosition()
      && gameCounter == played + Position()
      && book.openingIndex == PairPosition() + (if gamesPerPair > 0 then 1 else 0)
      && (gamesPerPair > 0 ==> opening == IdAt(|book.openings|, PairPosition()))
    }

    method Next() returns (r: Option<Pairing>)
      requires Valid()
      modifies this, book`openingIndex
      ensures Valid()
      ensures old(Position()) < plan.Emitted(played) ==>
                r == Some(PairingAt(plan, played, |book.openings|, old(Position()))) &&
                Position() == old(Position()) + 1
      ensures old(Position()) >= plan.Emitted(played) ==> r == None && Position() == old(Position())
    {
      hide PairsBefore, PairUnrank, PlayersAt, Mixed, Plan.PairsPerRound, PairRank, Plan.Emitted, Plan.Done, Plan.Limit;
      ghost var done := plan.Done(played);
      ghost var round, pair, position := currentRound - 1 - done, PairPosition(), Position();
      DecodePosition();
      StepPairCounts(plan, round, player1, player2);
      Carry(pair, plan.games, gamesPerPair);
      if currentRound > plan.rounds {
        return None;
      }
      if gamesPerPair == 0 {
        opening := book.FetchId();
      }
      gameCounter := gameCounter + 1;
      r := Some(Pairing(currentRound, pairCounter, gameCounter, opening, player1, player2));
      assert r.value == PairingAt(plan, played, |book.openings|, position);
      gamesPerPair := gamesPerPair + 1;
      if gamesPerPair >= plan.games {
        gamesPerPair := 0;
        MoveToNextPair();
      }
    }

    /** The tail of `Next`, run when all games of the current pair are generated. */
    method MoveToNextPair()
      requires plan.Accepted()
      modifies this`currentRound, this`player1, this`player2, this`pairCounter
      ensures (currentRound, player1, player2) == StepPair(plan, old(currentRound), old(player1), old(player2))
      ensures pairCounter == old(pairCounter) + 1
    {
      player2 := player2 + 1;
      pairCounter := pairCounter + 1;
      if player2 >= plan.players {
        player1 := player1 + 1;
        player2 := player1 + 1;
      }
      if player1 >= plan.Limit() {
        currentRound := currentRound + 1;
        player1 := 0;
        player2 := 1;
      }
    }

    lemma DecodePosition()
      requires InRange()
      ensures Position() / plan.games == PairPosition()
      ensures PairPosition() / plan.PairsPerRound() == currentRound - 1 - plan.Done(played)
      ensures PlayersAt(plan, PairPosition()) == (player1, player2)
      ensures currentRound > plan.rounds <==> Position() >= plan.Emitted(played)
    {
      hide PairsBefore, PairUnrank, Mixed, Plan.PairsPerRound;
      var done, n, rank := plan.Done(played), plan.PairsPerRound(), PairRank(plan.players, player1, player2);
      RankInRound(plan, player1, player2);
      Digits(PairPosition(), plan.games, gamesPerPair);
      Digits(currentRound - 1 - done, n, rank);
      UnrankOfRank(plan.players, player1, player2);
      if done <= plan.rounds {
        BelowRound(PairPosition(), plan.games, gamesPerPair, Mixed(plan.rounds - done, n, 0));
        BelowRound(currentRound - 1 - done, n, rank, plan.rounds - done);
        EmittedDigits(plan, played);
      }
    }
  }

  lemma EmittedDigits(p: Plan, played: nat)
    requires p.Accepted() && p.Done(played) <= p.rounds
    ensures p.Emitted(played) == Mixed(Mixed(p.rounds - p.Done(played), p.PairsPerRound(), 0), p.games, 0)
  {
    hide Plan.PairsPerRound;
  }

  lemma RankInRound(p: Plan, i: nat, j: nat)
    requires p.Accepted() && i < j < p.players
    requires i < p.Limit() || (i == 0 && j == 1)
    ensures PairRank(p.players, i, j) < p.PairsPerRound()
  {
    if p.Limit() > 0 {
      RankBelowLimit(p.players, i, j, p.Limit());
    }
  }

  /** The generator's walk to the next pair, as (round, player1, player2). */
  function StepPair(p: Plan, round: nat, i: nat, j: nat): (nat, nat, nat)
    requires p.players >= 1
  {
    var (i', j') := if j + 1 >= p.players then (i + 1, i + 2) else (i, j + 1);
    if i' >= p.Limit() then (round + 1, 0, 1) else (round, i', j')
  }

  /** It advances the number of the pair by one. */
  lemma StepPairCounts(p: Plan, round: nat, i: nat, j: nat)
    requires p.Accepted() && i < j < p.players
    requires i < p.Limit() || (i == 0 && j == 1)
    ensures var (round', i', j') := StepPair(p, round, i, j);
            && i' < j' < p.players
            && (i' < p.Limit() || (i' == 0 && j' == 1))
            && Mixed(round', p.PairsPerRound(), PairRank(p.players, i', j')) ==
               Mixed(round, p.PairsPerRound(), PairRank(p.players, i, j)) + 1
  {
    var n, rank := p.PairsPerRound(), PairRank(p.players, i, j);
    var (i', j') := if j + 1 >= p.players then (i + 1, i + 2) else (i, j + 1);
    Carry(round, n, rank);
    RankInRound(p, 0, 1);
    if i' < p.Limit() {
      assert PairRank(p.players, i', j') == rank + 1;
    } else {
      assert rank + 1 == n;
    }
  }

  // ---------- What the enumeration amounts to ----------

  /** One game of the tournament: round, players, and which of the pair's games; in a gauntlet one player is a seed. */
  ghost predicate Admissible(p: Plan, round: nat, i: nat, j: nat, g: nat) {
    && p.Accepted() && 1 <= round <= p.rounds && i < j < p.players && g < p.games
    && (p.kind.Gauntlet? ==> i < p.kind.seeds)
  }

  /** Where that game comes in the lexicographic order. */
  function GameRank(p: Plan, round: nat, i: nat, j: nat, g: nat): nat
    requires p.Accepted() && round >= 1 && i < j < p.players
  {
    Mixed(Mixed(round - 1, p.PairsPerRound(), PairRank(p.players, i, j)), p.games, g)
  }

  /** A fresh run generates every game of the tournament, at its place in the order. */
  lemma GeneratesEveryGame(p: Plan, bookSize: nat, round: nat, i: nat, j: nat, g: nat)
    requires Admissible(p, round, i, j, g)
    ensures var k := GameRank(p, round, i, j, g);
            var x := PairingAt(p, 0, bookSize, k);
            k < p.Emitted(0) && x.round == round && x.player1 == i && x.player2 == j && k % p.games == g
  {
    hide PairsBefore, PairUnrank, Mixed, Plan.PairsPerRound, PairRank;
    var n, rank := p.PairsPerRound(), PairRank(p.players, i, j);
    var pair := Mixed(round - 1, n, rank);
    RankInRound(p, i, j);
    Digits(pair, p.games, g);
    Digits(round - 1, n, rank);
    UnrankOfRank(p.players, i, j);
    EmittedDigits(p, 0);
    BelowRound(round - 1, n, rank, p.rounds);
    BelowRound(pair, p.games, g, Mixed(p.rounds, n, 0));
  }

  /**
    And nothing else: pairing `k` sits at its own rank, in one of the rounds, and is a game of the
    tournament unless there is none because a gauntlet has no seeds.
   */
  lemma GeneratesOnlyGames(p: Plan, bookSize: nat, k: nat)
    requires p.Accepted() && k < p.Emitted(0)
    ensures var x := PairingAt(p, 0, bookSize, k);
            && 1 <= x.round <= p.rounds && x.player1 < x.player2 < p.players
            && GameRank(p, x.round, x.player1, x.player2, k % p.games) == k
            && (Admissible(p, x.round, x.player1, x.player2, k % p.games) <==>
                  !(p.kind.Gauntlet? && p.kind.seeds == 0))
  {
    hide PairsBefore, PairUnrank, Mixed, PairRank;
    var n, pair := p.PairsPerRound(), k / p.games;
    Split(k, p.games);
    Split(pair, n);
    RoundFits(p);
    var x := PlayersAt(p, pair);
    RankOfUnrank(p.players, pair % n);
    RankBelowLimit(p.players, x.0, x.1, p.Limit());
    NoPairsBelowZero(p.players);
    EmittedDigits(p, 0);
    BelowRound(pair, p.games, k % p.games, Mixed(p.rounds, n, 0));
    BelowRound(pair / n, n, pair % n, p.rounds);
  }

  lemma NoPairsBelowZero(n: nat)
    requires n > 0
    ensures PairsBefore(n, 0) == 0
  {}

  lemma TotalPairs(p: Plan)
    requires p.Accepted()
    ensures p.Total() == PairsBefore(p.players, p.Limit()) * p.rounds * p.games
  {
    hide PairsBefore;
    match p.kind
    case RoundRobin => AllPairs(p.players);
    case Gauntlet(_) => SeedPairs(p.players, p.Limit());
  }

  lemma EmittedFresh(p: Plan)
    requires p.Accepted()
    ensures p.Emitted(0) == p.PairsPerRound() * p.rounds * p.games
  {
    hide Plan.PairsPerRound;
    Unique(0, p.games, 0, 0);
  }

  lemma AtLeastOneGame(rounds: nat, games: nat)
    requires rounds >= 1 && games >= 1
    ensures 1 * rounds * games > 0 && 0 * rounds * games == 0
  {
    AtLeastOnce(games, rounds);
  }

  /** The announced total is what is generated, except for a gauntlet without seeds. */
  lemma TotalIsEmitted(p: Plan)
    requires p.Accepted()
    ensures p.Total() == p.Emitted(0) <==> !(p.kind.Gauntlet? && p.kind.seeds == 0)
  {
    hide Plan.Total, Plan.Emitted;
    TotalPairs(p);
    EmittedFresh(p);
    AtLeastOneGame(p.rounds, p.games);
    NoPairsBelowZero(p.players);
    hide PairsBefore;
  }

  /** With two players, resuming after whole pairs generates exactly what is missing. */
  lemma ResumeEmitsRest(p: Plan, played: nat)
    requires p.Accepted() && p.players == 2 && p.Limit() >= 1
    requires played % p.games == 0 && played <= p.Total()
    ensures p.Emitted(played) == p.Total() - played
  {
    TotalIsEmitted(p);
    assert p.PairsPerRound() == PairsBefore(2, 1) == 1;
    var done := p.Done(played);
    assert played == p.games * done;
    assert p.Total() == p.rounds * p.games;
    if done > p.rounds {
      AtLeastOnce(p.games, done - p.rounds);
      assert p.games * done == p.games * p.rounds + p.games * (done - p.rounds);
    }
    assert (p.rounds - done) * p.games == p.rounds * p.games - done * p.games;
  }

  /**
    Resumed in the middle of a pair, which only counting games singly allows, the run plays the games
    of that pair again from the first: the totals fit exactly for whole pairs.
   */
  lemma ResumeEmitsRestExactlyWhen(p: Plan, played: nat)
    requires p.Accepted() && p.players == 2 && p.Limit() >= 1 && played <= p.Total()
    ensures p.Emitted(played) == p.Total() - played + played % p.games
    ensures p.Emitted(played) == p.Total() - played <==> played % p.games == 0
  {
    hide Plan.Total, Plan.Emitted;
    var whole: nat := played - played % p.games;
    WholePairs(played, p.games);
    ResumeEmitsRest(p, whole);
    SameEmitted(p, played, whole);
  }

  lemma WholePairs(played: nat, games: nat)
    requires games > 0
    ensures played - played % games >= 0
    ensures (played - played % games) % games == 0 && (played - played % games) / games == played / games
  {
    assert played - played % games == games * (played / games);
    Unique(played - played % games, games, played / games, 0);
  }

  lemma SameEmitted(p: Plan, played: nat, whole: nat)
    requires p.Accepted() && p.Done(played) == p.Done(whole)
    ensures p.Emitted(played) == p.Emitted(whole)
  {}

  /**
    Each later pairing of a resumed two-player run is the one an uninterrupted run generates
    under the same game number, up to the identifier of its opening.
   */
  lemma ResumeContinues(p: Plan, played: nat, size: nat, size': nat, k: nat)
    requires p.Accepted() && p.players == 2 && p.Limit() >= 1
    requires played % p.games == 0
    ensures PairingAt(p, played, size, k) ==
            PairingAt(p, 0, size', played + k).(opening := PairingAt(p, played, size, k).opening)
  {
    assert p.PairsPerRound() == PairsBefore(2, 1) == 1;
    var done := p.Done(played);
    Split(k, p.games);
    assert played == p.games * done;
    assert played + k == Mixed(done + k / p.games, p.games, k % p.games);
    Digits(done + k / p.games, p.games, k % p.games);
    OnePair(p, k / p.games);
    OnePair(p, done + k / p.games);
  }

  lemma OnePair(p: Plan, pair: nat)
    requires p.Accepted() && p.players == 2 && p.PairsPerRound() == 1
    ensures PlayersAt(p, pair) == (0, 1)
  {
    assert pair % 1 == 0;
  }

  /** With two games per pair, the games of a pair follow each other with an odd and an even number. */
  lemma PairHasOppositeParity(p: Plan, played: nat, bookSize: nat, pair: nat)
    requires p.Accepted() && p.games == 2
    ensures var x, y := PairingAt(p, played, bookSize, 2 * pair), PairingAt(p, played, bookSize, 2 * pair + 1);
            y == x.(game := x.game + 1) && x.game % 2 != y.game % 2
  {
    assert 2 * pair / 2 == pair && (2 * pair + 1) / 2 == pair;
  }

  // ---------- The numbers handed out ----------

  /** The numbers of the first `n` games of a run. */
  ghost function Numbers(p: Plan, played: nat, bookSize: nat, n: nat): set<nat>
    requires p.Accepted()
  {
    set k: nat | k < n :: PairingAt(p, played, bookSize, k).game
  }

  /** They grow from game to game and continue those of the games played, without a gap. */
  lemma NumbersContinue(p: Plan, played: nat, bookSize: nat, n: nat)
    requires p.Accepted()
    ensures forall m :: m in Numbers(p, played, bookSize, n) <==> played < m <= played + n
    ensures forall j: nat, k: nat :: j < k < n ==>
              PairingAt(p, played, bookSize, j).game < PairingAt(p, played, bookSize, k).game
  {
    hide PlayersAt, Plan.PairsPerRound, Plan.Done, IdAt;
    forall m: nat | played < m <= played + n ensures m in Numbers(p, played, bookSize, n) {
      var k: nat := m - played - 1;
      assert PairingAt(p, played, bookSize, k).game == m;
    }
  }

  /** A fresh run hands out exactly the numbers from 1 to the announced total. */
  lemma FreshNumbers(p: Plan, bookSize: nat)
    requires p.Accepted() && !(p.kind.Gauntlet? && p.kind.seeds == 0)
    ensures forall m :: m in Numbers(p, 0, bookSize, p.Emitted(0)) <==> 1 <= m <= p.Total()
  {
    hide Plan.Total, Plan.Emitted, Numbers;
    TotalIsEmitted(p);
    NumbersContinue(p, 0, bookSize, p.Emitted(0));
  }

  /** And a run of two engines resumed after whole pairs those that are missing. */
  lemma ResumedNumbers(p: Plan, played: nat, bookSize: nat)
    requires p.Accepted() && p.players == 2 && p.Limit() >= 1
    requires played % p.games == 0 && played <= p.Total()
    ensures forall m :: m in Numbers(p, played, bookSize, p.Emitted(played)) <==> played + 1 <= m <= p.Total()
  {
    hide Plan.Total, Plan.Emitted, Numbers;
    ResumeEmitsRest(p, played);
    NumbersContinue(p, played, bookSize, p.Emitted(played));
  }

  /** Pairs are numbered from those played on; each number goes to as many successive games as a pair has. */
  lemma PairNumbers(p: Plan, played: nat, bookSize: nat, m: nat, k: nat)
    requires p.Accepted()
    ensures PairingAt(p, played, bookSize, k).pairing == played / p.games + m <==>
            m * p.games <= k < (m + 1) * p.games
  {
    hide PlayersAt, Plan.PairsPerRound, IdAt;
    Split(k, p.games);
    assert k == k / p.games * p.games + k % p.games;
    if m * p.games <= k < (m + 1) * p.games {
      Unique(k, p.games, m, k - m * p.games);
    }
  }

  /** The opening a pairing is played from. */
  function OpeningOf(book: seq<Opening>, x: Pairing): Opening {
    if x.opening.Some? && x.opening.value < |book| then book[x.opening.value] else STARTPOS
  }

  lemma OpeningOfPairing(p: Plan, played: nat, book: seq<Opening>, k: nat)
    requires p.Accepted()
    ensures OpeningOf(book, PairingAt(p, played, |book|, k)) == OpeningAt(book, k / p.games)
  {
    hide PlayersAt;
  }

  /**
    Scheduler and book together: with two engines and the same order of the book, each game of a
    run resumed after whole pairs is the game an uninterrupted run plays under that number, from
    the same opening.
   */
  lemma ResumedGameIsTheSame(p: Plan, base: seq<Opening>, start: nat, played: nat, k: nat)
    requires p.Accepted() && p.players == 2 && p.Limit() >= 1 && start >= 1
    requires played % p.games == 0 && played + k < p.Total()
    ensures var resumed := Prepared(base, start - 1 + played / p.games, p.rounds);
            var whole := Prepared(base, start - 1, p.rounds);
            var x, y := PairingAt(p, played, |resumed|, k), PairingAt(p, 0, |whole|, played + k);
            x == y.(opening := x.opening) && OpeningOf(resumed, x) == OpeningOf(whole, y)
  {
    hide PairingAt, OpeningOf, OpeningAt, Prepared, Plan.Total, Plan.Emitted;
    var done := played / p.games;
    var resumed, whole := Prepared(base, start - 1 + done, p.rounds), Prepared(base, start - 1, p.rounds);
    ResumeContinues(p, played, |resumed|, |whole|, k);
    OpeningOfPairing(p, played, resumed, k);
    OpeningOfPairing(p, 0, whole, played + k);
    RoundOfGame(p, played, k);
    ResumedOpening(base, start, p.rounds, done, done + k / p.games + 1);
  }

  lemma RoundOfGame(p: Plan, played: nat, k: nat)
    requires p.Accepted() && p.players == 2 && p.Limit() >= 1
    requires played % p.games == 0 && played + k < p.Total()
    ensures (played + k) / p.games == played / p.games + k / p.games < p.rounds
  {
    TwoEngineTotal(p);
    hide Plan.Total;
    assert played == p.games * (played / p.games);
    WholePlus(played / p.games, p.games, k);
    QuotientBelow(played + k, p.games, p.rounds);
  }

  lemma TwoEngineTotal(p: Plan)
    requires p.Accepted() && p.players == 2 && p.Limit() >= 1
    ensures p.Total() == p.games * p.rounds
  {
    TotalPairs(p);
    assert PairsBefore(2, 1) == 1;
  }
}
