/**
  The final standings of a tournament: the scoreboard after a complete run against the plain tally
  of the games played, for the colour options of
  app/src/matchmaking/tournament/roundrobin/roundrobin.cpp.
 */
module Standings {
  import opened Collections
  import opened Stats
  import opened ScoreBoard
  import opened Tallies
  import opened Tournament
  import opened RoundRobin
  import Scheduler

  // ---------- A complete run completes every pair ----------

  /** The games of pair number `m` among the first `n`. */
  function PairUpTo(n: nat, m: nat): seq<nat> {
    if n <= 2 * m then [] else if n == 2 * m + 1 then [2 * m] else [2 * m, 2 * m + 1]
  }

  lemma {:induction false} GamesUpTo(f: Field, n: nat, m: nat)
    requires f.Ok() && f.plan.games == 2
    ensures GamesOf(f, UpTo(n), f.plan.Done(f.played) + m) == PairUpTo(n, m)
  {
    hide GamesOf;
    if n == 0 {
      NoGames(f, f.plan.Done(f.played) + m);
    } else {
      GamesUpTo(f, n - 1, m);
      GamesUpToNext(f, n - 1, m);
    }
  }

  lemma NoGames(f: Field, id: nat)
    requires f.Ok()
    ensures GamesOf(f, UpTo(0), id) == []
  {
    NothingUpTo();
  }

  lemma GamesUpToNext(f: Field, n: nat, m: nat)
    requires f.Ok() && f.plan.games == 2
    ensures var id := f.plan.Done(f.played) + m;
            GamesOf(f, UpTo(n + 1), id) == GamesOf(f, UpTo(n), id) + if n / 2 == m then [n] else []
  {
    hide UpTo, Scheduler.PairingAt, Scheduler.Plan.Done;
    UpToNext(n);
    PairOfGame(f, n);
    GamesOfNext(f, UpTo(n), n, f.plan.Done(f.played) + m);
  }

  lemma GamesOfNext(f: Field, ks: seq<nat>, k: nat, id: nat)
    requires f.Ok()
    ensures GamesOf(f, ks + [k], id) ==
            GamesOf(f, ks, id) +
            if Scheduler.PairingAt(f.plan, f.played, f.bookSize, k).pairing == id then [k] else []
  {
    hide Scheduler.PairingAt;
    assert (ks + [k])[..|ks|] == ks;
  }

  lemma PairOfGame(f: Field, k: nat)
    requires f.Ok() && f.plan.games == 2
    ensures Scheduler.PairingAt(f.plan, f.played, f.bookSize, k).pairing == f.plan.Done(f.played) + k / 2
  {
    hide Scheduler.PlayersAt;
  }

  function PlayedInOrder(f: Field, outcome: nat -> Stats, n: nat): (es: seq<Event>)
    requires f.Ok()
  {
    Events(f, outcome, UpTo(n))
  }

  lemma InOrderNext(f: Field, outcome: nat -> Stats, n: nat)
    requires f.Ok()
    ensures PlayedInOrder(f, outcome, n + 1) == PlayedInOrder(f, outcome, n) + [f.Game(n, outcome(n))]
  {
    hide Field.Game, UpTo, Events;
    UpToNext(n);
    EventsSnoc(f, outcome, UpTo(n), n);
  }

  /** What has been played of a pair after `n` games in order. */
  lemma PairInOrder(f: Field, outcome: nat -> Stats, n: nat, m: nat)
    requires f.Ok() && f.plan.games == 2
    ensures EventsOf(PlayedInOrder(f, outcome, n), f.plan.Done(f.played) + m) == Events(f, outcome, PairUpTo(n, m))
  {
    hide EventsOf, Events, GamesOf;
    EventsOfGames(f, outcome, UpTo(n), f.plan.Done(f.played) + m);
    GamesUpTo(f, n, m);
  }

  lemma OneEvent(f: Field, outcome: nat -> Stats, k: nat)
    requires f.Ok()
    ensures Events(f, outcome, [k]) == [f.Game(k, outcome(k))]
  {
    assert [k][..0] == [];
  }

  /** Which events precede the next game of its pair: none, or the first game. */
  lemma BeforeGame(f: Field, outcome: nat -> Stats, n: nat)
    requires f.Ok() && f.plan.games == 2
    ensures EventsOf(PlayedInOrder(f, outcome, n), f.Game(n, outcome(n)).id) ==
            if n % 2 == 0 then [] else [f.Game(n - 1, outcome(n - 1))]
  {
    hide EventsOf, Events, Field.Game;
    PairInOrder(f, outcome, n, n / 2);
    GameId(f, n, outcome(n));
    PairOfGame(f, n);
    if n % 2 == 0 {
      assert Events(f, outcome, []) == [] by { NoEvents(f, outcome); }
    } else {
      OneEvent(f, outcome, n - 1);
    }
  }

  lemma NoEvents(f: Field, outcome: nat -> Stats)
    requires f.Ok()
    ensures Events(f, outcome, []) == []
  {}

  /** With an even number of games played in order, every game is in a completed pair. */
  lemma {:induction false} AllPaired(f: Field, outcome: nat -> Stats, n: nat, total: nat)
    requires f.Ok() && f.plan.games == 2 && total % 2 == 0 && n <= total
    ensures InPairs(PlayedInOrder(f, outcome, n), PlayedInOrder(f, outcome, total)) == PlayedInOrder(f, outcome, n)
  {
    hide PlayedInOrder, InPairs, EventsOf, Field.Game;
    NothingInOrder(f, outcome, total);
    if n > 0 {
      AllPaired(f, outcome, n - 1, total);
      InOrderNext(f, outcome, n - 1);
      InPairsSnoc(PlayedInOrder(f, outcome, n - 1), f.Game(n - 1, outcome(n - 1)), PlayedInOrder(f, outcome, total));
      PairIsComplete(f, outcome, n - 1, total);
    }
  }

  lemma NothingInOrder(f: Field, outcome: nat -> Stats, total: nat)
    requires f.Ok()
    ensures PlayedInOrder(f, outcome, 0) == [] && InPairs([], PlayedInOrder(f, outcome, total)) == []
  {
    NothingUpTo();
  }

  lemma PairIsComplete(f: Field, outcome: nat -> Stats, k: nat, total: nat)
    requires f.Ok() && f.plan.games == 2 && total % 2 == 0 && k < total
    ensures |EventsOf(PlayedInOrder(f, outcome, total), f.Game(k, outcome(k)).id)| == 2
  {
    hide PlayedInOrder, EventsOf, Events, Field.Game;
    PairInOrder(f, outcome, total, k / 2);
    GameId(f, k, outcome(k));
    PairOfGame(f, k);
  }

  lemma PairedInOrder(f: Field, outcome: nat -> Stats, total: nat)
    requires f.Ok() && f.plan.games == 2 && total % 2 == 0
    ensures PairedGames(PlayedInOrder(f, outcome, total)) == PlayedInOrder(f, outcome, total)
  {
    AllPaired(f, outcome, total, total);
  }

  lemma EmittedInPairs(f: Field)
    requires f.Ok() && f.plan.games == 2
    ensures f.plan.Emitted(f.played) % 2 == 0
  {
    hide Scheduler.Plan.PairsPerRound;
  }

  /** What is stored at the end, in either mode of counting. */
  function Stored(f: Field, board: Board, es: seq<Event>): Results { RunIn(f.reportPenta, board, es).results }

  /** The colour options under which pair accounting is right; without it all are. */
  predicate RightOptions(f: Field) { !f.noswap || !f.reportPenta }

  /**
    Any complete run, with any number of workers and any interleaving: the report for two players
    is the initial one plus every game 0 .. total - 1 between them, each from the right side. Games
    are counted in pairs or, with any number of games per pair, singly.
   */
  lemma FinalStandingsAreRight(f: Field, p: Params, xs: seq<Step>, board: Board, outcome: nat -> Stats,
                               a: string, b: string)
    requires f.Ok() && RightOptions(f) && board.cache == map[] && a != b
    requires p.total == f.plan.Emitted(f.played) && p.workers >= 1 && p.seeds >= 1 && Complete(p, xs)
    ensures Right(board.results, Stored(f, board, Events(f, outcome, After(p, xs).finished)),
                  PlayedInOrder(f, outcome, p.total), a, b)
  {
    hide Run, Right, RunIn, Singly, Events, PlayedInOrder, Scheduler.Plan.Emitted;
    RunInModes(board, Events(f, outcome, After(p, xs).finished));
    if f.reportPenta {
      PairedStandings(f, p, xs, board, outcome, a, b);
    } else {
      SingleStandings(f, p, xs, board.results, outcome, a, b);
    }
  }

  lemma PairedStandings(f: Field, p: Params, xs: seq<Step>, board: Board, outcome: nat -> Stats, a: string, b: string)
    requires f.Ok() && f.plan.games == 2 && !f.noswap && board.cache == map[] && a != b
    requires p.total == f.plan.Emitted(f.played) && p.workers >= 1 && p.seeds >= 1 && Complete(p, xs)
    ensures Right(board.results, Run(board, Events(f, outcome, After(p, xs).finished)).results,
                  PlayedInOrder(f, outcome, p.total), a, b)
  {
    hide Run, View, Events, TallySum, Games, IsRun, Quiet, Scheduler.Plan.Emitted, InPairs;
    FinalStandings(f, p, xs, board, outcome, a, b);
    EmittedInPairs(f);
    UpToDistinct(p.total);
    CountedGamesSwapColours(f, outcome, UpTo(p.total));
    StandingsAreRight(board, PlayedInOrder(f, outcome, p.total), a, b);
    PairedInOrder(f, outcome, p.total);
  }

  lemma SingleStandings(f: Field, p: Params, xs: seq<Step>, r: Results, outcome: nat -> Stats, a: string, b: string)
    requires f.Ok() && a != b && p.workers >= 1 && p.seeds >= 1 && Complete(p, xs)
    ensures Right(r, Singly(r, Events(f, outcome, After(p, xs).finished)), PlayedInOrder(f, outcome, p.total), a, b)
    ensures View(Singly(r, Events(f, outcome, After(p, xs).finished)), a, b) ==
            View(r, a, b).Plus(TallySum(PlayedInOrder(f, outcome, p.total), a, b))
  {
    hide View, Events, TallySum, Games, IsRun, Quiet, Singly, UpTo, Stats.Plus;
    RestMeansComplete(p, xs);
    var ks := After(p, xs).finished;
    EventsMultiset(f, outcome, UpTo(p.total), ks);
    TallyOfPermutation(PlayedInOrder(f, outcome, p.total), Events(f, outcome, ks), a, b);
    SinglyIsRight(r, Events(f, outcome, ks), a, b);
    GamesLaws(View(r, a, b), TallySum(PlayedInOrder(f, outcome, p.total), a, b));
  }

  /** The same for whole reports: every pair counts with its kind, as the points of its two games decide. */
  lemma FinalPairsAreRight(f: Field, p: Params, xs: seq<Step>, board: Board, outcome: nat -> Stats,
                           a: string, b: string)
    requires f.Ok() && f.reportPenta && !f.noswap && board.cache == map[] && a != b
    requires p.total == f.plan.Emitted(f.played) && p.workers >= 1 && p.seeds >= 1 && Complete(p, xs)
    ensures View(Stored(f, board, Events(f, outcome, After(p, xs).finished)), a, b) ==
            View(board.results, a, b).Plus(
              PairTallies(PlayedInOrder(f, outcome, p.total), f.plan.Done(f.played) + p.total, a, b))
  {
    hide RunIn, Run, View, Events, IsRun, Quiet, Scheduler.Plan.Emitted, PairTallies;
    RunInModes(board, Events(f, outcome, After(p, xs).finished));
    FinalStandings(f, p, xs, board, outcome, a, b);
    UpToDistinct(p.total);
    CountedGamesSwapColours(f, outcome, UpTo(p.total));
    PairNumbers(f, outcome, p.total);
    ReportsAreRight(board, PlayedInOrder(f, outcome, p.total), f.plan.Done(f.played) + p.total, a, b);
  }

  lemma {:induction false} PairNumbers(f: Field, outcome: nat -> Stats, n: nat)
    requires f.Ok() && f.plan.games == 2
    ensures forall e :: e in PlayedInOrder(f, outcome, n) ==> e.id < f.plan.Done(f.played) + n
  {
    hide PlayedInOrder, Field.Game;
    if n == 0 {
      NothingInOrder(f, outcome, 0);
    } else {
      PairNumbers(f, outcome, n - 1);
      InOrderNext(f, outcome, n - 1);
      GameId(f, n - 1, outcome(n - 1));
      PairOfGame(f, n - 1);
    }
  }

  lemma UpToDistinct(n: nat)
    ensures Distinct(UpTo(n))
  {}

  // ---------- A complete run ----------

  /** Worker 0 alone plays game after game. */
  function Solo(n: nat): seq<Step> { if n == 0 then [] else Solo(n - 1) + Play(0) }

  ghost predicate PlayedAlone(p: Params, s: State, n: nat) {
    && s.seeded == p.seeds && s.playing == map[] && s.counted == {} && s.lost == 0 && !s.stop
    && s.finished == UpTo(n) && s.generated == Min(p.seeds + n, p.total)
  }

  lemma {:induction false} SoloRun(p: Params, n: nat)
    requires p.workers >= 1 && p.seeds >= 1 && n <= p.total
    ensures IsRun(p, Seeds(p.seeds) + Solo(n)) && PlayedAlone(p, After(p, Seeds(p.seeds) + Solo(n)), n)
  {
    hide IsRun, After, UpTo, PlayedAlone;
    if n == 0 {
      SeedsQueueGames(p, p.seeds);
      assert Seeds(p.seeds) + Solo(0) == Seeds(p.seeds);
      NothingPlayedAlone(p, After(p, Seeds(p.seeds)));
    } else {
      var xs := Seeds(p.seeds) + Solo(n - 1);
      SoloRun(p, n - 1);
      RunKeepsInv(p, xs);
      NextAlone(p, After(p, xs), n - 1);
      PlayOne(p, xs, 0);
      assert Seeds(p.seeds) + Solo(n) == xs + Play(0);
    }
  }

  lemma NothingPlayedAlone(p: Params, s: State)
    requires s.seeded == p.seeds && s.generated == Min(p.seeds, p.total)
    requires s.playing == map[] && s.counted == {} && s.finished == [] && s.lost == 0 && !s.stop
    ensures PlayedAlone(p, s, 0)
  {
    NothingUpTo();
  }

  lemma NextAlone(p: Params, s: State, n: nat)
    requires Inv(p, s) && PlayedAlone(p, s, n) && p.seeds >= 1 && n < p.total
    ensures s.queue != [] && s.queue[0] == n && !s.Busy(0) && !s.stop
    ensures PlayedAlone(p, PullNext(p, s.(queue := s.queue[1..], finished := s.finished + [s.queue[0]])), n + 1)
  {
    hide UpTo, NoDuplicates, WorkersFit, ChainsAccounted;
    UpToNext(n);
  }

  /** There is always a complete run, for instance the one that plays all games in order. */
  lemma SoloIsComplete(p: Params)
    requires p.workers >= 1 && p.seeds >= 1
    ensures Complete(p, Seeds(p.seeds) + Solo(p.total))
    ensures After(p, Seeds(p.seeds) + Solo(p.total)).finished == UpTo(p.total)
  {
    hide IsRun, After;
    var xs := Seeds(p.seeds) + Solo(p.total);
    SoloRun(p, p.total);
    RunKeepsInv(p, xs);
    NothingLeftAlone(p, After(p, xs));
  }

  lemma NothingLeftAlone(p: Params, s: State)
    requires Inv(p, s) && PlayedAlone(p, s, p.total)
    ensures Quiet(p, s)
  {
    hide NoDuplicates, WorkersFit, ChainsAccounted;
    forall x: Step | Enabled(p, s, x) ensures x == Stop {}
  }

  // ---------- Exactly which colour options give right standings ----------

  /** Whatever happens in the games, every complete run is reported rightly for every two players. */
  ghost predicate AlwaysRight(f: Field, board: Board, p: Params)
    requires f.Ok()
  {
    forall xs: seq<Step>, outcome: nat -> Stats, a, b ::
      Complete(p, xs) && a != b && (forall k :: outcome(k).SingleGame()) ==>
        Right(board.results, Stored(f, board, Events(f, outcome, After(p, xs).finished)),
              PlayedInOrder(f, outcome, p.total), a, b)
  }

  /** White wins game 0, all others are drawn. */
  function OneWin(k: nat): Stats { if k == 0 then ZERO.(wins := 1) else ZERO.(draws := 1) }

  lemma NoswapKeepsColours(f: Field, k: nat, s: Stats, t: Stats)
    requires f.Ok() && f.plan.games == 2 && f.noswap && k % 2 == 0
    ensures f.Game(k, s).white == f.Game(k + 1, t).white && f.Game(k, s).black == f.Game(k + 1, t).black
  {
    hide Scheduler.PlayersAt;
  }

  lemma EqualInOrder(f: Field, outcome: nat -> Stats, total: nat)
    requires f.Ok() && f.plan.games == 2 && f.noswap
    ensures ColoursEqual(PlayedInOrder(f, outcome, total))
  {
    hide EventsOf, Events, Field.Game;
    var es := PlayedInOrder(f, outcome, total);
    forall id: nat
      ensures var e := EventsOf(es, id);
              |e| <= 2 && (|e| == 2 ==> e[0].white == e[1].white && e[0].black == e[1].black)
    {
      if id < f.plan.Done(f.played) {
        NoEarlierPair(f, outcome, total, id);
      } else {
        var m: nat := id - f.plan.Done(f.played);
        PairInOrder(f, outcome, total, m);
        if total >= 2 * m + 2 {
          TwoEvents(f, outcome, [2 * m, 2 * m + 1]);
          NoswapKeepsColours(f, 2 * m, outcome(2 * m), outcome(2 * m + 1));
        }
      }
    }
  }

  lemma {:induction false} NoEarlierPair(f: Field, outcome: nat -> Stats, n: nat, id: nat)
    requires f.Ok() && f.plan.games == 2 && id < f.plan.Done(f.played)
    ensures EventsOf(PlayedInOrder(f, outcome, n), id) == []
  {
    hide Field.Game, Events;
    if n == 0 {
      NoEvents(f, outcome);
      NothingUpTo();
    } else {
      NoEarlierPair(f, outcome, n - 1, id);
      InOrderNext(f, outcome, n - 1);
      EventsOfSnoc(PlayedInOrder(f, outcome, n - 1), f.Game(n - 1, outcome(n - 1)), id);
      GameId(f, n - 1, outcome(n - 1));
      PairOfGame(f, n - 1);
    }
  }

  lemma DrawnTally(e: Event, a: string, b: string)
    requires e.stats == ZERO.(draws := 1)
    ensures Tally(e, a, b).wins == Tally(e, a, b).losses
  {}

  lemma MisjudgedNext(f: Field, outcome: nat -> Stats, n: nat, a: string, b: string)
    requires f.Ok() && f.plan.games == 2
    ensures Misjudged(PlayedInOrder(f, outcome, n + 1), a, b) ==
            Misjudged(PlayedInOrder(f, outcome, n), a, b) +
            if n % 2 == 0 then 0
            else
              var t := Tally(f.Game(n - 1, outcome(n - 1)), a, b);
              t.wins - t.losses
  {
    hide EventsOf, PlayedInOrder, Field.Game, Tally, Misjudged, Counted, Recorded;
    InOrderNext(f, outcome, n);
    CountedSnoc(PlayedInOrder(f, outcome, n), f.Game(n, outcome(n)), a, b);
    BeforeGame(f, outcome, n);
  }

  lemma NothingMisjudged(f: Field, outcome: nat -> Stats, a: string, b: string)
    requires f.Ok()
    ensures Misjudged(PlayedInOrder(f, outcome, 0), a, b) == 0
  {
    NothingUpTo();
  }

  lemma {:induction false} OneWinMisjudged(f: Field, n: nat, a: string, b: string)
    requires f.Ok() && f.plan.games == 2 && a != b
    requires var e := f.Game(0, OneWin(0)); e.white == a && e.black == b
    ensures Misjudged(PlayedInOrder(f, OneWin, n), a, b) == if n >= 2 then 1 else 0
  {
    hide PlayedInOrder, Field.Game, Tally, Misjudged;
    if n == 0 {
      NothingMisjudged(f, OneWin, a, b);
    } else {
      OneWinMisjudged(f, n - 1, a, b);
      MisjudgedNext(f, OneWin, n - 1, a, b);
      if n % 2 == 0 {
        GameStats(f, n - 2, OneWin(n - 2));
        if n == 2 { WonTally(f.Game(0, OneWin(0)), a, b); } else { DrawnTally(f.Game(n - 2, OneWin(n - 2)), a, b); }
      }
    }
  }

  lemma GameStats(f: Field, k: nat, s: Stats)
    requires f.Ok()
    ensures f.Game(k, s).stats == s
  {}

  lemma WonTally(e: Event, a: string, b: string)
    requires e.white == a && e.black == b && e.stats == ZERO.(wins := 1)
    ensures Tally(e, a, b).wins - Tally(e, a, b).losses == 1
  {}

  /** With noswap a single won game is credited to the loser. */
  lemma OneWinReportedWrongly(f: Field, board: Board, total: nat, a: string, b: string)
    requires f.Ok() && f.reportPenta && f.noswap && board.cache == map[] && total % 2 == 0 && total >= 2
    requires a != b && f.Game(0, OneWin(0)).white == a && f.Game(0, OneWin(0)).black == b
    ensures !Right(board.results, Stored(f, board, PlayedInOrder(f, OneWin, total)),
                   PlayedInOrder(f, OneWin, total), a, b)
  {
    hide Run, RunIn, Right, PlayedInOrder, Misjudged;
    RunInModes(board, PlayedInOrder(f, OneWin, total));
    OneWinMisjudged(f, total, a, b);
    EqualInOrder(f, OneWin, total);
    EqualColoursRightIff(board, PlayedInOrder(f, OneWin, total), a, b);
    PairedInOrder(f, OneWin, total);
  }

  lemma NotAlwaysRight(f: Field, board: Board, p: Params)
    requires f.Ok() && f.reportPenta && f.noswap && board.cache == map[] && p.total % 2 == 0 && p.total >= 2
    requires p.workers >= 1 && p.seeds >= 1
    requires forall i, j :: 0 <= i < j < |f.names| ==> f.names[i] != f.names[j]
    ensures !AlwaysRight(f, board, p)
  {
    hide Right, Stored, Events, Complete, After, Field.Game, UpTo;
    var e := f.Game(0, OneWin(0));
    DifferentPlayers(f, 0, OneWin(0));
    OneWinReportedWrongly(f, board, p.total, e.white, e.black);
    SoloIsComplete(p);
    assert forall k :: OneWin(k).SingleGame();
    assert Events(f, OneWin, After(p, Seeds(p.seeds) + Solo(p.total)).finished) == PlayedInOrder(f, OneWin, p.total);
  }

  /**
    The reports of every complete run are right, whatever happens in the games, if and only if noswap
    or pair accounting is off.
   */
  lemma RightExactlyWhen(f: Field, board: Board, p: Params)
    requires f.Ok() && board.cache == map[] && p.total == f.plan.Emitted(f.played) >= 2
    requires p.workers >= 1 && p.seeds >= 1
    requires forall i, j :: 0 <= i < j < |f.names| ==> f.names[i] != f.names[j]
    ensures AlwaysRight(f, board, p) <==> !f.noswap || !f.reportPenta
  {
    hide Right, Stored, Events, Complete, After, PlayedInOrder, Scheduler.Plan.Emitted;
    if RightOptions(f) {
      forall xs: seq<Step>, outcome: nat -> Stats, a, b
        | Complete(p, xs) && a != b && forall k :: outcome(k).SingleGame()
        ensures Right(board.results, Stored(f, board, Events(f, outcome, After(p, xs).finished)),
                      PlayedInOrder(f, outcome, p.total), a, b)
      {
        FinalStandingsAreRight(f, p, xs, board, outcome, a, b);
      }
    } else {
      EmittedInPairs(f);
      NotAlwaysRight(f, board, p);
    }
  }

  lemma DifferentPlayers(f: Field, k: nat, s: Stats)
    requires f.Ok() && forall i, j :: 0 <= i < j < |f.names| ==> f.names[i] != f.names[j]
    ensures f.Game(k, s).white != f.Game(k, s).black
  {}
}
