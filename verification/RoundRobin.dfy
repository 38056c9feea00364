/**
  The tournament object (app/src/matchmaking/tournament/roundrobin/roundrobin.cpp and
  base/tournament.cpp): it pulls pairings into the pool, assigns colours, and folds finished
  games into the scoreboard. The step system of module Tournament describes how its methods
  interleave; here the two meet, and any complete run ends with the same standings.
 */
module RoundRobin {
  import opened Collections
  import opened Stats
  import opened ScoreBoard
  import Scheduler
  import ThreadPool
  import opened Tournament

  /** White and black of a game between `first` and `second`. */
  function Colours(game: nat, first: string, second: string, noswap: bool, reverse: bool): (string, string) {
    var (w, b) := if game % 2 == 0 && !noswap then (second, first) else (first, second);
    if reverse then (b, w) else (w, b)
  }

  class RoundRobin {
    const names: seq<string>
    const noswap: bool
    const reverse: bool
    const reportPenta: bool
    const generator: Scheduler.Scheduler
    const pool: ThreadPool.ThreadPool<Scheduler.Pairing>
    const scoreboard: ScoreBoard
    const initialMatchcount: nat
    var matchCount: nat
    var finalMatchcount: nat
    var stop: bool

    constructor (names: seq<string>, noswap: bool, reverse: bool, reportPenta: bool,
                 generator: Scheduler.Scheduler, pool: ThreadPool.ThreadPool<Scheduler.Pairing>,
                 scoreboard: ScoreBoard)
      requires generator.Valid() && generator.plan.players == |names|
      ensures Valid() && this.generator == generator && this.pool == pool && this.scoreboard == scoreboard
      ensures this.names == names && this.noswap == noswap && this.reverse == reverse
      ensures this.reportPenta == reportPenta
      ensures matchCount == initialMatchcount == generator.played && !stop
    {
      this.names, this.noswap, this.reverse, this.reportPenta := names, noswap, reverse, reportPenta;
      this.generator, this.pool, this.scoreboard := generator, pool, scoreboard;
      initialMatchcount := generator.played;
      matchCount := generator.played;
      finalMatchcount := 0;
      stop := false;
    }

    predicate Valid()
      reads this, generator, generator.book
    {
      generator.Valid() && generator.plan.players == |names|
    }

    /** The parameters of the step system for this object and its pool. */
    ghost function StepParams(workers: nat): Params
      requires generator.plan.Accepted()
      reads pool
    {
      Params(pool.GetNumThreads(), workers, generator.plan.Emitted(generator.played))
    }

    /** What state `s` of the step system says about this object: games stand for their pairings. */
    ghost predicate InState(s: State)
      reads this, generator, generator.book, pool
    {
      && Valid() && generator.Position() == s.generated && stop == s.stop
      && pool.tasks == Pairings(s.queue)
      && matchCount == initialMatchcount + |s.finished|
    }

    ghost function Pairings(games: seq<nat>): seq<Scheduler.Pairing>
      requires generator.plan.Accepted()
      reads generator.book
    {
      seq(|games|, i requires 0 <= i < |games| reads generator.book =>
        Scheduler.PairingAt(generator.plan, generator.played, |generator.book.openings|, games[i]))
    }

    /** The next pairing, if there is one, goes to the end of the pool's queue: `PullNext` of the step system. */
    method StartNext() returns (r: ThreadPool.Result)
      requires Valid()
      modifies generator, generator.book`openingIndex, pool`tasks
      ensures Valid()
      ensures var k := old(generator.Position());
              if stop || k >= generator.plan.Emitted(generator.played) then
                r.Ok? && generator.Position() == k && pool.tasks == old(pool.tasks)
              else
                && generator.Position() == k + 1
                && (r.Ok? <==> !pool.stop)
                && pool.tasks == old(pool.tasks) + if pool.stop then [] else
                     [Scheduler.PairingAt(generator.plan, generator.played, |generator.book.openings|, k)]
      ensures forall s: State :: old(InState(s)) && !pool.stop ==> InState(PullNext(StepParams(pool.Workers()), s))
    {
      if stop { return ThreadPool.Ok; }
      var match_ := generator.Next();
      if match_.None? { return ThreadPool.Ok; }
      r := pool.Enqueue(match_.value);
    }

    /** create(): one chain per slot of the pool, not per live worker; these are the Seed steps of a run. */
    method Create()
      requires Valid() && generator.Position() == 0 && matchCount == initialMatchcount
      requires pool.tasks == [] && !pool.stop && !stop
      modifies this`finalMatchcount, generator, generator.book`openingIndex, pool`tasks
      ensures Valid()
      ensures finalMatchcount == generator.plan.Total()
      ensures var p := StepParams(pool.Workers());
              IsRun(p, Seeds(p.seeds)) && InState(After(p, Seeds(p.seeds)))
      ensures var n := pool.GetNumThreads();
              pool.tasks == Pairings(UpTo(Min(n, generator.plan.Emitted(generator.played))))
    {
      hide IsRun, After, UpTo, Scheduler.Plan.Emitted, Scheduler.Plan.Total;
      finalMatchcount := generator.plan.Total();
      ghost var p := StepParams(pool.Workers());
      var i := 0;
      NoSeeds(p);
      while i < pool.GetNumThreads()
        invariant 0 <= i <= pool.GetNumThreads()
        invariant Valid() && !stop && !pool.stop
        invariant finalMatchcount == generator.plan.Total()
        invariant p == StepParams(pool.Workers())
        invariant IsRun(p, Seeds(i)) && InState(After(p, Seeds(i)))
      {
        NextSeed(p, i);
        ghost var s := After(p, Seeds(i));
        assert InState(s.(seeded := s.seeded + 1));
        var _ := StartNext();
        i := i + 1;
      }
      SeedsQueueGames(p, p.seeds);
    }

    /** The colour assignment of createMatch(). */
    method AssignColours(pairing: Scheduler.Pairing) returns (white: string, black: string)
      requires pairing.player1 < |names| && pairing.player2 < |names|
      ensures (white, black) ==
              Colours(pairing.game, names[pairing.player1], names[pairing.player2], noswap, reverse)
    {
      white, black := names[pairing.player1], names[pairing.player2];
      if pairing.game % 2 == 0 && !noswap {
        white, black := black, white;
      }
      if reverse {
        white, black := black, white;
      }
    }

    /** The finish callback: the game is added to the board and counted. */
    method FinishGame(pairing: Scheduler.Pairing, white: string, black: string, stats: Stats)
      requires pairing.player1 < |names| && pairing.player2 < |names|
      modifies this`matchCount, scoreboard
      ensures matchCount == old(matchCount) + 1
      ensures var e := Event(white, black, stats, pairing.pairing);
              SameBoard(scoreboard.Value(), AfterGame(reportPenta, old(scoreboard.Value()), e))
    {
      if reportPenta {
        var _ := scoreboard.UpdatePair(white, black, stats, pairing.pairing);
      } else {
        var _ := scoreboard.UpdateNonPair(white, black, stats);
      }
      var _ := scoreboard.GetStats(names[pairing.player1], names[pairing.player2]);
      matchCount := matchCount + 1;
    }
  }

  /** Boards that differ only in entries without games. */
  ghost predicate SameBoard(b: Board, c: Board) {
    b.cache == c.cache && forall k :: Lookup(b.results, k) == Lookup(c.results, k)
  }

  /** Such boards stay alike and report alike. */
  lemma SameBoardReportsAlike(inPairs: bool, b: Board, c: Board, e: Event, x: string, y: string)
    requires SameBoard(b, c)
    ensures SameBoard(AfterGame(inPairs, b, e), AfterGame(inPairs, c, e))
    ensures View(b.results, x, y) == View(c.results, x, y)
  {
    hide Stats.Plus, Stats.Invert, FinishPair;
    var b', c' := AfterGame(inPairs, b, e), AfterGame(inPairs, c, e);
    forall k ensures Lookup(b'.results, k) == Lookup(c'.results, k) {
      assert Lookup(b.results, k) == Lookup(c.results, k);
      assert Lookup(b.results, Key(e.white, e.black)) == Lookup(c.results, Key(e.white, e.black));
    }
  }

  // ---------- Standings at the end of a run ----------

  /**
    Everything that fixes which games are played and how they are counted: the plan, the names, the
    colour options, and pair accounting, which is only possible with two games per pair.
   */
  datatype Field = Field(
    plan: Scheduler.Plan, played: nat, bookSize: nat, names: seq<string>, noswap: bool, reverse: bool,
    reportPenta: bool)
  {
    predicate Ok() { plan.Accepted() && plan.players == |names| && (reportPenta ==> plan.games == 2) }

    /** Game `k` with outcome `s` for white, as the scoreboard sees it. */
    function Game(k: nat, s: Stats): Event
      requires Ok()
    {
      var x := Scheduler.PairingAt(plan, played, bookSize, k);
      var (w, b) := Colours(x.game, names[x.player1], names[x.player2], noswap, reverse);
      Event(w, b, s, x.pairing)
    }
  }

  /** The events of games that finish in the order `ks`; game `k` ends with `outcome(k)`. */
  function Events(f: Field, outcome: nat -> Stats, ks: seq<nat>): (es: seq<Event>)
    requires f.Ok()
    ensures |es| == |ks|
  {
    if ks == [] then []
    else
      var n := |ks| - 1;
      Events(f, outcome, ks[..n]) + [f.Game(ks[n], outcome(ks[n]))]
  }

  /** The games of one pair among `ks`. */
  function GamesOf(f: Field, ks: seq<nat>, id: nat): seq<nat>
    requires f.Ok()
  {
    if ks == [] then []
    else
      var n := |ks| - 1;
      GamesOf(f, ks[..n], id) +
      if Scheduler.PairingAt(f.plan, f.played, f.bookSize, ks[n]).pairing == id then [ks[n]] else []
  }

  lemma EventsSnoc(f: Field, outcome: nat -> Stats, ks: seq<nat>, k: nat)
    requires f.Ok()
    ensures Events(f, outcome, ks + [k]) == Events(f, outcome, ks) + [f.Game(k, outcome(k))]
  {
    assert (ks + [k])[..|ks|] == ks;
  }

  lemma GameId(f: Field, k: nat, s: Stats)
    requires f.Ok()
    ensures f.Game(k, s).id == Scheduler.PairingAt(f.plan, f.played, f.bookSize, k).pairing
  {}

  lemma {:induction false} EventsOfGames(f: Field, outcome: nat -> Stats, ks: seq<nat>, id: nat)
    requires f.Ok()
    ensures EventsOf(Events(f, outcome, ks), id) == Events(f, outcome, GamesOf(f, ks, id))
  {
    hide Field.Game, Scheduler.PairingAt;
    if ks != [] {
      var n := |ks| - 1;
      EventsOfGames(f, outcome, ks[..n], id);
      GameId(f, ks[n], outcome(ks[n]));
      EventsOfSnoc(Events(f, outcome, ks[..n]), f.Game(ks[n], outcome(ks[n])), id);
      var g := GamesOf(f, ks[..n], id);
      EventsSnoc(f, outcome, g, ks[n]);
      assert g + [] == g && Events(f, outcome, g) + [] == Events(f, outcome, g);
    }
  }

  lemma {:induction false} GamesOfPair(f: Field, ks: seq<nat>, id: nat)
    requires f.Ok() && f.plan.games == 2 && Distinct(ks)
    ensures Distinct(GamesOf(f, ks, id))
    ensures forall k :: k in GamesOf(f, ks, id) ==> k in ks && f.plan.Done(f.played) + k / 2 == id
  {
    hide Scheduler.PlayersAt;
    if ks != [] {
      var n := |ks| - 1;
      GamesOfPair(f, ks[..n], id);
      assert ks[n] !in ks[..n];
    }
  }

  lemma TwoGamesPerPair(g: seq<nat>, m: int)
    requires Distinct(g) && forall k :: k in g ==> k / 2 == m
    ensures |g| <= 2
    ensures |g| == 2 ==> {g[0], g[1]} == {2 * m, 2 * m + 1}
  {
    DistinctCount(g);
    var all := {2 * m, 2 * m + 1};
    SubsetSize(Members(g), all);
    if |g| == 2 {
      assert g[0] in g && g[1] in g;
    }
  }

  /** Whatever games have been counted, no pair has more than two. */
  lemma CountedGamesInPairs(f: Field, outcome: nat -> Stats, ks: seq<nat>)
    requires f.Ok() && f.plan.games == 2 && Distinct(ks)
    ensures AtMostPairs(Events(f, outcome, ks))
  {
    hide Events, EventsOf, GamesOf;
    forall id: nat ensures |EventsOf(Events(f, outcome, ks), id)| <= 2 {
      EventsOfGames(f, outcome, ks, id);
      GamesOfPair(f, ks, id);
      TwoGamesPerPair(GamesOf(f, ks, id), id - f.plan.Done(f.played));
    }
  }

  /** And unless noswap is set, the two have opposite colours. */
  lemma CountedGamesSwapColours(f: Field, outcome: nat -> Stats, ks: seq<nat>)
    requires f.Ok() && f.plan.games == 2 && !f.noswap && Distinct(ks)
    ensures ColoursSwapped(Events(f, outcome, ks)) && AtMostPairs(Events(f, outcome, ks))
  {
    hide Events, EventsOf;
    CountedGamesInPairs(f, outcome, ks);
    forall id: nat
      ensures var e := EventsOf(Events(f, outcome, ks), id);
              |e| <= 2 && (|e| == 2 ==> e[0].white == e[1].black && e[0].black == e[1].white)
    {
      assert |EventsOf(Events(f, outcome, ks), id)| <= 2;
      PairSwapsColours(f, outcome, ks, id);
    }
  }

  lemma PairSwapsColours(f: Field, outcome: nat -> Stats, ks: seq<nat>, id: nat)
    requires f.Ok() && f.plan.games == 2 && !f.noswap && Distinct(ks)
    ensures var e := EventsOf(Events(f, outcome, ks), id);
            |e| == 2 ==> e[0].white == e[1].black && e[0].black == e[1].white
  {
    hide EventsOf, GamesOf, Scheduler.PlayersAt;
    var g := GamesOf(f, ks, id);
    var m: int := id - f.plan.Done(f.played);
    EventsOfGames(f, outcome, ks, id);
    GamesOfPair(f, ks, id);
    TwoGamesPerPair(g, m);
    if |g| == 2 {
      TwoEvents(f, outcome, g);
      Scheduler.PairHasOppositeParity(f.plan, f.played, f.bookSize, m);
    }
  }

  /**
    Who has White in the two games of a pair: the engine named first begins, unless the run was resumed
    after an odd number of games or `reverse` is set; the second game exchanges the colours unless
    `noswap` is set, which also makes the first engine begin.
   */
  lemma ColoursOfPair(f: Field, pair: nat, s: Stats, t: Stats)
    requires f.Ok() && f.plan.games == 2
    ensures var x := Scheduler.PairingAt(f.plan, f.played, f.bookSize, 2 * pair);
            var one, two := f.names[x.player1], f.names[x.player2];
            var e, g := f.Game(2 * pair, s), f.Game(2 * pair + 1, t);
            && (!f.noswap && !f.reverse && f.played % 2 == 0 ==>
                  e.white == one && e.black == two && g.white == two && g.black == one)
            && (!f.noswap && f.reverse && f.played % 2 == 0 ==>
                  e.white == two && e.black == one && g.white == one && g.black == two)
            && (!f.noswap && !f.reverse && f.played % 2 == 1 ==>
                  e.white == two && e.black == one && g.white == one && g.black == two)
            && (!f.noswap && f.reverse && f.played % 2 == 1 ==>
                  e.white == one && e.black == two && g.white == two && g.black == one)
            && (f.noswap && !f.reverse ==> e.white == g.white == one && e.black == g.black == two)
            && (f.noswap && f.reverse ==> e.white == g.white == two && e.black == g.black == one)
            && e.id == g.id == f.played / 2 + pair && e.stats == s && g.stats == t
  {
    hide Scheduler.PlayersAt, Scheduler.Plan.PairsPerRound;
    Scheduler.PairHasOppositeParity(f.plan, f.played, f.bookSize, pair);
    Scheduler.PairNumbers(f.plan, f.played, f.bookSize, pair, 2 * pair);
    FirstOfPair(f, pair);
  }

  lemma FirstOfPair(f: Field, pair: nat)
    requires f.Ok() && f.plan.games == 2
    ensures Scheduler.PairingAt(f.plan, f.played, f.bookSize, 2 * pair).game % 2 == (f.played + 1) % 2
  {
    hide Scheduler.PlayersAt, Scheduler.Plan.PairsPerRound;
  }

  lemma TwoEvents(f: Field, outcome: nat -> Stats, g: seq<nat>)
    requires f.Ok() && |g| == 2
    ensures Events(f, outcome, g) == [f.Game(g[0], outcome(g[0])), f.Game(g[1], outcome(g[1]))]
  {
    assert g[..1] == [g[0]] && g[..1][..0] == [];
  }

  lemma {:induction false} EventsMultiset(f: Field, outcome: nat -> Stats, ks: seq<nat>, ls: seq<nat>)
    requires f.Ok() && multiset(ks) == multiset(ls)
    ensures multiset(Events(f, outcome, ks)) == multiset(Events(f, outcome, ls))
  {
    hide Field.Game, Events;
    SameLength(ks, ls);
    if ks != [] {
      var i := TakeOut(ks, ls);
      var k := ls[i];
      EventsMultiset(f, outcome, ks[..|ks| - 1], ls[..i] + ls[i + 1..]);
      EventsWithout(f, outcome, ls, i);
      EventsSnoc(f, outcome, ks[..|ks| - 1], k);
      assert ks == ks[..|ks| - 1] + [k];
    }
  }

  lemma {:induction false} EventsWithout(f: Field, outcome: nat -> Stats, ls: seq<nat>, i: nat)
    requires f.Ok() && i < |ls|
    ensures multiset(Events(f, outcome, ls)) ==
            multiset(Events(f, outcome, ls[..i] + ls[i + 1..])) + multiset{f.Game(ls[i], outcome(ls[i]))}
    decreases |ls|
  {
    hide Field.Game, Events;
    var n := |ls| - 1;
    assert ls == ls[..n] + [ls[n]];
    EventsSnoc(f, outcome, ls[..n], ls[n]);
    if i == n {
      assert ls[..i] + ls[i + 1..] == ls[..n];
    } else {
      EventsWithout(f, outcome, ls[..n], i);
      var shorter := ls[..n][..i] + ls[..n][i + 1..];
      assert ls[..i] + ls[i + 1..] == shorter + [ls[n]];
      EventsSnoc(f, outcome, shorter, ls[n]);
    }
  }

  /**
    Any complete run of the tournament, with any number of workers and any interleaving, ends
    with the reports of the run that plays one game after the other.
   */
  lemma FinalStandings(f: Field, p: Params, xs: seq<Step>, board: Board, outcome: nat -> Stats, a: string, b: string)
    requires f.Ok() && f.plan.games == 2 && !f.noswap && board.cache == map[]
    requires p.total == f.plan.Emitted(f.played) && p.workers >= 1 && p.seeds >= 1
    requires Complete(p, xs)
    ensures View(Run(board, Events(f, outcome, After(p, xs).finished)).results, a, b) ==
            View(Run(board, Events(f, outcome, UpTo(p.total))).results, a, b)
  {
    RestMeansComplete(p, xs);
    var ks := After(p, xs).finished;
    EventsMultiset(f, outcome, UpTo(p.total), ks);
    CountedGamesSwapColours(f, outcome, UpTo(p.total));
    OrderIndependent(board, Events(f, outcome, UpTo(p.total)), Events(f, outcome, ks), a, b);
  }
}
