/**
  The final reports of an interrupted and resumed two-engine tournament against those of an
  uninterrupted one in which every game ends alike: which pairs count twice, which are missing, and
  the options under which nothing of that happens.
 */
module ResumedStandings {
  import opened Collections
  import opened Stats
  import opened ScoreBoard
  import opened StatsJson
  import opened Tallies
  import opened Tournament
  import opened RoundRobin
  import opened Standings
  import opened SaveResume
  import opened ResumePoints
  import Scheduler

  // ---------- What a pair contributes ----------

  /** The two games of pair `id`, each seen by `a` against `b`, counted as a pair. */
  function PairOutcome(f: Field, outcome: nat -> Stats, id: nat, a: string, b: string): Stats
    requires f.Ok()
  {
    if id < f.plan.Done(f.played) then ZERO
    else
      var k := 2 * (id - f.plan.Done(f.played));
      FinishPair(Tally(f.Game(k, outcome(k)), a, b).Plus(Tally(f.Game(k + 1, outcome(k + 1)), a, b)))
  }

  /** The pairs `ids` with numbers below `n` together. */
  function PairSum(f: Field, outcome: nat -> Stats, ids: set<nat>, n: nat, a: string, b: string): Stats
    requires f.Ok()
  {
    if n == 0 then ZERO
    else
      PairSum(f, outcome, ids, n - 1, a, b).Plus(
        if n - 1 in ids then PairOutcome(f, outcome, n - 1, a, b) else ZERO)
  }

  /** In whatever order its two games finish, a pair contributes its outcome; an open pair nothing. */
  lemma CreditOfPair(f: Field, outcome: nat -> Stats, ks: seq<nat>, id: nat, a: string, b: string)
    requires f.Ok() && f.plan.games == 2 && !f.noswap && Distinct(ks) && a != b
    ensures var e := EventsOf(Events(f, outcome, ks), id);
            PairCredit(e, a, b) == if |e| == 2 then PairOutcome(f, outcome, id, a, b) else ZERO
  {
    hide EventsOf, Events, GamesOf, PairCredit, PairOutcome, Field.Game, Scheduler.Plan.Done;
    var e, g := EventsOf(Events(f, outcome, ks), id), GamesOf(f, ks, id);
    EventsOfGames(f, outcome, ks, id);
    if |e| == 2 {
      GamesOfPair(f, ks, id);
      assert g[0] in g && g[1] in g;
      TwoGamesPerPair(g, id - f.plan.Done(f.played));
      TwoEvents(f, outcome, g);
      PairSwapsColours(f, outcome, ks, id);
      PairCreditIsTally(e[0], e[1], a, b);
      assert e == [e[0], e[1]];
      EitherOrder(f, outcome, g, id, a, b);
    } else {
      FewCredits(e, a, b);
    }
  }

  lemma EitherOrder(f: Field, outcome: nat -> Stats, g: seq<nat>, id: nat, a: string, b: string)
    requires f.Ok() && |g| == 2 && id >= f.plan.Done(f.played)
    requires var k := 2 * (id - f.plan.Done(f.played)); {g[0], g[1]} == {k, k + 1} && g[0] != g[1]
    ensures FinishPair(Tally(f.Game(g[0], outcome(g[0])), a, b).Plus(Tally(f.Game(g[1], outcome(g[1])), a, b))) ==
            PairOutcome(f, outcome, id, a, b)
  {
    hide FinishPair, Tally, Stats.Plus, Field.Game, Scheduler.Plan.Done;
    var k: nat := 2 * (id - f.plan.Done(f.played));
    assert g[0] in {g[0], g[1]} && g[1] in {g[0], g[1]};
    PlusLaws(Tally(f.Game(k, outcome(k)), a, b), Tally(f.Game(k + 1, outcome(k + 1)), a, b), ZERO);
  }

  lemma {:induction false} CreditsArePairs(f: Field, outcome: nat -> Stats, ks: seq<nat>, n: nat, a: string, b: string)
    requires f.Ok() && f.plan.games == 2 && !f.noswap && Distinct(ks) && a != b
    requires AtMostPairs(Events(f, outcome, ks))
    ensures SumCredits(Events(f, outcome, ks), n, a, b) ==
            PairSum(f, outcome, Completed(Events(f, outcome, ks)), n, a, b)
  {
    hide EventsOf, Events, PairCredit, PairOutcome, Completed, Stats.Plus;
    if n > 0 {
      CreditsArePairs(f, outcome, ks, n - 1, a, b);
      CreditOfPair(f, outcome, ks, n - 1, a, b);
      CompletedMeansTwo(Events(f, outcome, ks), n - 1);
    }
  }

  lemma {:induction false} EventsBelow(f: Field, outcome: nat -> Stats, ks: seq<nat>, n: nat)
    requires f.Ok() && f.plan.games == 2
    requires forall k :: k in ks ==> f.plan.Done(f.played) + k / 2 < n
    ensures forall e :: e in Events(f, outcome, ks) ==> e.id < n
  {
    hide Field.Game, Scheduler.Plan.Done;
    if ks != [] {
      var m := |ks| - 1;
      assert ks[m] in ks && forall k :: k in ks[..m] ==> k in ks;
      EventsBelow(f, outcome, ks[..m], n);
      assert Events(f, outcome, ks) == Events(f, outcome, ks[..m]) + [f.Game(ks[m], outcome(ks[m]))];
      GameId(f, ks[m], outcome(ks[m]));
      PairOfGame(f, ks[m]);
    }
  }

  /** Whatever has been played: a report is the initial one plus the pairs that are complete. */
  lemma ReportIsPairs(f: Field, board: Board, outcome: nat -> Stats, ks: seq<nat>, n: nat, a: string, b: string)
    requires f.Ok() && f.plan.games == 2 && !f.noswap && Distinct(ks) && a != b && board.cache == map[]
    requires forall k :: k in ks ==> f.plan.Done(f.played) + k / 2 < n
    ensures View(Run(board, Events(f, outcome, ks)).results, a, b) ==
            View(board.results, a, b).Plus(PairSum(f, outcome, Completed(Events(f, outcome, ks)), n, a, b))
  {
    hide Run, View, Events, SumCredits, PairSum, Completed, Stats.Plus, Scheduler.Plan.Done;
    CountedGamesInPairs(f, outcome, ks);
    EventsBelow(f, outcome, ks, n);
    ViewIsSumOfPairs(board, Events(f, outcome, ks), n, a, b);
    CreditsArePairs(f, outcome, ks, n, a, b);
  }

  // ---------- Adding up pairs ----------

  lemma {:induction false} PairSumNone(f: Field, outcome: nat -> Stats, ids: set<nat>, n: nat, a: string, b: string)
    requires f.Ok() && forall id :: id in ids ==> id >= n
    ensures PairSum(f, outcome, ids, n, a, b) == ZERO
  {
    hide PairOutcome, Stats.Plus;
    PlusZero(ZERO);
    if n > 0 { PairSumNone(f, outcome, ids, n - 1, a, b); }
  }

  lemma FourTerms(s: Stats, t: Stats, u: Stats, v: Stats, w: Stats, x: Stats, y: Stats, z: Stats)
    requires s.Plus(t) == u.Plus(v) && w.Plus(x) == y.Plus(z)
    ensures s.Plus(w).Plus(t.Plus(x)) == u.Plus(y).Plus(v.Plus(z))
  {}

  /** Pairs in both sets count twice. */
  lemma {:induction false} PairSumBoth(f: Field, outcome: nat -> Stats, s: set<nat>, t: set<nat>, n: nat,
                                       a: string, b: string)
    requires f.Ok()
    ensures PairSum(f, outcome, s, n, a, b).Plus(PairSum(f, outcome, t, n, a, b)) ==
            PairSum(f, outcome, s + t, n, a, b).Plus(PairSum(f, outcome, s * t, n, a, b))
  {
    hide PairOutcome, Stats.Plus, PairSum;
    if n > 0 {
      PairSumBoth(f, outcome, s, t, n - 1, a, b);
      var one := PairOutcome(f, outcome, n - 1, a, b);
      PlusZero(ZERO);
      PlusZero(one);
      PairSumNext(f, outcome, s, n, a, b);
      PairSumNext(f, outcome, t, n, a, b);
      PairSumNext(f, outcome, s + t, n, a, b);
      PairSumNext(f, outcome, s * t, n, a, b);
      var w, x := if n - 1 in s then one else ZERO, if n - 1 in t then one else ZERO;
      var y, z := if n - 1 in s + t then one else ZERO, if n - 1 in s * t then one else ZERO;
      FourTerms(PairSum(f, outcome, s, n - 1, a, b), PairSum(f, outcome, t, n - 1, a, b),
                PairSum(f, outcome, s + t, n - 1, a, b), PairSum(f, outcome, s * t, n - 1, a, b), w, x, y, z);
    } else {
      PairSumNone(f, outcome, s, 0, a, b);
      PairSumNone(f, outcome, t, 0, a, b);
      PairSumNone(f, outcome, s + t, 0, a, b);
      PairSumNone(f, outcome, s * t, 0, a, b);
    }
  }

  lemma PairSumNext(f: Field, outcome: nat -> Stats, ids: set<nat>, n: nat, a: string, b: string)
    requires f.Ok() && n > 0
    ensures PairSum(f, outcome, ids, n, a, b) ==
            PairSum(f, outcome, ids, n - 1, a, b).Plus(
              if n - 1 in ids then PairOutcome(f, outcome, n - 1, a, b) else ZERO)
  {
    hide PairOutcome, Stats.Plus;
  }

  /** Of the pairs `all`, some are in `s`, some in `t`, some in both and some in neither. */
  lemma DoubledAndMissing(f: Field, outcome: nat -> Stats, all: set<nat>, s: set<nat>, t: set<nat>, n: nat,
                          a: string, b: string)
    requires f.Ok() && s <= all && t <= all
    ensures PairSum(f, outcome, s, n, a, b).Plus(PairSum(f, outcome, t, n, a, b)).Plus(
              PairSum(f, outcome, all - s - t, n, a, b)) ==
            PairSum(f, outcome, all, n, a, b).Plus(PairSum(f, outcome, s * t, n, a, b))
  {
    hide PairSum, Stats.Plus;
    var u, m := s + t, all - s - t;
    PairSumBoth(f, outcome, s, t, n, a, b);
    PairSumBoth(f, outcome, u, m, n, a, b);
    assert u + m == all && u * m == {};
    NoPairs(f, outcome, n, a, b);
    PlusZero(PairSum(f, outcome, all, n, a, b));
    PlusExchange(PairSum(f, outcome, u, n, a, b), PairSum(f, outcome, s * t, n, a, b), PairSum(f, outcome, m, n, a, b));
  }

  lemma NoPairs(f: Field, outcome: nat -> Stats, n: nat, a: string, b: string)
    requires f.Ok()
    ensures PairSum(f, outcome, {}, n, a, b) == ZERO
  {
    PairSumNone(f, outcome, {}, n, a, b);
  }

  // ---------- The resumed tournament ----------

  /** The field of the run resumed after `total` games. */
  function Resumed(f: Field, total: nat): Field { f.(played := total) }

  /** Games end as they would have ended under the same number. */
  function Later(outcome: nat -> Stats, shift: nat): nat -> Stats { (k: nat) => outcome(k + shift) }

  lemma SameGame(f: Field, total: nat, k: nat, s: Stats)
    requires f.Ok() && |f.names| == 2 && f.plan.games == 2 && f.plan.Limit() >= 1
    requires f.played % 2 == 0 && total % 2 == 0 && f.played <= total
    ensures Resumed(f, total).Game(k, s) == f.Game(k + (total - f.played), s)
  {
    hide Scheduler.PairingAt;
    Scheduler.ResumeContinues(f.plan, total, f.bookSize, f.bookSize, k);
    Scheduler.ResumeContinues(f.plan, f.played, f.bookSize, f.bookSize, k + (total - f.played));
  }

  lemma SameOutcome(f: Field, total: nat, outcome: nat -> Stats, id: nat, a: string, b: string)
    requires f.Ok() && |f.names| == 2 && f.plan.games == 2 && f.plan.Limit() >= 1
    requires f.played % 2 == 0 && total % 2 == 0 && f.played <= total && total / 2 <= id
    ensures PairOutcome(Resumed(f, total), Later(outcome, total - f.played), id, a, b) ==
            PairOutcome(f, outcome, id, a, b)
  {
    hide Field.Game, Tally, FinishPair, Stats.Plus;
    var d := total - f.played;
    var k := 2 * (id - total / 2);
    assert 2 * (id - f.played / 2) == k + d;
    SameGame(f, total, k, outcome(k + d));
    SameGame(f, total, k + 1, outcome(k + 1 + d));
  }

  lemma {:induction false} SamePairs(f: Field, total: nat, outcome: nat -> Stats, ids: set<nat>, n: nat,
                                     a: string, b: string)
    requires f.Ok() && |f.names| == 2 && f.plan.games == 2 && f.plan.Limit() >= 1
    requires f.played % 2 == 0 && total % 2 == 0 && f.played <= total
    requires forall id :: id in ids ==> total / 2 <= id
    ensures PairSum(Resumed(f, total), Later(outcome, total - f.played), ids, n, a, b) ==
            PairSum(f, outcome, ids, n, a, b)
  {
    hide PairOutcome, Stats.Plus, Later, Scheduler.Plan.Limit;
    if n > 0 {
      SamePairs(f, total, outcome, ids, n - 1, a, b);
      if n - 1 in ids { SameOutcome(f, total, outcome, n - 1, a, b); }
    }
  }

  function Interval(lo: nat, hi: nat): (ids: set<nat>)
    ensures forall id: nat :: id in ids <==> lo <= id < hi
  {
    if hi <= lo then {} else Interval(lo, hi - 1) + {hi - 1}
  }

  /** Two engines in pair mode, as a tournament with `played` games behind it. */
  ghost predicate TwoPlayers(f: Field) {
    f.Ok() && |f.names| == 2 && f.reportPenta && f.plan.Limit() >= 1 && f.played % 2 == 0 &&
    f.played <= f.plan.Total()
  }

  lemma AllCompleted(f: Field, outcome: nat -> Stats, total: nat)
    requires TwoPlayers(f) && total == f.plan.Emitted(f.played)
    ensures Completed(PlayedInOrder(f, outcome, total)) == Interval(f.played / 2, f.plan.rounds)
    ensures forall k :: k in UpTo(total) ==> f.plan.Done(f.played) + k / 2 < f.plan.rounds
  {
    hide Completed, Events;
    Scheduler.ResumeEmitsRest(f.plan, f.played);
    TotalOfTwo(f);
    UpToDistinct(total);
    CountedGamesInPairs(f, outcome, UpTo(total));
    forall id: nat ensures id in Completed(PlayedInOrder(f, outcome, total)) <==> f.played / 2 <= id < f.plan.rounds {
      CompletedUpTo(f, outcome, total, id);
    }
  }

  /** A complete run reports the initial results plus all its pairs. */
  lemma CompleteReport(f: Field, p: Params, xs: seq<Step>, board: Board, outcome: nat -> Stats, a: string, b: string)
    requires TwoPlayers(f) && !f.noswap && board.cache == map[] && a != b
    requires p.total == f.plan.Emitted(f.played) && p.workers >= 1 && p.seeds >= 1 && Complete(p, xs)
    ensures View(Run(board, Events(f, outcome, After(p, xs).finished)).results, a, b) ==
            View(board.results, a, b).Plus(
              PairSum(f, outcome, Interval(f.played / 2, f.plan.rounds), f.plan.rounds, a, b))
  {
    hide Run, View, Events, PairSum, Completed, Stats.Plus, Complete, UpTo, Scheduler.Plan.Emitted, Scheduler.Plan.Done;
    FinalStandings(f, p, xs, board, outcome, a, b);
    AllCompleted(f, outcome, p.total);
    UpToDistinct(p.total);
    ReportIsPairs(f, board, outcome, UpTo(p.total), f.plan.rounds, a, b);
  }

  /** What the results at a save point amount to. */
  lemma SavedReport(f: Field, p: Params, xs: seq<Step>, board: Board, outcome: nat -> Stats, a: string, b: string)
    requires TwoEngines(f, board) && !f.noswap && IsRun(p, xs) && p.total == f.plan.Emitted(f.played) && a != b
    requires forall k :: outcome(k).SingleGame()
    ensures var es := Events(f, outcome, After(p, xs).finished);
            View(Run(board, es).results, a, b) ==
            View(board.results, a, b).Plus(PairSum(f, outcome, Completed(es), f.plan.rounds, a, b))
  {
    hide Run, View, Events, PairSum, Completed, Stats.Plus, IsRun, After, AllBalanced;
    RecordedAtSavePoint(f, p, xs, board, outcome);
    CountedOnce(p, xs);
    GamesOfRounds(f, p.total);
    ReportIsPairs(f, board, outcome, After(p, xs).finished, f.plan.rounds, a, b);
  }

  lemma GamesOfRounds(f: Field, total: nat)
    requires TwoPlayers(f) && total == f.plan.Emitted(f.played)
    ensures forall k: nat :: k < total ==> f.plan.Done(f.played) + k / 2 < f.plan.rounds
  {
    Scheduler.ResumeEmitsRest(f.plan, f.played);
    TotalOfTwo(f);
  }

  /** A tournament saved after `xs` to the file `j`, loaded, and resumed to the end by `ys`. */
  datatype Resumption = Resumption(
    p: Params, xs: seq<Step>, saved: Results, j: map<string, Stats>, loaded: Results, q: Params, ys: seq<Step>)
  {
    ghost function Finished(): seq<nat> { After(p, xs).finished }

    ghost predicate Valid(f: Field, board: Board, outcome: nat -> Stats)
      requires f.Ok()
    {
      && IsRun(p, xs) && p.total == f.plan.Emitted(f.played)
      && Reloaded(loaded, j, saved, f.names, Run(board, Events(f, outcome, Finished())))
      && q.total == f.plan.Emitted(RecordedTotal(f, outcome, Finished())) && q.workers >= 1 && q.seeds >= 1
      && Complete(q, ys)
    }

    /** The results at the very end. */
    ghost function Final(f: Field, outcome: nat -> Stats): Results
      requires f.Ok()
    {
      var total := RecordedTotal(f, outcome, Finished());
      Run(Board(loaded, map[]),
          Events(Resumed(f, total), Later(outcome, total - f.played), After(q, ys).finished)).results
    }
  }

  lemma LoadedReport(f: Field, board: Board, outcome: nat -> Stats, t: Resumption, a: string, b: string)
    requires TwoEngines(f, board) && t.Valid(f, board, outcome) && {a, b} == {f.names[0], f.names[1]} && a != b
    requires (forall k :: outcome(k).SingleGame()) && !Contains(f.names[0] + " ", SEPARATOR)
    ensures View(t.loaded, a, b) == View(Run(board, Events(f, outcome, t.Finished())).results, a, b)
    ensures var total := RecordedTotal(f, outcome, t.Finished());
            TwoPlayers(f) && TwoPlayers(Resumed(f, total)) && f.played <= total
  {
    hide Run, View, Events, Reloaded, Contains, Completed, GamesOver, AllBalanced, IsRun;
    SaveAndResume(f, t.p, t.xs, board, outcome, t.saved, t.j, t.loaded);
    TotalLoaded(f, t.p, t.xs, board, outcome, t.saved, t.j, t.loaded);
    RecordedAtSavePoint(f, t.p, t.xs, board, outcome);
    assert a in {f.names[0], f.names[1]} && b in {f.names[0], f.names[1]};
  }

  /**
    Which pairs the final reports count: those complete at the save point and those from half the
    loaded count on, wherever the two runs were interrupted or interleaved.
   */
  lemma ResumedReport(f: Field, board: Board, outcome: nat -> Stats, t: Resumption, a: string, b: string)
    requires TwoEngines(f, board) && !f.noswap && t.Valid(f, board, outcome)
    requires {a, b} == {f.names[0], f.names[1]} && a != b
    requires (forall k :: outcome(k).SingleGame()) && !Contains(f.names[0] + " ", SEPARATOR)
    ensures var total := RecordedTotal(f, outcome, t.Finished());
            var done := Completed(Events(f, outcome, t.Finished()));
            View(t.Final(f, outcome), a, b) ==
            View(board.results, a, b).Plus(PairSum(f, outcome, done, f.plan.rounds, a, b)).Plus(
              PairSum(f, outcome, Interval(total / 2, f.plan.rounds), f.plan.rounds, a, b))
  {
    hide Run, View, Events, Reloaded, Contains, Completed, GamesOver, TwoEngines, IsRun, After, PairSum, Complete;
    hide Stats.Plus, Stats.SingleGame, Scheduler.Plan.Emitted;
    LoadedReport(f, board, outcome, t, a, b);
    SavedReport(f, t.p, t.xs, board, outcome, a, b);
    var total := RecordedTotal(f, outcome, t.Finished());
    var later := Later(outcome, total - f.played);
    CompleteReport(Resumed(f, total), t.q, t.ys, Board(t.loaded, map[]), later, a, b);
    SamePairs(f, total, outcome, Interval(total / 2, f.plan.rounds), f.plan.rounds, a, b);
  }

  // ---------- Against the uninterrupted tournament ----------

  /**
    Save at any moment of any run, load the file, and play on to the end: compared with any
    uninterrupted run, pairs complete at the save point and played again count twice, and pairs
    neither complete nor played again are missing. Nothing else differs.
   */
  lemma ResumedAgainstWhole(f: Field, board: Board, outcome: nat -> Stats, t: Resumption, w: Params, zs: seq<Step>,
                            a: string, b: string)
    requires TwoEngines(f, board) && !f.noswap && t.Valid(f, board, outcome)
    requires {a, b} == {f.names[0], f.names[1]} && a != b
    requires (forall k :: outcome(k).SingleGame()) && !Contains(f.names[0] + " ", SEPARATOR)
    requires w.total == f.plan.Emitted(f.played) && w.workers >= 1 && w.seeds >= 1 && Complete(w, zs)
    ensures var n := f.plan.rounds;
            var all := Interval(f.played / 2, n);
            var done := Completed(Events(f, outcome, t.Finished()));
            var again := Interval(RecordedTotal(f, outcome, t.Finished()) / 2, n);
            var whole := Run(board, Events(f, outcome, After(w, zs).finished)).results;
            && done <= all && again <= all
            && View(t.Final(f, outcome), a, b).Plus(PairSum(f, outcome, all - done - again, n, a, b)) ==
               View(whole, a, b).Plus(PairSum(f, outcome, done * again, n, a, b))
  {
    TwoEnginesOk(f, board);
    SetsFit(f, board, outcome, t.p, t.xs);
    hide Run, View, Events, Contains, Completed, TwoEngines, After, PairSum, Complete, Interval, RecordedTotal;
    hide Stats.Plus, Stats.SingleGame, Scheduler.Plan.Emitted, Resumption.Final, Resumption.Valid, Resumption.Finished;
    LoadedReport(f, board, outcome, t, a, b);
    ResumedReport(f, board, outcome, t, a, b);
    CompleteReport(f, w, zs, board, outcome, a, b);
    var n := f.plan.rounds;
    var all, done := Interval(f.played / 2, n), Completed(Events(f, outcome, t.Finished()));
    var again := Interval(RecordedTotal(f, outcome, t.Finished()) / 2, n);
    DoubledAndMissing(f, outcome, all, done, again, n, a, b);
    TwoSides(View(board.results, a, b), PairSum(f, outcome, done, n, a, b), PairSum(f, outcome, again, n, a, b),
             PairSum(f, outcome, all - done - again, n, a, b), PairSum(f, outcome, all, n, a, b),
             PairSum(f, outcome, done * again, n, a, b));
  }

  lemma SetsFit(f: Field, board: Board, outcome: nat -> Stats, p: Params, xs: seq<Step>)
    requires TwoEngines(f, board) && IsRun(p, xs) && p.total == f.plan.Emitted(f.played)
    requires forall k :: outcome(k).SingleGame()
    ensures var all := Interval(f.played / 2, f.plan.rounds);
            && Completed(Events(f, outcome, After(p, xs).finished)) <= all
            && Interval(RecordedTotal(f, outcome, After(p, xs).finished) / 2, f.plan.rounds) <= all
  {
    hide TwoEngines, IsRun, After, Completed, Events, Interval;
    CompletedAreOutstanding(f, p, xs, board, outcome);
  }

  lemma TwoSides(v: Stats, done: Stats, again: Stats, missing: Stats, all: Stats, doubled: Stats)
    requires done.Plus(again).Plus(missing) == all.Plus(doubled)
    ensures v.Plus(done).Plus(again).Plus(missing) == v.Plus(all).Plus(doubled)
  {
    hide Stats.Plus;
    PlusLaws(v, done, again);
    PlusLaws(v, done.Plus(again), missing);
    PlusLaws(v, all, doubled);
  }

  /** If resuming is exact, the resumed run plays exactly what is left. */
  lemma ExactIsComplement(f: Field, board: Board, outcome: nat -> Stats, p: Params, xs: seq<Step>)
    requires TwoEngines(f, board) && IsRun(p, xs) && p.total == f.plan.Emitted(f.played)
    requires forall k :: outcome(k).SingleGame()
    requires ResumesExactly(f, outcome, After(p, xs).finished, f.bookSize)
    ensures var done := Completed(Events(f, outcome, After(p, xs).finished));
            var again := Interval(RecordedTotal(f, outcome, After(p, xs).finished) / 2, f.plan.rounds);
            done + again == Interval(f.played / 2, f.plan.rounds) && done * again == {}
  {
    hide Run, View, Events, AllBalanced, Completed, Replayed, IsRun, After, Interval;
    RecordedAtSavePoint(f, p, xs, board, outcome);
    CompletedAreOutstanding(f, p, xs, board, outcome);
    Scheduler.ResumeEmitsRest(f.plan, f.played);
    var total := RecordedTotal(f, outcome, After(p, xs).finished);
    forall id: nat ensures Replayed(f, total, f.bookSize, id) <==> total / 2 <= id < f.plan.rounds {
      ResumedPairs(f, total, f.bookSize, id);
    }
    SetsSplit(Completed(Events(f, outcome, After(p, xs).finished)), f.played / 2, total / 2, f.plan.rounds);
  }

  lemma SetsSplit(done: set<nat>, lo: nat, mid: nat, hi: nat)
    requires lo <= mid && forall id :: id in done ==> lo <= id < hi
    requires forall id: nat :: lo <= id < hi ==> (id in done <==> id < mid)
    ensures done + Interval(mid, hi) == Interval(lo, hi) && done * Interval(mid, hi) == {}
  {
    hide Interval;
  }

  /**
    Play with a concurrency of 1, or with at most one pair outstanding; save at any moment, load, and
    play on with any number of workers: every report is that of an uninterrupted tournament, and right.
   */
  lemma ResumedTournamentIsTheSame(f: Field, c: nat, board: Board, outcome: nat -> Stats, t: Resumption,
                                   w: Params, zs: seq<Step>, a: string, b: string)
    requires TwoEngines(f, board) && !f.noswap && t.Valid(f, board, outcome)
    requires c >= 1 && t.p == WithConcurrency(c, f.plan.Emitted(f.played)) && (c == 1 || t.p.total <= 2)
    requires {a, b} == {f.names[0], f.names[1]} && a != b
    requires (forall k :: outcome(k).SingleGame()) && !Contains(f.names[0] + " ", SEPARATOR)
    requires w.total == f.plan.Emitted(f.played) && w.workers >= 1 && w.seeds >= 1 && Complete(w, zs)
    ensures View(t.Final(f, outcome), a, b) ==
            View(Run(board, Events(f, outcome, After(w, zs).finished)).results, a, b)
    ensures Right(board.results, t.Final(f, outcome), PlayedInOrder(f, outcome, w.total), a, b)
  {
    TwoEnginesOk(f, board);
    hide Run, View, Events, Reloaded, Contains, Completed, GamesOver, IsRun, After, PairSum, Complete, PlayedInOrder;
    hide Stats.Plus, Stats.SingleGame, Scheduler.Plan.Emitted, Resumption.Final, ResumesExactly, Interval, TallySum;
    ExactEnough(f, t.p, board, outcome, f.bookSize);
    ExactIsComplement(f, board, outcome, t.p, t.xs);
    ResumedAgainstWhole(f, board, outcome, t, w, zs, a, b);
    var n := f.plan.rounds;
    var all, done := Interval(f.played / 2, n), Completed(Events(f, outcome, t.Finished()));
    var again := Interval(RecordedTotal(f, outcome, t.Finished()) / 2, n);
    assert all - done - again == {};
    NoPairs(f, outcome, n, a, b);
    PlusZero(View(t.Final(f, outcome), a, b));
    PlusZero(View(Run(board, Events(f, outcome, After(w, zs).finished)).results, a, b));
    PairedStandings(f, w, zs, board, outcome, a, b);
  }

  /**
    With two workers the run `LateRun` ends up differently: the second outstanding pair counts twice
    and the first is missing, so the reports agree only if the two pairs ended alike.
   */
  lemma SecondPairTwice(f: Field, board: Board, outcome: nat -> Stats, t: Resumption, w: Params, zs: seq<Step>,
                        a: string, b: string)
    requires TwoEngines(f, board) && !f.noswap && t.Valid(f, board, outcome) && t.xs == LateRun()
    requires t.p.total >= 4 && t.p.seeds >= 4 && t.p.workers >= 2
    requires {a, b} == {f.names[0], f.names[1]} && a != b
    requires (forall k :: outcome(k).SingleGame()) && !Contains(f.names[0] + " ", SEPARATOR)
    requires w.total == f.plan.Emitted(f.played) && w.workers >= 1 && w.seeds >= 1 && Complete(w, zs)
    ensures var first := f.played / 2;
            var whole := Run(board, Events(f, outcome, After(w, zs).finished)).results;
            && View(t.Final(f, outcome), a, b).Plus(PairOutcome(f, outcome, first, a, b)) ==
               View(whole, a, b).Plus(PairOutcome(f, outcome, first + 1, a, b))
            && (View(t.Final(f, outcome), a, b) == View(whole, a, b) <==>
                PairOutcome(f, outcome, first, a, b) == PairOutcome(f, outcome, first + 1, a, b))
  {
    hide Run, View, Events, Reloaded, Contains, Completed, GamesOver, IsRun, After, PairSum, Complete, PairOutcome;
    hide Stats.Plus, Stats.SingleGame, Scheduler.Plan.Emitted, Resumption.Final, ResumesExactly, Replayed, LateRun;
    hide Interval;
    LateSets(f, board, outcome, t.p);
    ResumedAgainstWhole(f, board, outcome, t, w, zs, a, b);
    var n, first := f.plan.rounds, f.played / 2;
    OnlyPair(f, outcome, first, n, a, b);
    OnlyPair(f, outcome, first + 1, n, a, b);
    var whole := Run(board, Events(f, outcome, After(w, zs).finished)).results;
    BalanceIf(View(t.Final(f, outcome), a, b), View(whole, a, b), PairOutcome(f, outcome, first, a, b),
              PairOutcome(f, outcome, first + 1, a, b));
  }

  lemma LateSets(f: Field, board: Board, outcome: nat -> Stats, p: Params)
    requires TwoEngines(f, board) && forall k :: outcome(k).SingleGame()
    requires p.total == f.plan.Emitted(f.played) >= 4 && p.seeds >= 4 && p.workers >= 2
    ensures var n, first, ks := f.plan.rounds, f.played / 2, After(p, LateRun()).finished;
            var all, done := Interval(first, n), Completed(Events(f, outcome, ks));
            var again := Interval(RecordedTotal(f, outcome, ks) / 2, n);
            first + 1 < n && all - done - again == {first} && done * again == {first + 1}
  {
    hide Run, View, Events, Completed, IsRun, After, AllBalanced, Replayed, LateRun, Interval, ResumesExactly;
    SecondPairFirst(f, p, board, outcome, f.bookSize);
    RecordedAtSavePoint(f, p, LateRun(), board, outcome);
    Halved(f.played);
  }

  lemma Halved(n: nat)
    requires n % 2 == 0
    ensures (n + 2 * 1) / 2 == n / 2 + 1
  {}

  lemma {:induction false} OnlyPair(f: Field, outcome: nat -> Stats, id: nat, n: nat, a: string, b: string)
    requires f.Ok() && id < n
    ensures PairSum(f, outcome, {id}, n, a, b) == PairOutcome(f, outcome, id, a, b)
  {
    hide PairOutcome, Stats.Plus;
    if id == n - 1 {
      PairSumNone(f, outcome, {id}, n - 1, a, b);
    } else {
      OnlyPair(f, outcome, id, n - 1, a, b);
    }
    PlusZero(PairOutcome(f, outcome, id, a, b));
  }

  lemma BalanceIf(s: Stats, t: Stats, u: Stats, v: Stats)
    requires s.Plus(u) == t.Plus(v)
    ensures s == t <==> u == v
  {}
}
