/**
  Which pairs a resumed two-engine run plays (app/src/matchmaking/tournament/base/tournament.cpp and
  schedule/base_scheduler.hpp). Resuming goes by the number of recorded games, so it is exact only
  if the recorded pairs were the first ones; here the options that guarantee this are found.
 */
module ResumePoints {
  import opened Collections
  import opened Stats
  import opened ScoreBoard
  import opened StatsJson
  import opened Tournament
  import opened RoundRobin
  import opened Standings
  import opened SaveResume
  import Scheduler

  // ---------- What a resumed run generates ----------

  ghost predicate Replayed(f: Field, total: nat, size: nat, id: nat)
    requires f.Ok()
  {
    exists k: nat :: k < f.plan.Emitted(total) && Scheduler.PairingAt(f.plan, total, size, k).pairing == id
  }

  lemma TotalOfTwo(f: Field)
    requires f.Ok() && |f.names| == 2 && f.plan.games == 2 && f.plan.Limit() >= 1
    ensures f.plan.PairsPerRound() == 1 && f.plan.Total() == 2 * f.plan.rounds
  {
    Scheduler.TotalIsEmitted(f.plan);
    assert f.plan.PairsPerRound() == Scheduler.PairsBefore(2, 1) == 1;
  }

  /** The resumed run generates exactly the pairs from number `total / 2` on. */
  lemma ResumedPairs(f: Field, total: nat, size: nat, id: nat)
    requires f.Ok() && |f.names| == 2 && f.plan.games == 2 && f.plan.Limit() >= 1
    requires total % 2 == 0 && total <= f.plan.Total()
    ensures Replayed(f, total, size, id) <==> total / 2 <= id < f.plan.rounds
  {
    Scheduler.ResumeEmitsRest(f.plan, total);
    TotalOfTwo(f);
    if total / 2 <= id < f.plan.rounds {
      var k := 2 * (id - total / 2);
      assert k / 2 == id - total / 2;
      assert k < f.plan.Emitted(total) && Scheduler.PairingAt(f.plan, total, size, k).pairing == id;
    }
  }

  /** Of the outstanding pairs, exactly those not yet complete are played again. */
  ghost predicate ResumesExactly(f: Field, outcome: nat -> Stats, ks: seq<nat>, size: nat)
    requires f.Ok()
  {
    var done, total := Completed(Events(f, outcome, ks)), RecordedTotal(f, outcome, ks);
    forall id: nat :: f.played / 2 <= id < f.plan.rounds ==> (id in done <==> !Replayed(f, total, size, id))
  }

  // ---------- Gaps ----------

  lemma {:induction false} IntervalSize(s: set<nat>, lo: nat, hi: nat)
    requires lo <= hi && forall id :: id in s ==> lo <= id < hi
    ensures |s| <= hi - lo
    ensures (forall id: nat :: lo <= id < hi ==> id in s) ==> |s| == hi - lo
    decreases hi
  {
    if lo == hi {
      assert s == {};
    } else {
      IntervalSize(s - {hi - 1}, lo, hi - 1);
    }
  }

  lemma FullInterval(s: set<nat>, lo: nat, hi: nat, id: nat)
    requires lo <= id < hi && |s| == hi - lo
    requires forall i :: i in s ==> lo <= i < hi
    ensures id in s
  {
    if id !in s {
      var below, above := set i | i in s && i < id, set i | i in s && i > id;
      assert s == below + above;
      IntervalSize(below, lo, id);
      IntervalSize(above, id + 1, hi);
    }
  }

  /** A set of numbers from `first` on has no gap if none of them lies beyond its size. */
  lemma NoGaps(first: nat, rounds: nat, recorded: set<nat>)
    requires forall id :: id in recorded ==> first <= id < rounds
    ensures first + |recorded| <= rounds || recorded == {}
    ensures (forall id: nat :: first <= id < rounds ==> (id in recorded <==> id < first + |recorded|))
            <==> (forall id :: id in recorded ==> id < first + |recorded|)
  {
    if recorded != {} { IntervalSize(recorded, first, rounds); }
    var bound := first + |recorded|;
    if forall id :: id in recorded ==> id < bound {
      forall id: nat | first <= id < bound ensures id in recorded {
        FullInterval(recorded, first, bound, id);
      }
    }
  }

  lemma CompletedInRange(f: Field, outcome: nat -> Stats, ks: seq<nat>, id: nat)
    requires f.Ok() && f.plan.games == 2 && Distinct(ks) && AtMostPairs(Events(f, outcome, ks))
    requires id in Completed(Events(f, outcome, ks))
    ensures exists k :: k in ks && f.plan.Done(f.played) + k / 2 == id
  {
    hide Events, EventsOf;
    CompletedMeansTwo(Events(f, outcome, ks), id);
    EventsOfGames(f, outcome, ks, id);
    GamesOfPair(f, ks, id);
    assert GamesOf(f, ks, id)[0] in GamesOf(f, ks, id);
  }

  /** The pairs completed by a run are among those it was to play. */
  lemma CompletedAreOutstanding(f: Field, p: Params, xs: seq<Step>, board: Board, outcome: nat -> Stats)
    requires TwoEngines(f, board) && IsRun(p, xs) && p.total == f.plan.Emitted(f.played)
    requires forall k :: outcome(k).SingleGame()
    ensures var done := Completed(Events(f, outcome, After(p, xs).finished));
            forall id :: id in done ==> f.played / 2 <= id < f.plan.rounds
  {
    hide Run, View, Events, AllBalanced, Completed;
    RecordedAtSavePoint(f, p, xs, board, outcome);
    RunKeepsInv(p, xs);
    var ks := After(p, xs).finished;
    Scheduler.ResumeEmitsRest(f.plan, f.played);
    TotalOfTwo(f);
    forall id | id in Completed(Events(f, outcome, ks)) ensures f.played / 2 <= id < f.plan.rounds {
      CompletedInRange(f, outcome, ks, id);
      var k :| k in ks && f.plan.Done(f.played) + k / 2 == id;
      assert k < p.total;
    }
  }

  /** At any moment of any run: resuming is exact if and only if no completed pair lies beyond their number. */
  lemma ExactWithoutGaps(f: Field, p: Params, xs: seq<Step>, board: Board, outcome: nat -> Stats, size: nat)
    requires TwoEngines(f, board) && IsRun(p, xs) && p.total == f.plan.Emitted(f.played)
    requires forall k :: outcome(k).SingleGame()
    ensures ResumesExactly(f, outcome, After(p, xs).finished, size) <==>
            forall id :: id in Completed(Events(f, outcome, After(p, xs).finished)) ==>
              id < RecordedTotal(f, outcome, After(p, xs).finished) / 2
  {
    hide Run, View, Events, AllBalanced, Completed, Replayed;
    RecordedAtSavePoint(f, p, xs, board, outcome);
    CompletedAreOutstanding(f, p, xs, board, outcome);
    var ks := After(p, xs).finished;
    var done, total := Completed(Events(f, outcome, ks)), RecordedTotal(f, outcome, ks);
    NoGaps(f.played / 2, f.plan.rounds, done);
    assert total / 2 == f.played / 2 + |done|;
    Scheduler.ResumeEmitsRest(f.plan, f.played);
    forall id: nat ensures Replayed(f, total, size, id) <==> total / 2 <= id < f.plan.rounds {
      ResumedPairs(f, total, size, id);
    }
  }

  /** The same for an actual file: the pairs are counted from what it holds. */
  lemma ResumeIsSuffix(f: Field, p: Params, xs: seq<Step>, board: Board, outcome: nat -> Stats, size: nat,
                       saved: Results, j: map<string, Stats>, loaded: Results)
    requires TwoEngines(f, board) && IsRun(p, xs) && p.total == f.plan.Emitted(f.played)
    requires forall k :: outcome(k).SingleGame()
    requires Reloaded(loaded, j, saved, f.names, Run(board, Events(f, outcome, After(p, xs).finished)))
    ensures var done := Completed(Events(f, outcome, After(p, xs).finished));
            var total := GamesOver(loaded, loaded.Keys);
            total >= 0 &&
            ((forall id: nat :: f.played / 2 <= id < f.plan.rounds ==> (id in done <==> !Replayed(f, total, size, id)))
             <==> (forall id :: id in done ==> id < total / 2))
  {
    hide Run, View, Events, AllBalanced, Completed, Replayed, Reloaded;
    TotalLoaded(f, p, xs, board, outcome, saved, j, loaded);
    ExactWithoutGaps(f, p, xs, board, outcome, size);
  }

  // ---------- One worker and one chain ----------

  lemma CompletedUpTo(f: Field, outcome: nat -> Stats, n: nat, id: nat)
    requires f.Ok() && f.plan.games == 2 && AtMostPairs(PlayedInOrder(f, outcome, n))
    ensures var first := f.plan.Done(f.played);
            id in Completed(PlayedInOrder(f, outcome, n)) <==> first <= id < first + n / 2
  {
    hide Events, EventsOf, Completed, Scheduler.Plan.Done;
    CompletedMeansTwo(PlayedInOrder(f, outcome, n), id);
    if id < f.plan.Done(f.played) {
      NoEarlierPair(f, outcome, n, id);
    } else {
      PairInOrder(f, outcome, n, id - f.plan.Done(f.played));
    }
  }

  lemma OneChainResumes(f: Field, p: Params, xs: seq<Step>, board: Board, outcome: nat -> Stats, size: nat)
    requires TwoEngines(f, board) && IsRun(p, xs) && p.total == f.plan.Emitted(f.played) && p.seeds == 1
    requires forall k :: outcome(k).SingleGame()
    ensures ResumesExactly(f, outcome, After(p, xs).finished, size)
  {
    hide Run, View, Events, AllBalanced, Completed, ResumesExactly;
    RecordedAtSavePoint(f, p, xs, board, outcome);
    OneChainInOrder(p, xs);
    var n := |After(p, xs).finished|;
    var done := Completed(PlayedInOrder(f, outcome, n));
    var first := f.plan.Done(f.played);
    forall id: nat ensures id in done <==> first <= id < first + n / 2 {
      CompletedUpTo(f, outcome, n, id);
    }
    IntervalSize(done, first, first + n / 2);
    ExactWithoutGaps(f, p, xs, board, outcome, size);
  }

  // ---------- At most one pair outstanding ----------

  lemma OnePairResumes(f: Field, p: Params, xs: seq<Step>, board: Board, outcome: nat -> Stats, size: nat)
    requires TwoEngines(f, board) && IsRun(p, xs) && p.total == f.plan.Emitted(f.played) <= 2
    requires forall k :: outcome(k).SingleGame()
    ensures ResumesExactly(f, outcome, After(p, xs).finished, size)
  {
    hide Run, View, Events, AllBalanced, Completed, ResumesExactly;
    RecordedAtSavePoint(f, p, xs, board, outcome);
    CompletedAreOutstanding(f, p, xs, board, outcome);
    Scheduler.ResumeEmitsRest(f.plan, f.played);
    TotalOfTwo(f);
    ExactWithoutGaps(f, p, xs, board, outcome, size);
  }

  // ---------- Two workers ----------

  lemma LateGames(f: Field, id: nat)
    requires f.Ok() && f.plan.games == 2
    ensures var first := f.plan.Done(f.played);
            GamesOf(f, [1, 2, 3], id) == if id == first then [1] else if id == first + 1 then [2, 3] else []
  {
    hide GamesOf, Scheduler.PairingAt;
    NoGames(f, id);
    NothingUpTo();
    GamesOfNext(f, [], 1, id);
    GamesOfNext(f, [] + [1], 2, id);
    GamesOfNext(f, [] + [1] + [2], 3, id);
    assert [] + [1] + [2] + [3] == [1, 2, 3];
    PairOfGame(f, 1);
    PairOfGame(f, 2);
    PairOfGame(f, 3);
  }

  lemma LateCompletes(f: Field, outcome: nat -> Stats)
    requires f.Ok() && f.plan.games == 2 && AtMostPairs(Events(f, outcome, [1, 2, 3]))
    ensures Completed(Events(f, outcome, [1, 2, 3])) == {f.plan.Done(f.played) + 1}
  {
    hide Events, EventsOf, GamesOf, Completed, Scheduler.Plan.Done;
    var es := Events(f, outcome, [1, 2, 3]);
    forall id: nat ensures id in Completed(es) <==> id == f.plan.Done(f.played) + 1 {
      CompletedMeansTwo(es, id);
      EventsOfGames(f, outcome, [1, 2, 3], id);
      LateGames(f, id);
    }
  }

  /**
    With two workers and two pairs outstanding: a run after which the second pair is complete and the
    first is not. Resuming plays the second pair again and never finishes the first.
   */
  lemma SecondPairFirst(f: Field, p: Params, board: Board, outcome: nat -> Stats, size: nat)
    requires TwoEngines(f, board) && p.total == f.plan.Emitted(f.played) >= 4 && p.seeds >= 4 && p.workers >= 2
    requires forall k :: outcome(k).SingleGame()
    ensures IsRun(p, LateRun())
    ensures var ks, first := After(p, LateRun()).finished, f.played / 2;
            var done, total := Completed(Events(f, outcome, ks)), RecordedTotal(f, outcome, ks);
            && first + 1 < f.plan.rounds && done == {first + 1}
            && Replayed(f, total, size, first + 1) && !Replayed(f, total, size, first)
            && !ResumesExactly(f, outcome, ks, size)
  {
    hide Run, View, Events, AllBalanced, Completed, Replayed;
    LateRunFinishes(p);
    RecordedAtSavePoint(f, p, LateRun(), board, outcome);
    LateCompletes(f, outcome);
    Scheduler.ResumeEmitsRest(f.plan, f.played);
    TotalOfTwo(f);
    var total := RecordedTotal(f, outcome, [1, 2, 3]);
    ResumedPairs(f, total, size, f.played / 2);
    ResumedPairs(f, total, size, f.played / 2 + 1);
  }

  /** The chains and workers of a tournament with this concurrency, as `ThreadPool.TournamentPool` sets them up. */
  function WithConcurrency(c: nat, total: nat): Params { Params(if c == 1 then 1 else 2 * c, c, total) }

  /** Whenever the tournament is saved, resuming will be exact. */
  ghost predicate AlwaysExact(f: Field, p: Params, outcome: nat -> Stats, size: nat)
    requires f.Ok()
  {
    forall xs: seq<Step> :: IsRun(p, xs) ==> ResumesExactly(f, outcome, After(p, xs).finished, size)
  }

  lemma ExactEnough(f: Field, p: Params, board: Board, outcome: nat -> Stats, size: nat)
    requires TwoEngines(f, board) && p.total == f.plan.Emitted(f.played) && (p.seeds == 1 || p.total <= 2)
    requires forall k :: outcome(k).SingleGame()
    ensures AlwaysExact(f, p, outcome, size)
  {
    TwoEnginesOk(f, board);
    hide TwoEngines, ResumesExactly, IsRun, After;
    forall xs: seq<Step> | IsRun(p, xs) ensures ResumesExactly(f, outcome, After(p, xs).finished, size) {
      if p.seeds == 1 {
        OneChainResumes(f, p, xs, board, outcome, size);
      } else {
        OnePairResumes(f, p, xs, board, outcome, size);
      }
    }
  }

  lemma NotAlwaysExact(f: Field, p: Params, board: Board, outcome: nat -> Stats, size: nat)
    requires TwoEngines(f, board) && p.total == f.plan.Emitted(f.played) >= 4 && p.seeds >= 4 && p.workers >= 2
    requires forall k :: outcome(k).SingleGame()
    ensures !AlwaysExact(f, p, outcome, size)
  {
    TwoEnginesOk(f, board);
    hide TwoEngines, ResumesExactly, IsRun, After, Replayed, Completed, Events, LateRun;
    SecondPairFirst(f, p, board, outcome, size);
  }

  /**
    Exactly which options make resuming safe: it is exact at every save point of every run if and only
    if the tournament plays one game at a time or at most one pair is outstanding.
   */
  lemma ResumesExactlyWhen(f: Field, c: nat, board: Board, outcome: nat -> Stats, size: nat)
    requires TwoEngines(f, board) && c >= 1 && forall k :: outcome(k).SingleGame()
    ensures var total := f.plan.Emitted(f.played);
            AlwaysExact(f, WithConcurrency(c, total), outcome, size) <==> c == 1 || total <= 2
  {
    TwoEnginesOk(f, board);
    hide TwoEngines, AlwaysExact, Scheduler.Plan.Emitted;
    var total := f.plan.Emitted(f.played);
    EmittedInPairs(f);
    EvenAboveTwo(total);
    if c == 1 || total <= 2 {
      ExactEnough(f, WithConcurrency(c, total), board, outcome, size);
    } else {
      NotAlwaysExact(f, WithConcurrency(c, total), board, outcome, size);
    }
  }

  lemma EvenAboveTwo(n: nat)
    requires n % 2 == 0
    ensures n > 2 ==> n >= 4
  {}

  lemma TwoEnginesOk(f: Field, board: Board)
    requires TwoEngines(f, board)
    ensures f.Ok() && f.plan.games == 2 && board.cache == map[]
  {}
}
