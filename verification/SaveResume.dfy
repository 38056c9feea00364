/**
  Saving a tournament and resuming it (app/src/matchmaking/tournament/base/tournament.cpp):
  the saved file merges both colour orders of every pairing, and a resumed two-engine run
  restores the reports and generates what is left. Pairs with one finished game are not saved.
 */
module SaveResume {
  import opened Options
  import opened Stats
  import opened ScoreBoard
  import opened StatsJson
  import opened Tournament
  import opened RoundRobin
  import Scheduler

  // ---------- Saving ----------

  /** `a` is named before `b`. */
  ghost predicate Before(names: seq<string>, a: string, b: string) {
    exists i, j :: 0 <= i < j < |names| && names[i] == a && names[j] == b
  }

  /** `m` has one entry for every two different names, holding the report of the one named first. */
  ghost predicate IsMerged(m: Results, names: seq<string>, r: Results) {
    && (forall k :: k in m ==> Before(names, k.first, k.second) && k.first != k.second)
    && (forall k :: k in m ==> Key(k.second, k.first) !in m && m[k] == View(r, k.first, k.second))
    && (forall a, b :: a in names && b in names && a != b ==> Key(a, b) in m || Key(b, a) in m)
  }

  method MergedResults(board: ScoreBoard, names: seq<string>) returns (m: Results)
    modifies board`results
    ensures IsMerged(m, names, old(board.results))
    ensures SameReports(board.results, old(board.results))
  {
    hide Collected, RowsDone, Covered, View, SameReports;
    ghost var r := board.results;
    m := map[];
    var engineNames: seq<Key> := [];
    NothingCollected(names, r);
    for i := 0 to |names|
      invariant Collected(m, engineNames, names, r) && SameReports(board.results, r)
      invariant RowsDone(m, names, i, 0)
    {
      for j := 0 to |names|
        invariant Collected(m, engineNames, names, r) && SameReports(board.results, r)
        invariant RowsDone(m, names, i, j)
      {
        var engine, opponent := names[i], names[j];
        PairDone(m, m, names, i, j);
        CollectedHas(m, engineNames, names, r, engine, opponent);
        if engine == opponent { continue; }
        if Key(engine, opponent) in engineNames || Key(opponent, engine) in engineNames { continue; }
        ghost var before := board.results;
        var stats := board.GetStats(engine, opponent);
        SameReportsKept(before, board.results, r, engine, opponent);
        CollectOne(m, engineNames, names, r, i, j);
        PairDone(m, m[Key(engine, opponent) := stats], names, i, j);
        m := m[Key(engine, opponent) := stats];
        engineNames := engineNames + [Key(engine, opponent)];
      }
      RowDone(m, names, i);
    }
    AllCollected(m, engineNames, names, r);
  }

  /** Entries without games may have appeared, which no report shows. */
  ghost predicate SameReports(now: Results, r: Results) {
    forall k :: Lookup(now, k) == Lookup(r, k)
  }

  lemma SameReportsKept(before: Results, after: Results, r: Results, a: string, b: string)
    requires SameReports(before, r) && forall k :: Lookup(after, k) == Lookup(before, k)
    ensures SameReports(after, r) && View(before, a, b) == View(r, a, b)
  {}

  /** Every two different names in the cells visited so far have an entry. */
  ghost predicate RowsDone(m: Results, names: seq<string>, i: nat, j: nat) {
    forall x, y :: 0 <= x < |names| && 0 <= y < |names| && (x < i || (x == i && y < j)) && names[x] != names[y] ==>
      Covered(m, names[x], names[y])
  }

  lemma NothingCollected(names: seq<string>, r: Results)
    ensures Collected(map[], [], names, r) && SameReports(r, r) && RowsDone(map[], names, 0, 0)
  {}

  lemma PairDone(m: Results, m': Results, names: seq<string>, i: nat, j: nat)
    requires i < |names| && j < |names| && RowsDone(m, names, i, j) && m.Keys <= m'.Keys
    ensures names[i] == names[j] || Covered(m', names[i], names[j]) ==> RowsDone(m', names, i, j + 1)
    ensures Key(names[i], names[j]) in m' || Key(names[j], names[i]) in m' ==> Covered(m', names[i], names[j])
  {}

  lemma RowDone(m: Results, names: seq<string>, i: nat)
    requires RowsDone(m, names, i, |names|)
    ensures RowsDone(m, names, i + 1, 0)
  {}

  lemma CollectedHas(m: Results, engineNames: seq<Key>, names: seq<string>, r: Results, a: string, b: string)
    requires Collected(m, engineNames, names, r)
    ensures Key(a, b) in engineNames || Key(b, a) in engineNames <==> Covered(m, a, b)
  {}

  lemma CollectOne(m: Results, engineNames: seq<Key>, names: seq<string>, r: Results, i: nat, j: nat)
    requires Collected(m, engineNames, names, r) && RowsDone(m, names, i, j)
    requires i < |names| && j < |names| && names[i] != names[j] && !Covered(m, names[i], names[j])
    ensures var k := Key(names[i], names[j]);
            Collected(m[k := View(r, names[i], names[j])], engineNames + [k], names, r)
  {
    hide View;
    CoveredEarlier(m, names, i, j);
    hide RowsDone;
  }

  lemma CoveredEarlier(m: Results, names: seq<string>, i: nat, j: nat)
    requires RowsDone(m, names, i, j)
    requires i < |names| && j < |names| && names[i] != names[j] && !Covered(m, names[i], names[j])
    ensures Before(names, names[i], names[j])
  {
    assert j < i ==> Covered(m, names[j], names[i]);
  }

  lemma AllCollected(m: Results, engineNames: seq<Key>, names: seq<string>, r: Results)
    requires Collected(m, engineNames, names, r) && RowsDone(m, names, |names|, 0)
    ensures IsMerged(m, names, r)
  {
    hide View;
    forall a, b | a in names && b in names && a != b ensures Key(a, b) in m || Key(b, a) in m {
      var x :| 0 <= x < |names| && names[x] == a;
      var y :| 0 <= y < |names| && names[y] == b;
      assert Covered(m, names[x], names[y]);
    }
  }

  predicate Covered(m: Results, a: string, b: string) { Key(a, b) in m || Key(b, a) in m }

  ghost predicate Collected(m: Results, engineNames: seq<Key>, names: seq<string>, r: Results) {
    && (forall k :: k in engineNames <==> k in m)
    && (forall k :: k in m ==> Before(names, k.first, k.second) && k.first != k.second)
    && (forall k :: k in m ==> Key(k.second, k.first) !in m && m[k] == View(r, k.first, k.second))
  }

  /** Merging keeps every report, whichever way round it is asked for. */
  lemma MergingKeepsReports(m: Results, names: seq<string>, r: Results, a: string, b: string)
    requires IsMerged(m, names, r) && a in names && b in names && a != b
    ensures View(m, a, b) == View(r, a, b)
  {
    hide Stats.Plus, Stats.Invert;
    var s, t := Lookup(r, Key(a, b)), Lookup(r, Key(b, a));
    InvertLaws(ZERO, ZERO);
    if Key(a, b) in m {
      PlusLaws(m[Key(a, b)], ZERO, ZERO);
    } else {
      assert Key(b, a) in m;
      InvertLaws(t, s.Invert());
      InvertLaws(s, s);
      PlusLaws(s, t.Invert(), ZERO);
      PlusLaws(View(m, b, a).Invert(), ZERO, ZERO);
      PlusLaws(ZERO, m[Key(b, a)].Invert(), ZERO);
      PlusLaws(m[Key(b, a)].Invert(), ZERO, ZERO);
    }
  }

  // ---------- Loading ----------

  ghost function GamesOver(r: Results, ks: set<Key>): int
    requires ks <= r.Keys
  {
    if ks == {} then 0
    else
      var k :| k in ks;
      r[k].Sum() + GamesOver(r, ks - {k})
  }

  lemma {:induction false} GamesOverPick(r: Results, ks: set<Key>, k: Key)
    requires k in ks && ks <= r.Keys
    ensures GamesOver(r, ks) == r[k].Sum() + GamesOver(r, ks - {k})
    decreases |ks|
  {
    var j :| j in ks && GamesOver(r, ks) == r[j].Sum() + GamesOver(r, ks - {j});
    if j != k {
      GamesOverPick(r, ks - {j}, k);
      GamesOverPick(r, ks - {k}, j);
      assert ks - {j} - {k} == ks - {k} - {j};
    }
  }

  /** setResults() of the tournament: installs the results and counts the games in them. */
  method LoadResults(board: ScoreBoard, r: Results) returns (total: int)
    modifies board`results
    ensures board.results == r
    ensures total == GamesOver(r, r.Keys)
  {
    board.SetResults(r);
    total := 0;
    var todo := r.Keys;
    while todo != {}
      invariant todo <= r.Keys && board.results == r
      invariant total + GamesOver(r, todo) == GamesOver(r, r.Keys)
      decreases |todo|
    {
      var k :| k in todo;
      GamesOverPick(r, todo, k);
      total := total + (r[k].wins + r[k].losses + r[k].draws);
      todo := todo - {k};
    }
  }

  lemma TwoEnginesOneEntry(m: Results, r: Results, a: string, b: string)
    requires a != b && IsMerged(m, [a, b], r)
    ensures m == map[Key(a, b) := View(r, a, b)]
    ensures GamesOver(m, m.Keys) == View(r, a, b).Sum()
  {
    hide View, Stats.Sum;
    var k := Key(a, b);
    assert a in [a, b] && b in [a, b];
    forall j | j in m ensures j == k {
      assert Before([a, b], j.first, j.second);
    }
    assert m == map[k := View(r, a, b)];
    OneEntryGames(k, View(r, a, b));
  }

  // ---------- What has been recorded ----------

  ghost predicate Between(es: seq<Event>, a: string, b: string) {
    forall e :: e in es ==> (e.white == a && e.black == b) || (e.white == b && e.black == a)
  }

  /** The pairs of which both games are in. */
  function Completed(es: seq<Event>): set<nat> {
    if es == [] then {}
    else
      var p, e := es[..|es| - 1], es[|es| - 1];
      Completed(p) + if |EventsOf(p, e.id)| == 1 then {e.id} else {}
  }

  lemma {:induction false} CompletedMeansTwo(es: seq<Event>, id: nat)
    requires AtMostPairs(es)
    ensures id in Completed(es) <==> |EventsOf(es, id)| == 2
  {
    if es != [] {
      PrefixAtMostPairs(es);
      CompletedMeansTwo(es[..|es| - 1], id);
    }
  }

  /** Every counted game is part of a completed pair or waits in the cache. */
  lemma {:induction false} RecordedGames(board: Board, es: seq<Event>, a: string, b: string)
    requires board.cache == map[] && a != b && AtMostPairs(es) && AllSingle(es) && Between(es, a, b)
    ensures |es| == |Run(board, es).cache| + 2 * |Completed(es)|
    ensures View(Run(board, es).results, a, b).Sum() == View(board.results, a, b).Sum() + 2 * |Completed(es)|
  {
    hide Stats.Plus, Stats.Invert, FinishPair, View, AddTo, AfterPair;
    if es == [] { return; }
    var p, e := es[..|es| - 1], es[|es| - 1];
    PrefixAtMostPairs(es);
    RecordedGames(board, p, a, b);
    CacheHoldsHalfPairs(board, p, e.id);
    CompletedMeansTwo(p, e.id);
    EventsOfMembers(p, e.id);
    if e.id in Run(board, p).cache {
      FinishedPairIsBalanced(EventsOf(p, e.id)[0].stats, e.stats);
    }
    RecordedStep(Run(board, p), e, a, b);
  }

  lemma RecordedStep(before: Board, e: Event, a: string, b: string)
    requires a != b && ((e.white == a && e.black == b) || (e.white == b && e.black == a))
    requires e.id in before.cache ==> FinishPair(before.cache[e.id].Plus(e.stats)).Sum() == 2
    ensures var after := AfterPair(before, e);
            if e.id in before.cache then
              && |after.cache| == |before.cache| - 1
              && View(after.results, a, b).Sum() == View(before.results, a, b).Sum() + 2
            else
              |after.cache| == |before.cache| + 1 && after.results == before.results
  {
    hide Stats.Plus, Stats.Invert, FinishPair, View, AddTo, Credit;
    if e.id in before.cache {
      var s := FinishPair(before.cache[e.id].Plus(e.stats));
      ViewAfterAdd(before.results, Key(e.white, e.black), s, a, b);
      CreditSum(e.white, e.black, s, a, b);
      SumOfPlus(View(before.results, a, b), Credit(e.white, e.black, s, a, b));
      assert (before.cache - {e.id}).Keys == before.cache.Keys - {e.id};
      assert |before.cache.Keys - {e.id}| == |before.cache.Keys| - 1;
    } else {
      assert before.cache[e.id := e.stats.Invert()].Keys == before.cache.Keys + {e.id};
    }
  }

  lemma CreditSum(white: string, black: string, s: Stats, a: string, b: string)
    requires a != b && ((white == a && black == b) || (white == b && black == a))
    ensures Credit(white, black, s, a, b).Sum() == s.Sum()
  {}

  lemma SumOfPlus(s: Stats, t: Stats)
    ensures s.Plus(t).Sum() == s.Sum() + t.Sum()
  {}

  // ---------- Resuming a two-engine tournament ----------

  /** A two-engine tournament in pair mode, started or resumed with the results on `board`. */
  ghost predicate TwoEngines(f: Field, board: Board) {
    && f.Ok() && |f.names| == 2 && f.names[0] != f.names[1]
    && f.reportPenta && f.plan.Limit() >= 1
    && board.cache == map[] && AllBalanced(board.results)
    && f.played == View(board.results, f.names[0], f.names[1]).Sum() <= f.plan.Total()
  }

  lemma {:induction false} EventsBetween(f: Field, outcome: nat -> Stats, ks: seq<nat>)
    requires f.Ok() && |f.names| == 2 && f.plan.Limit() >= 1
    requires forall k :: outcome(k).SingleGame()
    ensures Between(Events(f, outcome, ks), f.names[0], f.names[1]) && AllSingle(Events(f, outcome, ks))
  {
    hide Stats.SingleGame;
    if ks != [] {
      var n := |ks| - 1;
      EventsBetween(f, outcome, ks[..n]);
      assert f.plan.PairsPerRound() == Scheduler.PairsBefore(2, 1) == 1;
      Scheduler.OnePair(f.plan, ks[n] / f.plan.games);
    }
  }

  /** Bringing the pieces together for the games counted at any moment of any run. */
  lemma RecordedAtSavePoint(f: Field, p: Params, xs: seq<Step>, board: Board, outcome: nat -> Stats)
    requires TwoEngines(f, board) && IsRun(p, xs) && p.total == f.plan.Emitted(f.played)
    requires forall k :: outcome(k).SingleGame()
    ensures var es := Events(f, outcome, After(p, xs).finished);
            var now := Run(board, es);
            && AtMostPairs(es)
            && View(now.results, f.names[0], f.names[1]).Sum() == f.played + 2 * |Completed(es)|
            && |After(p, xs).finished| == |now.cache| + 2 * |Completed(es)| <= p.total
            && f.played % 2 == 0
            && AllBalanced(now.results)
  {
    hide Run, View, Events, Completed, AllBalanced;
    hide Stats.Sum, Stats.Balanced, Scheduler.Plan.Total, Scheduler.Plan.Emitted;
    RunKeepsInv(p, xs);
    var ks := After(p, xs).finished;
    var es := Events(f, outcome, ks);
    CountedGamesInPairs(f, outcome, ks);
    EventsBetween(f, outcome, ks);
    RecordedGames(board, es, f.names[0], f.names[1]);
    RunStaysBalanced(board, es);
    ViewBalanced(board.results, f.names[0], f.names[1]);
    BalancedCountsPairs(View(board.results, f.names[0], f.names[1]));
  }

  /** What is true once the results `now`, after `counted` games, have been saved and loaded. */
  ghost predicate Restored(f: Field, now: Board, counted: nat, saved: Results)
    requires f.Ok() && |f.names| == 2
  {
    var a, b := f.names[0], f.names[1];
    var total := GamesOver(saved, saved.Keys);
    && View(saved, a, b) == View(now.results, a, b) && View(saved, b, a) == View(now.results, b, a)
    && total == f.played + counted - |now.cache|
    && total % 2 == 0 && total >= 0
    && f.plan.Emitted(total) == f.plan.Total() - total
    && TwoEngines(f.(played := total), Board(saved, map[]))
  }

  lemma RestoredFromSave(f: Field, board: Board, now: Board, counted: nat, pairs: nat, saved: Results)
    requires TwoEngines(f, board) && f.played % 2 == 0
    requires IsMerged(saved, f.names, now.results) && AllBalanced(now.results)
    requires View(now.results, f.names[0], f.names[1]).Sum() == f.played + 2 * pairs
    requires counted == |now.cache| + 2 * pairs <= f.plan.Emitted(f.played)
    ensures Restored(f, now, counted, saved)
  {
    hide View, Stats.Sum, Stats.Balanced, Scheduler.Plan.Total, Scheduler.Plan.Emitted, IsMerged, AllBalanced;
    hide GamesOver;
    assert f.names == [f.names[0], f.names[1]];
    SavedReports(saved, f.names[0], f.names[1], now.results);
    Scheduler.ResumeEmitsRest(f.plan, f.played);
    TotalsFit(f.played, pairs, counted, |now.cache|, f.plan.Total());
    Scheduler.ResumeEmitsRest(f.plan, f.played + 2 * pairs);
  }

  lemma TotalsFit(played: nat, pairs: nat, counted: nat, waiting: nat, all: nat)
    requires played % 2 == 0 && counted == waiting + 2 * pairs <= all - played
    ensures (played + 2 * pairs) % 2 == 0
    ensures played + 2 * pairs == played + counted - waiting <= all
  {}

  /** `loaded` is what comes back when the results `now` are written to a file `j` and read again. */
  ghost predicate Reloaded(loaded: Results, j: map<string, Stats>, saved: Results, names: seq<string>, now: Board) {
    IsMerged(saved, names, now.results) && IsJsonOf(j, saved) && IsParsed(loaded, j)
  }

  /** The one entry of two engines comes back with its stats, under the names that its text is cut into. */
  lemma LoadedEntry(loaded: Results, j: map<string, Stats>, saved: Results, names: seq<string>, now: Board)
    requires |names| == 2 && names[0] != names[1] && Reloaded(loaded, j, saved, names, now)
    ensures var p, v := Parse(Format(Key(names[0], names[1]))), View(now.results, names[0], names[1]);
            p.Some? && loaded == map[p.value := v] && GamesOver(loaded, loaded.Keys) == v.Sum()
  {
    hide View, Format, Parse, Stats.Sum, IsMerged, IsJsonOf, IsParsed, GamesOver;
    var k, v := Key(names[0], names[1]), View(now.results, names[0], names[1]);
    assert names == [names[0], names[1]];
    TwoEnginesOneEntry(saved, now.results, names[0], names[1]);
    OneEntryWritten(k, v, j);
    OneEntryRead(Format(k), v, loaded);
    OneEntryGames(Parse(Format(k)).value, v);
  }

  lemma OneEntryGames(k: Key, v: Stats)
    ensures GamesOver(map[k := v], map[k := v].Keys) == v.Sum()
  {
    hide Stats.Sum;
    var r := map[k := v];
    GamesOverPick(r, r.Keys, k);
    assert r.Keys - {k} == {};
  }

  lemma ViewOfOne(k: Key, v: Stats, a: string, b: string)
    requires a != b
    ensures View(map[k := v], a, b) == if k == Key(a, b) then v else if k == Key(b, a) then v.Invert() else ZERO
  {
    hide Stats.Plus, Stats.Invert;
    PlusZero(v);
    PlusZero(v.Invert());
    PlusZero(ZERO);
    InvertLaws(ZERO, ZERO);
  }

  /**
    Exactly when a file keeps the report of two engines: the separator does not cut the first name, or
    there is nothing to report, or the text is cut into the two names exchanged and the report is its
    own mirror image.
   */
  lemma ReportKeptExactlyWhen(loaded: Results, j: map<string, Stats>, saved: Results, names: seq<string>, now: Board)
    requires |names| == 2 && names[0] != names[1] && Reloaded(loaded, j, saved, names, now)
    ensures var a, b := names[0], names[1];
            var v := View(now.results, a, b);
            View(loaded, a, b) == v <==>
            || !Contains(a + " ", SEPARATOR)
            || v == ZERO
            || (Parse(Format(Key(a, b))) == Some(Key(b, a)) && v == v.Invert())
  {
    hide Contains, Format, Parse, Reloaded, View, Stats.Invert, GamesOver, Stats.Sum;
    var a, b := names[0], names[1];
    LoadedEntry(loaded, j, saved, names, now);
    ParseFormat(Key(a, b));
    InvertLaws(ZERO, ZERO);
    ViewOfOne(Parse(Format(Key(a, b))).value, View(now.results, a, b), a, b);
  }

  /** The name under which two engines are written survives the file if the separator does not cut it. */
  lemma LoadedIsSaved(loaded: Results, j: map<string, Stats>, saved: Results, names: seq<string>, now: Board)
    requires |names| == 2 && names[0] != names[1] && Reloaded(loaded, j, saved, names, now)
    ensures loaded == saved <==> !Contains(names[0] + " ", SEPARATOR)
  {
    hide View, Contains, IsMerged, IsJsonOf, IsParsed;
    JsonRoundTrip(saved, j, loaded);
    assert names == [names[0], names[1]];
    TwoEnginesOneEntry(saved, now.results, names[0], names[1]);
    assert Key(names[0], names[1]) in saved;
  }

  /**
    Save a two-engine tournament at any moment of any run, and load the file: every report is
    the one before saving, the number of games loaded is even, and the resumed generator yields
    exactly the games that are missing. The resumed tournament meets the same conditions again.
   */
  lemma SaveAndResume(f: Field, p: Params, xs: seq<Step>, board: Board, outcome: nat -> Stats,
                      saved: Results, j: map<string, Stats>, loaded: Results)
    requires TwoEngines(f, board) && IsRun(p, xs) && p.total == f.plan.Emitted(f.played)
    requires (forall k :: outcome(k).SingleGame()) && !Contains(f.names[0] + " ", SEPARATOR)
    requires Reloaded(loaded, j, saved, f.names, Run(board, Events(f, outcome, After(p, xs).finished)))
    ensures Restored(f, Run(board, Events(f, outcome, After(p, xs).finished)), |After(p, xs).finished|, loaded)
  {
    hide Run, View, Events, Completed, Restored, IsMerged, IsJsonOf, IsParsed, AllBalanced, IsRun, Contains;
    RecordedAtSavePoint(f, p, xs, board, outcome);
    var es := Events(f, outcome, After(p, xs).finished);
    RestoredFromSave(f, board, Run(board, es), |After(p, xs).finished|, |Completed(es)|, saved);
    LoadedIsSaved(loaded, j, saved, f.names, Run(board, es));
  }

  /** The games a loaded file counts, whatever the names: two for each completed pair, and those loaded before. */
  ghost function RecordedTotal(f: Field, outcome: nat -> Stats, ks: seq<nat>): nat
    requires f.Ok()
  {
    f.played + 2 * |Completed(Events(f, outcome, ks))|
  }

  lemma TotalLoaded(f: Field, p: Params, xs: seq<Step>, board: Board, outcome: nat -> Stats,
                    saved: Results, j: map<string, Stats>, loaded: Results)
    requires TwoEngines(f, board) && IsRun(p, xs) && p.total == f.plan.Emitted(f.played)
    requires forall k :: outcome(k).SingleGame()
    requires Reloaded(loaded, j, saved, f.names, Run(board, Events(f, outcome, After(p, xs).finished)))
    ensures GamesOver(loaded, loaded.Keys) == RecordedTotal(f, outcome, After(p, xs).finished)
  {
    hide Run, View, Events, Completed, Reloaded, AllBalanced, IsRun, Stats.Sum, Parse, Format;
    RecordedAtSavePoint(f, p, xs, board, outcome);
    LoadedEntry(loaded, j, saved, f.names, Run(board, Events(f, outcome, After(p, xs).finished)));
  }

  lemma SavedReports(saved: Results, a: string, b: string, r: Results)
    requires a != b && IsMerged(saved, [a, b], r) && AllBalanced(r)
    ensures View(saved, a, b) == View(r, a, b) && View(saved, b, a) == View(r, b, a)
    ensures GamesOver(saved, saved.Keys) == View(r, a, b).Sum()
    ensures AllBalanced(saved)
  {
    hide View, Stats.Balanced;
    MergingKeepsReports(saved, [a, b], r, a, b);
    MergingKeepsReports(saved, [a, b], r, b, a);
    TwoEnginesOneEntry(saved, r, a, b);
    MergedStaysBalanced(saved, [a, b], r);
  }

  lemma MergedStaysBalanced(m: Results, names: seq<string>, r: Results)
    requires IsMerged(m, names, r) && AllBalanced(r)
    ensures AllBalanced(m)
  {
    hide View, Stats.Balanced;
    forall k | k in m ensures m[k].Balanced() {
      ViewBalanced(r, k.first, k.second);
    }
  }
}
