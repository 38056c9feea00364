/**
  The scoreboard (app/src/matchmaking/scoreboard.hpp). Results are stored under (white, black)
  of whichever game of a pair came in last, so the stored map depends on the order in which
  games finish; what `getStats` reports does not.
 */
module ScoreBoard {
  import opened Collections
  import opened Stats

  datatype Key = Key(first: string, second: string)

  type Results = map<Key, Stats>

  // ---------- The board as a value ----------

  /** A finished game: who had which colour, its outcome for white, and its pair. */
  datatype Event = Event(white: string, black: string, stats: Stats, id: nat)

  datatype Board = Board(results: Results, cache: map<nat, Stats>)

  function Lookup(r: Results, k: Key): Stats {
    if k in r then r[k] else ZERO
  }

  function AddTo(r: Results, k: Key, s: Stats): Results {
    r[k := Lookup(r, k).Plus(s)]
  }

  /** What the board reports for `a` against `b`. */
  function View(r: Results, a: string, b: string): Stats {
    Lookup(r, Key(a, b)).Plus(Lookup(r, Key(b, a)).Invert())
  }

  function AfterPair(b: Board, e: Event): Board {
    if e.id !in b.cache then b.(cache := b.cache[e.id := e.stats.Invert()])
    else
      Board(AddTo(b.results, Key(e.white, e.black), FinishPair(b.cache[e.id].Plus(e.stats))),
            b.cache - {e.id})
  }

  /** The board after games finished in the order `es`. */
  function Run(b: Board, es: seq<Event>): Board {
    if es == [] then b else AfterPair(Run(b, es[..|es| - 1]), es[|es| - 1])
  }

  /** One finished game, counted as part of its pair or by itself. */
  function AfterGame(inPairs: bool, b: Board, e: Event): Board {
    if inPairs then AfterPair(b, e) else b.(results := AddTo(b.results, Key(e.white, e.black), e.stats))
  }

  function RunIn(inPairs: bool, b: Board, es: seq<Event>): Board {
    if es == [] then b else AfterGame(inPairs, RunIn(inPairs, b, es[..|es| - 1]), es[|es| - 1])
  }

  /** The results when every game is stored by itself, without pairs. */
  function Singly(r: Results, es: seq<Event>): Results {
    if es == [] then r
    else
      var e := es[|es| - 1];
      AddTo(Singly(r, es[..|es| - 1]), Key(e.white, e.black), e.stats)
  }

  lemma {:induction false} RunInModes(b: Board, es: seq<Event>)
    ensures RunIn(true, b, es) == Run(b, es)
    ensures RunIn(false, b, es).results == Singly(b.results, es)
  {
    hide AfterPair, AddTo;
    if es != [] { RunInModes(b, es[..|es| - 1]); }
  }

  /** What entry `k` contributes to the total of `engine`. */
  function Share(r: Results, k: Key, engine: string): Stats
    requires k in r
  {
    if k.first == engine then r[k] else if k.second == engine then r[k].Invert() else ZERO
  }

  ghost function SumOver(r: Results, ks: set<Key>, engine: string): Stats
    requires ks <= r.Keys
  {
    if ks == {} then ZERO
    else
      var k :| k in ks;
      Share(r, k, engine).Plus(SumOver(r, ks - {k}, engine))
  }

  ghost function Total(r: Results, engine: string): Stats { SumOver(r, r.Keys, engine) }

  /** The sum does not depend on which entry is visited first. */
  lemma {:induction false} SumOverPick(r: Results, ks: set<Key>, engine: string, k: Key)
    requires k in ks && ks <= r.Keys
    ensures SumOver(r, ks, engine) == Share(r, k, engine).Plus(SumOver(r, ks - {k}, engine))
    decreases |ks|
  {
    hide Stats.Plus, Stats.Invert, Share;
    var j :| j in ks && SumOver(r, ks, engine) == Share(r, j, engine).Plus(SumOver(r, ks - {j}, engine));
    if j != k {
      SumOverPick(r, ks - {j}, engine, k);
      SumOverPick(r, ks - {k}, engine, j);
      var rest := SumOver(r, ks - {j} - {k}, engine);
      assert ks - {j} - {k} == ks - {k} - {j};
      PlusLaws(Share(r, j, engine), Share(r, k, engine), rest);
      PlusLaws(Share(r, k, engine), Share(r, j, engine), rest);
    }
  }

  // ---------- The class ----------

  class ScoreBoard {
    var results: Results
    var gamePairCache: map<nat, Stats>

    constructor ()
      ensures Value() == Board(map[], map[])
    {
      results, gamePairCache := map[], map[];
    }

    function Value(): Board
      reads this
    {
      Board(results, gamePairCache)
    }

    method UpdateNonPair(white: string, black: string, stats: Stats) returns (done: bool)
      modifies this`results
      ensures done && results == AddTo(old(results), Key(white, black), stats)
    {
      var k := Key(white, black);
      if k !in results { results := results[k := ZERO]; }
      results := results[k := results[k].Plus(stats)];
      return true;
    }

    /** Returns whether the pair is now complete. */
    method UpdatePair(white: string, black: string, stats: Stats, id: nat) returns (complete: bool)
      modifies this
      ensures Value() == AfterPair(old(Value()), Event(white, black, stats, id))
      ensures complete <==> id in old(gamePairCache)
      ensures complete <==> id !in gamePairCache
    {
      if id !in gamePairCache {
        gamePairCache := gamePairCache[id := stats.Invert()];
        return false;
      }
      var lookup := gamePairCache[id].Plus(stats);
      lookup := FinishPair(lookup);
      var _ := UpdateNonPair(white, black, lookup);
      gamePairCache := gamePairCache - {id};
      return true;
    }

    /** Reading through the map creates missing entries, which changes nothing that is reported. */
    method GetStats(a: string, b: string) returns (s: Stats)
      modifies this`results
      ensures s == View(old(results), a, b)
      ensures results.Keys == old(results).Keys + {Key(a, b), Key(b, a)}
      ensures forall k :: Lookup(results, k) == Lookup(old(results), k)
    {
      if Key(a, b) !in results { results := results[Key(a, b) := ZERO]; }
      var stats1 := results[Key(a, b)];
      if Key(b, a) !in results { results := results[Key(b, a) := ZERO]; }
      var stats2 := results[Key(b, a)];
      s := stats1.Plus(stats2.Invert());
    }

    /** The hash map is walked in an unspecified order. */
    method GetAllStats(engine: string) returns (stats: Stats)
      ensures stats == Total(results, engine)
    {
      stats := ZERO;
      var todo := results.Keys;
      while todo != {}
        invariant todo <= results.Keys
        invariant stats.Plus(SumOver(results, todo, engine)) == Total(results, engine)
        decreases |todo|
      {
        var key :| key in todo;
        SumOverPick(results, todo, engine, key);
        if key.first == engine {
          stats := stats.Plus(results[key]);
        } else if key.second == engine {
          stats := stats.Plus(results[key].Invert());
        }
        todo := todo - {key};
      }
    }

    method SetResults(r: Results)
      modifies this`results
      ensures results == r
    {
      results := r;
    }
  }

  // ---------- Order independence ----------

  /** The games of one pair, in the order they finished. */
  function EventsOf(es: seq<Event>, id: nat): seq<Event> {
    if es == [] then []
    else
      var e := es[|es| - 1];
      EventsOf(es[..|es| - 1], id) + if e.id == id then [e] else []
  }

  /** Every pair has at most two games, played with colours swapped. */
  ghost predicate ColoursSwapped(es: seq<Event>) {
    forall id ::
      var f := EventsOf(es, id);
      |f| <= 2 && (|f| == 2 ==> f[0].white == f[1].black && f[0].black == f[1].white)
  }

  ghost predicate AtMostPairs(es: seq<Event>) {
    forall id :: |EventsOf(es, id)| <= 2
  }

  /** What storing `s` under (white, black) adds to the report for `a` against `b`. */
  function Credit(white: string, black: string, s: Stats, a: string, b: string): Stats {
    (if Key(white, black) == Key(a, b) then s else ZERO).Plus(
      if Key(white, black) == Key(b, a) then s.Invert() else ZERO)
  }

  /** What the board makes of a pair; nothing until both games are in. */
  function PairCredit(f: seq<Event>, a: string, b: string): Stats {
    if |f| == 2 then
      Credit(f[1].white, f[1].black, FinishPair(f[0].stats.Invert().Plus(f[1].stats)), a, b)
    else ZERO
  }

  function SumCredits(es: seq<Event>, n: nat, a: string, b: string): Stats {
    if n == 0 then ZERO else SumCredits(es, n - 1, a, b).Plus(PairCredit(EventsOf(es, n - 1), a, b))
  }

  lemma EventsOfSnoc(es: seq<Event>, e: Event, id: nat)
    ensures EventsOf(es + [e], id) == EventsOf(es, id) + if e.id == id then [e] else []
  {
    assert (es + [e])[..|es|] == es;
  }

  lemma {:induction false} CacheHoldsHalfPairs(b: Board, es: seq<Event>, id: nat)
    requires b.cache == map[] && AtMostPairs(es)
    ensures var c := Run(b, es).cache;
            (id in c <==> |EventsOf(es, id)| == 1) &&
            (id in c ==> c[id] == EventsOf(es, id)[0].stats.Invert())
  {
    if es == [] { return; }
    var p := es[..|es| - 1];
    PrefixAtMostPairs(es);
    CacheHoldsHalfPairs(b, p, id);
  }

  lemma PrefixAtMostPairs(es: seq<Event>)
    requires es != [] && AtMostPairs(es)
    ensures AtMostPairs(es[..|es| - 1])
    ensures |EventsOf(es[..|es| - 1], es[|es| - 1].id)| <= 1
  {
    var p, e := es[..|es| - 1], es[|es| - 1];
    forall id ensures |EventsOf(p, id)| <= 2 - if e.id == id then 1 else 0 {
      assert |EventsOf(es, id)| <= 2;
    }
  }

  lemma {:induction false} SumCreditsSnoc(es: seq<Event>, e: Event, n: nat, a: string, b: string)
    requires |EventsOf(es, e.id)| <= 1
    ensures SumCredits(es + [e], n, a, b) ==
            SumCredits(es, n, a, b).Plus(if e.id < n then PairCredit(EventsOf(es + [e], e.id), a, b) else ZERO)
  {
    hide Stats.Plus, Stats.Invert, FinishPair, Credit, EventsOf;
    PlusLaws(ZERO, ZERO, ZERO);
    if n > 0 {
      SumCreditsSnoc(es, e, n - 1, a, b);
      EventsOfSnoc(es, e, n - 1);
      var s, d := SumCredits(es, n - 1, a, b), PairCredit(EventsOf(es, n - 1), a, b);
      var c := if e.id < n - 1 then PairCredit(EventsOf(es + [e], e.id), a, b) else ZERO;
      PlusLaws(s, ZERO, ZERO);
      if e.id == n - 1 {
        assert d == ZERO;
      } else {
        assert EventsOf(es, n - 1) + [] == EventsOf(es, n - 1);
        PlusExchange(s, c, d);
      }
    }
  }

  lemma ViewAfterAdd(r: Results, k: Key, s: Stats, a: string, b: string)
    ensures View(AddTo(r, k, s), a, b) == View(r, a, b).Plus(Credit(k.first, k.second, s, a, b))
  {
    hide Stats.Plus, Stats.Invert, AddTo, Lookup;
    var k1, k2 := Key(a, b), Key(b, a);
    LookupAfterAdd(r, k, s, k1);
    LookupAfterAdd(r, k, s, k2);
    InvertLaws(ZERO, ZERO);
    PlusRegroup(Lookup(r, k1), if k == k1 then s else ZERO, Lookup(r, k2), if k == k2 then s else ZERO);
  }

  /**
    A match between two players, stored by itself: the report of White against Black has one more
    game, a win exactly if White won the match and a loss exactly if Black did; seen by Black it is
    the other way round, and no report about anyone else changes.
   */
  lemma MatchIsReported(r: Results, white: string, black: string, w: GameResult, b: GameResult, x: string, y: string)
    requires white != black && Complementary(w, b)
    ensures var after := AddTo(r, Key(white, black), FromMatch(w, b));
            var was, now := View(r, white, black), View(after, white, black);
            && now.wins == was.wins + (if w == WIN then 1 else 0)
            && now.losses == was.losses + (if b == WIN then 1 else 0)
            && now.draws == was.draws + (if w == DRAW then 1 else 0)
    ensures var after := AddTo(r, Key(white, black), FromMatch(w, b));
            var was, now := View(r, black, white), View(after, black, white);
            && now.wins == was.wins + (if b == WIN then 1 else 0)
            && now.losses == was.losses + (if w == WIN then 1 else 0)
            && now.draws == was.draws + (if w == DRAW then 1 else 0)
    ensures {x, y} != {white, black} ==> View(AddTo(r, Key(white, black), FromMatch(w, b)), x, y) == View(r, x, y)
  {
    hide AddTo, Lookup;
    var k, s := Key(white, black), FromMatch(w, b);
    LookupAfterAdd(r, k, s, Key(white, black));
    LookupAfterAdd(r, k, s, Key(black, white));
    LookupAfterAdd(r, k, s, Key(x, y));
    LookupAfterAdd(r, k, s, Key(y, x));
    if Key(x, y) == k || Key(y, x) == k { assert {x, y} == {white, black}; }
  }

  lemma LookupAfterAdd(r: Results, k: Key, s: Stats, k1: Key)
    ensures Lookup(AddTo(r, k, s), k1) == Lookup(r, k1).Plus(if k == k1 then s else ZERO)
  {
    hide Stats.Plus;
    PlusLaws(Lookup(r, k1), ZERO, ZERO);
  }

  /** After any run the report is the initial one plus the result of every completed pair. */
  lemma {:induction false} ViewIsSumOfPairs(board: Board, es: seq<Event>, n: nat, a: string, b: string)
    requires board.cache == map[] && AtMostPairs(es)
    requires forall e :: e in es ==> e.id < n
    ensures View(Run(board, es).results, a, b) == View(board.results, a, b).Plus(SumCredits(es, n, a, b))
  {
    hide Stats.Plus, Stats.Invert, FinishPair, View, AddTo, Credit;
    var start := View(board.results, a, b);
    if es == [] {
      NoCredits(n, a, b);
      PlusLaws(start, ZERO, ZERO);
    } else {
      var p, e := es[..|es| - 1], es[|es| - 1];
      assert es == p + [e];
      PrefixAtMostPairs(es);
      ViewIsSumOfPairs(board, p, n, a, b);
      CacheHoldsHalfPairs(board, p, e.id);
      SumCreditsSnoc(p, e, n, a, b);
      EventsOfSnoc(p, e, e.id);
      var f, sum := EventsOf(p, e.id), SumCredits(p, n, a, b);
      PlusLaws(start, sum, PairCredit(EventsOf(es, e.id), a, b));
      PlusLaws(sum, ZERO, ZERO);
      if |f| == 1 {
        var s := FinishPair(f[0].stats.Invert().Plus(e.stats));
        ViewAfterAdd(Run(board, p).results, Key(e.white, e.black), s, a, b);
      }
    }
  }

  lemma {:induction false} NoCredits(n: nat, a: string, b: string)
    ensures SumCredits([], n, a, b) == ZERO
  {
    hide Stats.Plus, Stats.Invert, FinishPair, Credit;
    PlusLaws(ZERO, ZERO, ZERO);
    if n > 0 { NoCredits(n - 1, a, b); }
  }

  lemma {:induction false} EventsOfMultiset(es: seq<Event>, id: nat, e: Event)
    ensures multiset(EventsOf(es, id))[e] == if e.id == id then multiset(es)[e] else 0
  {
    if es != [] {
      EventsOfMultiset(es[..|es| - 1], id, e);
      assert es == es[..|es| - 1] + [es[|es| - 1]];
    }
  }

  lemma PairCreditSymmetric(f: seq<Event>, g: seq<Event>, a: string, b: string)
    requires multiset(f) == multiset(g) && |f| <= 2
    requires |f| == 2 ==> f[0].white == f[1].black && f[0].black == f[1].white
    ensures PairCredit(f, a, b) == PairCredit(g, a, b)
  {
    hide PairCredit;
    SameLength(f, g);
    if |f| == 2 {
      SameTwo(f, g);
      if f != g { SwappedPair(f[0], f[1], a, b); }
    } else {
      FewCredits(f, a, b);
      FewCredits(g, a, b);
    }
  }

  lemma FewCredits(f: seq<Event>, a: string, b: string)
    requires |f| != 2
    ensures PairCredit(f, a, b) == ZERO
  {}

  lemma SameTwo<T>(f: seq<T>, g: seq<T>)
    requires multiset(f) == multiset(g) && |f| == |g| == 2
    ensures f == [f[0], f[1]] && (g == f || g == [f[1], f[0]])
  {
    assert f == [f[0], f[1]] && g == [g[0], g[1]];
    assert g[0] in multiset(f) && g[1] in multiset(f);
    if g[0] == f[0] {
      assert multiset{g[1]} == multiset(g) - multiset{g[0]} == multiset(f) - multiset{f[0]} == multiset{f[1]};
      assert g[1] in multiset{f[1]};
    } else {
      assert multiset{g[1]} == multiset(g) - multiset{g[0]} == multiset(f) - multiset{f[1]} == multiset{f[0]};
      assert g[1] in multiset{f[0]};
    }
  }

  /** The second game of a pair sees what the first would have seen, from the other side. */
  lemma SwappedPair(e: Event, f: Event, a: string, b: string)
    requires e.white == f.black && e.black == f.white
    ensures PairCredit([e, f], a, b) == PairCredit([f, e], a, b)
  {
    hide Stats.Plus, Stats.Invert, FinishPair;
    var s, t := FinishPair(e.stats.Invert().Plus(f.stats)), FinishPair(f.stats.Invert().Plus(e.stats));
    InvertLaws(e.stats.Invert(), f.stats);
    InvertLaws(e.stats, f.stats);
    PlusLaws(e.stats, f.stats.Invert(), ZERO);
    InvertLaws(e.stats.Invert().Plus(f.stats), ZERO);
    assert t == s.Invert();
    InvertLaws(s, ZERO);
    PlusLaws(s, ZERO, ZERO);
    PlusLaws(t, ZERO, ZERO);
    PlusLaws(s, t, ZERO);
  }

  lemma {:induction false} SameSumCredits(es: seq<Event>, fs: seq<Event>, n: nat, a: string, b: string)
    requires multiset(es) == multiset(fs) && ColoursSwapped(es)
    ensures SumCredits(es, n, a, b) == SumCredits(fs, n, a, b)
  {
    hide PairCredit, EventsOf, Stats.Plus;
    if n > 0 {
      SameSumCredits(es, fs, n - 1, a, b);
      SameEvents(es, fs, n - 1);
      assert |EventsOf(es, n - 1)| <= 2;
      PairCreditSymmetric(EventsOf(es, n - 1), EventsOf(fs, n - 1), a, b);
    }
  }

  lemma SameEvents(es: seq<Event>, fs: seq<Event>, id: nat)
    requires multiset(es) == multiset(fs)
    ensures multiset(EventsOf(es, id)) == multiset(EventsOf(fs, id))
    ensures |EventsOf(es, id)| == |EventsOf(fs, id)|
  {
    forall e ensures multiset(EventsOf(es, id))[e] == multiset(EventsOf(fs, id))[e] {
      EventsOfMultiset(es, id, e);
      EventsOfMultiset(fs, id, e);
    }
    assert multiset(EventsOf(es, id)) == multiset(EventsOf(fs, id));
    SameLength(EventsOf(es, id), EventsOf(fs, id));
  }

  function IdBound(es: seq<Event>): (n: nat)
    ensures forall e :: e in es ==> e.id < n
  {
    if es == [] then 0
    else
      var m := IdBound(es[1..]);
      if es[0].id < m then m else es[0].id + 1
  }

  /** Whatever the order in which the same games finish, every report is the same. */
  lemma OrderIndependent(board: Board, es: seq<Event>, fs: seq<Event>, a: string, b: string)
    requires board.cache == map[]
    requires multiset(es) == multiset(fs) && ColoursSwapped(es)
    ensures View(Run(board, es).results, a, b) == View(Run(board, fs).results, a, b)
  {
    var n := IdBound(es);
    forall id ensures |EventsOf(fs, id)| <= 2 {
      SameEvents(es, fs, id);
      assert |EventsOf(es, id)| <= 2;
    }
    assert AtMostPairs(es) by {
      forall id ensures |EventsOf(es, id)| <= 2 {}
    }
    forall e | e in fs ensures e.id < n {
      assert e in multiset(fs);
      assert e in multiset(es);
    }
    ViewIsSumOfPairs(board, es, n, a, b);
    ViewIsSumOfPairs(board, fs, n, a, b);
    SameSumCredits(es, fs, n, a, b);
  }

  /** When both games of a pair have the same colours, order matters unless they ended alike. */
  lemma SameColoursOrderMatters(b: Board, first: Event, second: Event)
    requires first.id == second.id && first.id !in b.cache
    requires first.stats.SingleGame() && second.stats.SingleGame()
    requires first.white == second.white && first.black == second.black && first.white != first.black
    ensures View(Run(b, [first, second]).results, first.white, first.black) ==
            View(Run(b, [second, first]).results, first.white, first.black)
            <==> first.stats == second.stats
  {
    hide FinishPair, Stats.Plus, Stats.Invert, Run, View, AddTo;
    var k := Key(first.white, first.black);
    var s := FinishPair(first.stats.Invert().Plus(second.stats));
    var t := FinishPair(second.stats.Invert().Plus(first.stats));
    RunTwo(b, first, second);
    RunTwo(b, second, first);
    ViewAfterAdd(b.results, k, s, k.first, k.second);
    ViewAfterAdd(b.results, k, t, k.first, k.second);
    CreditToWhite(k, s);
    CreditToWhite(k, t);
    PlusCancels(View(b.results, k.first, k.second), s, t);
    MixedPairsDiffer(first.stats, second.stats);
  }

  lemma CreditToWhite(k: Key, s: Stats)
    requires k.first != k.second
    ensures Credit(k.first, k.second, s, k.first, k.second) == s
  {
    hide Stats.Plus, Stats.Invert;
    PlusZero(s);
  }

  lemma ViewOfOneEntry(k: Key, s: Stats)
    requires k.first != k.second
    ensures View(AddTo(map[], k, s), k.first, k.second) == s
  {}

  lemma MixedPairsDiffer(s: Stats, t: Stats)
    requires s.SingleGame() && t.SingleGame()
    ensures FinishPair(s.Invert().Plus(t)) == FinishPair(t.Invert().Plus(s)) <==> s == t
  {}

  lemma RunTwo(b: Board, first: Event, second: Event)
    requires first.id == second.id && first.id !in b.cache
    ensures Run(b, [first, second]).results ==
            AddTo(b.results, Key(second.white, second.black), FinishPair(first.stats.Invert().Plus(second.stats)))
  {
    assert [first, second][..1] == [first] && [first][..0] == [];
    assert Run(b, [first]) == AfterPair(b, first);
  }

  // ---------- What every entry satisfies ----------

  ghost predicate AllBalanced(r: Results) {
    forall k :: k in r ==> r[k].Balanced()
  }

  ghost predicate AllSingle(es: seq<Event>) {
    forall e :: e in es ==> e.stats.SingleGame()
  }

  /** In every reachable board, each entry counts whole pairs only. */
  lemma {:induction false} RunStaysBalanced(board: Board, es: seq<Event>)
    requires board.cache == map[] && AllBalanced(board.results)
    requires AtMostPairs(es) && AllSingle(es)
    ensures AllBalanced(Run(board, es).results)
  {
    if es == [] { return; }
    hide Stats.Balanced, Stats.Plus, Stats.Invert, FinishPair, Stats.SingleGame, AfterPair;
    var p, e := es[..|es| - 1], es[|es| - 1];
    PrefixAtMostPairs(es);
    RunStaysBalanced(board, p);
    CacheHoldsHalfPairs(board, p, e.id);
    var f := EventsOf(p, e.id);
    EventsOfMembers(p, e.id);
    if |f| == 1 {
      assert f[0] in p;
      FinishedPairIsBalanced(f[0].stats, e.stats);
    }
    PairStaysBalanced(Run(board, p), e);
  }

  lemma PairStaysBalanced(b: Board, e: Event)
    requires AllBalanced(b.results)
    requires e.id in b.cache ==> FinishPair(b.cache[e.id].Plus(e.stats)).Balanced()
    ensures AllBalanced(AfterPair(b, e).results)
  {
    hide Stats.Balanced, Stats.Plus, FinishPair;
    if e.id in b.cache {
      var k, s := Key(e.white, e.black), FinishPair(b.cache[e.id].Plus(e.stats));
      BalancedLaws(ZERO, s);
      BalancedLaws(Lookup(b.results, k), s);
    }
  }

  lemma {:induction false} EventsOfMembers(es: seq<Event>, id: nat)
    ensures forall e :: e in EventsOf(es, id) ==> e in es && e.id == id
  {
    if es != [] { EventsOfMembers(es[..|es| - 1], id); }
  }

  lemma BalancedCountsPairs(s: Stats)
    requires s.Balanced()
    ensures s.Sum() == 2 * s.TotalPairs()
  {}

  /** Reports of balanced boards are balanced, and the two sides of a report mirror each other. */
  lemma ViewBalanced(r: Results, a: string, b: string)
    requires AllBalanced(r)
    ensures View(r, a, b).Balanced()
    ensures View(r, b, a) == View(r, a, b).Invert()
  {
    hide Stats.Plus, Stats.Invert, Stats.Balanced;
    var s, t := Lookup(r, Key(a, b)), Lookup(r, Key(b, a));
    BalancedLaws(s, t);
    BalancedLaws(t, s);
    BalancedLaws(s, t.Invert());
    PlusLaws(s.Invert(), t, ZERO);
    InvertLaws(s, t.Invert());
    InvertLaws(t, s);
  }

  // ---------- Totals ----------

  function SumViews(r: Results, engine: string, opponents: seq<string>): Stats {
    if opponents == [] then ZERO
    else View(r, engine, opponents[0]).Plus(SumViews(r, engine, opponents[1..]))
  }

  /** The entries whose other player is among `names`. */
  function Against(r: Results, engine: string, names: seq<string>): set<Key> {
    set k | k in r.Keys && ((k.first == engine && k.second in names) || (k.second == engine && k.first in names))
  }

  lemma {:induction false} SumOverIrrelevant(r: Results, ks: set<Key>, engine: string)
    requires ks <= r.Keys && forall k :: k in ks ==> k.first != engine && k.second != engine
    ensures SumOver(r, ks, engine) == ZERO
    decreases |ks|
  {
    if ks != {} {
      var k :| k in ks;
      SumOverPick(r, ks, engine, k);
      SumOverIrrelevant(r, ks - {k}, engine);
    }
  }

  lemma SumOverTwo(r: Results, ks: set<Key>, engine: string, o: string)
    requires o != engine && ks <= r.Keys
    requires Key(engine, o) in r ==> Key(engine, o) in ks
    requires Key(o, engine) in r ==> Key(o, engine) in ks
    ensures var k1, k2 := Key(engine, o), Key(o, engine);
            SumOver(r, ks, engine) ==
            Lookup(r, k1).Plus(Lookup(r, k2).Invert().Plus(SumOver(r, ks - {k1} - {k2}, engine)))
  {
    hide Stats.Plus, Stats.Invert;
    var k1, k2 := Key(engine, o), Key(o, engine);
    var rest := SumOver(r, ks - {k1} - {k2}, engine);
    if k1 in r { SumOverPick(r, ks, engine, k1); } else { assert ks - {k1} == ks; }
    if k2 in r { SumOverPick(r, ks - {k1}, engine, k2); } else { assert ks - {k1} - {k2} == ks - {k1}; }
    InvertLaws(ZERO, ZERO);
    PlusLaws(rest, ZERO, ZERO);
    PlusLaws(ZERO, rest, ZERO);
    var both := Lookup(r, k2).Invert().Plus(rest);
    PlusLaws(both, ZERO, ZERO);
  }

  lemma {:induction false} SumOverAgainst(r: Results, ks: set<Key>, engine: string, opponents: seq<string>)
    requires forall i, j :: 0 <= i < j < |opponents| ==> opponents[i] != opponents[j]
    requires engine !in opponents
    requires ks <= r.Keys && Against(r, engine, opponents) <= ks
    requires forall k :: k in ks && (k.first == engine || k.second == engine) ==> k in Against(r, engine, opponents)
    ensures SumOver(r, ks, engine) == SumViews(r, engine, opponents)
    decreases |opponents|
  {
    hide Stats.Plus, Stats.Invert;
    if opponents == [] {
      SumOverIrrelevant(r, ks, engine);
      return;
    }
    var o, tail := opponents[0], opponents[1..];
    var k1, k2 := Key(engine, o), Key(o, engine);
    var rest := ks - {k1} - {k2};
    forall k | k in Against(r, engine, tail) ensures k in rest {
      assert k in Against(r, engine, opponents);
    }
    forall k | k in rest && (k.first == engine || k.second == engine) ensures k in Against(r, engine, tail) {
      assert k in Against(r, engine, opponents);
    }
    SumOverAgainst(r, rest, engine, tail);
    SumOverTwo(r, ks, engine, o);
    PlusLaws(Lookup(r, k1), Lookup(r, k2).Invert(), SumOver(r, rest, engine));
  }

  /** An engine's total is the sum of its reports against each opponent. */
  lemma TotalIsSumOfViews(r: Results, engine: string, opponents: seq<string>)
    requires forall i, j :: 0 <= i < j < |opponents| ==> opponents[i] != opponents[j]
    requires engine !in opponents
    requires forall k :: k in r && k.first == engine ==> k.second in opponents
    requires forall k :: k in r && k.second == engine ==> k.first in opponents
    ensures Total(r, engine) == SumViews(r, engine, opponents)
  {
    SumOverAgainst(r, r.Keys, engine, opponents);
  }
}
