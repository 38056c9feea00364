/**
  What standings ought to be: the games of two players, each counted once from one side. Here the
  reports of module ScoreBoard are compared with that tally, which knows nothing of pairs, caches
  or the order of events.
 */
module Tallies {
  import opened Collections
  import opened Stats
  import opened ScoreBoard

  /** One game seen by `a` against `b`, whichever colour `a` had. */
  function Tally(e: Event, a: string, b: string): Stats {
    if e.white == a && e.black == b then e.stats
    else if e.white == b && e.black == a then e.stats.Invert()
    else ZERO
  }

  function TallySum(es: seq<Event>, a: string, b: string): Stats {
    if es == [] then ZERO else TallySum(es[..|es| - 1], a, b).Plus(Tally(es[|es| - 1], a, b))
  }

  /** The games among `es` whose pair is complete in `all`. */
  function InPairs(es: seq<Event>, all: seq<Event>): seq<Event> {
    if es == [] then []
    else
      var e := es[|es| - 1];
      InPairs(es[..|es| - 1], all) + if |EventsOf(all, e.id)| == 2 then [e] else []
  }

  function PairedGames(es: seq<Event>): seq<Event> { InPairs(es, es) }

  /** Wins, losses and draws only. */
  function Games(s: Stats): Stats { Stats(s.wins, s.losses, s.draws, 0, 0, 0, 0, 0, 0) }

  /** The report for `a` against `b` has grown by exactly these games. */
  ghost predicate Right(before: Results, after: Results, games: seq<Event>, a: string, b: string) {
    Games(View(after, a, b)) == Games(View(before, a, b)).Plus(Games(TallySum(games, a, b)))
  }

  // ---------- What the board does with each game ----------

  /** How the board counts the first game of a pair once the second has come in. */
  function Recorded(first: Event, second: Event, a: string, b: string): Stats {
    Credit(second.white, second.black, first.stats.Invert(), a, b)
  }

  function Counted(es: seq<Event>, a: string, b: string): Stats {
    if es == [] then ZERO
    else
      var p, e := es[..|es| - 1], es[|es| - 1];
      var f := EventsOf(p, e.id);
      Counted(p, a, b).Plus(if |f| == 1 then Recorded(f[0], e, a, b).Plus(Tally(e, a, b)) else ZERO)
  }

  lemma GamesLaws(s: Stats, t: Stats)
    ensures Games(s.Plus(t)) == Games(s).Plus(Games(t))
    ensures Games(FinishPair(s)) == Games(s)
    ensures Games(ZERO) == ZERO
  {}

  lemma CreditIsLinear(w: string, k: string, s: Stats, t: Stats, a: string, b: string)
    ensures Credit(w, k, s.Plus(t), a, b) == Credit(w, k, s, a, b).Plus(Credit(w, k, t, a, b))
  {
    hide Stats.Plus, Stats.Invert;
    InvertLaws(s, t);
    PlusZero(ZERO);
    PlusZero(s);
    PlusZero(t);
    PlusZero(s.Plus(t));
    PlusZero(s.Invert());
    PlusZero(t.Invert());
    PlusZero(s.Plus(t).Invert());
    if Key(w, k) == Key(a, b) && Key(w, k) == Key(b, a) { PlusMiddle(s, t, s.Invert(), t.Invert()); }
  }

  lemma PlusMiddle(s: Stats, t: Stats, u: Stats, v: Stats)
    ensures s.Plus(t).Plus(u.Plus(v)) == s.Plus(u).Plus(t.Plus(v))
  {}

  lemma CreditOfGames(w: string, k: string, s: Stats, a: string, b: string)
    ensures Games(Credit(w, k, FinishPair(s), a, b)) == Games(Credit(w, k, s, a, b))
  {
    hide FinishPair;
    GamesLaws(s, s);
    GamesOfCredit(w, k, s, a, b);
    GamesOfCredit(w, k, FinishPair(s), a, b);
  }

  lemma GamesOfCredit(w: string, k: string, s: Stats, a: string, b: string)
    ensures Games(Credit(w, k, s, a, b)) == Credit(w, k, Games(s), a, b)
  {}

  lemma CreditIsTally(e: Event, a: string, b: string)
    requires a != b
    ensures Credit(e.white, e.black, e.stats, a, b) == Tally(e, a, b)
  {
    hide Stats.Plus, Stats.Invert;
    PlusZero(ZERO);
    PlusZero(e.stats);
    PlusZero(e.stats.Invert());
  }

  /** Whatever the colours: the report grows by what the board makes of the games. */
  lemma {:induction false} ViewIsCounted(board: Board, es: seq<Event>, a: string, b: string)
    requires board.cache == map[] && AtMostPairs(es) && a != b
    ensures Games(View(Run(board, es).results, a, b)) ==
            Games(View(board.results, a, b)).Plus(Games(Counted(es, a, b)))
  {
    hide Stats.Plus, Stats.Invert, FinishPair, View, AddTo, Credit, Tally, Games, Recorded, EventsOf;
    var start := View(board.results, a, b);
    if es == [] {
      GamesLaws(ZERO, ZERO);
      PlusZero(Games(start));
    } else {
      var p, e := es[..|es| - 1], es[|es| - 1];
      PrefixAtMostPairs(es);
      ViewIsCounted(board, p, a, b);
      CacheHoldsHalfPairs(board, p, e.id);
      var f := EventsOf(p, e.id);
      if |f| == 1 {
        PairCounted(Run(board, p).results, f[0], e, a, b);
        var now := Recorded(f[0], e, a, b).Plus(Tally(e, a, b));
        GamesLaws(Counted(p, a, b), now);
        PlusLaws(Games(start), Games(Counted(p, a, b)), Games(now));
      } else {
        PlusZero(Counted(p, a, b));
      }
    }
  }

  lemma PairCounted(r: Results, first: Event, e: Event, a: string, b: string)
    requires a != b
    ensures var s := FinishPair(first.stats.Invert().Plus(e.stats));
            Games(View(AddTo(r, Key(e.white, e.black), s), a, b)) ==
            Games(View(r, a, b)).Plus(Games(Recorded(first, e, a, b).Plus(Tally(e, a, b))))
  {
    hide Stats.Plus, Stats.Invert, FinishPair, View, AddTo, Credit, Tally, Games;
    var x, y := first.stats.Invert(), e.stats;
    var s := FinishPair(x.Plus(y));
    ViewAfterAdd(r, Key(e.white, e.black), s, a, b);
    GamesLaws(View(r, a, b), Credit(e.white, e.black, s, a, b));
    CreditOfGames(e.white, e.black, x.Plus(y), a, b);
    CreditIsLinear(e.white, e.black, x, y, a, b);
    CreditIsTally(e, a, b);
  }

  // ---------- Exchanged colours: the standings are right ----------

  lemma SwappedIsTallied(first: Event, second: Event, a: string, b: string)
    requires first.white == second.black && first.black == second.white && a != b
    ensures Recorded(first, second, a, b) == Tally(first, a, b)
  {
    hide Stats.Plus, Stats.Invert;
    var s := first.stats;
    InvertLaws(s, s);
    PlusZero(ZERO);
    PlusZero(s);
    PlusZero(s.Invert());
  }

  /** A completed pair, kind included, is what its two tallies make. */
  lemma PairCreditIsTally(first: Event, second: Event, a: string, b: string)
    requires first.white == second.black && first.black == second.white && a != b
    ensures PairCredit([first, second], a, b) == FinishPair(Tally(first, a, b).Plus(Tally(second, a, b)))
  {
    hide Stats.Plus, Stats.Invert, FinishPair;
    var s, t := first.stats, second.stats;
    var p := FinishPair(s.Invert().Plus(t));
    InvertLaws(s.Invert().Plus(t), t);
    InvertLaws(s.Invert(), t);
    InvertLaws(s, t);
    FinishNothing();
    PlusZero(ZERO);
    PlusZero(p);
    PlusZero(p.Invert());
  }

  lemma FinishNothing()
    ensures FinishPair(ZERO) == ZERO
  {}

  lemma TallySnoc(es: seq<Event>, e: Event, a: string, b: string)
    ensures TallySum(es + [e], a, b) == TallySum(es, a, b).Plus(Tally(e, a, b))
  {
    assert (es + [e])[..|es|] == es;
  }

  lemma InPairsSnoc(es: seq<Event>, e: Event, all: seq<Event>)
    ensures InPairs(es + [e], all) == InPairs(es, all) + if |EventsOf(all, e.id)| == 2 then [e] else []
  {
    assert (es + [e])[..|es|] == es;
  }

  /** A second game lets the first of its pair into the tally. */
  lemma {:induction false} MorePairs(q: seq<Event>, p: seq<Event>, e: Event, a: string, b: string)
    requires |EventsOf(p, e.id)| <= 1
    ensures TallySum(InPairs(q, p + [e]), a, b) ==
            TallySum(InPairs(q, p), a, b).Plus(
              if |EventsOf(p, e.id)| == 1 then TallySum(EventsOf(q, e.id), a, b) else ZERO)
    decreases |q|
  {
    hide Stats.Plus, Tally;
    PlusZero(ZERO);
    if q != [] {
      var r, x := q[..|q| - 1], q[|q| - 1];
      assert q == r + [x];
      MorePairs(r, p, e, a, b);
      EventsOfSnoc(p, e, x.id);
      var s, t, u := TallySum(InPairs(r, p), a, b), TallySum(EventsOf(r, e.id), a, b), Tally(x, a, b);
      var here := if |EventsOf(p, e.id)| == 1 then t else ZERO;
      InPairsTally(r, x, p, a, b);
      InPairsTally(r, x, p + [e], a, b);
      if x.id == e.id {
        TallySnoc(EventsOf(r, e.id), x, a, b);
        PlusLaws(s, t, u);
        PlusZero(s);
      } else {
        assert EventsOf(r, e.id) + [] == EventsOf(r, e.id);
        assert EventsOf(p, x.id) + [] == EventsOf(p, x.id);
        PlusExchange(s, here, u);
      }
    }
  }

  lemma InPairsTally(r: seq<Event>, x: Event, all: seq<Event>, a: string, b: string)
    ensures TallySum(InPairs(r + [x], all), a, b) ==
            if |EventsOf(all, x.id)| == 2 then TallySum(InPairs(r, all), a, b).Plus(Tally(x, a, b))
            else TallySum(InPairs(r, all), a, b)
  {
    hide Stats.Plus, Tally, TallySum, InPairs, EventsOf;
    InPairsSnoc(r, x, all);
    TallySnoc(InPairs(r, all), x, a, b);
    assert InPairs(r, all) + [] == InPairs(r, all);
  }

  lemma OneTally(e: Event, a: string, b: string)
    ensures TallySum([e], a, b) == Tally(e, a, b)
  {
    hide Stats.Plus, Tally;
    TallySnoc([], e, a, b);
    assert [] + [e] == [e];
    PlusZero(Tally(e, a, b));
  }

  /** A game that completes its pair brings both games of the pair into the tally. */
  lemma PairedSnoc(p: seq<Event>, e: Event, a: string, b: string)
    requires |EventsOf(p, e.id)| <= 1
    ensures var f := EventsOf(p, e.id);
            TallySum(PairedGames(p + [e]), a, b) ==
            TallySum(PairedGames(p), a, b).Plus(if |f| == 1 then Tally(f[0], a, b).Plus(Tally(e, a, b)) else ZERO)
  {
    hide Stats.Plus, Tally, TallySum, InPairs, EventsOf;
    MorePairs(p, p, e, a, b);
    InPairsTally(p, e, p + [e], a, b);
    EventsOfSnoc(p, e, e.id);
    var f, s := EventsOf(p, e.id), TallySum(InPairs(p, p), a, b);
    PlusZero(s);
    if |f| == 1 {
      assert f == [f[0]];
      OneTally(f[0], a, b);
      PlusLaws(s, Tally(f[0], a, b), Tally(e, a, b));
    }
  }

  lemma PrefixGames(es: seq<Event>) returns (p: seq<Event>, e: Event)
    requires es != []
    ensures es == p + [e] && p == es[..|es| - 1] && e == es[|es| - 1]
  {
    p, e := es[..|es| - 1], es[|es| - 1];
  }

  lemma {:induction false} CountedIsTally(es: seq<Event>, a: string, b: string)
    requires ColoursSwapped(es) && AtMostPairs(es) && a != b
    ensures Counted(es, a, b) == TallySum(PairedGames(es), a, b)
  {
    if es != [] {
      var p, e := PrefixGames(es);
      PrefixAtMostPairs(es);
      PrefixSwapped(p, e);
      CountedIsTally(p, a, b);
      PairedSnoc(p, e, a, b);
      SecondGame(p, e);
      hide Stats.Plus, Tally, Recorded, EventsOf, TallySum, InPairs, ColoursSwapped;
      var f := EventsOf(p, e.id);
      if |f| == 1 { SwappedIsTallied(f[0], e, a, b); }
    }
  }

  lemma SecondGame(p: seq<Event>, e: Event)
    ensures |EventsOf(p, e.id)| == 1 ==> EventsOf(p + [e], e.id) == [EventsOf(p, e.id)[0], e]
    ensures |EventsOf(p, e.id)| == 1 && ColoursSwapped(p + [e]) ==>
              EventsOf(p, e.id)[0].white == e.black && EventsOf(p, e.id)[0].black == e.white
    ensures |EventsOf(p, e.id)| == 1 && ColoursEqual(p + [e]) ==>
              EventsOf(p, e.id)[0].white == e.white && EventsOf(p, e.id)[0].black == e.black
  {
    hide EventsOf;
    EventsOfSnoc(p, e, e.id);
  }

  lemma PrefixSwapped(p: seq<Event>, e: Event)
    requires ColoursSwapped(p + [e]) && |EventsOf(p, e.id)| <= 1
    ensures ColoursSwapped(p)
  {
    forall id
      ensures var f := EventsOf(p, id);
              |f| <= 2 && (|f| == 2 ==> f[0].white == f[1].black && f[0].black == f[1].white)
    {
      EventsOfSnoc(p, e, id);
      assert EventsOf(p, id) + [] == EventsOf(p, id);
      assert |EventsOf(p + [e], id)| <= 2;
    }
  }

  /** With exchanged colours every report is right: it counts the games of completed pairs, each once. */
  lemma StandingsAreRight(board: Board, es: seq<Event>, a: string, b: string)
    requires board.cache == map[] && ColoursSwapped(es) && a != b
    ensures Right(board.results, Run(board, es).results, PairedGames(es), a, b)
  {
    hide Run, View, Counted, TallySum, Games, InPairs;
    assert AtMostPairs(es) by {
      forall id ensures |EventsOf(es, id)| <= 2 {}
    }
    ViewIsCounted(board, es, a, b);
    CountedIsTally(es, a, b);
  }

  /** Per pair and with its kind: what the two tallies of each completed pair make together. */
  function PairTallies(es: seq<Event>, n: nat, a: string, b: string): Stats {
    if n == 0 then ZERO
    else
      var f := EventsOf(es, n - 1);
      PairTallies(es, n - 1, a, b).Plus(
        if |f| == 2 then FinishPair(Tally(f[0], a, b).Plus(Tally(f[1], a, b))) else ZERO)
  }

  lemma {:induction false} CreditsAreTallies(es: seq<Event>, n: nat, a: string, b: string)
    requires ColoursSwapped(es) && a != b
    ensures SumCredits(es, n, a, b) == PairTallies(es, n, a, b)
  {
    hide PairCredit, EventsOf, Stats.Plus, Tally, FinishPair;
    if n > 0 {
      CreditsAreTallies(es, n - 1, a, b);
      var f := EventsOf(es, n - 1);
      assert |f| <= 2;
      if |f| == 2 {
        assert f == [f[0], f[1]];
        PairCreditIsTally(f[0], f[1], a, b);
      } else {
        FewCredits(f, a, b);
      }
    }
  }

  /** The whole report, pair counts included, is the initial one plus every completed pair's tallies. */
  lemma ReportsAreRight(board: Board, es: seq<Event>, n: nat, a: string, b: string)
    requires board.cache == map[] && ColoursSwapped(es) && a != b
    requires forall e :: e in es ==> e.id < n
    ensures View(Run(board, es).results, a, b) == View(board.results, a, b).Plus(PairTallies(es, n, a, b))
  {
    hide Run, View, SumCredits, PairTallies, EventsOf;
    assert AtMostPairs(es) by {
      forall id ensures |EventsOf(es, id)| <= 2 {}
    }
    ViewIsSumOfPairs(board, es, n, a, b);
    CreditsAreTallies(es, n, a, b);
  }

  /** The kind of a finished pair is decided by its points, of which a win counts two and a draw one. */
  lemma KindByPoints(p: Stats)
    requires OfOneKind(p)
    ensures var points := p.wins + p.wins + p.draws;
            && (p.ww == 1 <==> points == 4) && (p.wd == 1 <==> points == 3)
            && (p.wl == 1 <==> points == 2 && p.draws == 0) && (p.dd == 1 <==> points == 2 && p.draws != 0)
            && (p.ld == 1 <==> points == 1) && (p.ll == 1 <==> points == 0)
  {}

  // ---------- Games stored singly ----------

  /** Without pair accounting every report is right, whatever the colours: it counts each game once. */
  lemma {:induction false} SinglyIsRight(r: Results, es: seq<Event>, a: string, b: string)
    requires a != b
    ensures View(Singly(r, es), a, b) == View(r, a, b).Plus(TallySum(es, a, b))
  {
    hide Stats.Plus, View, AddTo, Tally, Credit;
    if es == [] {
      PlusZero(View(r, a, b));
    } else {
      var p, e := PrefixGames(es);
      SinglyIsRight(r, p, a, b);
      ViewAfterAdd(Singly(r, p), Key(e.white, e.black), e.stats, a, b);
      CreditIsTally(e, a, b);
      PlusLaws(View(r, a, b), TallySum(p, a, b), Tally(e, a, b));
    }
  }

  lemma {:induction false} TallyWithout(es: seq<Event>, i: nat, a: string, b: string)
    requires i < |es|
    ensures TallySum(es, a, b) == TallySum(es[..i] + es[i + 1..], a, b).Plus(Tally(es[i], a, b))
    decreases |es|
  {
    hide Stats.Plus, Tally, TallySum;
    var p, e := PrefixGames(es);
    TallySnoc(p, e, a, b);
    if i == |p| {
      assert es[..i] + es[i + 1..] == p;
    } else {
      TallyWithout(p, i, a, b);
      var shorter := p[..i] + p[i + 1..];
      assert es[..i] + es[i + 1..] == shorter + [e];
      TallySnoc(shorter, e, a, b);
      PlusExchange(TallySum(shorter, a, b), Tally(es[i], a, b), Tally(e, a, b));
    }
  }

  /** So the order in which the games finish does not matter. */
  lemma {:induction false} TallyOfPermutation(es: seq<Event>, fs: seq<Event>, a: string, b: string)
    requires multiset(es) == multiset(fs)
    ensures TallySum(es, a, b) == TallySum(fs, a, b)
    decreases |es|
  {
    hide Stats.Plus, Tally, TallySum;
    SameLength(es, fs);
    if es != [] {
      var p, e := PrefixGames(es);
      var i := TakeOut(es, fs);
      TallySnoc(p, e, a, b);
      TallyWithout(fs, i, a, b);
      TallyOfPermutation(p, fs[..i] + fs[i + 1..], a, b);
    }
  }

  // ---------- Equal colours: who gets the first game ----------

  ghost predicate ColoursEqual(es: seq<Event>) {
    forall id ::
      var f := EventsOf(es, id);
      |f| <= 2 && (|f| == 2 ==> f[0].white == f[1].white && f[0].black == f[1].black)
  }

  /** What the board gives to the opponent: wins less losses of the first game of every completed pair. */
  function Misjudged(es: seq<Event>, a: string, b: string): int {
    if es == [] then 0
    else
      var p, e := es[..|es| - 1], es[|es| - 1];
      var f := EventsOf(p, e.id);
      Misjudged(p, a, b) + if |f| == 1 then Tally(f[0], a, b).wins - Tally(f[0], a, b).losses else 0
  }

  lemma EqualIsInverted(first: Event, second: Event, a: string, b: string)
    requires first.white == second.white && first.black == second.black && a != b
    ensures Recorded(first, second, a, b) == Tally(first, a, b).Invert()
  {
    hide Stats.Plus, Stats.Invert;
    var s := first.stats;
    InvertLaws(s, s);
    InvertLaws(ZERO, ZERO);
    PlusZero(ZERO);
    PlusZero(s.Invert());
    PlusZero(s.Invert().Invert());
  }

  /** `s` is `t` with `d` of the wins turned into losses. */
  ghost predicate ShiftedBy(s: Stats, t: Stats, d: int) {
    s.wins == t.wins - d && s.losses == t.losses + d && s.draws == t.draws
  }

  lemma ShiftedPair(c: Stats, s: Stats, d: int, f: Stats, e: Stats)
    requires ShiftedBy(c, s, d)
    ensures ShiftedBy(c.Plus(f.Invert().Plus(e)), s.Plus(f.Plus(e)), d + (f.wins - f.losses))
  {}

  lemma {:induction false} CountedIsShifted(es: seq<Event>, a: string, b: string)
    requires ColoursEqual(es) && AtMostPairs(es) && a != b
    ensures ShiftedBy(Counted(es, a, b), TallySum(PairedGames(es), a, b), Misjudged(es, a, b))
  {
    if es == [] {
      hide ShiftedBy;
      NothingShifted(ZERO);
    } else {
      var p, e := PrefixGames(es);
      PrefixAtMostPairs(es);
      PrefixEqual(p, e);
      CountedIsShifted(p, a, b);
      PairedSnoc(p, e, a, b);
      SecondGame(p, e);
      ShiftStep(p, e, a, b);
    }
  }

  lemma CountedSnoc(p: seq<Event>, e: Event, a: string, b: string)
    ensures var f := EventsOf(p, e.id);
            && Counted(p + [e], a, b) ==
               Counted(p, a, b).Plus(if |f| == 1 then Recorded(f[0], e, a, b).Plus(Tally(e, a, b)) else ZERO)
            && Misjudged(p + [e], a, b) ==
               Misjudged(p, a, b) + if |f| == 1 then Tally(f[0], a, b).wins - Tally(f[0], a, b).losses else 0
  {
    hide Stats.Plus, Tally, Recorded, EventsOf;
    assert (p + [e])[..|p|] == p;
  }

  lemma ShiftStep(p: seq<Event>, e: Event, a: string, b: string)
    requires a != b && ShiftedBy(Counted(p, a, b), TallySum(PairedGames(p), a, b), Misjudged(p, a, b))
    requires var f := EventsOf(p, e.id);
             |f| == 1 ==> f[0].white == e.white && f[0].black == e.black
    ensures var f := EventsOf(p, e.id);
            ShiftedBy(Counted(p + [e], a, b),
                      TallySum(PairedGames(p), a, b).Plus(
                        if |f| == 1 then Tally(f[0], a, b).Plus(Tally(e, a, b)) else ZERO),
                      Misjudged(p + [e], a, b))
  {
    hide Stats.Plus, Stats.Invert, Tally, Recorded, EventsOf, ShiftedBy, TallySum, PairedGames, Counted, Misjudged;
    var f, s := EventsOf(p, e.id), TallySum(PairedGames(p), a, b);
    CountedSnoc(p, e, a, b);
    if |f| == 1 {
      EqualIsInverted(f[0], e, a, b);
      ShiftedPair(Counted(p, a, b), s, Misjudged(p, a, b), Tally(f[0], a, b), Tally(e, a, b));
    } else {
      PlusZero(Counted(p, a, b));
      PlusZero(s);
    }
  }

  lemma NothingShifted(s: Stats)
    ensures ShiftedBy(s, s, 0)
  {}

  lemma PrefixEqual(p: seq<Event>, e: Event)
    requires ColoursEqual(p + [e]) && |EventsOf(p, e.id)| <= 1
    ensures ColoursEqual(p)
  {
    forall id
      ensures var f := EventsOf(p, id);
              |f| <= 2 && (|f| == 2 ==> f[0].white == f[1].white && f[0].black == f[1].black)
    {
      EventsOfSnoc(p, e, id);
      assert EventsOf(p, id) + [] == EventsOf(p, id);
      assert |EventsOf(p + [e], id)| <= 2;
    }
  }

  /**
    With equal colours in each pair a report is right exactly when the first games of the completed
    pairs were won as often as they were lost; otherwise the opponent gets the difference.
   */
  lemma EqualColoursRightIff(board: Board, es: seq<Event>, a: string, b: string)
    requires board.cache == map[] && ColoursEqual(es) && a != b
    ensures Right(board.results, Run(board, es).results, PairedGames(es), a, b) <==> Misjudged(es, a, b) == 0
    ensures View(Run(board, es).results, a, b).wins ==
            View(board.results, a, b).wins + TallySum(PairedGames(es), a, b).wins - Misjudged(es, a, b)
  {
    hide Run, View, Counted, TallySum, InPairs, Misjudged;
    assert AtMostPairs(es) by {
      forall id ensures |EventsOf(es, id)| <= 2 {}
    }
    ViewIsCounted(board, es, a, b);
    CountedIsShifted(es, a, b);
  }

  /** One pair with equal colours, on any board: right if and only if its first game was a draw. */
  lemma EqualPairRightIff(board: Board, first: Event, second: Event)
    requires first.id == second.id && first.id !in board.cache
    requires first.white == second.white && first.black == second.black && first.white != first.black
    requires first.stats.SingleGame() && second.stats.SingleGame()
    ensures Right(board.results, Run(board, [first, second]).results, [first, second], first.white, first.black)
            <==> first.stats.draws == 1
  {
    hide View, Run, AddTo, Games, Recorded, TallySum, FinishPair, Stats.Plus, Stats.Invert, Stats.SingleGame;
    var a, b := first.white, first.black;
    RunTwo(board, first, second);
    PairCounted(board.results, first, second, a, b);
    EqualIsInverted(first, second, a, b);
    TwoTallies(first, second, a, b);
    DrawsOnly(View(board.results, a, b), first.stats, second.stats);
  }

  lemma TwoTallies(first: Event, second: Event, a: string, b: string)
    ensures TallySum([first, second], a, b) == Tally(first, a, b).Plus(Tally(second, a, b))
  {
    hide Stats.Plus, Tally, TallySum;
    assert [first, second] == [first] + [second];
    TallySnoc([first], second, a, b);
    OneTally(first, a, b);
  }

  lemma DrawsOnly(v: Stats, s: Stats, t: Stats)
    requires s.SingleGame()
    ensures Games(v).Plus(Games(s.Invert().Plus(t))) == Games(v).Plus(Games(s.Plus(t))) <==> s.draws == 1
  {}

  /** Two wins of the same player, with the same colours, are reported as one win and one loss. */
  lemma TwoWinsReportedAsOne(e: Event)
    requires e.white != e.black && e.stats == ZERO.(wins := 1)
    ensures ColoursEqual([e, e]) && Tally(e, e.white, e.black) == ZERO.(wins := 1)
    ensures View(Run(Board(map[], map[]), [e, e]).results, e.white, e.black) == Stats(1, 1, 0, 0, 0, 1, 0, 0, 0)
  {
    hide Run, FinishPair, Stats.Plus, Stats.Invert, View, EventsOf;
    TwoEventsOf(e);
    RunTwo(Board(map[], map[]), e, e);
    WinTwice(e.stats);
    ViewOfOneEntry(Key(e.white, e.black), FinishPair(e.stats.Invert().Plus(e.stats)));
  }

  lemma TwoEventsOf(e: Event)
    ensures EventsOf([e, e], e.id) == [e, e]
    ensures forall id :: id != e.id ==> EventsOf([e, e], id) == []
  {
    assert [e, e] == [e] + [e] && [e] == [] + [e];
    forall id ensures EventsOf([e, e], id) == if id == e.id then [e, e] else [] {
      EventsOfSnoc([e], e, id);
      EventsOfSnoc([], e, id);
    }
  }

  lemma WinTwice(s: Stats)
    requires s == ZERO.(wins := 1)
    ensures FinishPair(s.Invert().Plus(s)) == Stats(1, 1, 0, 0, 0, 1, 0, 0, 0)
  {}
}
