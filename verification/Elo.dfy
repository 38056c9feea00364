/**
  Score and variance of the two rating models (app/src/matchmaking/elo), over exact reals. The
  logarithms and error bars built on them are not part of this model.
 */
module Elo {
  import opened Stats

  function Square(x: real): real { x * x }

  // ---------- Trinomial (elo_wdl.cpp) ----------

  function WdlScore(s: Stats): real
    requires s.Sum() > 0
  {
    var n := s.Sum() as real;
    s.wins as real / n + 0.5 * (s.draws as real / n)
  }

  function WdlVariance(s: Stats): real
    requires s.Sum() > 0
  {
    var n, score := s.Sum() as real, WdlScore(s);
    s.wins as real / n * Square(1.0 - score) +
    s.draws as real / n * Square(0.5 - score) +
    s.losses as real / n * Square(0.0 - score)
  }

  // ---------- Pentanomial (elo_pentanomial.cpp) ----------

  function PentaScore(s: Stats): real
    requires s.TotalPairs() > 0
  {
    var n := s.TotalPairs() as real;
    s.ww as real / n + 0.75 * (s.wd as real / n) + 0.5 * (s.wl as real / n + s.dd as real / n) +
    0.25 * (s.ld as real / n)
  }

  function PentaVariance(s: Stats): real
    requires s.TotalPairs() > 0
  {
    var n, score := s.TotalPairs() as real, PentaScore(s);
    s.ww as real / n * Square(1.0 - score) +
    s.wd as real / n * Square(0.75 - score) +
    (s.wl as real / n + s.dd as real / n) * Square(0.5 - score) +
    s.ld as real / n * Square(0.25 - score) +
    s.ll as real / n * Square(0.0 - score)
  }

  // ---------- Properties ----------

  lemma WdlScoreTimes(s: Stats)
    requires s.Sum() > 0
    ensures WdlScore(s) * s.Sum() as real == s.wins as real + 0.5 * s.draws as real
  {
    var n := s.Sum() as real;
    var w, d := s.wins as real / n, s.draws as real / n;
    assert w * n == s.wins as real && d * n == s.draws as real;
    assert (w + 0.5 * d) * n == w * n + 0.5 * (d * n);
  }

  lemma PentaScoreTimes(s: Stats)
    requires s.TotalPairs() > 0
    ensures PentaScore(s) * s.TotalPairs() as real ==
            s.ww as real + 0.75 * s.wd as real + 0.5 * (s.wl + s.dd) as real + 0.25 * s.ld as real
  {
    var n := s.TotalPairs() as real;
    var a, b, c, d, e := s.ww as real / n, s.wd as real / n, s.wl as real / n, s.dd as real / n, s.ld as real / n;
    assert a * n == s.ww as real && b * n == s.wd as real && c * n == s.wl as real;
    assert d * n == s.dd as real && e * n == s.ld as real;
    assert (a + 0.75 * b + 0.5 * (c + d) + 0.25 * e) * n ==
           a * n + 0.75 * (b * n) + 0.5 * (c * n + d * n) + 0.25 * (e * n);
  }

  lemma CancelFactor(x: real, y: real, n: real)
    requires n > 0.0 && x * n == y * n
    ensures x == y
  {
    assert (x - y) * n == 0.0;
  }

  /** On whole pairs both models see the same score. */
  lemma ScoresAgree(s: Stats)
    requires s.Balanced() && s.TotalPairs() > 0
    ensures s.Sum() > 0 && PentaScore(s) == WdlScore(s)
  {
    WdlScoreTimes(s);
    PentaScoreTimes(s);
    var n := s.TotalPairs() as real;
    assert s.Sum() as real == 2.0 * n;
    assert WdlScore(s) * (2.0 * n) == 2.0 * (WdlScore(s) * n);
    CancelFactor(PentaScore(s), WdlScore(s), n);
  }

  lemma SquareFlip(x: real, y: real)
    requires x == -y
    ensures Square(x) == Square(y)
  {}

  /** The opponent's score is one minus ours; the variance is the same. */
  lemma WdlInvert(s: Stats)
    requires s.Sum() > 0
    ensures WdlScore(s.Invert()) == 1.0 - WdlScore(s)
    ensures WdlVariance(s.Invert()) == WdlVariance(s)
  {
    var t, n := s.Invert(), s.Sum() as real;
    WdlScoreTimes(s);
    WdlScoreTimes(t);
    var p, q := WdlScore(s), WdlScore(t);
    assert (1.0 - p) * n == n - p * n;
    CancelFactor(q, 1.0 - p, n);
    SquareFlip(1.0 - q, 0.0 - p);
    SquareFlip(0.5 - q, 0.5 - p);
    SquareFlip(0.0 - q, 1.0 - p);
  }

  lemma PentaInvert(s: Stats)
    requires s.TotalPairs() > 0
    ensures PentaScore(s.Invert()) == 1.0 - PentaScore(s)
    ensures PentaVariance(s.Invert()) == PentaVariance(s)
  {
    var t, n := s.Invert(), s.TotalPairs() as real;
    PentaScoreTimes(s);
    PentaScoreTimes(t);
    var p, q := PentaScore(s), PentaScore(t);
    assert (1.0 - p) * n == n - p * n;
    CancelFactor(q, 1.0 - p, n);
    SquareFlip(1.0 - q, 0.0 - p);
    SquareFlip(0.75 - q, 0.25 - p);
    SquareFlip(0.5 - q, 0.5 - p);
    SquareFlip(0.25 - q, 0.75 - p);
    SquareFlip(0.0 - q, 1.0 - p);
  }

  lemma Scale(x: real, n: real, y: real)
    requires n > 0.0
    ensures x / n * y * n == x * y
  {
    assert x / n * n == x;
    assert x / n * y * n == x / n * n * y;
  }

  /** `n` times the value `x`. */
  function Weighted(n: int, x: real): real { n as real * x }

  lemma WdlVarianceTimes(s: Stats)
    requires s.Sum() > 0
    ensures var p := WdlScore(s);
            WdlVariance(s) * s.Sum() as real ==
            Weighted(s.wins, Square(1.0 - p)) + Weighted(s.draws, Square(0.5 - p)) + Weighted(s.losses, Square(0.0 - p))
  {
    var n, p := s.Sum() as real, WdlScore(s);
    Scale(s.wins as real, n, Square(1.0 - p));
    Scale(s.draws as real, n, Square(0.5 - p));
    Scale(s.losses as real, n, Square(0.0 - p));
  }

  lemma PentaVarianceTimes(s: Stats)
    requires s.TotalPairs() > 0
    ensures var p := PentaScore(s);
            PentaVariance(s) * s.TotalPairs() as real ==
            Weighted(s.ww, Square(1.0 - p)) + Weighted(s.wd, Square(0.75 - p)) +
            (Weighted(s.wl, Square(0.5 - p)) + Weighted(s.dd, Square(0.5 - p))) +
            Weighted(s.ld, Square(0.25 - p)) + Weighted(s.ll, Square(0.0 - p))
  {
    var n, p := s.TotalPairs() as real, PentaScore(s);
    Scale(s.ww as real, n, Square(1.0 - p));
    Scale(s.wd as real, n, Square(0.75 - p));
    Scale(s.wl as real, n, Square(0.5 - p));
    Scale(s.dd as real, n, Square(0.5 - p));
    Scale(s.ld as real, n, Square(0.25 - p));
    Scale(s.ll as real, n, Square(0.0 - p));
    var wl, dd, q := s.wl as real / n, s.dd as real / n, Square(0.5 - p);
    assert (wl + dd) * q == wl * q + dd * q;
  }

  lemma Spread(p: real)
    ensures Square(1.0 - p) + Square(0.5 - p) == 2.0 * Square(0.75 - p) + 0.125
    ensures Square(1.0 - p) + Square(0.0 - p) == 2.0 * Square(0.5 - p) + 0.5
    ensures Square(0.5 - p) + Square(0.0 - p) == 2.0 * Square(0.25 - p) + 0.125
  {}

  lemma Weigh(k: int, x: real, y: real, z: real, c: real)
    requires x + y == 2.0 * z + c
    ensures Weighted(k, x) + Weighted(k, y) == 2.0 * Weighted(k, z) + c * k as real
  {
    assert k as real * (x + y) == k as real * (2.0 * z + c);
  }

  /** The deviations of single games, grouped by the pair they belong to. */
  lemma GroupByPair(s: Stats, x: real, h: real, z: real)
    requires s.Balanced()
    ensures Weighted(s.wins, x) + Weighted(s.draws, h) + Weighted(s.losses, z) ==
            2.0 * Weighted(s.ww, x) + (Weighted(s.wd, x) + Weighted(s.wd, h)) +
            (Weighted(s.wl, x) + Weighted(s.wl, z)) +
            2.0 * Weighted(s.dd, h) + (Weighted(s.ld, h) + Weighted(s.ld, z)) + 2.0 * Weighted(s.ll, z)
  {
    hide Weighted;
    Distribute(s.wins, s.ww, s.wd, s.wl, x);
    Distribute(s.draws, s.dd, s.wd, s.ld, h);
    Distribute(s.losses, s.ll, s.ld, s.wl, z);
    RegroupSums(Weighted(s.wins, x), Weighted(s.draws, h), Weighted(s.losses, z),
                Weighted(s.ww, x), Weighted(s.wd, x), Weighted(s.wl, x),
                Weighted(s.dd, h), Weighted(s.wd, h), Weighted(s.ld, h),
                Weighted(s.ll, z), Weighted(s.ld, z), Weighted(s.wl, z));
  }

  lemma RegroupSums(u: real, v: real, w: real, a: real, b: real, c: real, d: real, b2: real, e: real, f: real,
                    e2: real, c2: real)
    requires u == 2.0 * a + b + c && v == 2.0 * d + b2 + e && w == 2.0 * f + e2 + c2
    ensures u + v + w == 2.0 * a + (b + b2) + (c + c2) + 2.0 * d + (e + e2) + 2.0 * f
  {}

  lemma Distribute(n: int, a: int, b: int, c: int, x: real)
    requires n == 2 * a + b + c
    ensures Weighted(n, x) == 2.0 * Weighted(a, x) + Weighted(b, x) + Weighted(c, x)
  {
    var r, s, t := a as real, b as real, c as real;
    assert n as real == 2.0 * r + s + t;
    assert (2.0 * r + s + t) * x == 2.0 * (r * x) + s * x + t * x;
  }

  function PairSpread(s: Stats): real { 0.25 * s.wl as real + 0.0625 * (s.wd + s.ld) as real }

  /** Linear bookkeeping: the mixed pairs carry the difference. */
  lemma Collect(games: real, pairs: real, a: real, b: real, b2: real, c: real, c2: real, d: real, e: real, e2: real,
                f: real, wd: real, wl: real, ld: real)
    requires games == 2.0 * a + b2 + c2 + 2.0 * d + e2 + 2.0 * f
    requires pairs == a + b + (c + d) + e + f
    requires b2 == 2.0 * b + 0.125 * wd && c2 == 2.0 * c + 0.5 * wl && e2 == 2.0 * e + 0.125 * ld
    ensures games == 2.0 * pairs + 2.0 * (0.25 * wl + 0.0625 * (wd + ld))
  {}

  lemma GapTimesPairs(s: Stats)
    requires s.Balanced() && s.TotalPairs() > 0 && s.Sum() > 0
    ensures WdlVariance(s) * s.Sum() as real ==
            2.0 * (PentaVariance(s) * s.TotalPairs() as real) + 2.0 * PairSpread(s)
  {
    hide WdlScore, PentaScore, WdlVariance, PentaVariance, Stats.Balanced, Square, Weighted;
    ScoresAgree(s);
    var p := WdlScore(s);
    var x, h, z, m, l := Square(1.0 - p), Square(0.5 - p), Square(0.0 - p), Square(0.75 - p), Square(0.25 - p);
    WdlVarianceTimes(s);
    PentaVarianceTimes(s);
    Spread(p);
    Weigh(s.wd, x, h, m, 0.125);
    Weigh(s.wl, x, z, h, 0.5);
    Weigh(s.ld, h, z, l, 0.125);
    GroupByPair(s, x, h, z);
    var wd, wl, ld := s.wd as real, s.wl as real, s.ld as real;
    Collect(WdlVariance(s) * s.Sum() as real, PentaVariance(s) * s.TotalPairs() as real,
            Weighted(s.ww, x), Weighted(s.wd, m), Weighted(s.wd, x) + Weighted(s.wd, h),
            Weighted(s.wl, h), Weighted(s.wl, x) + Weighted(s.wl, z),
            Weighted(s.dd, h), Weighted(s.ld, l), Weighted(s.ld, h) + Weighted(s.ld, z), Weighted(s.ll, z), wd, wl, ld);
  }

  lemma HalveBoth(v: real, w: real, n: real, gap: real)
    requires n > 0.0 && v * (2.0 * n) == 2.0 * (w * n) + 2.0 * gap
    ensures v == w + gap / n
  {
    assert v * (2.0 * n) == 2.0 * (v * n);
    assert (w + gap / n) * n == w * n + gap;
    CancelFactor(v, w + gap / n, n);
  }

  /** Pairing removes exactly the spread inside the mixed pairs from the variance. */
  lemma VarianceGap(s: Stats)
    requires s.Balanced() && s.TotalPairs() > 0
    ensures s.Sum() > 0
    ensures WdlVariance(s) == PentaVariance(s) + PairSpread(s) / s.TotalPairs() as real
  {
    hide WdlVariance, PentaVariance, PairSpread;
    var n := s.TotalPairs() as real;
    assert s.Sum() as real == 2.0 * n;
    GapTimesPairs(s);
    HalveBoth(WdlVariance(s), PentaVariance(s), n, PairSpread(s));
  }
}
