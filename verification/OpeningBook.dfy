/**
  The opening book (app/src/game/book/opening_book.hpp and .cpp): shuffled, rotated to the point
  a tournament resumes from, truncated to what it can use, and dealt out cyclically.
 */
module OpeningBook {
  import opened Options
  import DivMod
  import opened Collections

  datatype Opening = Opening(fen: string, moves: seq<string>)

  const STARTPOS := Opening("rnbqkbnr/pppppppp/8/8/8/8/PPPPPPPP/RNBQKBNR w KQkq - 0 1", [])

  // ---------- Shuffling ----------

  function Swap<T>(s: seq<T>, i: nat, j: nat): (t: seq<T>)
    requires i < |s| && j < |s|
    ensures |t| == |s|
  {
    s[i := s[j]][j := s[i]]
  }

  /** One choice per position but the last, among the elements not yet placed. */
  predicate AreChoices(n: nat, r: seq<nat>) {
    |r| == (if n == 0 then 0 else n - 1) && forall i :: 0 <= i < |r| ==> r[i] < n - i
  }

  function Choices(n: nat, draws: seq<nat>): (r: seq<nat>)
    requires |draws| + 1 >= n
    ensures AreChoices(n, r)
  {
    seq(if n == 0 then 0 else n - 1, i requires 0 <= i < n - 1 => draws[i] % (n - i))
  }

  function Shuffled<T>(s: seq<T>, r: seq<nat>): seq<T>
    requires AreChoices(|s|, r)
    decreases |s|
  {
    if |s| < 2 then s
    else
      var t := Swap(s, 0, r[0]);
      [t[0]] + Shuffled(t[1..], r[1..])
  }

  /** With the first `i` places filled, the remaining choices lead from `s` to `goal`. */
  ghost predicate LeadsTo<T>(s: seq<T>, i: nat, r: seq<nat>, goal: seq<T>) {
    && i <= |s| && i <= |r| && AreChoices(|s| - i, r[i..])
    && s[..i] + Shuffled(s[i..], r[i..]) == goal
  }

  lemma ShuffleStart<T>(s: seq<T>, r: seq<nat>)
    requires AreChoices(|s|, r)
    ensures LeadsTo(s, 0, r, Shuffled(s, r))
  {
    assert r[0..] == r && s[0..] == s;
  }

  /** Placing one more element does not change where the remaining shuffle leads. */
  lemma ShuffleStep<T>(s: seq<T>, t: seq<T>, i: nat, r: seq<nat>, goal: seq<T>)
    requires LeadsTo(s, i, r, goal) && i + 2 <= |s| && i < |r|
    requires i + r[i] < |s| ==> t == Swap(s, i, i + r[i])
    ensures LeadsTo(t, i + 1, r, goal)
  {
    assert r[i..][0] == r[i] && r[i..][1..] == r[i + 1..];
    assert Swap(s[i..], 0, r[i]) == t[i..];
    assert t[i..][1..] == t[i + 1..];
    assert t[..i + 1] == s[..i] + [t[i]];
  }

  lemma ShuffleEnd<T>(s: seq<T>, i: nat, r: seq<nat>, goal: seq<T>)
    requires LeadsTo(s, i, r, goal) && |s| < i + 2
    ensures s == goal
  {
    assert s[..i] + s[i..] == s;
  }

  lemma SwappedInPlace<T>(s: seq<T>, t: seq<T>, i: nat, j: nat)
    requires i < |s| && j < |s| && |t| == |s| && t[i] == s[j] && t[j] == s[i]
    requires forall k :: 0 <= k < |s| && k != i && k != j ==> t[k] == s[k]
    ensures t == Swap(s, i, j)
  {}

  lemma ChoiceAt(n: nat, draws: seq<nat>, i: nat)
    requires |draws| + 1 >= n && i + 1 < n
    ensures i < |Choices(n, draws)| && Choices(n, draws)[i] == draws[i] % (n - i)
  {}

  /** `draws` are the values the random generator yields, in order. */
  method Shuffle<T>(a: array<T>, draws: seq<nat>)
    requires |draws| + 1 >= a.Length
    modifies a
    ensures a[..] == Shuffled(old(a[..]), Choices(a.Length, draws))
  {
    hide Shuffled, Swap, Choices, AreChoices, LeadsTo;
    ghost var r := Choices(a.Length, draws);
    ghost var goal := Shuffled(a[..], r);
    var i := 0;
    ShuffleStart(a[..], r);
    while i + 2 <= a.Length
      invariant 0 <= i <= a.Length && LeadsTo(a[..], i, r, goal)
    {
      var rand := draws[i];
      var j := i + rand % (a.Length - i);
      ghost var s := a[..];
      ChoiceAt(a.Length, draws, i);
      a[i], a[j] := a[j], a[i];
      SwappedInPlace(s, a[..], i, j);
      ShuffleStep(s, a[..], i, r, goal);
      i := i + 1;
    }
    ShuffleEnd(a[..], i, r, goal);
  }

  lemma SwapMultiset<T>(s: seq<T>, i: nat, j: nat)
    requires i < |s| && j < |s|
    ensures multiset(Swap(s, i, j)) == multiset(s)
  {}

  /** Shuffling permutes: nothing is lost or duplicated. */
  lemma {:induction false} ShuffledPermutes<T>(s: seq<T>, r: seq<nat>)
    requires AreChoices(|s|, r)
    ensures multiset(Shuffled(s, r)) == multiset(s)
    decreases |s|
  {
    if |s| >= 2 {
      hide Swap;
      var t := Swap(s, 0, r[0]);
      SwapMultiset(s, 0, r[0]);
      ShuffledPermutes(t[1..], r[1..]);
      SameFront(t, Shuffled(t[1..], r[1..]));
    }
  }

  lemma SameFront<T>(t: seq<T>, rest: seq<T>)
    requires t != [] && multiset(rest) == multiset(t[1..])
    ensures multiset([t[0]] + rest) == multiset(t)
  {
    assert t == [t[0]] + t[1..];
  }

  function IndexOf<T(==)>(s: seq<T>, x: T): (i: nat)
    requires x in s
    ensures i < |s| && s[i] == x
  {
    if s[0] == x then 0 else 1 + IndexOf(s[1..], x)
  }

  lemma RestOfPermutation<T>(s: seq<T>, t: seq<T>, i: nat)
    requires s != [] && t != [] && multiset(s) == multiset(t)
    requires i < |s| && s[i] == t[0]
    ensures multiset(Swap(s, 0, i)[1..]) == multiset(t[1..])
    ensures |s| == |t|
  {
    var u := Swap(s, 0, i);
    SwapMultiset(s, 0, i);
    TailMultiset(u);
    TailMultiset(t);
    SameLength(s, t);
  }

  lemma TailMultiset<T>(u: seq<T>)
    requires u != []
    ensures multiset(u[1..]) == multiset(u) - multiset{u[0]}
  {
    assert u == [u[0]] + u[1..];
  }

  /** The choices that turn `s` into its permutation `t`. */
  function Unshuffle<T(==)>(s: seq<T>, t: seq<T>): (r: seq<nat>)
    requires multiset(s) == multiset(t)
    ensures AreChoices(|s|, r)
    decreases |s|
  {
    if |s| < 2 then []
    else
      assert s[0] in multiset(t);
      assert t[0] in multiset(s);
      var i := IndexOf(s, t[0]);
      RestOfPermutation(s, t, i);
      [i] + Unshuffle(Swap(s, 0, i)[1..], t[1..])
  }

  /** Every permutation of the book is reachable. */
  lemma {:induction false} ShuffleReachesAll<T>(s: seq<T>, t: seq<T>)
    requires multiset(s) == multiset(t)
    ensures Shuffled(s, Unshuffle(s, t)) == t
    decreases |s|
  {
    assert |multiset(s)| == |s| && |multiset(t)| == |t|;
    if |s| == 1 {
      assert s == [s[0]] && t == [t[0]];
      assert t[0] in multiset(s);
    } else if |s| >= 2 {
      var r := Unshuffle(s, t);
      RestOfPermutation(s, t, r[0]);
      ShuffleReachesAll(Swap(s, 0, r[0])[1..], t[1..]);
      assert r[1..] == Unshuffle(Swap(s, 0, r[0])[1..], t[1..]);
    }
  }

  /** Different choices give different permutations, so no permutation is favoured. */
  lemma {:induction false} ShuffleInjective<T(!new)>(s: seq<T>, q: seq<nat>, r: seq<nat>)
    requires Distinct(s) && AreChoices(|s|, q) && AreChoices(|s|, r)
    requires Shuffled(s, q) == Shuffled(s, r)
    ensures q == r
    decreases |s|
  {
    if |s| >= 2 {
      assert Shuffled(s, q)[0] == s[q[0]] && Shuffled(s, r)[0] == s[r[0]];
      assert q[0] == r[0];
      var t := Swap(s, 0, q[0]);
      assert Distinct(t[1..]) by {
        forall i, j | 0 <= i < j < |t| ensures t[i] != t[j] {}
      }
      assert Shuffled(t[1..], q[1..]) == Shuffled(s, q)[1..];
      assert Shuffled(t[1..], r[1..]) == Shuffled(s, r)[1..];
      ShuffleInjective(t[1..], q[1..], r[1..]);
      assert q == [q[0]] + q[1..] && r == [r[0]] + r[1..];
    }
  }

  // ---------- Rotation, truncation and dealing ----------

  function Rotated<T>(s: seq<T>, offset: nat): (t: seq<T>)
    requires s != []
    ensures |t| == |s|
  {
    var k := offset % |s|;
    s[k..] + s[..k]
  }

  lemma RotatedAt<T>(s: seq<T>, offset: nat, i: nat)
    requires i < |s|
    ensures Rotated(s, offset)[i] == s[(i + offset) % |s|]
  {
    var n := |s|;
    var k := offset % n;
    DivMod.ShiftedMod(offset, i, n);
    if i < n - k {
      DivMod.Unique(k + i, n, 0, k + i);
    } else {
      DivMod.Unique(k + i, n, 1, k + i - n);
    }
  }

  function Truncated<T>(s: seq<T>, rounds: nat): (t: seq<T>)
    ensures |t| == if |s| > rounds then rounds else |s|
    ensures t <= s
  {
    if |s| > rounds then s[..rounds] else s
  }

  /** The book after setup. */
  function Prepared<T>(base: seq<T>, offset: nat, rounds: nat): seq<T> {
    if base == [] then [] else Truncated(Rotated(base, offset), rounds)
  }

  /** The order the book is read in. */
  function Ordered<T>(base: seq<T>, random: bool, draws: seq<nat>): (t: seq<T>)
    requires random ==> |draws| + 1 >= |base|
    ensures |t| == |base| && multiset(t) == multiset(base)
  {
    if random then
      var r := Choices(|base|, draws);
      ShuffledPermutes(base, r);
      SameLength(Shuffled(base, r), base);
      Shuffled(base, r)
    else base
  }

  /** A random book can come in every order, depending on the draws, and a sequential one only in its own. */
  lemma OrderedReachesAll<T>(base: seq<T>, t: seq<T>, draws: seq<nat>)
    requires multiset(t) == multiset(base) && |draws| + 1 >= |base|
    ensures |Unshuffle(base, t)| + 1 >= |base|
    ensures Ordered(base, true, Unshuffle(base, t)) == t
    ensures Ordered(base, false, draws) == base
  {
    hide Shuffled, Unshuffle;
    ShuffleReachesAll(base, t);
    var r := Unshuffle(base, t);
    forall i | 0 <= i < |r| ensures r[i] % (|base| - i) == r[i] { Smaller(r[i], |base| - i); }
    assert Choices(|base|, r) == r;
  }

  lemma Smaller(x: nat, n: nat)
    requires x < n
    ensures x % n == x
  {
    DivMod.Unique(x, n, 0, x);
  }

  datatype Config = Config(start: nat, games: nat, rounds: nat, random: bool)

  class OpeningBook {
    var openingIndex: nat
    var openings: seq<Opening>

    /**
      `base` is the book as read from its file, empty when there is no file or no known format;
      `initialMatchcount` is the number of games already played.
     */
    constructor (config: Config, base: seq<Opening>, draws: seq<nat>, initialMatchcount: nat)
      requires config.start >= 1 && config.games >= 1
      requires config.random ==> |draws| + 1 >= |base|
      ensures openingIndex == 0
      ensures openings == Prepared(Ordered(base, config.random, draws),
                                   config.start - 1 + initialMatchcount / config.games, config.rounds)
    {
      openingIndex := 0;
      openings := base;
      new;
      Setup(config, draws, config.start - 1 + initialMatchcount / config.games);
    }

    method Setup(config: Config, draws: seq<nat>, offset: nat)
      requires config.random ==> |draws| + 1 >= |openings|
      modifies this`openings
      ensures openings == Prepared(Ordered(old(openings), config.random, draws), offset, config.rounds)
    {
      if openings == [] { return; }
      if config.random {
        var s := openings;
        var vec := new Opening[|s|](i requires 0 <= i < |s| => s[i]);
        assert vec[..] == s;
        Shuffle(vec, draws);
        openings := vec[..];
      }
      if offset > 0 {
        openings := Rotated(openings, offset);
      } else {
        assert Rotated(openings, 0) == openings;
      }
      openings := Truncated(openings, config.rounds);
    }

    method FetchId() returns (id: Option<nat>)
      modifies this`openingIndex
      ensures openingIndex == old(openingIndex) + 1
      ensures id == IdAt(|openings|, old(openingIndex))
    {
      var idx := openingIndex;
      openingIndex := openingIndex + 1;
      id := if |openings| == 0 then None else Some(idx % |openings|);
    }

  }

  /** The identifier handed out by fetch number `idx`. */
  function IdAt(size: nat, idx: nat): (id: Option<nat>)
    ensures id.Some? ==> id.value < size
  {
    if size == 0 then None else Some(idx % size)
  }

  function OpeningAt(book: seq<Opening>, idx: nat): Opening {
    var id := IdAt(|book|, idx);
    if id.None? then STARTPOS else book[id.value]
  }

  /** Fetch number `idx` deals an opening of the original book. */
  lemma DealtOpening(base: seq<Opening>, offset: nat, rounds: nat, idx: nat)
    requires base != [] && rounds > 0
    ensures var size := if |base| > rounds then rounds else |base|;
            OpeningAt(Prepared(base, offset, rounds), idx) == base[(idx % size + offset) % |base|]
  {
    var size := if |base| > rounds then rounds else |base|;
    RotatedAt(base, offset, idx % size);
  }

  lemma NoBook(offset: nat, rounds: nat, idx: nat)
    ensures OpeningAt(Prepared([], offset, rounds), idx) == STARTPOS
  {}

  /**
    With two engines one opening is fetched per round. A run resumed after `done` rounds deals
    every later round the opening that an uninterrupted run deals it.
   */
  lemma ResumedOpening(base: seq<Opening>, start: nat, rounds: nat, done: nat, round: nat)
    requires start >= 1 && done < round <= rounds
    ensures OpeningAt(Prepared(base, start - 1 + done, rounds), round - 1 - done) ==
            OpeningAt(Prepared(base, start - 1, rounds), round - 1)
  {
    hide OpeningAt, Prepared;
    if base == [] {
      NoBook(start - 1 + done, rounds, round - 1 - done);
      NoBook(start - 1, rounds, round - 1);
      return;
    }
    DealtAt(base, start - 1 + done, rounds, round - 1 - done);
    DealtAt(base, start - 1, rounds, round - 1);
    hide DealtIndex;
    DealtSum(|base|, start - 1 + done, rounds, round - 1 - done, start + round - 2);
    DealtSum(|base|, start - 1, rounds, round - 1, start + round - 2);
  }

  function DealtIndex(n: nat, offset: nat, rounds: nat, idx: nat): (i: nat)
    requires n > 0 && rounds > 0
    ensures i < n
  {
    (idx % (if n > rounds then rounds else n) + offset) % n
  }

  lemma DealtAt(base: seq<Opening>, offset: nat, rounds: nat, idx: nat)
    requires base != [] && rounds > 0
    ensures OpeningAt(Prepared(base, offset, rounds), idx) == base[DealtIndex(|base|, offset, rounds, idx)]
  {
    hide OpeningAt, Prepared;
    DealtOpening(base, offset, rounds, idx);
  }

  /** Within the first `rounds` fetches, truncation and wrap-around do not show. */
  lemma DealtSum(n: nat, offset: nat, rounds: nat, idx: nat, sum: nat)
    requires n > 0 && idx < rounds && idx + offset == sum
    ensures DealtIndex(n, offset, rounds, idx) == sum % n
  {
    if n > rounds {
      DivMod.Unique(idx, rounds, 0, idx);
    } else {
      DivMod.ShiftedMod(idx, offset, n);
    }
  }
}
