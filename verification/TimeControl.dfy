/** A player's clock (app/src/game/timecontrol/timecontrol.cpp), in milliseconds. */
module TimeControl {
  import DivMod

  datatype Limits = Limits(increment: int, fixedTime: int, time: int, moves: int, timemargin: int) {
    /** Time is kept and not reset on every move. */
    predicate Running() { fixedTime == 0 && time + increment != 0 }
  }

  datatype Clock = Clock(timeLeft: int, movesLeft: int)

  function Start(l: Limits): Clock {
    Clock(if l.fixedTime != 0 then l.fixedTime else l.time + l.increment, l.moves)
  }

  /** The time a move may use: what is left, plus a new period when the old one is over. */
  function Available(l: Limits, c: Clock): int {
    c.timeLeft + if l.moves > 0 && c.movesLeft == 1 then l.time else 0
  }

  /** The clock after a move of `elapsed`, and whether the move was in time. */
  function Tick(l: Limits, c: Clock, elapsed: int): (Clock, bool) {
    var movesLeft := if l.moves > 0 then (if c.movesLeft == 1 then l.moves else c.movesLeft - 1) else c.movesLeft;
    var left := Available(l, c) - elapsed;
    if l.fixedTime == 0 && l.time + l.increment == 0 then (Clock(Available(l, c), movesLeft), true)
    else if left < -l.timemargin then (Clock(left, movesLeft), false)
    else if l.fixedTime != 0 then (Clock(l.fixedTime, movesLeft), true)
    else (Clock((if left < 0 then 0 else left) + l.increment, movesLeft), true)
  }

  class TimeControl {
    const limits: Limits
    var timeLeft: int
    var movesLeft: int

    constructor (limits: Limits)
      ensures this.limits == limits && Value() == Start(limits)
    {
      this.limits := limits;
      if limits.fixedTime != 0 {
        timeLeft := limits.fixedTime;
      } else {
        timeLeft := limits.time + limits.increment;
      }
      movesLeft := limits.moves;
    }

    function Value(): Clock
      reads this
    {
      Clock(timeLeft, movesLeft)
    }

    method UpdateTime(elapsed: int) returns (ok: bool)
      modifies this
      ensures (Value(), ok) == Tick(limits, old(Value()), elapsed)
    {
      if limits.moves > 0 {
        if movesLeft == 1 {
          movesLeft := limits.moves;
          timeLeft := timeLeft + limits.time;
        } else {
          movesLeft := movesLeft - 1;
        }
      }
      if limits.fixedTime == 0 && limits.time + limits.increment == 0 {
        return true;
      }
      timeLeft := timeLeft - elapsed;
      if timeLeft < -limits.timemargin {
        return false;
      }
      if timeLeft < 0 {
        timeLeft := 0;
      }
      timeLeft := timeLeft + limits.increment;
      if limits.fixedTime != 0 { timeLeft := limits.fixedTime; }
      return true;
    }
  }

  // ---------- Whole games ----------

  /** The clock after moves that took `es`, and whether all of them were in time. */
  function After(l: Limits, es: seq<int>): (Clock, bool) {
    if es == [] then (Start(l), true)
    else
      var (c, ok) := After(l, es[..|es| - 1]);
      var (c', ok') := Tick(l, c, es[|es| - 1]);
      (c', ok && ok')
  }

  function Elapsed(es: seq<int>): int {
    if es == [] then 0 else Elapsed(es[..|es| - 1]) + es[|es| - 1]
  }

  /** All the time handed out for `n` moves: the start, the increments, and the periods begun. */
  function Budget(l: Limits, n: nat): int {
    l.time + l.increment + n * l.increment + if l.moves > 0 then n / l.moves * l.time else 0
  }

  lemma NextMove(n: nat, m: nat)
    requires m > 0
    ensures n % m == m - 1 ==> (n + 1) / m == n / m + 1 && (n + 1) % m == 0
    ensures n % m < m - 1 ==> (n + 1) / m == n / m && (n + 1) % m == n % m + 1
  {
    assert n == m * (n / m) + n % m;
    if n % m == m - 1 {
      assert n + 1 == m * (n / m + 1);
      DivMod.Unique(n + 1, m, n / m + 1, 0);
    } else {
      DivMod.Unique(n + 1, m, n / m, n % m + 1);
    }
  }

  /** Every move made, in time or not, counts towards the current period. */
  lemma {:induction false} MovesCounted(l: Limits, es: seq<int>)
    requires l.moves > 0
    ensures After(l, es).0.movesLeft == l.moves - |es| % l.moves
  {
    if es != [] {
      MovesCounted(l, es[..|es| - 1]);
      NextMove(|es| - 1, l.moves);
    }
  }

  function Excess(used: int, had: int): nat { if used > had then used - had else 0 }

  /** How far the moves together ran over the time each had; within the margin this is written off. */
  function WrittenOff(l: Limits, es: seq<int>): nat {
    if es == [] then 0
    else
      var n := |es| - 1;
      WrittenOff(l, es[..n]) + Excess(es[n], Available(l, After(l, es[..n]).0))
  }

  lemma BudgetGrows(l: Limits, n: nat, c: Clock)
    requires l.moves > 0 ==> c.movesLeft == l.moves - n % l.moves
    ensures Budget(l, n + 1) == Budget(l, n) + l.increment + Available(l, c) - c.timeLeft
  {
    assert (n + 1) * l.increment == n * l.increment + l.increment;
    if l.moves > 0 {
      NextMove(n, l.moves);
      assert (n / l.moves + 1) * l.time == n / l.moves * l.time + l.time;
    }
  }

  /**
    Conservation: time used and time left add up to the budget and the overruns written off. Without
    a margin there are none, and a margin forgives each move that much at most.
   */
  lemma {:induction false} TimeConserved(l: Limits, es: seq<int>)
    requires l.Running() && After(l, es).1
    ensures Elapsed(es) + After(l, es).0.timeLeft == Budget(l, |es|) + WrittenOff(l, es)
    ensures WrittenOff(l, es) <= |es| * Excess(l.timemargin, 0)
    ensures es != [] ==> After(l, es).0.timeLeft >= l.increment
  {
    hide Budget;
    if es == [] {
      StartingBudget(l);
    } else {
      var n, c := |es| - 1, After(l, es[..|es| - 1]).0;
      TimeConserved(l, es[..n]);
      if l.moves > 0 { MovesCounted(l, es[..n]); }
      BudgetGrows(l, n, c);
      assert (n + 1) * Excess(l.timemargin, 0) == n * Excess(l.timemargin, 0) + Excess(l.timemargin, 0);
    }
  }

  lemma StartingBudget(l: Limits)
    ensures Budget(l, 0) == l.time + l.increment
  {}

  /**
    Seen over the whole game: a move is rejected exactly if it exhausts everything handed out so far,
    what was written off, and the margin on top; the clock is then below zero by what is missing.
   */
  lemma RejectedExactlyWhenOverBudget(l: Limits, es: seq<int>, elapsed: int)
    requires l.Running() && After(l, es).1
    ensures var granted := Budget(l, |es| + 1) - l.increment + WrittenOff(l, es);
            && (!After(l, es + [elapsed]).1 <==> Elapsed(es) + elapsed > granted + l.timemargin)
            && (!After(l, es + [elapsed]).1 ==> After(l, es + [elapsed]).0.timeLeft == granted - Elapsed(es) - elapsed)
  {
    hide Budget, WrittenOff;
    assert (es + [elapsed])[..|es|] == es;
    TimeConserved(l, es);
    if l.moves > 0 { MovesCounted(l, es); }
    BudgetGrows(l, |es|, After(l, es).0);
  }

  /** With a fixed time per move every move starts from the same clock. */
  lemma {:induction false} FixedTimeResets(l: Limits, es: seq<int>)
    requires l.fixedTime != 0 && After(l, es).1
    ensures After(l, es).0.timeLeft == l.fixedTime
  {
    if es != [] { FixedTimeResets(l, es[..|es| - 1]); }
  }

  /** With a fixed time per move a move is rejected exactly if it alone took longer, margin and new period included. */
  lemma RejectedExactlyWhenTooLong(l: Limits, es: seq<int>, elapsed: int)
    requires l.fixedTime != 0 && After(l, es).1
    ensures var period := if l.moves > 0 && (|es| + 1) % l.moves == 0 then l.time else 0;
            && (!After(l, es + [elapsed]).1 <==> elapsed > l.fixedTime + period + l.timemargin)
            && (!After(l, es + [elapsed]).1 ==> After(l, es + [elapsed]).0.timeLeft == l.fixedTime + period - elapsed)
  {
    assert (es + [elapsed])[..|es|] == es;
    FixedTimeResets(l, es);
    if l.moves > 0 {
      MovesCounted(l, es);
      NextMove(|es|, l.moves);
    }
  }

  /** Without time or increment nothing is ever rejected. */
  lemma {:induction false} UnlimitedIsInTime(l: Limits, es: seq<int>)
    requires l.fixedTime == 0 && l.time + l.increment == 0
    ensures After(l, es).1
  {
    if es != [] { UnlimitedIsInTime(l, es[..|es| - 1]); }
  }
}
