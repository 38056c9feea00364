/**
  A tournament in progress as a step system: chains of games are seeded into the pool, workers
  take games in FIFO order, every counted game pulls the next one from the generator
  (app/src/matchmaking/tournament/base/tournament.cpp, roundrobin/roundrobin.cpp and
  core/threading/threadpool.hpp). Games are numbered 0, 1, ... in the order they are generated.
 */
module Tournament {
  import opened Collections

  /** `seeds` chains are started on `workers` workers; the generator yields `total` games. */
  datatype Params = Params(seeds: nat, workers: nat, total: nat)

  datatype State = State(
    seeded: nat,                // chains started so far
    generated: nat,             // games handed out by the generator
    queue: seq<nat>,            // the pool's FIFO queue
    playing: map<nat, nat>,     // worker -> game under way
    counted: set<nat>,          // workers that counted their game but have not pulled the next
    finished: seq<nat>,         // counted games, in the order they were counted
    lost: nat,                  // games that ended without being counted
    ended: nat,                 // pulls that found the generator exhausted
    muted: nat,                 // pulls made after the stop flag was set
    stop: bool)
  {
    predicate Busy(w: nat) { w in playing || w in counted }
  }

  datatype Step =
    | Seed                      // create() starts one more chain
    | Take(worker: nat)         // a worker dequeues a game
    | Finish(worker: nat)       // the game is counted
    | Pull(worker: nat)         // startNext() after a counted game
    | Abort(worker: nat)        // the game ends without a result and without a stop
    | Stop                      // somebody sets the stop flag
    | StallStop(worker: nat)    // a stall without recovery: counted, and the tournament stops
    | Drop(worker: nat)         // a game that notices the stop flag is not counted

  function Init(): State {
    State(0, 0, [], map[], {}, [], 0, 0, 0, false)
  }

  predicate Enabled(p: Params, s: State, x: Step) {
    match x
    case Seed => s.seeded < p.seeds
    case Take(w) => w < p.workers && !s.Busy(w) && s.queue != []
    case Finish(w) => w in s.playing && !s.stop
    case Pull(w) => w in s.counted
    case Abort(w) => w in s.playing && !s.stop
    case Stop => true
    case StallStop(w) => w in s.playing && !s.stop
    case Drop(w) => w in s.playing && s.stop
  }

  /** startNext(): nothing after a stop; otherwise the next game goes to the end of the queue. */
  function PullNext(p: Params, s: State): State {
    if s.stop then s.(muted := s.muted + 1)
    else if s.generated < p.total then s.(generated := s.generated + 1, queue := s.queue + [s.generated])
    else s.(ended := s.ended + 1)
  }

  function Apply(p: Params, s: State, x: Step): State
    requires Enabled(p, s, x)
  {
    match x
    case Seed => PullNext(p, s.(seeded := s.seeded + 1))
    case Take(w) => s.(queue := s.queue[1..], playing := s.playing[w := s.queue[0]])
    case Finish(w) =>
      s.(playing := s.playing - {w}, counted := s.counted + {w}, finished := s.finished + [s.playing[w]])
    case Pull(w) => PullNext(p, s.(counted := s.counted - {w}))
    case Abort(w) => s.(playing := s.playing - {w}, lost := s.lost + 1)
    case Stop => s.(stop := true)
    case StallStop(w) => s.(playing := s.playing - {w}, finished := s.finished + [s.playing[w]], stop := true)
    case Drop(w) => s.(playing := s.playing - {w}, lost := s.lost + 1)
  }

  ghost predicate IsRun(p: Params, xs: seq<Step>) {
    xs == [] || (IsRun(p, xs[..|xs| - 1]) && Enabled(p, After(p, xs[..|xs| - 1]), xs[|xs| - 1]))
  }

  /** The state after a run. */
  ghost function After(p: Params, xs: seq<Step>): State
    ensures xs == [] ==> After(p, xs) == Init()
  {
    if xs == [] then Init()
    else
      var s := After(p, xs[..|xs| - 1]);
      if Enabled(p, s, xs[|xs| - 1]) then Apply(p, s, xs[|xs| - 1]) else s
  }

  // ---------- Invariants of every reachable state ----------

  /** Games handed to a worker so far. */
  function Taken(s: State): int { s.generated - |s.queue| }

  ghost predicate Conserved(s: State) {
    s.generated == |s.queue| + |s.playing| + |s.finished| + s.lost
  }

  /** The queue holds exactly the latest games, oldest first. */
  ghost predicate InOrder(s: State) {
    Taken(s) >= 0 && forall i :: 0 <= i < |s.queue| ==> s.queue[i] == Taken(s) + i
  }

  /** Every game that left the queue is with one worker, or counted once, or lost. */
  ghost predicate NoDuplicates(s: State) {
    && (forall i :: 0 <= i < |s.finished| ==> s.finished[i] < Taken(s))
    && (forall i, j :: 0 <= i < j < |s.finished| ==> s.finished[i] != s.finished[j])
    && (forall w :: w in s.playing ==> s.playing[w] < Taken(s) && s.playing[w] !in s.finished)
    && (forall v, w :: v in s.playing && w in s.playing && v != w ==> s.playing[v] != s.playing[w])
  }

  ghost predicate WorkersFit(p: Params, s: State) {
    && s.playing.Keys !! s.counted
    && (forall w :: w in s.playing ==> w < p.workers)
    && (forall w :: w in s.counted ==> w < p.workers)
  }

  /** Each chain is queued, with a worker, or over. */
  ghost predicate ChainsAccounted(s: State) {
    s.seeded <= |s.queue| + |s.playing| + |s.counted| + s.ended + s.muted + s.lost + (if s.stop then 1 else 0)
  }

  ghost predicate Inv(p: Params, s: State) {
    && Conserved(s) && InOrder(s) && NoDuplicates(s) && WorkersFit(p, s) && ChainsAccounted(s)
    && s.seeded <= p.seeds && s.generated <= p.total
    && (s.ended > 0 ==> s.generated == p.total)
    && (!s.stop ==> s.muted == 0)
  }

  lemma PullKeepsInv(p: Params, s: State, s': State)
    requires s' == PullNext(p, s)
    requires Conserved(s) && InOrder(s) && NoDuplicates(s) && WorkersFit(p, s)
    requires s.generated <= p.total && s.seeded <= p.seeds && (s.ended > 0 ==> s.generated == p.total)
    requires !s.stop ==> s.muted == 0
    requires s.seeded <=
             |s.queue| + |s.playing| + |s.counted| + s.ended + s.muted + s.lost + (if s.stop then 1 else 0) + 1
    ensures Inv(p, s')
  {}

  lemma RemoveKey(m: map<nat, nat>, w: nat)
    requires w in m
    ensures |m - {w}| == |m| - 1
  {
    assert (m - {w}).Keys == m.Keys - {w};
    assert |m.Keys - {w}| == |m.Keys| - 1;
  }

  lemma AddKey(m: map<nat, nat>, w: nat, k: nat)
    requires w !in m
    ensures |m[w := k]| == |m| + 1
  {
    assert m[w := k].Keys == m.Keys + {w};
  }

  lemma TakeKeepsInv(p: Params, s: State, w: nat)
    requires Inv(p, s) && Enabled(p, s, Take(w))
    ensures Inv(p, Apply(p, s, Take(w)))
  {
    AddKey(s.playing, w, s.queue[0]);
  }

  /** A worker's game ends, counted or not; the worker goes on to pull only if it does so next. */
  lemma LeaveKeepsInv(p: Params, s: State, w: nat, count: bool, pull: bool, stop: bool)
    requires Inv(p, s) && w in s.playing
    requires s.stop ==> stop
    requires count && !pull ==> stop && !s.stop
    requires pull ==> count && stop == s.stop
    ensures Inv(p, s.(playing := s.playing - {w},
                      counted := if pull then s.counted + {w} else s.counted,
                      finished := if count then s.finished + [s.playing[w]] else s.finished,
                      lost := if count then s.lost else s.lost + 1,
                      stop := stop))
  {
    hide NoDuplicates;
    RemoveKey(s.playing, w);
    LeaveKeepsDistinct(s, w, count);
    SameGames(s.(playing := s.playing - {w}, finished := if count then s.finished + [s.playing[w]] else s.finished),
              s.(playing := s.playing - {w},
                 counted := if pull then s.counted + {w} else s.counted,
                 finished := if count then s.finished + [s.playing[w]] else s.finished,
                 lost := if count then s.lost else s.lost + 1,
                 stop := stop));
  }

  lemma LeaveKeepsDistinct(s: State, w: nat, count: bool)
    requires NoDuplicates(s) && w in s.playing
    ensures NoDuplicates(s.(playing := s.playing - {w},
                            finished := if count then s.finished + [s.playing[w]] else s.finished))
  {
    if count {
      forall v | v in s.playing && v != w ensures s.playing[v] !in s.finished + [s.playing[w]] {}
    }
  }

  lemma SameGames(s: State, t: State)
    requires NoDuplicates(s) && Taken(s) == Taken(t) && s.finished == t.finished && s.playing == t.playing
    ensures NoDuplicates(t)
  {}

  lemma SeedKeepsInv(p: Params, s: State)
    requires Inv(p, s) && Enabled(p, s, Seed)
    ensures Inv(p, Apply(p, s, Seed))
  {
    PullKeepsInv(p, s.(seeded := s.seeded + 1), Apply(p, s, Seed));
  }

  lemma PullStepKeepsInv(p: Params, s: State, w: nat)
    requires Inv(p, s) && Enabled(p, s, Pull(w))
    ensures Inv(p, Apply(p, s, Pull(w)))
  {
    PullKeepsInv(p, s.(counted := s.counted - {w}), Apply(p, s, Pull(w)));
  }

  lemma StopKeepsInv(p: Params, s: State)
    requires Inv(p, s)
    ensures Inv(p, s.(stop := true))
  {}

  /** Every step of every worker keeps the invariant. */
  lemma StepKeepsInv(p: Params, s: State, x: Step)
    requires Inv(p, s) && Enabled(p, s, x)
    ensures Inv(p, Apply(p, s, x))
  {
    hide Inv;
    match x
    case Seed => SeedKeepsInv(p, s);
    case Take(w) => TakeKeepsInv(p, s, w);
    case Finish(w) => LeaveKeepsInv(p, s, w, true, true, false);
    case Pull(w) => PullStepKeepsInv(p, s, w);
    case Abort(w) => LeaveKeepsInv(p, s, w, false, false, false);
    case Stop => StopKeepsInv(p, s);
    case StallStop(w) => LeaveKeepsInv(p, s, w, true, false, true);
    case Drop(w) => LeaveKeepsInv(p, s, w, false, false, true);
  }

  lemma {:induction false} RunKeepsInv(p: Params, xs: seq<Step>)
    requires IsRun(p, xs)
    ensures Inv(p, After(p, xs))
  {
    if xs != [] {
      RunKeepsInv(p, xs[..|xs| - 1]);
      StepKeepsInv(p, After(p, xs[..|xs| - 1]), xs[|xs| - 1]);
    }
  }

  /** A run goes on with any step that is enabled. */
  lemma Extend(p: Params, xs: seq<Step>, x: Step)
    requires IsRun(p, xs) && Enabled(p, After(p, xs), x)
    ensures IsRun(p, xs + [x]) && After(p, xs + [x]) == Apply(p, After(p, xs), x)
  {
    assert (xs + [x])[..|xs|] == xs;
  }

  lemma CountedOnce(p: Params, xs: seq<Step>)
    requires IsRun(p, xs)
    ensures Distinct(After(p, xs).finished) && forall k :: k in After(p, xs).finished ==> k < p.total
  {
    RunKeepsInv(p, xs);
  }

  // ---------- Order and concurrency ----------

  function UpTo(n: nat): (s: seq<nat>)
    ensures |s| == n
  {
    seq(n, i => i)
  }

  lemma NothingUpTo()
    ensures UpTo(0) == []
  {}

  lemma UpToNext(n: nat)
    ensures UpTo(n + 1) == UpTo(n) + [n]
  {}

  /** The games handed to workers during a run, in order. */
  ghost function Dequeued(p: Params, xs: seq<Step>): seq<nat> {
    if xs == [] then []
    else
      var s, x := After(p, xs[..|xs| - 1]), xs[|xs| - 1];
      Dequeued(p, xs[..|xs| - 1]) + if x.Take? && s.queue != [] then [s.queue[0]] else []
  }

  lemma TakenChange(p: Params, s: State, x: Step)
    requires Inv(p, s) && Enabled(p, s, x)
    ensures Taken(Apply(p, s, x)) == Taken(s) + if x.Take? then 1 else 0
    ensures x.Take? ==> s.queue != [] && s.queue[0] == Taken(s)
  {
    hide NoDuplicates, WorkersFit;
  }

  /** Games start in the order they were generated, and none is skipped. */
  lemma {:induction false} StartsInOrder(p: Params, xs: seq<Step>)
    requires IsRun(p, xs)
    ensures Taken(After(p, xs)) >= 0 && Dequeued(p, xs) == UpTo(Taken(After(p, xs)))
  {
    hide NoDuplicates, WorkersFit, ChainsAccounted, Conserved, Apply, Enabled, UpTo;
    NothingUpTo();
    RunKeepsInv(p, xs);
    if xs != [] {
      var ys, x := xs[..|xs| - 1], xs[|xs| - 1];
      RunKeepsInv(p, ys);
      StartsInOrder(p, ys);
      var s := After(p, ys);
      TakenChange(p, s, x);
      UpToNext(Taken(s));
    }
  }

  lemma {:induction false} BoundedSet(ws: set<nat>, n: nat)
    requires forall w :: w in ws ==> w < n
    ensures |ws| <= n
  {
    if n > 0 {
      BoundedSet(ws - {n - 1}, n - 1);
    } else {
      assert ws == {};
    }
  }

  /** However many chains were seeded, no more games run than there are workers. */
  lemma ConcurrencyBound(p: Params, xs: seq<Step>)
    requires IsRun(p, xs)
    ensures |After(p, xs).playing| + |After(p, xs).counted| <= p.workers
  {
    RunKeepsInv(p, xs);
    var s := After(p, xs);
    BoundedSet(s.playing.Keys + s.counted, p.workers);
    assert |s.playing.Keys + s.counted| == |s.playing.Keys| + |s.counted|;
  }

  // ---------- Particular runs ----------

  function Seeds(n: nat): seq<Step> { seq(n, _ => Seed) }

  function Min(a: nat, b: nat): nat { if a < b then a else b }

  /** Starting `n` chains queues the first games, one per chain as long as there are any. */
  lemma {:induction false} SeedsQueueGames(p: Params, n: nat)
    requires n <= p.seeds
    ensures IsRun(p, Seeds(n))
    ensures var m := Min(n, p.total);
            After(p, Seeds(n)) == Init().(seeded := n, generated := m, queue := UpTo(m), ended := n - m)
  {
    hide UpTo;
    if n == 0 {
      NothingUpTo();
      assert Seeds(0) == [];
    } else {
      SeedsQueueGames(p, n - 1);
      Extend(p, Seeds(n - 1), Seed);
      assert Seeds(n) == Seeds(n - 1) + [Seed];
      UpToNext(Min(n - 1, p.total));
    }
  }

  lemma NoSeeds(p: Params)
    ensures Seeds(0) == [] && IsRun(p, Seeds(0)) && After(p, Seeds(0)) == Init()
  {}

  lemma NextSeed(p: Params, i: nat)
    requires i < p.seeds && IsRun(p, Seeds(i))
    ensures IsRun(p, Seeds(i + 1))
    ensures var s := After(p, Seeds(i)); After(p, Seeds(i + 1)) == PullNext(p, s.(seeded := s.seeded + 1))
  {
    SeedsQueueGames(p, i);
    hide After, UpTo;
    Extend(p, Seeds(i), Seed);
    assert Seeds(i + 1) == Seeds(i) + [Seed];
  }

  /** One worker plays one game in the normal way. */
  function Play(w: nat): seq<Step> { [Take(w), Finish(w), Pull(w)] }

  lemma PlayOne(p: Params, xs: seq<Step>, w: nat)
    requires IsRun(p, xs) && !After(p, xs).stop
    requires w < p.workers && !After(p, xs).Busy(w) && After(p, xs).queue != []
    ensures IsRun(p, xs + Play(w))
    ensures var s := After(p, xs);
            After(p, xs + Play(w)) ==
            PullNext(p, s.(queue := s.queue[1..], finished := s.finished + [s.queue[0]]))
  {
    hide IsRun, After;
    var s := After(p, xs);
    Extend(p, xs, Take(w));
    Extend(p, xs + [Take(w)], Finish(w));
    Extend(p, xs + [Take(w)] + [Finish(w)], Pull(w));
    assert xs + Play(w) == xs + [Take(w)] + [Finish(w)] + [Pull(w)];
    assert s.playing[w := s.queue[0]] - {w} == s.playing && s.counted + {w} - {w} == s.counted;
  }

  lemma PullKeeps(p: Params, s: State)
    requires !s.stop
    ensures s.queue <= PullNext(p, s).queue && PullNext(p, s).finished == s.finished
    ensures PullNext(p, s).playing == s.playing && PullNext(p, s).counted == s.counted && !PullNext(p, s).stop
  {}

  /** Worker 0 is busy with game 0 while worker 1 plays games 1, 2 and 3. */
  function LateRun(): seq<Step> { Seeds(4) + [Take(0)] + Play(1) + Play(1) + Play(1) }

  /** Worker 0 holds game 0, worker 1 is free, and the queue goes on with `queue`. */
  ghost predicate Waiting(s: State, queue: seq<nat>, finished: seq<nat>) {
    s.playing.Keys == {0} && s.counted == {} && !s.stop && queue <= s.queue && s.finished == finished
  }

  lemma PlayWaiting(p: Params, xs: seq<Step>, queue: seq<nat>, finished: seq<nat>)
    requires IsRun(p, xs) && Waiting(After(p, xs), queue, finished) && queue != [] && p.workers >= 2
    ensures IsRun(p, xs + Play(1)) && Waiting(After(p, xs + Play(1)), queue[1..], finished + [queue[0]])
  {
    hide IsRun, After;
    PlayOne(p, xs, 1);
    var s := After(p, xs);
    PullKeeps(p, s.(queue := s.queue[1..], finished := s.finished + [s.queue[0]]));
  }

  lemma LateRunFinishes(p: Params)
    requires p.seeds >= 4 && p.workers >= 2 && p.total >= 4
    ensures IsRun(p, LateRun()) && After(p, LateRun()).finished == [1, 2, 3]
  {
    hide IsRun, After, Waiting, Play;
    var xs := Seeds(4) + [Take(0)];
    assert [1, 2, 3][1..] == [2, 3] && [2, 3][1..] == [3] && [3][1..] == [];
    assert [] + [1] == [1] && [1] + [2] == [1, 2] && [1, 2] + [3] == [1, 2, 3];
    LateStart(p);
    PlayWaiting(p, xs, [1, 2, 3], []);
    PlayWaiting(p, xs + Play(1), [2, 3], [1]);
    PlayWaiting(p, xs + Play(1) + Play(1), [3], [1, 2]);
    WaitingFinished(After(p, LateRun()), [], [1, 2, 3]);
  }

  lemma LateStart(p: Params)
    requires p.seeds >= 4 && p.workers >= 2 && p.total >= 4
    ensures IsRun(p, Seeds(4) + [Take(0)]) && Waiting(After(p, Seeds(4) + [Take(0)]), [1, 2, 3], [])
  {
    hide IsRun, After;
    SeedsQueueGames(p, 4);
    Extend(p, Seeds(4), Take(0));
    assert UpTo(4) == [0, 1, 2, 3];
  }

  lemma WaitingFinished(s: State, queue: seq<nat>, finished: seq<nat>)
    requires Waiting(s, queue, finished)
    ensures s.finished == finished
  {}

  // ---------- A single chain ----------

  /** At most one game is queued, under way or just counted, and games finish in order. */
  ghost predicate OneAtATime(s: State) {
    && |s.queue| + |s.playing| + |s.counted| + s.lost <= s.seeded <= 1
    && s.finished == UpTo(|s.finished|)
    && (forall w :: w in s.playing ==> s.playing[w] == |s.finished|)
  }

  lemma NoneLeft(m: map<nat, nat>, w: nat)
    requires w in m && |m| <= 1
    ensures m - {w} == map[] && |m - {w}| == |m| - 1
  {
    RemoveKey(m, w);
    assert |m - {w}| == 0;
  }

  lemma PullOneAtATime(p: Params, s: State)
    requires s.finished == UpTo(|s.finished|) && forall w :: w in s.playing ==> s.playing[w] == |s.finished|
    requires |s.queue| + |s.playing| + |s.counted| + s.lost + 1 <= s.seeded <= 1
    ensures OneAtATime(PullNext(p, s))
  {}

  lemma TakeOneAtATime(p: Params, s: State, w: nat)
    requires Conserved(s) && InOrder(s) && OneAtATime(s) && Enabled(p, s, Take(w))
    ensures OneAtATime(Apply(p, s, Take(w)))
  {
    hide UpTo;
    AddKey(s.playing, w, s.queue[0]);
    assert s.queue[0] == Taken(s) == |s.finished|;
  }

  lemma LeaveOneAtATime(s: State, w: nat, counted: set<nat>, lost: nat, stop: bool)
    requires OneAtATime(s) && w in s.playing && |counted| + lost <= |s.counted| + s.lost + 1
    ensures OneAtATime(s.(playing := s.playing - {w}, counted := counted, lost := lost, stop := stop,
                          finished := s.finished + [s.playing[w]]))
    ensures OneAtATime(s.(playing := s.playing - {w}, counted := counted, lost := lost, stop := stop))
  {
    hide UpTo;
    NoneLeft(s.playing, w);
    UpToNext(|s.finished|);
  }

  lemma PullStepOneAtATime(p: Params, s: State, w: nat)
    requires OneAtATime(s) && Enabled(p, s, Pull(w))
    ensures OneAtATime(Apply(p, s, Pull(w)))
  {
    hide UpTo;
    PullOneAtATime(p, s.(counted := s.counted - {w}));
  }

  lemma SeedOneAtATime(p: Params, s: State)
    requires OneAtATime(s) && Enabled(p, s, Seed) && p.seeds == 1
    ensures OneAtATime(Apply(p, s, Seed))
  {
    hide UpTo;
    PullOneAtATime(p, s.(seeded := s.seeded + 1));
  }

  lemma StopOneAtATime(s: State)
    requires OneAtATime(s)
    ensures OneAtATime(s.(stop := true))
  {}

  lemma StepOneAtATime(p: Params, s: State, x: Step)
    requires Conserved(s) && InOrder(s) && OneAtATime(s) && Enabled(p, s, x) && p.seeds == 1
    ensures OneAtATime(Apply(p, s, x))
  {
    hide OneAtATime, Conserved, InOrder;
    match x
    case Seed => SeedOneAtATime(p, s);
    case Take(w) => TakeOneAtATime(p, s, w);
    case Finish(w) => LeaveOneAtATime(s, w, s.counted + {w}, s.lost, s.stop);
    case Pull(w) => PullStepOneAtATime(p, s, w);
    case Abort(w) => LeaveOneAtATime(s, w, s.counted, s.lost + 1, s.stop);
    case Stop => StopOneAtATime(s);
    case StallStop(w) => LeaveOneAtATime(s, w, s.counted, s.lost, true);
    case Drop(w) => LeaveOneAtATime(s, w, s.counted, s.lost + 1, s.stop);
  }

  /** With a single chain games are counted in the order of their numbers, whatever goes wrong. */
  lemma {:induction false} OneChainInOrder(p: Params, xs: seq<Step>)
    requires IsRun(p, xs) && p.seeds == 1
    ensures OneAtATime(After(p, xs))
  {
    hide Enabled, Apply, OneAtATime, NoDuplicates, WorkersFit, ChainsAccounted;
    if xs == [] {
      NothingAtATime();
    } else {
      var ys := xs[..|xs| - 1];
      RunKeepsInv(p, ys);
      OneChainInOrder(p, ys);
      StepOneAtATime(p, After(p, ys), xs[|xs| - 1]);
    }
  }

  lemma NothingAtATime()
    ensures OneAtATime(Init())
  {}

  // ---------- Progress ----------

  /** Nothing can happen any more, short of a stop. */
  ghost predicate Quiet(p: Params, s: State) {
    forall x: Step :: Enabled(p, s, x) ==> x == Stop
  }

  /** The tournament has come to rest by itself, and no game was lost. */
  ghost predicate Complete(p: Params, xs: seq<Step>) {
    IsRun(p, xs) && Quiet(p, After(p, xs)) && !After(p, xs).stop && After(p, xs).lost == 0
  }

  lemma QuietMeansIdle(p: Params, s: State)
    requires Inv(p, s) && Quiet(p, s) && p.workers >= 1
    ensures s.seeded == p.seeds && s.queue == [] && |s.playing| == 0 && s.counted == {}
  {
    assert !Enabled(p, s, Seed);
    forall w: nat ensures w !in s.playing && w !in s.counted {
      assert !Enabled(p, s, Finish(w)) && !Enabled(p, s, Drop(w)) && !Enabled(p, s, Pull(w));
    }
    assert s.playing.Keys == {};
    assert !Enabled(p, s, Take(0));
  }

  /** The games of a whole tournament, in any order. */
  ghost predicate AllGames(games: seq<nat>, total: nat) {
    |games| == total && multiset(games) == multiset(UpTo(total))
  }

  lemma WithoutOne(games: seq<nat>, i: nat)
    requires Distinct(games) && i < |games|
    ensures var rest := games[..i] + games[i + 1..];
            && Distinct(rest)
            && (forall g :: g in rest ==> g in games && g != games[i])
            && multiset(games) == multiset(rest) + multiset{games[i]}
  {
    RemoveAt(games, i);
  }

  /** `n` different numbers below `n` are all of them. */
  lemma {:induction false} DistinctBelow(games: seq<nat>, n: nat)
    requires |games| == n && Distinct(games)
    requires forall g :: g in games ==> g < n
    ensures multiset(games) == multiset(UpTo(n))
  {
    hide Distinct, UpTo;
    if n == 0 {
      NothingUpTo();
    } else {
      DistinctCount(games);
      if n - 1 !in games { BoundedSet(Members(games), n - 1); }
      var i :| 0 <= i < n && games[i] == n - 1;
      WithoutOne(games, i);
      DistinctBelow(games[..i] + games[i + 1..], n - 1);
      UpToNext(n - 1);
    }
  }

  /** How many games of a run ended without a result while the tournament went on. */
  function Aborts(xs: seq<Step>): nat {
    if xs == [] then 0 else Aborts(xs[..|xs| - 1]) + if xs[|xs| - 1].Abort? then 1 else 0
  }

  lemma {:induction false} LostCountsAborts(p: Params, xs: seq<Step>)
    requires IsRun(p, xs) && !After(p, xs).stop
    ensures After(p, xs).lost == Aborts(xs)
  {
    if xs != [] { LostCountsAborts(p, xs[..|xs| - 1]); }
  }

  lemma {:induction false} NoAborts(xs: seq<Step>)
    ensures Aborts(xs) == 0 <==> forall x :: x in xs ==> !x.Abort?
  {
    if xs != [] {
      var n := |xs| - 1;
      NoAborts(xs[..n]);
      assert xs == xs[..n] + [xs[n]];
    }
  }

  /**
    A tournament that was not stopped and has come to rest has counted every game, each once,
    exactly when no game ended without a result. With fewer such games than chains only those
    games are missing; `AllChainsDie` shows what happens with more.
   */
  lemma RestMeansComplete(p: Params, xs: seq<Step>)
    requires IsRun(p, xs) && p.workers >= 1 && p.seeds >= 1
    requires Quiet(p, After(p, xs)) && !After(p, xs).stop
    ensures AllGames(After(p, xs).finished, p.total) <==> forall x :: x in xs ==> !x.Abort?
    ensures After(p, xs).lost == 0 <==> forall x :: x in xs ==> !x.Abort?
    ensures After(p, xs).lost == 0 <==> |After(p, xs).finished| == p.total
    ensures Aborts(xs) < p.seeds ==> |After(p, xs).finished| == p.total - Aborts(xs)
  {
    RunKeepsInv(p, xs);
    LostCountsAborts(p, xs);
    NoAborts(xs);
    RestCounts(p, After(p, xs));
  }

  lemma RestCounts(p: Params, s: State)
    requires Inv(p, s) && Quiet(p, s) && !s.stop && p.workers >= 1 && p.seeds >= 1
    ensures AllGames(s.finished, p.total) <==> s.lost == 0
    ensures s.lost == 0 <==> |s.finished| == p.total
    ensures s.lost < p.seeds ==> |s.finished| == p.total - s.lost
  {
    QuietMeansIdle(p, s);
    if s.lost == 0 { DistinctBelow(s.finished, p.total); }
  }

  /** So with games outstanding and none lost, somebody can always move. */
  lemma NeverStuck(p: Params, xs: seq<Step>)
    requires IsRun(p, xs) && p.workers >= 1 && p.seeds >= 1
    requires !After(p, xs).stop && After(p, xs).lost == 0 && |After(p, xs).finished| < p.total
    ensures exists x: Step :: x != Stop && Enabled(p, After(p, xs), x)
  {
    if Quiet(p, After(p, xs)) {
      RunKeepsInv(p, xs);
      RestCounts(p, After(p, xs));
    }
  }

  function Deaths(n: nat): seq<Step> {
    if n == 0 then [] else Deaths(n - 1) + [Take(0), Abort(0)]
  }

  lemma DieOne(p: Params, xs: seq<Step>)
    requires IsRun(p, xs) && !After(p, xs).stop && p.workers >= 1
    requires !After(p, xs).Busy(0) && After(p, xs).queue != []
    ensures IsRun(p, xs + [Take(0), Abort(0)])
    ensures var s := After(p, xs);
            After(p, xs + [Take(0), Abort(0)]) == s.(queue := s.queue[1..], lost := s.lost + 1)
  {
    hide IsRun, After;
    var s := After(p, xs);
    Extend(p, xs, Take(0));
    Extend(p, xs + [Take(0)], Abort(0));
    assert xs + [Take(0), Abort(0)] == xs + [Take(0)] + [Abort(0)];
    assert s.playing[0 := s.queue[0]] - {0} == s.playing;
  }

  lemma {:induction false} ChainsDie(p: Params, n: nat)
    requires p.workers >= 1 && n <= p.seeds < p.total
    ensures IsRun(p, Seeds(p.seeds) + Deaths(n))
    ensures After(p, Seeds(p.seeds) + Deaths(n)) ==
            Init().(seeded := p.seeds, generated := p.seeds, queue := UpTo(p.seeds)[n..], lost := n)
    decreases n
  {
    hide IsRun, After, UpTo;
    SeedsQueueGames(p, p.seeds);
    if n == 0 {
      assert Seeds(p.seeds) + Deaths(0) == Seeds(p.seeds);
    } else {
      var xs := Seeds(p.seeds) + Deaths(n - 1);
      ChainsDie(p, n - 1);
      DieOne(p, xs);
      assert Seeds(p.seeds) + Deaths(n) == xs + [Take(0), Abort(0)];
    }
  }

  /** As many lost games as chains end the tournament early: all workers are free, but games were never started. */
  lemma AllChainsDie(p: Params)
    requires p.workers >= 1 && p.seeds < p.total
    ensures var xs := Seeds(p.seeds) + Deaths(p.seeds);
            && IsRun(p, xs) && Quiet(p, After(p, xs)) && !After(p, xs).stop
            && After(p, xs).finished == [] && After(p, xs).generated == p.seeds < p.total
  {
    hide IsRun, After;
    ChainsDie(p, p.seeds);
    var s := After(p, Seeds(p.seeds) + Deaths(p.seeds));
    assert s.queue == [];
    forall x: Step | Enabled(p, s, x) ensures x == Stop {}
  }

  function Measure(p: Params, s: State): int {
    4 * (p.total - s.generated) + 3 * |s.queue| + 2 * |s.playing| + |s.counted| + (p.seeds - s.seeded)
  }

  lemma StepDecreasesMeasure(p: Params, s: State, x: Step)
    requires Inv(p, s) && Enabled(p, s, x) && x != Stop
    ensures Measure(p, Apply(p, s, x)) < Measure(p, s)
  {
    match x
    case Seed =>
    case Take(w) => AddKey(s.playing, w, s.queue[0]);
    case Pull(w) =>
    case Finish(w) => RemoveKey(s.playing, w);
    case Abort(w) => RemoveKey(s.playing, w);
    case StallStop(w) => RemoveKey(s.playing, w);
    case Drop(w) => RemoveKey(s.playing, w);
  }

  /** And nobody can move forever: a run without stops is bounded by the size of the tournament. */
  lemma {:induction false} RunsAreBounded(p: Params, xs: seq<Step>)
    requires IsRun(p, xs) && Stop !in xs
    ensures |xs| <= 4 * p.total + p.seeds - Measure(p, After(p, xs))
    ensures |xs| <= 4 * p.total + p.seeds
  {
    RunKeepsInv(p, xs);
    if xs != [] {
      var ys := xs[..|xs| - 1];
      RunKeepsInv(p, ys);
      RunsAreBounded(p, ys);
      StepDecreasesMeasure(p, After(p, ys), xs[|xs| - 1]);
    }
  }
}
