/**
  The FIFO thread pool (app/src/core/threading/threadpool.hpp). Every method is one critical
  section; `slots` is the vector of threads, of which only some hold a live worker.
 */
module ThreadPool {
  import opened Options

  datatype Result = Ok | Error(message: string)

  function LiveCount(slots: seq<bool>): nat {
    if slots == [] then 0 else LiveCount(slots[..|slots| - 1]) + if slots[|slots| - 1] then 1 else 0
  }

  class ThreadPool<T> {
    var tasks: seq<T>
    var slots: seq<bool>
    var stop: bool

    constructor (n: nat)
      ensures tasks == [] && !stop && slots == seq(n, _ => true)
    {
      tasks, slots, stop := [], seq(n, _ => true), false;
    }

    function GetNumThreads(): nat
      reads this
    {
      |slots|
    }

    /** Threads that actually take tasks. */
    function Workers(): nat
      reads this
    {
      LiveCount(slots)
    }

    method Enqueue(task: T) returns (r: Result)
      modifies this`tasks
      ensures r.Ok? <==> !stop
      ensures tasks == if stop then old(tasks) else old(tasks) + [task]
    {
      if stop { return Error("enqueue on stopped ThreadPool"); }
      tasks := tasks + [task];
      return Ok;
    }

    /** A worker's turn: the oldest task, if there is one. */
    method Take() returns (task: Option<T>)
      modifies this`tasks
      ensures old(tasks) == [] ==> task == None && tasks == []
      ensures old(tasks) != [] ==> task == Some(old(tasks)[0]) && tasks == old(tasks)[1..]
    {
      if tasks == [] { return None; }
      task := Some(tasks[0]);
      tasks := tasks[1..];
    }

    method Kill()
      modifies this
      ensures stop
      ensures old(stop) ==> tasks == old(tasks) && slots == old(slots)
      ensures !old(stop) ==> tasks == [] && slots == []
    {
      if stop { return; }
      stop := true;
      tasks := [];
      slots := [];
    }

    method Resize(n: nat) returns (r: Result)
      modifies this
      ensures r.Error? <==> n == 0
      ensures n == 0 || n == old(|slots|) ==> tasks == old(tasks) && slots == old(slots) && stop == old(stop)
      ensures n != 0 && n != old(|slots|) ==>
                && !stop
                && GetNumThreads() == 2 * n && Workers() == n
                && (!old(stop) ==> tasks == [])
                && (old(stop) ==> tasks == old(tasks))
    {
      if n == 0 { return Error("ThreadPool::resize() - num_threads cannot be 0"); }
      if n == |slots| { return Ok; }
      Kill();
      stop := false;
      slots := seq(n, _ => false);
      NoLive(n);
      for i := 0 to n
        invariant |slots| == n + i && LiveCount(slots) == i
        invariant !stop
        invariant !old(stop) ==> tasks == []
        invariant old(stop) ==> tasks == old(tasks)
      {
        ghost var before := slots;
        slots := slots + [true];
        assert slots[..|slots| - 1] == before;
      }
      return Ok;
    }
  }

  lemma {:induction false} NoLive(n: nat)
    ensures LiveCount(seq(n, _ => false)) == 0
  {
    if n > 0 {
      assert seq(n, _ => false)[..n - 1] == seq(n - 1, _ => false);
      NoLive(n - 1);
    }
  }

  /** The tournament's pool: one worker at first, then resized to the concurrency. */
  method TournamentPool<T>(concurrency: nat) returns (pool: ThreadPool<T>)
    requires concurrency >= 1
    ensures fresh(pool) && pool.tasks == [] && !pool.stop
    ensures pool.Workers() == concurrency
    ensures pool.GetNumThreads() == if concurrency == 1 then 1 else 2 * concurrency
  {
    pool := new ThreadPool(1);
    assert pool.slots == [true];
    assert LiveCount([true]) == 1;
    var _ := pool.Resize(concurrency);
  }
}
