// The loop's own code on its run queues: submission, cancellation, the two handlers, and the end of a loop run.
module RunQueues {
  import opened RunQueuesModel

  // std::remove_if and deque::erase.
  method RemoveItem(q: seq<RunId>, id: RunId) returns (r: seq<RunId>, found: bool)
    ensures r == Remove(q, id) && found == (id in q)
  {
    r, found := [], false;
    var i := 0;
    while i < |q|
      invariant 0 <= i <= |q|
      invariant Remove(q, id) == r + Remove(q[i..], id)
      invariant found == (id in q[..i])
    {
      assert q[i..][1..] == q[i + 1..];
      if q[i] == id {
        found := true;
      } else {
        r := r + [q[i]];
      }
      i := i + 1;
    }
    assert q[..i] == q && q[i..] == [];
  }

  /** The loop's own code, on its fields. */
  class CommonLoop {
    var inLoop: seq<RunId>
    var next: seq<RunId>
    var tmp: seq<RunId>
    var inLoopAlloc: nat
    var nextAlloc: nat
    var running: bool
    var committed: bool
    var eventFd: nat
    // Where the loop's thread is, and what a clean-up has still to execute.
    ghost var phase: Phase
    ghost var moved: seq<RunId>
    ghost var executed: seq<RunId>
    ghost var cancelled: set<RunId>

    ghost function State(): Rq
      reads this
    {
      Rq(inLoop, next, if phase.Idle? then tmp else moved, inLoopAlloc, nextAlloc, running, committed, eventFd,
         phase, executed, cancelled)
    }

    constructor ()
      ensures State() == Init() && Inv(State())
    {
      inLoop, next, tmp, inLoopAlloc, nextAlloc := [], [], [], 0, 1;
      running, committed, eventFd, phase, moved, executed, cancelled := false, false, 0, Idle, [], [], {};
      new;
      InitInv();
    }

    method CommitRunRequest()
      modifies this`eventFd, this`committed
      ensures State() == Commit(old(State()))
    {
      if !committed {
        eventFd := eventFd + 1;
        committed := true;
      }
    }

    method SubmitInLoop() returns (id: RunId)
      modifies this`inLoop, this`inLoopAlloc, this`eventFd, this`committed
      ensures State() == RunInLoop(old(State())) && id == inLoopAlloc
      ensures inLoop == old(inLoop) + [id] && id % 2 == old(inLoopAlloc) % 2 && id > old(inLoopAlloc)
      ensures running ==> committed
    {
      inLoopAlloc := inLoopAlloc + 2;
      id := inLoopAlloc;
      inLoop := inLoop + [id];
      if running {
        CommitRunRequest();
      }
    }

    method SubmitNext() returns (id: RunId)
      modifies this`next, this`nextAlloc
      ensures State() == RunNext(old(State())) && id == nextAlloc
      ensures next == old(next) + [id] && id % 2 == old(nextAlloc) % 2 && id > old(nextAlloc)
    {
      nextAlloc := nextAlloc + 2;
      id := nextAlloc;
      next := next + [id];
    }

    method CancelItem(id: RunId) returns (ok: bool)
      requires phase.Idle? || tmp == []
      modifies this`tmp, this`next, this`inLoop, this`cancelled
      ensures (State(), ok) == CancelRun(old(State()), id)
      ensures old(tmp) == [] ==> tmp == []
    {
      if id == 0 {
        return false;
      }
      var r, found := RemoveItem(tmp, id);
      if found {
        tmp, cancelled := r, cancelled + {id};
        return true;
      }
      if id % 2 == 1 {
        r, ok := RemoveItem(next, id);
        if ok {
          next, cancelled := r, cancelled + {id};
        }
      } else {
        r, ok := RemoveItem(inLoop, id);
        if ok {
          inLoop, cancelled := r, cancelled + {id};
        }
      }
    }

    // The execution of one function: the calls made meanwhile.
    method Execute(calls: seq<Call>)
      requires phase.Idle? || tmp == []
      modifies this`inLoop, this`next, this`tmp, this`inLoopAlloc, this`nextAlloc
      modifies this`eventFd, this`committed, this`cancelled
      ensures State() == DoCalls(old(State()), calls)
      ensures old(tmp) == [] ==> tmp == []
    {
      var k := 0;
      while k < |calls|
        invariant 0 <= k <= |calls|
        invariant DoCalls(State(), calls[k..]) == DoCalls(old(State()), calls)
        invariant old(tmp) == [] ==> tmp == []
      {
        assert calls[k..][1..] == calls[k + 1..];
        match calls[k] {
          case Next => var id := SubmitNext();
          case InLoop => var id := SubmitInLoop();
          case Cancel(id) => var ok := CancelItem(id);
        }
        k := k + 1;
      }
    }

    // Executes the batch, front first, until it is empty.
    method DrainBatch(world: World)
      requires phase.Idle?
      modifies this
      ensures State() == Drain(old(State()), world)
    {
      while tmp != []
        invariant phase.Idle? && Drain(State(), world) == Drain(old(State()), world)
        decreases |tmp|
      {
        ghost var s := State();
        var item := tmp[0];
        tmp := tmp[1..];
        executed := executed + [item];
        Execute(world(item));
        assert State() == ExecFront(s, world);
      }
    }

    /** One round of runNext functions. */
    method HandleNextFunc(world: World)
      requires Inv(State()) && phase.Idle? && tmp == [] && running
      modifies this
      ensures Inv(State()) && phase.Idle? && tmp == []
      ensures State() == HandleNext(old(State()), world)
      ensures |executed| <= |old(executed)| + |old(next)|
      ensures forall x :: x in old(next) ==> x in executed || x in cancelled
    {
      NextHandled(State(), world);
      next, tmp := tmp, next;
      DrainBatch(world);
    }

    /** One round of runInLoop functions, after the eventfd woke the loop. */
    method HandleRunInLoopFunc(world: World)
      requires Inv(State()) && phase.Idle? && tmp == [] && running && eventFd > 0
      modifies this
      ensures Inv(State()) && phase.Idle? && tmp == []
      ensures State() == HandleInLoop(old(State()), world)
      ensures |executed| <= |old(executed)| + |old(inLoop)|
      ensures forall x :: x in old(inLoop) ==> x in executed || x in cancelled
    {
      InLoopHandled(State(), world);
      ghost var s := State();
      inLoop, tmp := tmp, inLoop;
      FinishRunRequest();
      assert State() == SwapInLoop(s);
      DrainBatch(world);
    }

    // Reading the eventfd resets its counter.
    method FinishRunRequest()
      modifies this`eventFd, this`committed
      ensures eventFd == 0 && !committed
    {
      eventFd := 0;
      committed := false;
    }

    method RunThisBeforeLoop()
      modifies this`running, this`eventFd, this`committed
      ensures State() == StartLoop(old(State()))
    {
      eventFd := 0;
      running := true;
      if inLoop != [] {
        CommitRunRequest();
      }
    }

    // Executes one of the two lists that a clean-up has moved out.
    method ExecuteTasks(queue: seq<RunId>, world: World)
      requires phase.Cleaning? && tmp == [] && queue <= moved
      modifies this
      ensures phase == old(phase) && tmp == [] && moved == old(moved)[|queue|..]
      ensures Drain(State(), world) == Drain(old(State()), world)
    {
      var tasks := queue;
      while tasks != []
        invariant phase == old(phase) && tmp == [] && tasks <= moved
        invariant moved[|tasks|..] == old(moved)[|queue|..]
        invariant Drain(State(), world) == Drain(old(State()), world)
        decreases |tasks|
      {
        ghost var s := State();
        var item := tasks[0];
        executed, moved := executed + [item], moved[1..];
        Execute(world(item));
        assert State() == ExecFront(s, world);
        tasks := tasks[1..];
      }
    }

    method CleanupDeferredTasks(world: World)
      requires phase == Cleaning(ROUNDS) && tmp == [] && moved == []
      modifies this
      ensures State() == Rounds(old(State()), world) && tmp == []
      ensures old(executed) + old(next) + old(inLoop) <= executed
    {
      RoundsExecute(State(), world);
      var remain: nat := ROUNDS;
      while (inLoop != [] || next != []) && remain > 0
        invariant phase == Cleaning(remain) && tmp == [] && moved == []
        invariant Rounds(State(), world) == Rounds(old(State()), world)
        decreases remain
      {
        ghost var s := State();
        remain := remain - 1;
        var nextTasks, inLoopTasks := next, inLoop;
        next, inLoop := [], [];
        moved, phase := nextTasks + inLoopTasks, Cleaning(remain);
        assert State() == Round(s);
        ExecuteTasks(nextTasks, world);
        ExecuteTasks(inLoopTasks, world);
      }
    }

    /** The end of a loop run: what is queued executes, in at most a hundred rounds, and the eventfd is closed. */
    method RunThisAfterLoop(world: World)
      requires Inv(State()) && phase.Idle? && tmp == []
      modifies this
      ensures Inv(State()) && phase.Idle? && tmp == [] && !running
      ensures State() == StopLoop(old(State()), world)
      ensures old(executed) + old(next) + old(inLoop) <= executed
    {
      StopHandled(State(), world);
      phase, moved := Cleaning(ROUNDS), [];
      CleanupDeferredTasks(world);
      phase := Idle;
      running, eventFd := false, 0;
    }
  }
}
