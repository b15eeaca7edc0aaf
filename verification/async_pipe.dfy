// The asynchronous pipe's own code over the step system: the producer's loop, with the backend running
// in between at every lock boundary, the backend's critical sections, and cleanup.
module AsyncPipes {
  import opened Wrappers
  import opened AsyncPipeModel

  /** One fixed-size buffer. */
  class PipeBuffer {
    const data: array<byte>
    var size: nat

    ghost predicate Valid()
      reads this
    {
      size <= data.Length
    }

    ghost function Contents(): seq<byte>
      requires Valid()
      reads this, data
    {
      data[..size]
    }

    constructor (cap: nat)
      ensures Valid() && data.Length == cap && Contents() == [] && fresh(data)
    {
      data := new byte[cap](_ => 0);
      size := 0;
    }

    /** Writes as much as fits, and says how much. */
    method Append(src: seq<byte>) returns (wsize: nat)
      requires Valid()
      modifies this`size, data
      ensures Valid() && wsize == Min(|src|, data.Length - old(size))
      ensures Contents() == old(Contents()) + src[..wsize]
    {
      wsize := |src|;
      if size + |src| > data.Length {
        wsize := data.Length - size;
      }
      ghost var before := data[..size];
      forall i | 0 <= i < wsize {
        data[size + i] := src[i];
      }
      assert data[..size] == before;
      size := size + wsize;
      assert data[..size] == before + src[..wsize];
    }
  }

  class AsyncPipe {
    const cfg: Config
    var curr: Option<seq<byte>>
    var free: nat
    var full: seq<seq<byte>>
    var buffNum: nat
    var stop: bool
    // Where the backend thread is, and the producer that holds the current-buffer lock.
    var back: Back
    var front: Front
    ghost var delivered: seq<seq<byte>>
    ghost var asked: seq<byte>

    ghost function State(): Pipe
      reads this
    {
      Pipe(cfg, front, curr, free, full, buffNum, back, stop, delivered, asked)
    }

    constructor (c: Config)
      requires c.Valid()
      ensures State() == Init(c) && Inv(State())
    {
      cfg, curr, free, full, buffNum, stop, back := c, None, c.buffMinNum, [], c.buffMinNum, false, Top;
      front, delivered, asked := Unlocked, [], [];
      new;
      InitInv(c);
    }

    // ---- the backend ----

    /** One critical section of threadFunc; `timeout` says whether a sleep ended by timeout. */
    method BackendStep(timeout: bool)
      requires Inv(State()) && BackCan(State(), timeout)
      modifies this`curr, this`free, this`full, this`buffNum, this`back, this`delivered
      ensures State() == BackStep(old(State()), timeout) && Inv(State())
    {
      BackInv(State(), timeout);
      CriticalSection(timeout);
    }

    method CriticalSection(timeout: bool)
      requires BackCan(State(), timeout)
      modifies this`curr, this`free, this`full, this`buffNum, this`back, this`delivered
      ensures State() == BackStep(old(State()), timeout)
    {
      match back {
        case Top => back := if full == [] then Sleeping else Draining(false);
        case Sleeping => back := if timeout then Flushing(false) else if stop then Flushing(true) else Draining(false);
        case Flushing(quit) =>
          // try_lock succeeds when no producer holds the lock.
          if front.Unlocked? && curr.Some? {
            full, curr := full + [curr.value], None;
          }
          back := Draining(quit);
        case Draining(quit) =>
          if full != [] {
            full, back := full[1..], InHand(full[0], quit);
          } else {
            back := if quit then Exited else Top;
          }
        case InHand(buff, quit) => delivered, back := delivered + [buff], Handled(quit);
        case Handled(quit) =>
          if buffNum > cfg.buffMinNum {
            buffNum, back := buffNum - 1, Deleting(quit);
          } else {
            back := Returning(quit);
          }
        case Deleting(quit) => back := Draining(quit);
        case Returning(quit) => free, back := free + 1, Draining(quit);
        case Exited =>
      }
    }

    // The backend runs for a while.
    method LetBackendRun()
      requires Inv(State())
      modifies this`curr, this`free, this`full, this`buffNum, this`back, this`delivered
      ensures Inv(State()) && free >= old(free) && (!front.Unlocked? ==> curr == old(curr))
    {
      var steps: nat :| true;
      while steps > 0
        invariant Inv(State()) && free >= old(free) && (!front.Unlocked? ==> curr == old(curr))
      {
        var timeout := back.Sleeping? && !stop && full == [];
        if !back.Exited? && !(back.Returning? && front.Growing?) {
          BackLeaves(State(), timeout);
          BackendStep(timeout);
        }
        steps := steps - 1;
      }
    }

    /** Waits for a free buffer: the backend runs until there is one. */
    method WaitFree()
      requires Inv(State()) && front.Blocked? && !back.Exited?
      modifies this`curr, this`free, this`full, this`buffNum, this`back, this`delivered
      ensures Inv(State()) && free > 0 && curr == None && !back.Exited?
      ensures |delivered| <= |old(delivered)| + cfg.buffMaxNum - cfg.buffMinNum + 1
    {
      while free == 0
        invariant Inv(State()) && curr == None && !back.Exited?
        invariant free == 0 ==> |delivered| + Handovers(State()) <= |old(delivered)| + Handovers(old(State()))
        invariant free > 0 ==> |delivered| <= |old(delivered)| + Handovers(old(State()))
        decreases if free == 0 then Patience(State()) + 1 else 0
      {
        StarvingBackendRuns(State());
        StarvingStep(State(), false);
        BackendStep(false);
      }
    }

    // ---- a producer ----

    // The backend runs until the lock is had, and until it is let go.
    method AppendLock()
      requires Inv(State()) && front.Unlocked?
      modifies this`curr, this`free, this`full, this`buffNum, this`back, this`delivered, this`front
      ensures Inv(State()) && front == Holding
    {
      LetBackendRun();
      StepInv(State(), Lock);
      front := Holding;
    }

    method AppendUnlock()
      requires Inv(State()) && front.Holding?
      modifies this`curr, this`free, this`full, this`buffNum, this`back, this`delivered, this`front
      ensures Inv(State()) && front == Unlocked
    {
      LetBackendRun();
      StepInv(State(), Unlock);
      front := Unlocked;
    }

    // Takes a buffer from the free list, makes one, or waits for one.
    method TakeFree(rest: seq<byte>)
      requires Inv(State()) && front == Appending(rest) && rest != [] && curr == None && !stop
      modifies this`curr, this`free, this`full, this`buffNum, this`back, this`delivered, this`front
      ensures Inv(State()) && front == Appending(rest) && curr == Some([])
    {
      StepInv(State(), Work);
      if free == 0 {
        if buffNum < cfg.buffMaxNum {
          buffNum, front := buffNum + 1, Growing(rest);
          LetBackendRun();
          AddNew(rest);
        } else {
          front := Blocked(rest);
          WaitFree();
          TakeReturned(rest);
        }
      } else {
        free, curr := free - 1, Some([]);
      }
    }

    method AddNew(rest: seq<byte>)
      requires Inv(State()) && front == Growing(rest)
      modifies this`curr, this`front
      ensures Inv(State()) && front == Appending(rest) && curr == Some([])
    {
      StepInv(State(), Work);
      curr, front := Some([]), Appending(rest);
    }

    method TakeReturned(rest: seq<byte>)
      requires Inv(State()) && front == Blocked(rest) && free > 0
      modifies this`free, this`curr, this`front
      ensures Inv(State()) && front == Appending(rest) && curr == Some([])
    {
      StepInv(State(), Work);
      free, curr, front := free - 1, Some([]), Appending(rest);
    }

    // Writes what fits into the current buffer.
    method Write(rest: seq<byte>) returns (n: nat)
      requires Inv(State()) && front == Appending(rest) && rest != [] && curr.Some?
      modifies this`curr, this`front
      ensures Inv(State()) && 0 < n <= |rest| && (front == Appending(rest[n..]) || front == Pushing(rest[n..]))
    {
      StepInv(State(), Work);
      n := Min(|rest|, cfg.buffSize - |curr.value|);
      var b := curr.value + rest[..n];
      curr := Some(b);
      front := if |b| == cfg.buffSize then Pushing(rest[n..]) else Appending(rest[n..]);
    }

    // Writes, and queues the buffer when it is full.
    method Fill(rest: seq<byte>) returns (n: nat)
      requires Inv(State()) && front == Appending(rest) && rest != [] && curr.Some?
      modifies this`curr, this`free, this`full, this`buffNum, this`back, this`delivered, this`front
      ensures Inv(State()) && 0 < n <= |rest| && front == Appending(rest[n..])
    {
      LetBackendRun();
      n := Write(rest);
      if front.Pushing? {
        LetBackendRun();
        PushFull(rest[n..]);
      }
    }

    method PushFull(rest: seq<byte>)
      requires Inv(State()) && front == Pushing(rest)
      modifies this`full, this`curr, this`front
      ensures Inv(State()) && front == Appending(rest)
    {
      StepInv(State(), Work);
      full, curr, front := full + [curr.value], None, Appending(rest);
    }

    /** Appends under the lock. It returns, however the backend runs, and the pipe has taken exactly the data. */
    method AppendLockless(data: seq<byte>)
      requires Inv(State()) && front.Holding? && !stop
      modifies this
      ensures Inv(State()) && front.Holding? && !stop
      ensures asked == old(asked) + data
    {
      StepInv(State(), Call(data));
      front, asked := Appending(data), asked + data;
      var rest := data;
      while rest != []
        invariant Inv(State()) && front == Appending(rest) && !stop
        invariant asked == old(asked) + data
        decreases |rest|
      {
        LetBackendRun();
        if curr == None {
          TakeFree(rest);
        }
        var n := Fill(rest);
        rest := rest[n..];
      }
      StepInv(State(), Return);
      front := Holding;
    }

    method Append(data: seq<byte>)
      requires Inv(State()) && front.Unlocked? && !stop
      modifies this
      ensures Inv(State()) && front.Unlocked? && !stop
      ensures asked == old(asked) + data
    {
      AppendLock();
      AppendLockless(data);
      AppendUnlock();
    }

    /** Stops the backend and waits for it: it does exit, and everything appended has been delivered. Then the
        buffers are deleted, and the stop signal is taken back. */
    method Cleanup()
      requires Inv(State()) && front.Unlocked? && !stop
      modifies this
      ensures back.Exited? && full == [] && curr == None && free == 0 && !stop
      ensures Flatten(delivered) == old(asked)
    {
      StopCloses(State());
      stop := true;
      while !back.Exited?
        invariant Closing(State()) && asked == old(asked)
        decreases Farewell(State())
      {
        ClosingStep(State());
        BackendStep(false);
      }
      ClosedDelivered(State());
      stop, free := false, 0;
    }
  }
}
