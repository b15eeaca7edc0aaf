// The loop's run queues: functions submitted from any thread (runInLoop) and from the loop's own thread
// (runNext), the batch being executed, cancellation, the eventfd that wakes the loop, and the end of a loop run.
module RunQueuesModel {
  import opened Wrappers

  // Ids of runInLoop are even, ids of runNext are odd; the program's are 64 bits wide, these do not wrap.
  // A queued function is known by its id.
  type RunId = nat

  // What is called while a function executes: by itself, or, for InLoop, by other threads.
  datatype Call = Next | InLoop | Cancel(id: RunId)

  // What happens during the execution of each function; no function executes twice.
  type World = RunId -> seq<Call>

  // The loop's thread is in cleanupDeferredTasks(), with so many rounds left, or elsewhere.
  datatype Phase = Idle | Cleaning(rounds: nat)

  const ROUNDS := 100

  datatype Rq = Rq(
    inLoop: seq<RunId>,
    next: seq<RunId>,
    batch: seq<RunId>,       // being executed: tmp_func_queue_, or the two lists that a clean-up has moved out
    inLoopAlloc: nat,
    nextAlloc: nat,
    running: bool,           // the loop has its eventfd
    committed: bool,         // has_commit_run_req_
    eventFd: nat,            // the counter of the eventfd
    phase: Phase,
    executed: seq<RunId>,    // history
    cancelled: set<RunId>)   // history

  function Init(): Rq {
    Rq([], [], [], 0, 1, false, false, 0, Idle, [], {})
  }

  // commitRunRequest()
  function Commit(s: Rq): Rq {
    if s.committed then s else s.(eventFd := s.eventFd + 1, committed := true)
  }

  function RunInLoop(s: Rq): Rq {
    var id := s.inLoopAlloc + 2;
    var q := s.(inLoopAlloc := id, inLoop := s.inLoop + [id]);
    if s.running then Commit(q) else q
  }

  function RunNext(s: Rq): Rq {
    var id := s.nextAlloc + 2;
    s.(nextAlloc := id, next := s.next + [id])
  }

  // std::remove_if and erase.
  function Remove(q: seq<RunId>, id: RunId): seq<RunId> {
    if q == [] then []
    else if q[0] == id then Remove(q[1..], id)
    else [q[0]] + Remove(q[1..], id)
  }

  // The functions that cancel() can still reach: not those that a clean-up has moved out.
  predicate Reachable(s: Rq, id: RunId) {
    (s.phase.Idle? && id in s.batch) || id in s.inLoop || id in s.next
  }

  function CancelRun(s: Rq, id: RunId): (Rq, bool) {
    if id == 0 then (s, false)
    else if s.phase.Idle? && id in s.batch then
      (s.(batch := Remove(s.batch, id), cancelled := s.cancelled + {id}), true)
    else if id % 2 == 1 then
      if id in s.next then (s.(next := Remove(s.next, id), cancelled := s.cancelled + {id}), true) else (s, false)
    else
      if id in s.inLoop then (s.(inLoop := Remove(s.inLoop, id), cancelled := s.cancelled + {id}), true) else (s, false)
  }

  function DoCall(s: Rq, c: Call): (r: Rq)
    ensures |r.batch| <= |s.batch| && r.phase == s.phase
  {
    match c
    case Next => RunNext(s)
    case InLoop => RunInLoop(s)
    case Cancel(id) => RemoveShrinks(s.batch, id); CancelRun(s, id).0
  }

  // Takes the function in front out of the batch, to execute it.
  function TakeFront(s: Rq): Rq
    requires s.batch != []
  {
    s.(batch := s.batch[1..], executed := s.executed + [s.batch[0]])
  }

  function SwapNext(s: Rq): Rq {
    s.(next := s.batch, batch := s.next)
  }

  // The swap and finishRunRequest(), under the lock: reading the eventfd resets its counter.
  function SwapInLoop(s: Rq): Rq {
    s.(inLoop := s.batch, batch := s.inLoop, eventFd := 0, committed := false)
  }

  // runThisBeforeLoop(): a new eventfd; queued functions ask for a wake-up.
  function StartLoop(s: Rq): Rq {
    var q := s.(running := true, eventFd := 0);
    if q.inLoop != [] then Commit(q) else q
  }

  // One round of a clean-up moves both queues out; the runNext functions execute first.
  function Round(s: Rq): Rq
    requires s.phase.Cleaning? && s.phase.rounds > 0
  {
    s.(next := [], inLoop := [], batch := s.next + s.inLoop, phase := Cleaning(s.phase.rounds - 1))
  }

  predicate CleanedUp(s: Rq) {
    s.phase.Cleaning? && s.batch == [] && ((s.inLoop == [] && s.next == []) || s.phase.rounds == 0)
  }

  // The clean-up is over; at the end of a loop run the eventfd is closed, but the flag stays as it is.
  function EndCleanup(s: Rq): Rq {
    s.(phase := Idle, running := false, eventFd := 0)
  }

  // ---- the steps of the threads ----

  datatype Event =
    | CallEv(call: Call)             // from a function, or from another thread while the lock is free
    | StartEv
    | SwapNextEv | SwapInLoopEv      // a handler begins
    | TakeEv                         // a function of the batch begins
    | CleanupEv | RoundEv | EndEv    // runThisAfterLoop(), or cleanup() of a loop that does not run

  // The cross-thread handler is called when the eventfd is readable.
  predicate Enabled(s: Rq, ev: Event) {
    match ev
    case CallEv(_) => true
    case StartEv => s.phase.Idle? && !s.running
    case SwapNextEv => s.phase.Idle? && s.batch == [] && s.running
    case SwapInLoopEv => s.phase.Idle? && s.batch == [] && s.running && s.eventFd > 0
    case TakeEv => s.batch != []
    case CleanupEv => s.phase.Idle? && s.batch == []
    case RoundEv => s.phase.Cleaning? && s.batch == [] && !CleanedUp(s)
    case EndEv => CleanedUp(s)
  }

  function Apply(s: Rq, ev: Event): Rq
    requires Enabled(s, ev)
  {
    match ev
    case CallEv(c) => DoCall(s, c)
    case StartEv => StartLoop(s)
    case SwapNextEv => SwapNext(s)
    case SwapInLoopEv => SwapInLoop(s)
    case TakeEv => TakeFront(s)
    case CleanupEv => s.(phase := Cleaning(ROUNDS))
    case RoundEv => Round(s)
    case EndEv => EndCleanup(s)
  }

  // ---- whole calls of the loop's thread ----

  function DoCalls(s: Rq, cs: seq<Call>): (r: Rq)
    ensures |r.batch| <= |s.batch| && r.phase == s.phase
    decreases |cs|
  {
    if cs == [] then s else DoCalls(DoCall(s, cs[0]), cs[1..])
  }

  function ExecFront(s: Rq, world: World): (r: Rq)
    requires s.batch != []
    ensures |r.batch| < |s.batch| && r.phase == s.phase
  {
    DoCalls(TakeFront(s), world(s.batch[0]))
  }

  // Executes the batch, front first, until it is empty.
  function Drain(s: Rq, world: World): (r: Rq)
    ensures r.batch == [] && r.phase == s.phase
    decreases |s.batch|
  {
    if s.batch == [] then s else Drain(ExecFront(s, world), world)
  }

  function HandleNext(s: Rq, world: World): Rq {
    Drain(SwapNext(s), world)
  }

  function HandleInLoop(s: Rq, world: World): Rq {
    Drain(SwapInLoop(s), world)
  }

  function Rounds(s: Rq, world: World): (r: Rq)
    requires s.phase.Cleaning? && s.batch == []
    ensures CleanedUp(r)
    decreases if s.phase.Cleaning? then s.phase.rounds else 0
  {
    if CleanedUp(s) then s else Rounds(Drain(Round(s), world), world)
  }

  // runThisAfterLoop()
  function StopLoop(s: Rq, world: World): Rq
    requires s.batch == []
  {
    EndCleanup(Rounds(s.(phase := Cleaning(ROUNDS)), world))
  }

  // ---- facts about removing ----

  lemma {:induction false} RemoveShrinks(q: seq<RunId>, id: RunId)
    ensures |Remove(q, id)| <= |q|
  {
    if q != [] { RemoveShrinks(q[1..], id); }
  }

  lemma {:induction false} RemoveElems(q: seq<RunId>, id: RunId, x: RunId)
    ensures x in Remove(q, id) <==> x in q && x != id
  {
    if q != [] {
      RemoveElems(q[1..], id, x);
      assert x in q <==> x == q[0] || x in q[1..];
    }
  }

  // ---- what every step keeps ----

  // Functions of the same queue appear in the order of their ids.
  ghost predicate Rising(q: seq<RunId>) {
    forall i, j :: 0 <= i < j < |q| && q[i] % 2 == q[j] % 2 ==> q[i] < q[j]
  }

  ghost predicate Before(p: seq<RunId>, q: seq<RunId>) {
    forall x, y :: x in p && y in q && x % 2 == y % 2 ==> x < y
  }

  ghost predicate Parity(q: seq<RunId>, bit: nat) {
    forall x :: x in q ==> x % 2 == bit
  }

  /** Executed functions, then the batch, then the queues: per kind in the order of submission. */
  ghost predicate Ordered(s: Rq) {
    && Rising(s.executed) && Rising(s.batch) && Rising(s.inLoop) && Rising(s.next)
    && Before(s.executed, s.batch) && Before(s.executed, s.inLoop) && Before(s.executed, s.next)
    && Before(s.batch, s.inLoop) && Before(s.batch, s.next)
    && Parity(s.inLoop, 0) && Parity(s.next, 1)
  }

  predicate Issued(s: Rq, id: RunId) {
    if id % 2 == 0 then 2 <= id <= s.inLoopAlloc else 3 <= id <= s.nextAlloc
  }

  /** A submitted function is queued, executed or cancelled. */
  ghost predicate Placed(s: Rq, id: RunId) {
    && (Issued(s, id) <==> id in s.executed || id in s.batch || id in s.inLoop || id in s.next || id in s.cancelled)
    && (id in s.cancelled ==> id !in s.executed && id !in s.batch && id !in s.inLoop && id !in s.next)
  }

  /** At most one wake-up is pending, and only with the flag up; queued cross-thread functions of a running loop
      have put the flag up. */
  ghost predicate Wake(s: Rq) {
    && s.eventFd <= 1 && (s.eventFd == 1 ==> s.running && s.committed)
    && (s.running && s.inLoop != [] ==> s.committed)
  }

  ghost predicate Inv(s: Rq) {
    && s.inLoopAlloc % 2 == 0 && s.nextAlloc % 2 == 1
    && Ordered(s) && (forall id :: Placed(s, id)) && Wake(s)
  }

  lemma SnocRising(q: seq<RunId>, x: RunId)
    requires Rising(q) && Before(q, [x])
    ensures Rising(q + [x]) && forall y :: y in q + [x] <==> y in q || y == x
  {
    forall i | 0 <= i < |q| && q[i] % 2 == x % 2 ensures q[i] < x {
      assert q[i] in q && x in [x];
    }
  }

  lemma RunInLoopOrdered(s: Rq)
    requires Inv(s)
    ensures Ordered(RunInLoop(s))
  {
    FreshIsLast(s, s.executed, s.inLoopAlloc + 2);
    FreshIsLast(s, s.batch, s.inLoopAlloc + 2);
    FreshIsLast(s, s.inLoop, s.inLoopAlloc + 2);
    SnocRising(s.inLoop, s.inLoopAlloc + 2);
  }

  lemma RunInLoopInv(s: Rq)
    requires Inv(s)
    ensures Inv(RunInLoop(s))
  {
    RunInLoopOrdered(s);
    forall id ensures Placed(RunInLoop(s), id) { assert Placed(s, id); }
  }

  // A new id of either kind is greater than all queued or executed ids of its kind.
  lemma FreshIsLast(s: Rq, q: seq<RunId>, id: RunId)
    requires forall x :: Placed(s, x)
    requires forall x :: x in q ==> x in s.executed || x in s.batch || x in s.inLoop || x in s.next
    requires (id == s.inLoopAlloc + 2 && id % 2 == 0) || (id == s.nextAlloc + 2 && id % 2 == 1)
    ensures forall x :: x in q && x % 2 == id % 2 ==> x < id
  {
    forall x | x in q && x % 2 == id % 2 ensures x < id { assert Placed(s, x); }
  }

  lemma RunNextOrdered(s: Rq)
    requires Inv(s)
    ensures Ordered(RunNext(s))
  {
    FreshIsLast(s, s.executed, s.nextAlloc + 2);
    FreshIsLast(s, s.batch, s.nextAlloc + 2);
    FreshIsLast(s, s.next, s.nextAlloc + 2);
    SnocRising(s.next, s.nextAlloc + 2);
  }

  lemma RunNextInv(s: Rq)
    requires Inv(s)
    ensures Inv(RunNext(s))
  {
    RunNextOrdered(s);
    forall id ensures Placed(RunNext(s), id) { assert Placed(s, id); }
  }

  lemma {:induction false} RemoveRising(q: seq<RunId>, id: RunId)
    requires Rising(q)
    ensures Rising(Remove(q, id))
  {
    if q != [] {
      assert Rising(q[1..]);
      RemoveRising(q[1..], id);
      if q[0] != id {
        var r := Remove(q[1..], id);
        forall j | 0 <= j < |r| && r[j] % 2 == q[0] % 2 ensures q[0] < r[j] {
          RemoveElems(q[1..], id, r[j]);
          var k :| 0 <= k < |q[1..]| && q[1..][k] == r[j];
          assert q[k + 1] == r[j];
        }
      }
    }
  }

  // The sequences after a cancellation hold nothing new.
  lemma RemoveWithin(q: seq<RunId>, id: RunId)
    ensures forall x :: x in Remove(q, id) <==> x in q && x != id
  {
    forall x ensures x in Remove(q, id) <==> x in q && x != id { RemoveElems(q, id, x); }
  }

  lemma CancelOrdered(s: Rq, id: RunId)
    requires Ordered(s)
    ensures Ordered(CancelRun(s, id).0)
  {
    RemoveWithin(s.batch, id);
    RemoveWithin(s.next, id);
    RemoveWithin(s.inLoop, id);
    RemoveRising(s.batch, id);
    RemoveRising(s.next, id);
    RemoveRising(s.inLoop, id);
  }

  // Per kind, an id stands in one place only.
  lemma OncePlaced(s: Rq, id: RunId)
    requires Ordered(s)
    ensures id in s.batch ==> id !in s.executed && id !in s.inLoop && id !in s.next
    ensures id in s.next ==> id !in s.executed && id !in s.inLoop
    ensures id in s.inLoop ==> id !in s.executed
  {
  }

  lemma CancelPlaced(s: Rq, id: RunId)
    requires Ordered(s) && forall x :: Placed(s, x)
    ensures forall x :: Placed(CancelRun(s, id).0, x)
  {
    RemoveWithin(s.batch, id);
    RemoveWithin(s.next, id);
    RemoveWithin(s.inLoop, id);
    OncePlaced(s, id);
    forall x ensures Placed(CancelRun(s, id).0, x) { assert Placed(s, x); }
  }

  lemma CancelInv(s: Rq, id: RunId)
    requires Inv(s)
    ensures Inv(CancelRun(s, id).0)
  {
    CancelOrdered(s, id);
    CancelPlaced(s, id);
    RemoveWithin(s.inLoop, id);
  }

  lemma CallInv(s: Rq, c: Call)
    requires Inv(s)
    ensures Inv(DoCall(s, c))
  {
    match c
    case Next => RunNextInv(s);
    case InLoop => RunInLoopInv(s);
    case Cancel(id) => CancelInv(s, id);
  }

  lemma FrontOrdered(s: Rq)
    requires Ordered(s) && s.batch != []
    ensures Ordered(TakeFront(s))
  {
    var s', x := TakeFront(s), s.batch[0];
    assert forall y :: y in s'.batch ==> y in s.batch;
    assert x in s.batch;
    SnocRising(s.executed, x);
    forall y | y in s'.batch && y % 2 == x % 2 ensures x < y {
      var j :| 0 <= j < |s'.batch| && s'.batch[j] == y;
      assert s.batch[j + 1] == y;
    }
  }

  lemma FrontInv(s: Rq)
    requires Inv(s) && s.batch != []
    ensures Inv(TakeFront(s))
  {
    FrontOrdered(s);
    OncePlaced(s, s.batch[0]);
    var s' := TakeFront(s);
    assert s.batch == [s.batch[0]] + s'.batch;
    forall id ensures Placed(s', id) { assert Placed(s, id); }
  }

  lemma SwapNextInv(s: Rq)
    requires Inv(s) && s.batch == []
    ensures Inv(SwapNext(s))
  {
    forall id ensures Placed(SwapNext(s), id) { assert Placed(s, id); }
  }

  lemma SwapInLoopInv(s: Rq)
    requires Inv(s) && s.batch == []
    ensures Inv(SwapInLoop(s))
  {
    forall id ensures Placed(SwapInLoop(s), id) { assert Placed(s, id); }
  }

  lemma RoundInv(s: Rq)
    requires Inv(s) && Enabled(s, RoundEv)
    ensures Inv(Round(s))
  {
    var s' := Round(s);
    MixedRising(s.next, s.inLoop);
    forall id ensures Placed(s', id) { assert Placed(s, id); }
  }

  lemma MixedRising(odd: seq<RunId>, even: seq<RunId>)
    requires Rising(odd) && Rising(even) && Parity(odd, 1) && Parity(even, 0)
    ensures Rising(odd + even) && forall x :: x in odd + even <==> x in odd || x in even
  {
    forall i, j | 0 <= i < |odd| && 0 <= j < |even| ensures odd[i] % 2 != even[j] % 2 {
      assert odd[i] in odd && even[j] in even;
    }
  }

  lemma QuietInv(s: Rq, ev: Event)
    requires Inv(s) && Enabled(s, ev) && (ev.StartEv? || ev.CleanupEv? || ev.EndEv?)
    ensures Inv(Apply(s, ev))
  {
    forall id ensures Placed(Apply(s, ev), id) { assert Placed(s, id); }
  }

  lemma StepInv(s: Rq, ev: Event)
    requires Inv(s) && Enabled(s, ev)
    ensures Inv(Apply(s, ev))
  {
    match ev
    case CallEv(c) => CallInv(s, c);
    case SwapNextEv => SwapNextInv(s);
    case SwapInLoopEv => SwapInLoopInv(s);
    case TakeEv => FrontInv(s);
    case RoundEv => RoundInv(s);
    case _ => QuietInv(s, ev);
  }

  // ---- runs ----

  ghost predicate StepTo(s: Rq, ev: Event, s': Rq) {
    Enabled(s, ev) && s' == Apply(s, ev)
  }

  /** Every interleaving of steps: the states are those in which the lock is free, and those between the steps of
      the loop's thread. */
  ghost predicate IsRun(ss: seq<Rq>, evs: seq<Event>) {
    && |ss| == |evs| + 1
    && ss[0] == Init()
    && forall i :: 0 <= i < |evs| ==> StepTo(ss[i], evs[i], ss[i + 1])
  }

  lemma InitInv()
    ensures Inv(Init())
  {
    forall id ensures Placed(Init(), id) {}
  }

  lemma {:induction false} RunInv(ss: seq<Rq>, evs: seq<Event>, n: nat)
    requires IsRun(ss, evs) && n < |ss|
    ensures Inv(ss[n])
  {
    if n == 0 {
      InitInv();
    } else {
      RunInv(ss, evs, n - 1);
      assert StepTo(ss[n - 1], evs[n - 1], ss[n - 1 + 1]);
      StepInv(ss[n - 1], evs[n - 1]);
    }
  }

  /** In every run: functions of one kind execute in the order in which they were submitted, none twice. */
  lemma ExecutedInOrder(ss: seq<Rq>, evs: seq<Event>, n: nat, i: nat, j: nat)
    requires IsRun(ss, evs) && n < |ss| && i < j < |ss[n].executed|
    requires ss[n].executed[i] % 2 == ss[n].executed[j] % 2
    ensures ss[n].executed[i] < ss[n].executed[j]
  {
    RunInv(ss, evs, n);
  }

  lemma {:induction false} CancelledStays(ss: seq<Rq>, evs: seq<Event>, i: nat, n: nat, id: RunId)
    requires IsRun(ss, evs) && i <= n < |ss| && id in ss[i].cancelled
    ensures id in ss[n].cancelled
  {
    if i < n {
      CancelledStays(ss, evs, i, n - 1, id);
      assert StepTo(ss[n - 1], evs[n - 1], ss[n - 1 + 1]);
    }
  }

  /** A function for which cancel() returned true never executes, wherever it was taken from: a queue, or the
      batch that is being executed. */
  lemma CancelledNeverRuns(ss: seq<Rq>, evs: seq<Event>, i: nat, n: nat, id: RunId)
    requires IsRun(ss, evs) && i < |evs| && n < |ss|
    requires evs[i] == CallEv(Cancel(id)) && CancelRun(ss[i], id).1
    ensures id !in ss[n].executed
  {
    assert StepTo(ss[i], evs[i], ss[i + 1]);
    if n <= i {
      ExecutedStays(ss, evs, n, i + 1);
      RunInv(ss, evs, i + 1);
      assert Placed(ss[i + 1], id);
    } else {
      CancelledStays(ss, evs, i + 1, n, id);
      RunInv(ss, evs, n);
      assert Placed(ss[n], id);
    }
  }

  lemma {:induction false} ExecutedStays(ss: seq<Rq>, evs: seq<Event>, i: nat, n: nat)
    requires IsRun(ss, evs) && i <= n < |ss|
    ensures ss[i].executed <= ss[n].executed
  {
    if i < n {
      ExecutedStays(ss, evs, i, n - 1);
      assert StepTo(ss[n - 1], evs[n - 1], ss[n - 1 + 1]);
    }
  }

  /** cancel() returns true exactly for a function that is in a queue or waits in a handler's batch. */
  lemma CancelAnswers(s: Rq, id: RunId)
    requires Inv(s)
    ensures CancelRun(s, id).1 <==> Reachable(s, id)
  {
    assert Placed(s, id) && Placed(s, 0);
  }

  // ---- the wake-up, over one loop run and over several ----

  // The flag is up with no wake-up pending.
  predicate Stale(s: Rq) {
    s.committed && s.eventFd == 0
  }

  // A clean-up before n ended with the flag up.
  ghost predicate LeftUp(ss: seq<Rq>, evs: seq<Event>, n: nat)
    requires |ss| == |evs| + 1 && n <= |evs|
  {
    exists j :: 0 <= j < n && evs[j].EndEv? && ss[j + 1].committed
  }

  lemma StaleStep(s: Rq, ev: Event)
    requires Inv(s) && Enabled(s, ev)
    ensures Stale(Apply(s, ev)) <==> Stale(s) || (ev.EndEv? && Apply(s, ev).committed)
  {
  }

  lemma {:induction false} StaleIff(ss: seq<Rq>, evs: seq<Event>, n: nat)
    requires IsRun(ss, evs) && n < |ss|
    ensures Stale(ss[n]) <==> LeftUp(ss, evs, n)
  {
    if n > 0 {
      StaleIff(ss, evs, n - 1);
      RunInv(ss, evs, n - 1);
      assert StepTo(ss[n - 1], evs[n - 1], ss[n - 1 + 1]);
      StaleStep(ss[n - 1], evs[n - 1]);
      if Stale(ss[n]) && evs[n - 1].EndEv? {
        assert evs[n - 1].EndEv? && ss[n - 1 + 1].committed;
      }
    }
  }

  /** In every run, at every step of a running loop, between two functions of a batch too: a waiting cross-thread
      function has a wake-up pending exactly if no earlier clean-up ended with the flag up. */
  lemma NeverSleepsOnWork(ss: seq<Rq>, evs: seq<Event>, n: nat)
    requires IsRun(ss, evs) && n < |ss| && ss[n].running && ss[n].inLoop != []
    ensures ss[n].eventFd > 0 <==> !LeftUp(ss, evs, n)
  {
    RunInv(ss, evs, n);
    StaleIff(ss, evs, n);
  }

  // Cross-thread functions were submitted between two steps.
  ghost predicate Submitted(evs: seq<Event>, i: nat, j: nat)
    requires j <= |evs|
  {
    exists k :: i <= k < j && evs[k] == CallEv(InLoop)
  }

  lemma {:induction false} FlagInCleanup(ss: seq<Rq>, evs: seq<Event>, i: nat, n: nat)
    requires IsRun(ss, evs) && i < n < |ss| && evs[i] == CleanupEv && ss[i].running
    requires forall k :: i < k < n ==> evs[k] != EndEv
    ensures ss[n].phase.Cleaning? && ss[n].running
    ensures ss[n].committed <==> ss[i].committed || Submitted(evs, i, n)
  {
    assert StepTo(ss[n - 1], evs[n - 1], ss[n - 1 + 1]);
    if n - 1 > i {
      FlagInCleanup(ss, evs, i, n - 1);
    }
    assert Submitted(evs, i, n) <==> Submitted(evs, i, n - 1) || evs[n - 1] == CallEv(InLoop);
  }

  /** The end of a loop run leaves the flag up exactly if it was up when the loop stopped, or the clean-up made
      somebody submit a cross-thread function: the eventfd goes, but nobody takes the flag back. While no earlier
      loop run left it up, it was up exactly if a wake-up was pending. */
  lemma FlagLeftUpIff(ss: seq<Rq>, evs: seq<Event>, i: nat, j: nat)
    requires IsRun(ss, evs) && i < j < |evs| && ss[i].running && evs[i] == CleanupEv && evs[j] == EndEv
    requires forall k :: i < k < j ==> evs[k] != EndEv
    ensures ss[j + 1].committed <==> ss[i].committed || Submitted(evs, i, j)
    ensures !LeftUp(ss, evs, i) ==> (ss[i].committed <==> ss[i].eventFd > 0)
  {
    FlagInCleanup(ss, evs, i, j);
    assert StepTo(ss[j], evs[j], ss[j + 1]);
    RunInv(ss, evs, i);
    StaleIff(ss, evs, i);
  }

  /** After that the cross-thread handler is not called again, in no later loop run. */
  lemma {:induction false} NeverWokenAgain(ss: seq<Rq>, evs: seq<Event>, j: nat, n: nat)
    requires IsRun(ss, evs) && j <= n < |ss| && LeftUp(ss, evs, j)
    ensures Stale(ss[n]) && (n < |evs| ==> evs[n] != SwapInLoopEv)
  {
    var k :| 0 <= k < j && evs[k].EndEv? && ss[k + 1].committed;
    assert LeftUp(ss, evs, n);
    StaleIff(ss, evs, n);
    if n < |evs| {
      assert StepTo(ss[n], evs[n], ss[n + 1]);
    }
  }

  // A function that submits another one in the loop's last round, and a second loop run.
  const STALE_RUN: seq<Event> := [
    StartEv, CallEv(InLoop), SwapInLoopEv, TakeEv, CallEv(InLoop),
    CleanupEv, RoundEv, TakeEv, EndEv, StartEv, CallEv(InLoop)]

  function StaleState(i: nat): Rq
    requires i <= 11
  {
    match i
    case 0 => Init()
    case 1 => Init().(running := true)
    case 2 => StaleState(1).(inLoop := [2], inLoopAlloc := 2, committed := true, eventFd := 1)
    case 3 => StaleState(1).(batch := [2], inLoopAlloc := 2)
    case 4 => StaleState(3).(batch := [], executed := [2])
    case 5 => StaleState(4).(inLoop := [4], inLoopAlloc := 4, committed := true, eventFd := 1)
    case 6 => StaleState(5).(phase := Cleaning(100))
    case 7 => StaleState(6).(inLoop := [], batch := [4], phase := Cleaning(99))
    case 8 => StaleState(7).(batch := [], executed := [2, 4])
    case 9 => StaleState(8).(phase := Idle, running := false, eventFd := 0)
    case 10 => StaleState(9).(running := true)
    case _ => StaleState(10).(inLoop := [6], inLoopAlloc := 6)
  }

  /** A run that comes to it: the function submitted last waits with no wake-up pending. */
  lemma StaleFlagSwallowsWakeUp()
    ensures exists ss: seq<Rq> ::
              && IsRun(ss, STALE_RUN) && LeftUp(ss, STALE_RUN, 9)
              && ss[11].running && ss[11].inLoop == [6] && ss[11].eventFd == 0
  {
    var ss := seq(12, i requires 0 <= i < 12 => StaleState(i));
    forall i | 0 <= i < 11 ensures StepTo(ss[i], STALE_RUN[i], ss[i + 1]) {
      StaleRunStep(i);
    }
    assert STALE_RUN[8].EndEv? && ss[8 + 1].committed;
    assert LeftUp(ss, STALE_RUN, 9);
  }

  lemma StaleRunStep(i: nat)
    requires i < 11
    ensures StepTo(StaleState(i), STALE_RUN[i], StaleState(i + 1))
  {
    if i < 6 { StaleRunFirst(i); } else { StaleRunSecond(i); }
  }

  lemma StaleRunFirst(i: nat)
    requires i < 6
    ensures StepTo(StaleState(i), STALE_RUN[i], StaleState(i + 1))
  {
    if i == 3 {
      assert TakeFront(StaleState(3)).batch == [];
    }
  }

  lemma StaleRunSecond(i: nat)
    requires 6 <= i < 11
    ensures StepTo(StaleState(i), STALE_RUN[i], StaleState(i + 1))
  {
    if i == 6 {
      assert Round(StaleState(6)).batch == [4];
    }
    if i == 7 {
      assert TakeFront(StaleState(7)).batch == [];
    }
  }

  // ---- whole calls are runs of steps ----

  function Path(s: Rq, evs: seq<Event>): Option<Rq>
    decreases |evs|
  {
    if evs == [] then Some(s)
    else if Enabled(s, evs[0]) then Path(Apply(s, evs[0]), evs[1..])
    else None
  }

  lemma {:induction false} PathConcat(s: Rq, a: seq<Event>, b: seq<Event>)
    requires Path(s, a).Some?
    ensures Path(s, a + b) == Path(Path(s, a).value, b)
    decreases |a|
  {
    if a == [] {
      assert a + b == b;
    } else {
      assert (a + b)[1..] == a[1..] + b;
      PathConcat(Apply(s, a[0]), a[1..], b);
    }
  }

  lemma {:induction false} PathInv(s: Rq, evs: seq<Event>)
    requires Inv(s) && Path(s, evs).Some?
    ensures Inv(Path(s, evs).value)
    decreases |evs|
  {
    if evs != [] {
      StepInv(s, evs[0]);
      PathInv(Apply(s, evs[0]), evs[1..]);
    }
  }

  function CallEvents(cs: seq<Call>): (r: seq<Event>)
    ensures |r| == |cs| && forall i :: 0 <= i < |r| ==> r[i] == CallEv(cs[i])
  {
    seq(|cs|, i requires 0 <= i < |cs| => CallEv(cs[i]))
  }

  lemma {:induction false} CallsPath(s: Rq, cs: seq<Call>)
    ensures Path(s, CallEvents(cs)) == Some(DoCalls(s, cs))
    decreases |cs|
  {
    if cs != [] {
      assert CallEvents(cs)[1..] == CallEvents(cs[1..]);
      CallsPath(DoCall(s, cs[0]), cs[1..]);
    }
  }

  function DrainEvents(s: Rq, world: World): seq<Event>
    decreases |s.batch|
  {
    if s.batch == [] then [] else [TakeEv] + CallEvents(world(s.batch[0])) + DrainEvents(ExecFront(s, world), world)
  }

  // Draining is taking one function after the other, each with the calls made meanwhile.
  lemma {:induction false} DrainPath(s: Rq, world: World)
    ensures Path(s, DrainEvents(s, world)) == Some(Drain(s, world))
    decreases |s.batch|
  {
    if s.batch != [] {
      var calls, e := CallEvents(world(s.batch[0])), ExecFront(s, world);
      CallsPath(TakeFront(s), world(s.batch[0]));
      assert ([TakeEv] + calls)[1..] == calls;
      DrainPath(e, world);
      PathConcat(s, [TakeEv] + calls, DrainEvents(e, world));
    }
  }

  function RoundsEvents(s: Rq, world: World): seq<Event>
    requires s.phase.Cleaning? && s.batch == []
    decreases if s.phase.Cleaning? then s.phase.rounds else 0
  {
    if CleanedUp(s) then []
    else [RoundEv] + DrainEvents(Round(s), world) + RoundsEvents(Drain(Round(s), world), world)
  }

  lemma {:induction false} RoundsPath(s: Rq, world: World)
    requires s.phase.Cleaning? && s.batch == []
    ensures Path(s, RoundsEvents(s, world)) == Some(Rounds(s, world))
    decreases if s.phase.Cleaning? then s.phase.rounds else 0
  {
    if !CleanedUp(s) {
      var drain := DrainEvents(Round(s), world);
      DrainPath(Round(s), world);
      assert ([RoundEv] + drain)[1..] == drain;
      RoundsPath(Drain(Round(s), world), world);
      PathConcat(s, [RoundEv] + drain, RoundsEvents(Drain(Round(s), world), world));
    }
  }

  function NextEvents(s: Rq, world: World): seq<Event> {
    [SwapNextEv] + DrainEvents(SwapNext(s), world)
  }

  function InLoopEvents(s: Rq, world: World): seq<Event> {
    [SwapInLoopEv] + DrainEvents(SwapInLoop(s), world)
  }

  function StopEvents(s: Rq, world: World): seq<Event>
    requires s.batch == []
  {
    [CleanupEv] + RoundsEvents(s.(phase := Cleaning(ROUNDS)), world) + [EndEv]
  }

  lemma NextPath(s: Rq, world: World)
    requires s.phase.Idle? && s.batch == [] && s.running
    ensures Path(s, NextEvents(s, world)) == Some(HandleNext(s, world))
  {
    DrainPath(SwapNext(s), world);
    assert NextEvents(s, world)[1..] == DrainEvents(SwapNext(s), world);
  }

  lemma InLoopPath(s: Rq, world: World)
    requires s.phase.Idle? && s.batch == [] && s.running && s.eventFd > 0
    ensures Path(s, InLoopEvents(s, world)) == Some(HandleInLoop(s, world))
  {
    DrainPath(SwapInLoop(s), world);
    assert InLoopEvents(s, world)[1..] == DrainEvents(SwapInLoop(s), world);
  }

  lemma StopPath(s: Rq, world: World)
    requires s.phase.Idle? && s.batch == []
    ensures Path(s, StopEvents(s, world)) == Some(StopLoop(s, world))
  {
    var c := s.(phase := Cleaning(ROUNDS));
    var rounds := RoundsEvents(c, world);
    RoundsPath(c, world);
    assert ([CleanupEv] + rounds)[1..] == rounds;
    PathConcat(s, [CleanupEv] + rounds, [EndEv]);
    assert [EndEv][1..] == [];
  }

  /** Each handler call, and the end of a loop run, is a run of steps, and so keeps what they keep. */
  lemma HandlersAreRuns(s: Rq, world: World)
    requires Inv(s) && s.phase.Idle? && s.batch == []
    ensures s.running ==> Path(s, NextEvents(s, world)) == Some(HandleNext(s, world)) && Inv(HandleNext(s, world))
    ensures s.running && s.eventFd > 0 ==>
      Path(s, InLoopEvents(s, world)) == Some(HandleInLoop(s, world)) && Inv(HandleInLoop(s, world))
    ensures Path(s, StopEvents(s, world)) == Some(StopLoop(s, world)) && Inv(StopLoop(s, world))
  {
    if s.running {
      NextPath(s, world);
      PathInv(s, NextEvents(s, world));
      if s.eventFd > 0 {
        InLoopPath(s, world);
        PathInv(s, InLoopEvents(s, world));
      }
    }
    StopPath(s, world);
    PathInv(s, StopEvents(s, world));
  }

  // ---- one handler call executes at most the batch that it found ----

  lemma {:induction false} CallsKeepHistory(s: Rq, cs: seq<Call>)
    ensures DoCalls(s, cs).executed == s.executed && s.cancelled <= DoCalls(s, cs).cancelled
    ensures forall x :: x in DoCalls(s, cs).batch ==> x in s.batch
    ensures forall x :: x in s.batch ==> x in DoCalls(s, cs).batch || x in DoCalls(s, cs).cancelled
    decreases |cs|
  {
    if cs != [] {
      if cs[0].Cancel? { RemoveWithin(s.batch, cs[0].id); }
      CallsKeepHistory(DoCall(s, cs[0]), cs[1..]);
    }
  }

  /** Draining executes functions of the batch only, each executed one or cancelled on the way, whatever the
      functions submit: a function that submits itself again waits for the next call. */
  lemma {:induction false} DrainIsBatch(s: Rq, world: World)
    ensures var d := Drain(s, world);
            && |s.executed| <= |d.executed| <= |s.executed| + |s.batch|
            && d.executed[..|s.executed|] == s.executed
            && s.cancelled <= d.cancelled
            && (forall k :: |s.executed| <= k < |d.executed| ==> d.executed[k] in s.batch)
            && (forall x :: x in s.batch ==> x in d.executed || x in d.cancelled)
    decreases |s.batch|
  {
    if s.batch != [] {
      var x, e, d := s.batch[0], ExecFront(s, world), Drain(s, world);
      CallsKeepHistory(TakeFront(s), world(x));
      DrainIsBatch(e, world);
      assert e.executed == s.executed + [x];
      assert d.executed[|s.executed|] == e.executed[|s.executed|] == x;
      forall y | y in s.batch ensures y in d.executed || y in d.cancelled {
        if y != x { assert y in s.batch[1..]; }
      }
      assert d.executed[..|s.executed|] == e.executed[..|s.executed|];
    }
  }

  // In a clean-up nothing can be taken out of the batch: all of it executes, in order.
  lemma {:induction false} CleaningCalls(s: Rq, cs: seq<Call>)
    requires s.phase.Cleaning?
    ensures DoCalls(s, cs).batch == s.batch && DoCalls(s, cs).executed == s.executed
    decreases |cs|
  {
    if cs != [] { CleaningCalls(DoCall(s, cs[0]), cs[1..]); }
  }

  lemma {:induction false} CleaningDrain(s: Rq, world: World)
    requires s.phase.Cleaning?
    ensures Drain(s, world).executed == s.executed + s.batch
    decreases |s.batch|
  {
    if s.batch != [] {
      CleaningCalls(TakeFront(s), world(s.batch[0]));
      CleaningDrain(ExecFront(s, world), world);
      assert s.batch == [s.batch[0]] + s.batch[1..];
    }
  }

  /** A clean-up executes what it finds queued, the runNext functions first, each queue in order. */
  lemma {:induction false} RoundsExecute(s: Rq, world: World)
    requires s.phase.Cleaning? && s.phase.rounds > 0 && s.batch == []
    ensures s.executed + s.next + s.inLoop <= Rounds(s, world).executed
    decreases if s.phase.Cleaning? then s.phase.rounds else 0
  {
    if !CleanedUp(s) {
      var d := Drain(Round(s), world);
      CleaningDrain(Round(s), world);
      assert s.executed + (s.next + s.inLoop) == s.executed + s.next + s.inLoop;
      if d.phase.rounds > 0 {
        RoundsExecute(d, world);
        assert d.executed <= d.executed + d.next + d.inLoop;
      } else {
        assert CleanedUp(d);
      }
    }
  }

  // How many rounds it takes.
  function RoundsTaken(s: Rq, world: World): (n: nat)
    requires s.phase.Cleaning? && s.batch == []
    ensures n <= s.phase.rounds && Rounds(s, world).phase == Cleaning(s.phase.rounds - n)
    decreases if s.phase.Cleaning? then s.phase.rounds else 0
  {
    if CleanedUp(s) then 0 else 1 + RoundsTaken(Drain(Round(s), world), world)
  }

  /** The end of a loop run executes what is queued then. Something may be left queued only after a hundred rounds. */
  lemma StopExecutes(s: Rq, world: World)
    requires s.batch == []
    ensures s.executed + s.next + s.inLoop <= StopLoop(s, world).executed
    ensures var n := RoundsTaken(s.(phase := Cleaning(ROUNDS)), world); var t := StopLoop(s, world);
      n <= 100 && (n < 100 ==> t.next == [] && t.inLoop == [])
  {
    RoundsExecute(s.(phase := Cleaning(ROUNDS)), world);
  }

  lemma NextHandled(s: Rq, world: World)
    requires Inv(s) && s.phase.Idle? && s.batch == [] && s.running
    ensures var t := HandleNext(s, world);
      && Inv(t) && |t.executed| <= |s.executed| + |s.next|
      && forall x :: x in s.next ==> x in t.executed || x in t.cancelled
  {
    HandlersAreRuns(s, world);
    DrainIsBatch(SwapNext(s), world);
  }

  lemma InLoopHandled(s: Rq, world: World)
    requires Inv(s) && s.phase.Idle? && s.batch == [] && s.running && s.eventFd > 0
    ensures var t := HandleInLoop(s, world);
      && Inv(t) && |t.executed| <= |s.executed| + |s.inLoop|
      && forall x :: x in s.inLoop ==> x in t.executed || x in t.cancelled
  {
    HandlersAreRuns(s, world);
    DrainIsBatch(SwapInLoop(s), world);
  }

  lemma StopHandled(s: Rq, world: World)
    requires Inv(s) && s.phase.Idle? && s.batch == []
    ensures Inv(StopLoop(s, world)) && s.executed + s.next + s.inLoop <= StopLoop(s, world).executed
  {
    HandlersAreRuns(s, world);
    StopExecutes(s, world);
  }

  // ---- what a handler has taken is dealt with, whatever happens meanwhile ----

  predicate Taken(s: Rq, x: RunId) {
    x in s.batch || x in s.executed || x in s.cancelled
  }

  lemma TakenStep(s: Rq, ev: Event, x: RunId)
    requires Enabled(s, ev) && Taken(s, x)
    ensures Taken(Apply(s, ev), x)
  {
    if ev.TakeEv? {
      assert s.batch == [s.batch[0]] + s.batch[1..];
    }
    if ev.CallEv? && ev.call.Cancel? {
      RemoveWithin(s.batch, ev.call.id);
    }
  }

  lemma {:induction false} TakenRun(ss: seq<Rq>, evs: seq<Event>, i: nat, n: nat, x: RunId)
    requires IsRun(ss, evs) && i <= n < |ss| && Taken(ss[i], x)
    ensures Taken(ss[n], x)
  {
    if i < n {
      TakenRun(ss, evs, i, n - 1, x);
      assert StepTo(ss[n - 1], evs[n - 1], ss[n - 1 + 1]);
      TakenStep(ss[n - 1], evs[n - 1], x);
    }
  }

  /** In every run: a function that is queued when a handler, or a round of a clean-up, takes its queue has been
      executed or cancelled when that batch is done. */
  lemma QueuedIsServed(ss: seq<Rq>, evs: seq<Event>, i: nat, n: nat, x: RunId)
    requires IsRun(ss, evs) && i < n < |ss| && ss[n].batch == []
    requires match evs[i]
             case SwapNextEv => x in ss[i].next
             case SwapInLoopEv => x in ss[i].inLoop
             case RoundEv => x in ss[i].next || x in ss[i].inLoop
             case _ => false
    ensures x in ss[n].executed || x in ss[n].cancelled
  {
    assert StepTo(ss[i], evs[i], ss[i + 1]);
    assert Taken(ss[i + 1], x);
    TakenRun(ss, evs, i + 1, n, x);
  }
}
