// The asynchronous pipe as a step system: producers that hold the current-buffer lock one at a time,
// and one backend thread. A step is what a thread does inside one critical section.
module AsyncPipeModel {
  import opened Wrappers

  datatype Config = Config(buffSize: nat, buffMinNum: nat, buffMaxNum: nat, interval: nat) {
    predicate Valid() {
      buffSize != 0 && buffMinNum != 0 && buffMinNum <= buffMaxNum && interval != 0
    }
  }

  // Where the producer that holds the current-buffer lock is; `rest` is what its call still has to write.
  datatype Front =
    | Unlocked
    | Holding
    | Appending(rest: seq<byte>)  // at the head of the loop
    | Growing(rest: seq<byte>)    // has counted a new buffer, has not yet added it; holds the free-list lock
    | Blocked(rest: seq<byte>)    // waits for a free buffer
    | Pushing(rest: seq<byte>)    // the current buffer is full

  // Where the backend is; `quit` says that it woke up in order to stop.
  datatype Back =
    | Top
    | Sleeping
    | Flushing(quit: bool)
    | Draining(quit: bool)
    | InHand(buff: seq<byte>, quit: bool)
    | Handled(quit: bool)     // callback done, buffer reset
    | Deleting(quit: bool)    // the buffer in hand is no longer counted
    | Returning(quit: bool)   // the buffer in hand goes back to the free list
    | Exited

  datatype Pipe = Pipe(
    cfg: Config,
    front: Front,
    curr: Option<seq<byte>>,
    free: nat,              // free buffers; they are empty
    full: seq<seq<byte>>,
    buffNum: nat,
    back: Back,
    stop: bool,
    delivered: seq<seq<byte>>,  // what the callback received
    asked: seq<byte>)           // what producers asked to append, in lock order

  function Rest(f: Front): seq<byte> {
    if f.Unlocked? || f.Holding? then [] else f.rest
  }

  function CurrBytes(s: Pipe): seq<byte> {
    if s.curr.Some? then s.curr.value else []
  }

  function HandBytes(b: Back): seq<byte> {
    if b.InHand? then b.buff else []
  }

  function HasHand(b: Back): nat {
    if b.InHand? || b.Handled? || b.Deleting? || b.Returning? then 1 else 0
  }

  function Init(cfg: Config): Pipe {
    Pipe(cfg, Unlocked, None, cfg.buffMinNum, [], cfg.buffMinNum, Top, false, [], [])
  }

  // ---- the steps ----

  datatype Event =
    | Lock | Call(data: seq<byte>) | Return | Unlock   // a producer takes the lock, appends, and lets go
    | Work                                             // the producer's next critical section
    | Backend(timeout: bool)                           // the backend's next critical section
    | Stop                                             // cleanup() asks the backend to stop

  // One critical section of the loop in appendLockless.
  function FrontStep(s: Pipe): Pipe
    requires FrontCan(s)
  {
    match s.front
    case Appending(rest) =>
      if s.curr == None then
        if s.free > 0 then s.(free := s.free - 1, curr := Some([]))
        else if s.buffNum < s.cfg.buffMaxNum then s.(buffNum := s.buffNum + 1, front := Growing(rest))
        else s.(front := Blocked(rest))
      else
        var n := Min(|rest|, s.cfg.buffSize - |s.curr.value|);
        var b := s.curr.value + rest[..n];
        s.(curr := Some(b), front := if |b| == s.cfg.buffSize then Pushing(rest[n..]) else Appending(rest[n..]))
    case Growing(rest) => s.(curr := Some([]), front := Appending(rest))
    case Blocked(rest) => s.(free := s.free - 1, curr := Some([]), front := Appending(rest))
    case Pushing(rest) => s.(full := s.full + [CurrBytes(s)], curr := None, front := Appending(rest))
  }

  predicate FrontCan(s: Pipe) {
    match s.front
    case Unlocked => false
    case Holding => false
    case Appending(rest) => rest != [] && (s.curr.Some? ==> |s.curr.value| <= s.cfg.buffSize)
    case Growing(_) => true
    case Blocked(_) => s.free > 0
    case Pushing(_) => true
  }

  // One critical section of threadFunc. `timeout` says that a sleep ended because its time was up.
  function BackStep(s: Pipe, timeout: bool): Pipe
    requires BackCan(s, timeout)
  {
    match s.back
    case Top => s.(back := if s.full == [] then Sleeping else Draining(false))
    case Sleeping =>
      s.(back := if timeout then Flushing(false) else if s.stop then Flushing(true) else Draining(false))
    case Flushing(quit) =>
      if s.front.Unlocked? && s.curr.Some?
      then s.(full := s.full + [s.curr.value], curr := None, back := Draining(quit))
      else s.(back := Draining(quit))
    case Draining(quit) =>
      if s.full != [] then s.(full := s.full[1..], back := InHand(s.full[0], quit))
      else s.(back := if quit then Exited else Top)
    case InHand(buff, quit) => s.(delivered := s.delivered + [buff], back := Handled(quit))
    case Handled(quit) =>
      if s.buffNum > s.cfg.buffMinNum then s.(buffNum := s.buffNum - 1, back := Deleting(quit))
      else s.(back := Returning(quit))
    case Deleting(quit) => s.(back := Draining(quit))
    case Returning(quit) => s.(free := s.free + 1, back := Draining(quit))
    case Exited => s
  }

  predicate BackCan(s: Pipe, timeout: bool) {
    match s.back
    case Exited => false
    // The predicate of the wait is false when, and only when, the wait ends by timeout.
    case Sleeping => timeout <==> !s.stop && s.full == []
    case Returning(_) => !s.front.Growing? && !timeout
    case _ => !timeout
  }

  predicate Enabled(s: Pipe, ev: Event) {
    match ev
    case Lock => s.front.Unlocked?
    case Call(_) => s.front.Holding?
    case Return => s.front == Appending([])
    case Unlock => s.front.Holding?
    case Work => FrontCan(s)
    case Backend(timeout) => BackCan(s, timeout)
    case Stop => true
  }

  function Apply(s: Pipe, ev: Event): Pipe
    requires Enabled(s, ev)
  {
    match ev
    case Lock => s.(front := Holding)
    case Call(data) => s.(front := Appending(data), asked := s.asked + data)
    case Return => s.(front := Holding)
    case Unlock => s.(front := Unlocked)
    case Work => FrontStep(s)
    case Backend(timeout) => BackStep(s, timeout)
    case Stop => s.(stop := true)
  }

  // ---- what every step keeps ----

  ghost predicate Sized(cfg: Config, b: seq<byte>) {
    1 <= |b| <= cfg.buffSize
  }

  // The current buffer is only empty just after it was taken, and only full until it is pushed.
  ghost predicate CurrOk(s: Pipe) {
    match s.front
    case Unlocked => s.curr.Some? ==> 1 <= |s.curr.value| < s.cfg.buffSize
    case Holding => s.curr.Some? ==> 1 <= |s.curr.value| < s.cfg.buffSize
    case Appending(rest) => s.curr.Some? ==> (if rest == [] then 1 else 0) <= |s.curr.value| < s.cfg.buffSize
    case Growing(rest) => s.curr == None && rest != [] && s.free == 0
    case Blocked(rest) => s.curr == None && rest != []
    case Pushing(rest) => s.curr.Some? && |s.curr.value| == s.cfg.buffSize
  }

  /** First in, first out, nothing lost, nothing twice. */
  ghost predicate Fifo(s: Pipe) {
    Flatten(s.delivered) + HandBytes(s.back) + Flatten(s.full) + CurrBytes(s) + Rest(s.front) == s.asked
  }

  /** The counter is the number of live buffers, give or take one that is being made or deleted. */
  ghost predicate Counted(s: Pipe) {
    && s.buffNum + (if s.back.Deleting? then 1 else 0)
       == s.free + |s.full| + (if s.curr.Some? then 1 else 0) + HasHand(s.back) + (if s.front.Growing? then 1 else 0)
    && s.cfg.buffMinNum <= s.buffNum <= s.cfg.buffMaxNum
  }

  ghost predicate SizesOk(s: Pipe) {
    && (forall b :: b in s.full ==> Sized(s.cfg, b))
    && (forall b :: b in s.delivered ==> Sized(s.cfg, b))
    && (s.back.InHand? ==> Sized(s.cfg, s.back.buff))
  }

  // The backend only quits when asked.
  ghost predicate QuitOk(s: Pipe) {
    Quitting(s.back) ==> s.stop
  }

  predicate Quitting(b: Back) {
    b.Exited? || (!b.Top? && !b.Sleeping? && b.quit)
  }

  ghost predicate Inv(s: Pipe) {
    s.cfg.Valid() && CurrOk(s) && Fifo(s) && Counted(s) && SizesOk(s) && QuitOk(s)
  }

  lemma InitInv(cfg: Config)
    requires cfg.Valid()
    ensures Inv(Init(cfg))
  {
  }

  lemma Assoc(a: seq<byte>, b: seq<byte>, c: seq<byte>, d: seq<byte>)
    ensures a + (b + c) + d == a + b + c + d
    ensures a + b + (c + d) == a + b + c + d
    ensures a + [] + d == a + d
  {
  }

  lemma FillFifo(s: Pipe)
    requires Fifo(s) && FrontCan(s) && s.front.Appending? && s.curr.Some?
    ensures Fifo(FrontStep(s))
  {
    var rest, c := s.front.rest, s.curr.value;
    var n := Min(|rest|, s.cfg.buffSize - |c|);
    var before := Flatten(s.delivered) + HandBytes(s.back) + Flatten(s.full);
    assert rest == rest[..n] + rest[n..];
    Assoc(before, c, rest[..n], rest[n..]);
    var s' := FrontStep(s);
    assert CurrBytes(s') == c + rest[..n] && Rest(s'.front) == rest[n..];
  }

  lemma PushFifo(s: Pipe)
    requires Fifo(s) && FrontCan(s) && s.front.Pushing? && s.curr.Some?
    ensures Fifo(FrontStep(s))
  {
    FlattenSnoc(s.full, s.curr.value);
    Assoc(Flatten(s.delivered) + HandBytes(s.back), Flatten(s.full), s.curr.value, s.front.rest);
    assert Flatten(s.delivered) + HandBytes(s.back) + (Flatten(s.full) + s.curr.value) + []
        == Flatten(s.delivered) + HandBytes(s.back) + (Flatten(s.full) + s.curr.value);
  }

  lemma FrontInv(s: Pipe)
    requires Inv(s) && FrontCan(s)
    ensures Inv(FrontStep(s))
  {
    if s.front.Appending? && s.curr.Some? { FillFifo(s); }
    if s.front.Pushing? { PushFifo(s); }
  }

  lemma TakeFifo(s: Pipe)
    requires Fifo(s) && s.back.Draining? && s.full != []
    ensures Fifo(BackStep(s, false))
  {
    var f, fs := s.full[0], Flatten(s.full[1..]);
    assert Flatten(s.full) == f + fs;
    assert Flatten(s.delivered) + [] + (f + fs) == Flatten(s.delivered) + f + fs;
  }

  lemma DeliverFifo(s: Pipe)
    requires Fifo(s) && s.back.InHand?
    ensures Fifo(BackStep(s, false))
  {
    FlattenSnoc(s.delivered, s.back.buff);
    assert Flatten(s.delivered) + s.back.buff + [] == Flatten(s.delivered) + s.back.buff;
  }

  lemma FlushFifo(s: Pipe)
    requires Fifo(s) && s.back.Flushing? && s.front.Unlocked? && s.curr.Some?
    ensures Fifo(BackStep(s, false))
  {
    FlattenSnoc(s.full, s.curr.value);
    var d, f, c := Flatten(s.delivered), Flatten(s.full), s.curr.value;
    assert d + [] + f + c + [] == d + [] + (f + c) + [] + [];
  }

  lemma BackSizes(s: Pipe, timeout: bool)
    requires Inv(s) && BackCan(s, timeout)
    ensures SizesOk(BackStep(s, timeout))
  {
    var s' := BackStep(s, timeout);
    if s.back.Draining? && s.full != [] {
      forall b | b in s'.full ensures b in s.full {
        var i :| 0 <= i < |s'.full| && s'.full[i] == b;
        assert s.full[i + 1] == b;
      }
    }
  }

  lemma BackFifo(s: Pipe, timeout: bool)
    requires Inv(s) && BackCan(s, timeout)
    ensures Fifo(BackStep(s, timeout))
  {
    match s.back
    case Flushing(_) => if s.front.Unlocked? && s.curr.Some? { FlushFifo(s); }
    case InHand(_, _) => DeliverFifo(s);
    case Draining(_) => if s.full != [] { TakeFifo(s); }
    case _ =>
  }

  lemma BackCounted(s: Pipe, timeout: bool)
    requires Counted(s) && BackCan(s, timeout)
    ensures Counted(BackStep(s, timeout))
  {
    match s.back
    case Flushing(_) =>
    case Draining(_) =>
    case Handled(_) =>
    case _ =>
  }

  lemma BackCurr(s: Pipe, timeout: bool)
    requires CurrOk(s) && QuitOk(s) && BackCan(s, timeout)
    ensures CurrOk(BackStep(s, timeout)) && QuitOk(BackStep(s, timeout))
  {
  }

  lemma BackInv(s: Pipe, timeout: bool)
    requires Inv(s) && BackCan(s, timeout)
    ensures Inv(BackStep(s, timeout))
  {
    BackSizes(s, timeout);
    BackFifo(s, timeout);
    BackCounted(s, timeout);
    BackCurr(s, timeout);
  }

  // A producer that holds the lock finds its own things as it left them.
  lemma BackLeaves(s: Pipe, timeout: bool)
    requires BackCan(s, timeout)
    ensures var s' := BackStep(s, timeout);
      s'.front == s.front && s'.free >= s.free && (!s.front.Unlocked? ==> s'.curr == s.curr)
  {
  }

  lemma StepInv(s: Pipe, ev: Event)
    requires Inv(s) && Enabled(s, ev)
    ensures Inv(Apply(s, ev))
  {
    match ev
    case Work => FrontInv(s);
    case Backend(timeout) => BackInv(s, timeout);
    case Call(data) => CallFifo(s, data);
    case _ =>
  }

  lemma CallFifo(s: Pipe, data: seq<byte>)
    requires Fifo(s) && s.front.Holding?
    ensures Fifo(Apply(s, Call(data)))
  {
    var all := Flatten(s.delivered) + HandBytes(s.back) + Flatten(s.full) + CurrBytes(s);
    assert all + [] + data == all + data;
  }

  // ---- runs ----

  ghost predicate StepTo(s: Pipe, ev: Event, s': Pipe) {
    Enabled(s, ev) && s' == Apply(s, ev)
  }

  ghost predicate IsRun(cfg: Config, ss: seq<Pipe>, evs: seq<Event>) {
    && cfg.Valid()
    && |ss| == |evs| + 1
    && ss[0] == Init(cfg)
    && forall i :: 0 <= i < |evs| ==> StepTo(ss[i], evs[i], ss[i + 1])
  }

  // The data of the append calls of a run, in the order in which they got the lock.
  function Calls(evs: seq<Event>): seq<seq<byte>> {
    if evs == [] then []
    else
      var last := evs[|evs| - 1];
      Calls(evs[..|evs| - 1]) + (if last.Call? then [last.data] else [])
  }

  lemma CallsUpTo(evs: seq<Event>, n: nat)
    requires 0 < n <= |evs|
    ensures Flatten(Calls(evs[..n]))
            == Flatten(Calls(evs[..n - 1])) + (if evs[n - 1].Call? then evs[n - 1].data else [])
  {
    var before, ev := Calls(evs[..n - 1]), evs[n - 1];
    assert evs[..n][..n - 1] == evs[..n - 1];
    if ev.Call? {
      FlattenSnoc(before, ev.data);
    } else {
      assert before + [] == before;
    }
  }

  lemma StepAsks(s: Pipe, ev: Event)
    requires Enabled(s, ev)
    ensures Apply(s, ev).cfg == s.cfg && Apply(s, ev).asked == s.asked + (if ev.Call? then ev.data else [])
  {
  }

  lemma {:induction false} RunInv(cfg: Config, ss: seq<Pipe>, evs: seq<Event>, n: nat)
    requires IsRun(cfg, ss, evs) && n < |ss|
    ensures Inv(ss[n]) && ss[n].cfg == cfg && ss[n].asked == Flatten(Calls(evs[..n]))
  {
    if n == 0 {
      InitInv(cfg);
    } else {
      RunInv(cfg, ss, evs, n - 1);
      assert StepTo(ss[n - 1], evs[n - 1], ss[n - 1 + 1]);
      StepInv(ss[n - 1], evs[n - 1]);
      StepAsks(ss[n - 1], evs[n - 1]);
      CallsUpTo(evs, n);
    }
  }

  /** In every interleaving: what was delivered, and then what is in the backend's hand, in the queue, in the
      current buffer and still to be written, is exactly what the calls appended, in lock order. */
  lemma RunIsFifo(cfg: Config, ss: seq<Pipe>, evs: seq<Event>, n: nat)
    requires IsRun(cfg, ss, evs) && n < |ss|
    ensures var s := ss[n];
            Flatten(s.delivered) + HandBytes(s.back) + Flatten(s.full) + CurrBytes(s) + Rest(s.front)
            == Flatten(Calls(evs[..n]))
    ensures forall b :: b in ss[n].delivered ==> 1 <= |b| <= cfg.buffSize
  {
    RunInv(cfg, ss, evs, n);
  }

  /** In every interleaving the pool stays within its bounds, and the counter tells the truth. */
  lemma RunKeepsPool(cfg: Config, ss: seq<Pipe>, evs: seq<Event>, n: nat)
    requires IsRun(cfg, ss, evs) && n < |ss|
    ensures cfg.buffMinNum <= ss[n].buffNum <= cfg.buffMaxNum
    ensures !ss[n].front.Growing? && !ss[n].back.Deleting? ==>
              ss[n].buffNum == ss[n].free + |ss[n].full| + (if ss[n].curr.Some? then 1 else 0) + HasHand(ss[n].back)
  {
    RunInv(cfg, ss, evs, n);
  }

  // ---- a producer that waits for a buffer gets one ----

  // The producer waits and the backend has not been stopped yet. Nobody else can take the lock.
  ghost predicate Starving(s: Pipe) {
    Inv(s) && s.front.Blocked? && s.free == 0 && !s.back.Exited?
  }

  /** There is always a buffer ahead of a waiting producer, in the queue or in the backend's hand. */
  lemma BuffersAhead(s: Pipe)
    requires Starving(s)
    ensures |s.full| + (if s.back.Deleting? then 0 else HasHand(s.back)) == s.buffNum >= 1
    ensures s.full != [] || s.back.InHand? || s.back.Handled? || s.back.Returning?
  {
  }

  // How many backend steps it takes at most: six for each buffer that may still be deleted, and a phase.
  function Patience(s: Pipe): nat
    requires s.cfg.buffMinNum <= s.buffNum
  {
    6 * (s.buffNum - s.cfg.buffMinNum) +
    match s.back
    case Deleting(_) => 7
    case Sleeping => 6
    case Top => 6
    case Flushing(_) => 5
    case Draining(_) => 4
    case InHand(_, _) => 3
    case Handled(_) => 2
    case Returning(_) => 1
    case Exited => 0
  }

  // How many more buffers the callback may receive before one is given back.
  function Handovers(s: Pipe): nat
    requires s.cfg.buffMinNum <= s.buffNum
  {
    match s.back
    case Handled(_) => s.buffNum - s.cfg.buffMinNum
    case Returning(_) => 0
    case _ => s.buffNum - s.cfg.buffMinNum + 1
  }

  /** Each backend step either frees a buffer or brings the waiting producer nearer to one, deletions included. */
  lemma StarvingStep(s: Pipe, timeout: bool)
    requires Starving(s) && BackCan(s, timeout)
    ensures var s' := BackStep(s, timeout);
            && Inv(s') && s'.front == s.front
            && (s'.free == 0 ==>
                  && Starving(s') && Patience(s') < Patience(s)
                  && |s'.delivered| + Handovers(s') <= |s.delivered| + Handovers(s))
            && (s'.free > 0 ==> |s'.delivered| <= |s.delivered| + Handovers(s))
  {
    BuffersAhead(s);
    BackInv(s, timeout);
    StarvingCounts(s, timeout);
  }

  lemma StarvingCounts(s: Pipe, timeout: bool)
    requires Counted(s) && BackCan(s, timeout) && s.front.Blocked? && s.free == 0 && s.cfg.Valid()
    requires s.full != [] || s.back.InHand? || s.back.Handled? || s.back.Returning?
    ensures var s' := BackStep(s, timeout);
            && !s'.back.Exited? && s'.front == s.front
            && s'.cfg == s.cfg && s.cfg.buffMinNum <= s'.buffNum
            && (s'.free == 0 ==> Patience(s') < Patience(s))
            && |s'.delivered| + (if s'.free == 0 then Handovers(s') else 0) <= |s.delivered| + Handovers(s)
  {
  }

  // The backend is never stuck while a producer waits.
  lemma StarvingBackendRuns(s: Pipe)
    requires Starving(s)
    ensures BackCan(s, false)
  {
    BuffersAhead(s);
  }

  ghost predicate BackendRun(ss: seq<Pipe>) {
    && ss != []
    && forall i :: 0 <= i < |ss| - 1 ==> BackendTo(ss[i], ss[i + 1])
  }

  ghost predicate BackendTo(s: Pipe, s': Pipe) {
    exists timeout :: BackCan(s, timeout) && s' == BackStep(s, timeout)
  }

  lemma StarvingTo(s: Pipe, s': Pipe)
    requires Starving(s) && BackendTo(s, s') && s'.free == 0
    ensures Starving(s') && s'.cfg == s.cfg && Patience(s') < Patience(s)
    ensures |s'.delivered| + Handovers(s') <= |s.delivered| + Handovers(s)
  {
    var timeout :| BackCan(s, timeout) && s' == BackStep(s, timeout);
    StarvingStep(s, timeout);
  }

  /** However the backend runs, a waiting producer is served within Patience steps, after the callback
      received at most max - min + 1 more buffers. */
  lemma {:induction false} ProducerServed(ss: seq<Pipe>, n: nat)
    requires BackendRun(ss) && Starving(ss[0]) && n < |ss|
    requires forall i :: 0 <= i <= n ==> ss[i].free == 0
    ensures Starving(ss[n]) && ss[n].cfg == ss[0].cfg
    ensures n + Patience(ss[n]) <= Patience(ss[0])
    ensures |ss[n].delivered| + Handovers(ss[n]) <= |ss[0].delivered| + Handovers(ss[0])
    ensures |ss[n].delivered| <= |ss[0].delivered| + ss[0].cfg.buffMaxNum - ss[0].cfg.buffMinNum + 1
  {
    if n > 0 {
      ProducerServed(ss, n - 1);
      assert BackendTo(ss[n - 1], ss[n - 1 + 1]);
      StarvingTo(ss[n - 1], ss[n]);
    }
  }

  // ---- what the backend delivers, and when ----

  // Where the backend is in its inner loop.
  predicate InLoop(b: Back) {
    b.Draining? || b.InHand? || b.Handled? || b.Deleting? || b.Returning?
  }

  // One turn of the inner loop, four critical sections.
  function TurnOnce(s: Pipe): Pipe
    requires s.back.Draining? && s.full != [] && !s.front.Growing?
  {
    BackStep(BackStep(BackStep(BackStep(s, false), false), false), false)
  }

  lemma TurnDelivers(s: Pipe)
    requires s.back.Draining? && s.full != [] && !s.front.Growing?
    ensures
      var n := if s.buffNum > s.cfg.buffMinNum then 1 else 0;
      TurnOnce(s) == s.(full := s.full[1..], delivered := s.delivered + [s.full[0]], buffNum := s.buffNum - n, free := s.free + 1 - n)
  {
  }

  // The inner loop, with no other thread running meanwhile.
  function DrainAll(s: Pipe): Pipe
    requires s.back.Draining? && !s.front.Growing? && s.cfg.buffMinNum <= s.buffNum
    decreases |s.full|
  {
    TurnDeliversIf(s);
    if s.full == [] then BackStep(s, false) else DrainAll(TurnOnce(s))
  }

  lemma TurnDeliversIf(s: Pipe)
    requires s.back.Draining? && !s.front.Growing? && s.cfg.buffMinNum <= s.buffNum
    ensures s.full != [] ==>
      var t := TurnOnce(s);
      t.back == s.back && t.front == s.front && t.full == s.full[1..] && t.cfg == s.cfg && s.cfg.buffMinNum <= t.buffNum
  {
    if s.full != [] { TurnDelivers(s); }
  }

  // How many buffers are deleted when k come back.
  function Surplus(s: Pipe, k: nat): (n: nat)
    requires s.cfg.buffMinNum <= s.buffNum
    ensures n <= k
  {
    if s.buffNum - s.cfg.buffMinNum < k then s.buffNum - s.cfg.buffMinNum else k
  }

  /** Everything in the full queue is delivered in order, and the buffers beyond the minimum are deleted. */
  lemma {:induction false} DrainDelivers(s: Pipe)
    requires s.back.Draining? && !s.front.Growing? && s.cfg.buffMinNum <= s.buffNum
    ensures
      var n := Surplus(s, |s.full|);
      DrainAll(s) == s.(full := [], delivered := s.delivered + s.full, buffNum := s.buffNum - n,
                        free := s.free + |s.full| - n, back := if s.back.quit then Exited else Top)
    decreases |s.full|
  {
    if s.full == [] {
      assert s.delivered + s.full == s.delivered;
    } else {
      var t := TurnOnce(s);
      TurnDelivers(s);
      DrainDelivers(t);
      assert s.delivered + [s.full[0]] + s.full[1..] == s.delivered + s.full;
    }
  }

  /** When its sleep times out and no producer holds the lock, the backend delivers the current buffer, though it is
      not full, and keeps or deletes it. */
  lemma TimeoutDelivers(s: Pipe)
    requires Inv(s) && s.back.Sleeping? && !s.stop && s.full == [] && s.front.Unlocked?
    ensures BackCan(s, true) && BackCan(BackStep(s, true), false)
    ensures
      var f := BackStep(BackStep(s, true), false);
      f.back.Draining? && DrainAll(f) ==
        if s.curr == None then s.(back := Top)
        else
          var n := if s.buffNum > s.cfg.buffMinNum then 1 else 0;
          s.(back := Top, curr := None, delivered := s.delivered + [s.curr.value], buffNum := s.buffNum - n, free := s.free + 1 - n)
  {
    var f := BackStep(BackStep(s, true), false);
    DrainDelivers(f);
    assert s.delivered + [] == s.delivered;
    if s.curr.Some? { assert s.full + [s.curr.value] == [s.curr.value]; }
  }

  /** When full buffers wake it, it delivers them and leaves the current buffer alone. */
  lemma WakeDelivers(s: Pipe)
    requires Inv(s) && s.back.Sleeping? && !s.stop && s.full != [] && !s.front.Growing?
    ensures BackCan(s, false) && BackStep(s, false).back == Draining(false)
    ensures
      var d := DrainAll(BackStep(s, false));
      d.delivered == s.delivered + s.full && d.full == [] && d.curr == s.curr && d.back.Top?
      && d.buffNum == s.buffNum - Surplus(s, |s.full|)
  {
    DrainDelivers(BackStep(s, false));
  }

  // What has left the current buffer.
  function Moved(s: Pipe): seq<byte> {
    Flatten(s.delivered) + HandBytes(s.back) + Flatten(s.full)
  }

  lemma FrontMoves(s: Pipe)
    requires Inv(s) && FrontCan(s)
    ensures Moved(s) <= Moved(FrontStep(s))
  {
    if s.front.Pushing? {
      FlattenSnoc(s.full, s.curr.value);
      Assoc3(Flatten(s.delivered) + HandBytes(s.back), Flatten(s.full), s.curr.value);
    }
  }

  lemma Assoc3(a: seq<byte>, b: seq<byte>, c: seq<byte>)
    ensures a + b <= a + (b + c)
  {
  }

  lemma FlushMoves(s: Pipe)
    requires s.back.Flushing?
    ensures Moved(s) <= Moved(BackStep(s, false))
  {
    if s.front.Unlocked? && s.curr.Some? {
      FlattenSnoc(s.full, s.curr.value);
      Assoc3(Flatten(s.delivered) + [], Flatten(s.full), s.curr.value);
    }
  }

  lemma TakeMoves(s: Pipe)
    requires s.back.Draining?
    ensures Moved(s) == Moved(BackStep(s, false))
  {
    if s.full != [] {
      var d, f, fs := Flatten(s.delivered), s.full[0], Flatten(s.full[1..]);
      assert Flatten(s.full) == f + fs;
      assert d + [] + (f + fs) == d + f + fs;
    }
  }

  lemma DeliverMoves(s: Pipe)
    requires s.back.InHand?
    ensures Moved(s) == Moved(BackStep(s, false))
  {
    FlattenSnoc(s.delivered, s.back.buff);
    assert Flatten(s.delivered) + s.back.buff + [] == Flatten(s.delivered) + s.back.buff;
  }

  lemma BackMoves(s: Pipe, timeout: bool)
    requires BackCan(s, timeout)
    ensures Moved(s) <= Moved(BackStep(s, timeout))
  {
    match s.back
    case Flushing(_) => FlushMoves(s);
    case Draining(_) => TakeMoves(s);
    case InHand(_, _) => DeliverMoves(s);
    case _ =>
  }

  lemma StepMoves(s: Pipe, ev: Event)
    requires Inv(s) && Enabled(s, ev)
    ensures Moved(s) <= Moved(Apply(s, ev))
    ensures Flatten(s.delivered) <= Flatten(Apply(s, ev).delivered)
  {
    match ev
    case Work => FrontMoves(s);
    case Backend(timeout) =>
      BackMoves(s, timeout);
      if s.back.InHand? { FlattenSnoc(s.delivered, s.back.buff); }
    case _ =>
  }

  // Bytes that are due: delivered, or the backend has not yet finished with the queue they are in.
  ghost predicate Due(s: Pipe, bytes: seq<byte>) {
    bytes <= Flatten(s.delivered) || (InLoop(s.back) && bytes <= Moved(s))
  }

  lemma PrefixTrans(a: seq<byte>, b: seq<byte>, c: seq<byte>)
    requires a <= b <= c
    ensures a <= c
  {
  }

  lemma DueStep(s: Pipe, ev: Event, bytes: seq<byte>)
    requires Inv(s) && Enabled(s, ev) && Due(s, bytes)
    ensures Due(Apply(s, ev), bytes)
  {
    StepMoves(s, ev);
    if bytes <= Flatten(s.delivered) {
      PrefixTrans(bytes, Flatten(s.delivered), Flatten(Apply(s, ev).delivered));
    } else {
      PrefixTrans(bytes, Moved(s), Moved(Apply(s, ev)));
      if s.back.Draining? && s.full == [] {
        assert Moved(s) == Flatten(s.delivered);
      }
    }
  }

  lemma {:induction false} DueRun(cfg: Config, ss: seq<Pipe>, evs: seq<Event>, j: nat, n: nat, bytes: seq<byte>)
    requires IsRun(cfg, ss, evs) && j <= n < |ss| && Due(ss[j], bytes)
    ensures Due(ss[n], bytes)
  {
    if j < n {
      DueRun(cfg, ss, evs, j, n - 1, bytes);
      RunInv(cfg, ss, evs, n - 1);
      assert StepTo(ss[n - 1], evs[n - 1], ss[n - 1 + 1]);
      DueStep(ss[n - 1], evs[n - 1], bytes);
    }
  }

  // The flush of the current buffer makes everything due that the calls have appended.
  lemma FlushMakesDue(s: Pipe)
    requires Inv(s) && s.back.Flushing? && s.front.Unlocked?
    ensures Due(BackStep(s, false), s.asked)
  {
    BackInv(s, false);
    var t := BackStep(s, false);
    assert Moved(t) + [] + [] == Moved(t);
  }

  lemma {:induction false} StillFlushing(cfg: Config, ss: seq<Pipe>, evs: seq<Event>, i: nat, j: nat)
    requires IsRun(cfg, ss, evs) && i < j < |ss| && evs[i] == Backend(true)
    requires forall k :: i < k < j ==> !evs[k].Backend?
    ensures ss[j].back == Flushing(false)
  {
    assert StepTo(ss[j - 1], evs[j - 1], ss[j - 1 + 1]);
    if i < j - 1 {
      StillFlushing(cfg, ss, evs, i, j - 1);
    }
  }

  /** In every interleaving: if a sleep of the backend times out, and no producer holds the lock at its next step,
      all that the calls had appended by then has been delivered when it is next at the head of its loop. */
  lemma TimedFlush(cfg: Config, ss: seq<Pipe>, evs: seq<Event>, i: nat, j: nat, n: nat)
    requires IsRun(cfg, ss, evs) && i < j < n < |ss| && evs[i] == Backend(true) && evs[j].Backend?
    requires forall k :: i < k < j ==> !evs[k].Backend?
    requires ss[j].front.Unlocked? && (ss[n].back.Top? || ss[n].back.Sleeping?)
    ensures Flatten(Calls(evs[..j])) <= Flatten(ss[n].delivered)
  {
    StillFlushing(cfg, ss, evs, i, j);
    RunInv(cfg, ss, evs, j);
    assert StepTo(ss[j], evs[j], ss[j + 1]);
    FlushMakesDue(ss[j]);
    DueRun(cfg, ss, evs, j + 1, n, ss[j].asked);
  }

  // A producer comes to wait for a buffer only when the pool is as large as it may become and none is free.
  lemma {:induction false} WaitsOnlyAtMax(cfg: Config, ss: seq<Pipe>, evs: seq<Event>, n: nat)
    requires IsRun(cfg, ss, evs) && n < |ss| && ss[n].front.Blocked?
    ensures exists i :: 0 <= i <= n && BlockedAtMax(ss[i]) && forall k :: i <= k <= n ==> ss[k].front.Blocked?
  {
    assert n > 0;
    assert StepTo(ss[n - 1], evs[n - 1], ss[n - 1 + 1]);
    RunInv(cfg, ss, evs, n);
    if ss[n - 1].front.Blocked? {
      WaitsOnlyAtMax(cfg, ss, evs, n - 1);
    } else {
      assert BlockedAtMax(ss[n]);
    }
  }

  predicate BlockedAtMax(s: Pipe) {
    s.front.Blocked? && s.buffNum == s.cfg.buffMaxNum && s.free == 0
  }

  // ---- cleanup ----

  // cleanup() has asked the backend to stop, and no producer runs.
  ghost predicate Closing(s: Pipe) {
    && Inv(s) && s.front.Unlocked? && s.stop
    && (Quitting(s.back) && !s.back.Flushing? ==> s.curr == None)
    && (s.back.Exited? ==> s.full == [])
  }

  lemma StopCloses(s: Pipe)
    requires Inv(s) && s.front.Unlocked? && !s.stop
    ensures Closing(Apply(s, Stop))
  {
  }

  // Backend steps until it exits.
  function Farewell(s: Pipe): nat {
    5 * (|s.full| + if s.curr.Some? then 1 else 0) +
    match s.back
    case Exited => 0
    case Flushing(quit) => if quit then 2 else 6
    case Sleeping => 3
    case Top => if s.full == [] then 4 else 6
    case Draining(quit) => if quit then 1 else 5
    case InHand(_, quit) => if quit then 5 else 9
    case Handled(quit) => if quit then 4 else 8
    case Deleting(quit) => if quit then 3 else 7
    case Returning(quit) => if quit then 3 else 7
  }

  // The steps at the head of the loop, up to the inner loop.
  lemma WakingFarewell(s: Pipe)
    requires Closing(s) && (s.back.Top? || s.back.Sleeping? || s.back.Flushing?)
    ensures BackCan(s, false) && Farewell(BackStep(s, false)) < Farewell(s)
  {
  }

  // The steps of the inner loop.
  lemma DrainingFarewell(s: Pipe)
    requires Closing(s) && !s.back.Exited? && !s.back.Top? && !s.back.Sleeping? && !s.back.Flushing?
    ensures BackCan(s, false) && Farewell(BackStep(s, false)) < Farewell(s)
  {
  }

  lemma StaysClosing(s: Pipe)
    requires Closing(s) && BackCan(s, false)
    ensures Closing(BackStep(s, false)) && BackStep(s, false).asked == s.asked
  {
    BackInv(s, false);
  }

  /** While the pipe closes, the backend always has a step to take, and it takes only finitely many. */
  lemma ClosingStep(s: Pipe)
    requires Closing(s) && !s.back.Exited?
    ensures BackCan(s, false)
    ensures forall timeout :: BackCan(s, timeout) ==> !timeout
    ensures Closing(BackStep(s, false)) && BackStep(s, false).asked == s.asked
    ensures Farewell(BackStep(s, false)) < Farewell(s)
  {
    if s.back.Top? || s.back.Sleeping? || s.back.Flushing? {
      WakingFarewell(s);
    } else {
      DrainingFarewell(s);
    }
    StaysClosing(s);
  }

  /** When the backend has exited, everything that was appended has been delivered. */
  lemma ClosedDelivered(s: Pipe)
    requires Closing(s) && s.back.Exited?
    ensures Flatten(s.delivered) == s.asked
  {
    assert Flatten(s.delivered) + [] + [] + [] + [] == Flatten(s.delivered);
  }
}
