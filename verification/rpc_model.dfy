// Remote calls on values: pending callbacks, replies, and the ring that times them out.
module RpcModel {
  import opened Wrappers
  import opened TimeoutRing

  // A reply carries an error code and a result; a timeout carries an error code of its own.
  datatype Answer = Reply(errcode: int, result: int) | Timeout

  datatype Call = Call(id: int, cb: nat, answer: Answer)

  // Callbacks are named by numbers; `given` remembers the callback of every id.
  datatype State = State(idAlloc: nat, pending: map<int, nat>, ring: Ring<int>, calls: seq<Call>, given: map<int, nat>)

  function Init(n: nat): State {
    State(0, map[], Empty(n), [], map[])
  }

  function Request(s: State, cb: nat): State
    requires s.ring != []
  {
    var id := s.idAlloc + 1;
    State(id, s.pending[id := cb], Added(s.ring, id), s.calls, s.given[id := cb])
  }

  // An answer runs the callback that waits for it, if there is one, and forgets it.
  function Settle(s: State, id: int, a: Answer): State {
    if id in s.pending then s.(pending := s.pending - {id}, calls := s.calls + [Call(id, s.pending[id], a)]) else s
  }

  function SettleAll(s: State, ids: seq<int>): (r: State)
    ensures r.ring == s.ring && r.idAlloc == s.idAlloc
    decreases |ids|
  {
    if ids == [] then s else SettleAll(Settle(s, ids[0], Timeout), ids[1..])
  }

  function TickOnce(s: State): State
    requires s.ring != []
  {
    SettleAll(s.(ring := Turned(s.ring)), s.ring[0])
  }

  // The calls made for an id.
  function CallsOf(calls: seq<Call>, id: int): seq<Call> {
    if calls == [] then []
    else CallsOf(calls[..|calls| - 1], id) + if calls[|calls| - 1].id == id then [calls[|calls| - 1]] else []
  }

  // An id that was given out waits and has not been called, or does not wait and was called once, with its own callback.
  predicate IdOk(s: State, id: int) {
    if id in s.pending then id in s.given && s.pending[id] == s.given[id] && CallsOf(s.calls, id) == []
    else if id in s.given then |CallsOf(s.calls, id)| == 1 && CallsOf(s.calls, id)[0].cb == s.given[id]
    else CallsOf(s.calls, id) == []
  }

  // Every waiting id stands in the ring.
  predicate InRing(r: Ring<int>, id: int) {
    exists i :: 0 <= i < |r| && id in r[i]
  }

  // Ids in the ring have been given out.
  predicate RingIds(s: State) {
    forall i, k :: 0 <= i < |s.ring| && 0 <= k < |s.ring[i]| ==> s.ring[i][k] <= s.idAlloc
  }

  ghost predicate Inv(s: State) {
    && s.ring != [] && RingIds(s)
    && (forall id :: id in s.given <==> 1 <= id <= s.idAlloc)
    && (forall id {:trigger IdOk(s, id)} :: IdOk(s, id))
    && (forall id :: id in s.pending ==> InRing(s.ring, id))
  }

  lemma CallsSnoc(calls: seq<Call>, c: Call, id: int)
    ensures CallsOf(calls + [c], id) == CallsOf(calls, id) + if c.id == id then [c] else []
  {
    assert (calls + [c])[..|calls|] == calls;
  }

  lemma InitInv(n: nat)
    requires n > 0
    ensures Inv(Init(n))
  {
    forall id ensures IdOk(Init(n), id) {
    }
  }

  lemma RequestKeeps(s: State, cb: nat)
    requires Inv(s)
    ensures Inv(Request(s, cb))
  {
    var t := Request(s, cb);
    forall id ensures IdOk(t, id) {
      assert IdOk(s, id);
    }
    forall id | id in t.pending ensures InRing(t.ring, id) {
      if id == t.idAlloc {
        assert id in t.ring[|t.ring| - 1];
      } else {
        var i :| 0 <= i < |s.ring| && id in s.ring[i];
        assert id in t.ring[i];
      }
    }
  }

  lemma SettleIds(s: State, id: int, a: Answer, k: int)
    requires IdOk(s, k) && IdOk(s, id)
    ensures IdOk(Settle(s, id, a), k)
  {
    if id in s.pending {
      CallsSnoc(s.calls, Call(id, s.pending[id], a), k);
    }
  }

  lemma SettleKeeps(s: State, id: int, a: Answer)
    requires Inv(s)
    ensures Inv(Settle(s, id, a))
  {
    forall k ensures IdOk(Settle(s, id, a), k) {
      assert IdOk(s, k) && IdOk(s, id);
      SettleIds(s, id, a, k);
    }
  }

  // While a slot is being handed out its ids may still be waiting though the ring has turned.
  ghost predicate InvBut(s: State, ids: seq<int>) {
    && s.ring != [] && RingIds(s)
    && (forall id :: id in s.given <==> 1 <= id <= s.idAlloc)
    && (forall id {:trigger IdOk(s, id)} :: IdOk(s, id))
    && (forall id :: id in s.pending ==> InRing(s.ring, id) || id in ids)
  }

  lemma {:induction false} SettleAllKeeps(s: State, ids: seq<int>)
    requires InvBut(s, ids)
    ensures Inv(SettleAll(s, ids))
    decreases |ids|
  {
    if ids != [] {
      var t := Settle(s, ids[0], Timeout);
      forall k ensures IdOk(t, k) {
        assert IdOk(s, k) && IdOk(s, ids[0]);
        SettleIds(s, ids[0], Timeout, k);
      }
      assert ids == [ids[0]] + ids[1..];
      SettleAllKeeps(t, ids[1..]);
    }
  }

  lemma TickKeeps(s: State)
    requires Inv(s)
    ensures Inv(TickOnce(s))
  {
    var t := s.(ring := Turned(s.ring));
    forall k ensures IdOk(t, k) {
      assert IdOk(s, k);
    }
    forall id | id in t.pending ensures InRing(t.ring, id) || id in s.ring[0] {
      var i :| 0 <= i < |s.ring| && id in s.ring[i];
      if i > 0 {
        assert id in t.ring[i - 1];
      }
    }
    SettleAllKeeps(t, s.ring[0]);
  }

  lemma {:induction false} SlotCounts(r: Ring<int>, i: nat)
    requires i < |r|
    ensures Total(r) >= |r[i]|
  {
    if i > 0 { SlotCounts(r[1..], i - 1); }
  }

  // While any request waits, the ring is not empty.
  lemma PendingIsHeld(s: State, id: int)
    requires Inv(s) && id in s.pending
    ensures Total(s.ring) > 0
  {
    var i :| 0 <= i < |s.ring| && id in s.ring[i];
    SlotCounts(s.ring, i);
  }

  datatype Event = AskEv(cb: nat) | ReplyEv(id: int, errcode: int, result: int) | TickEv

  function Step(s: State, e: Event): (r: State)
    requires s.ring != []
    ensures |r.ring| == |s.ring|
  {
    match e
    case AskEv(cb) => Request(s, cb)
    case ReplyEv(id, errcode, result) => Settle(s, id, Reply(errcode, result))
    case TickEv => TickOnce(s)
  }

  lemma StepKeeps(s: State, e: Event)
    requires Inv(s)
    ensures Inv(Step(s, e))
  {
    match e
    case AskEv(cb) => RequestKeeps(s, cb);
    case ReplyEv(id, errcode, result) => SettleKeeps(s, id, Reply(errcode, result));
    case TickEv => TickKeeps(s);
  }

  function RunAll(s: State, evs: seq<Event>): (r: State)
    requires s.ring != []
    ensures |r.ring| == |s.ring|
    decreases |evs|
  {
    if evs == [] then s else RunAll(Step(s, evs[0]), evs[1..])
  }

  function TickCount(evs: seq<Event>): nat {
    if evs == [] then 0 else (if evs[0].TickEv? then 1 else 0) + TickCount(evs[1..])
  }

  // No id is ever called twice, or with another id's callback, over any run.
  lemma {:induction false} RunInv(s: State, evs: seq<Event>)
    requires Inv(s)
    ensures Inv(RunAll(s, evs))
    decreases |evs|
  {
    if evs != [] {
      StepKeeps(s, evs[0]);
      RunInv(Step(s, evs[0]), evs[1..]);
    }
  }

  // What settles an id whose slot comes up at the n-th tick: the first reply to it before that tick, or else the tick.
  function First(evs: seq<Event>, id: int, n: nat): Option<Answer>
    requires n > 0
    decreases |evs|
  {
    if evs == [] then None
    else if evs[0].ReplyEv? && evs[0].id == id then Some(Reply(evs[0].errcode, evs[0].result))
    else if !evs[0].TickEv? then First(evs[1..], id, n)
    else if n == 1 then Some(Timeout)
    else First(evs[1..], id, n - 1)
  }

  // Settling a slot calls an id that waits in it once, and no other id.
  lemma {:induction false} SettleAllCalls(s: State, ids: seq<int>, id: int)
    ensures
      var t := SettleAll(s, ids);
      if id in s.pending && id in ids then
        id !in t.pending && CallsOf(t.calls, id) == CallsOf(s.calls, id) + [Call(id, s.pending[id], Timeout)]
      else
        (id in t.pending <==> id in s.pending) && (id in s.pending ==> t.pending[id] == s.pending[id])
        && CallsOf(t.calls, id) == CallsOf(s.calls, id)
    decreases |ids|
  {
    if ids != [] {
      var t := Settle(s, ids[0], Timeout);
      if ids[0] in s.pending {
        CallsSnoc(s.calls, Call(ids[0], s.pending[ids[0]], Timeout), id);
      }
      SettleAllCalls(t, ids[1..], id);
      assert id in ids <==> id == ids[0] || id in ids[1..];
    }
  }

  // An id that was given out and does not wait is not called any more.
  predicate Over(s: State, id: int) {
    s.ring != [] && id !in s.pending && id <= s.idAlloc
  }

  lemma OverStep(s: State, e: Event, id: int)
    requires Over(s, id)
    ensures Over(Step(s, e), id) && CallsOf(Step(s, e).calls, id) == CallsOf(s.calls, id)
  {
    match e
    case AskEv(_) =>
    case ReplyEv(k, errcode, result) =>
      if k in s.pending {
        CallsSnoc(s.calls, Call(k, s.pending[k], Reply(errcode, result)), id);
      }
    case TickEv => SettleAllCalls(s.(ring := Turned(s.ring)), s.ring[0], id);
  }

  lemma {:induction false} OverRun(s: State, evs: seq<Event>, id: int)
    requires Over(s, id)
    ensures CallsOf(RunAll(s, evs).calls, id) == CallsOf(s.calls, id)
    decreases |evs|
  {
    if evs != [] {
      OverStep(s, evs[0], id);
      OverRun(Step(s, evs[0]), evs[1..], id);
    }
  }

  // An id that waits with a callback, at place p of the ring and nowhere else, and has not been called.
  predicate Waits(s: State, id: int, cb: nat, p: nat) {
    && p < |s.ring| && id in s.ring[p] && (forall i :: 0 <= i < |s.ring| && i != p ==> id !in s.ring[i])
    && id in s.pending && s.pending[id] == cb && id <= s.idAlloc && CallsOf(s.calls, id) == []
  }

  lemma WaitsReply(s: State, id: int, cb: nat, p: nat, k: int, a: Answer)
    requires Waits(s, id, cb, p)
    ensures
      var t := Settle(s, k, a);
      if k == id then Over(t, id) && CallsOf(t.calls, id) == [Call(id, cb, a)] else Waits(t, id, cb, p)
  {
    if k in s.pending {
      CallsSnoc(s.calls, Call(k, s.pending[k], a), id);
    }
  }

  lemma WaitsTick(s: State, id: int, cb: nat, p: nat)
    requires Waits(s, id, cb, p)
    ensures
      var t := TickOnce(s);
      if p == 0 then Over(t, id) && CallsOf(t.calls, id) == [Call(id, cb, Timeout)] else Waits(t, id, cb, p - 1)
  {
    var r := Turned(s.ring);
    SettleAllCalls(s.(ring := r), s.ring[0], id);
    assert forall i :: 0 <= i < |r| - 1 ==> r[i] == s.ring[i + 1];
  }

  // What one event does to an id that waits.
  lemma WaitsStep(s: State, e: Event, id: int, cb: nat, p: nat)
    requires Waits(s, id, cb, p)
    ensures
      var t := Step(s, e);
      if e.ReplyEv? && e.id == id then
        Over(t, id) && CallsOf(t.calls, id) == [Call(id, cb, Reply(e.errcode, e.result))]
      else if e.TickEv? && p == 0 then
        Over(t, id) && CallsOf(t.calls, id) == [Call(id, cb, Timeout)]
      else
        Waits(t, id, cb, if e.TickEv? then p - 1 else p)
  {
    match e
    case AskEv(_) =>
    case ReplyEv(k, errcode, result) => WaitsReply(s, id, cb, p, k, Reply(errcode, result));
    case TickEv => WaitsTick(s, id, cb, p);
  }

  lemma {:induction false} WaitsRun(s: State, evs: seq<Event>, id: int, cb: nat, p: nat)
    requires Waits(s, id, cb, p)
    ensures
      var a := First(evs, id, p + 1);
      CallsOf(RunAll(s, evs).calls, id) == if a == None then [] else [Call(id, cb, a.value)]
    decreases |evs|
  {
    if evs != [] {
      var e, t := evs[0], Step(s, evs[0]);
      WaitsStep(s, e, id, cb, p);
      if (e.ReplyEv? && e.id == id) || (e.TickEv? && p == 0) {
        OverRun(t, evs[1..], id);
      } else {
        WaitsRun(t, evs[1..], id, cb, if e.TickEv? then p - 1 else p);
      }
    }
  }

  // Whatever else happens, a request's callback is run at most once, with its first reply or, if none comes before
  // as many ticks as there are slots, with the timeout; and it is run as soon as that is there.
  lemma AnsweredByFirst(s: State, cb: nat, evs: seq<Event>)
    requires Inv(s)
    ensures
      var id := s.idAlloc + 1;
      var a := First(evs, id, |s.ring|);
      CallsOf(RunAll(Request(s, cb), evs).calls, id) == if a == None then [] else [Call(id, cb, a.value)]
  {
    var t, id := Request(s, cb), s.idAlloc + 1;
    assert IdOk(s, id);
    assert id in t.ring[|t.ring| - 1];
    WaitsRun(t, evs, id, cb, |t.ring| - 1);
  }

  lemma {:induction false} FirstByDeadline(evs: seq<Event>, id: int, n: nat)
    requires n > 0
    ensures TickCount(evs) >= n ==> First(evs, id, n).Some?
    ensures TickCount(evs) < n && NoReply(evs, id) ==> First(evs, id, n) == None
    decreases |evs|
  {
    if evs != [] {
      FirstByDeadline(evs[1..], id, if evs[0].TickEv? && n > 1 then n - 1 else n);
    }
  }

  predicate NoReply(evs: seq<Event>, id: int) {
    forall i :: 0 <= i < |evs| ==> !(evs[i].ReplyEv? && evs[i].id == id)
  }

  // The callback has run exactly once when as many ticks as there are slots have gone by.
  lemma AnsweredByDeadline(s: State, cb: nat, evs: seq<Event>)
    requires Inv(s) && TickCount(evs) >= |s.ring|
    ensures
      var id := s.idAlloc + 1;
      var c := CallsOf(RunAll(Request(s, cb), evs).calls, id);
      |c| == 1 && c[0].cb == cb
  {
    AnsweredByFirst(s, cb, evs);
    FirstByDeadline(evs, s.idAlloc + 1, |s.ring|);
  }

  // Without a reply the callback is not run before that tick.
  lemma NotBeforeDeadline(s: State, cb: nat, evs: seq<Event>)
    requires Inv(s) && TickCount(evs) < |s.ring| && NoReply(evs, s.idAlloc + 1)
    ensures CallsOf(RunAll(Request(s, cb), evs).calls, s.idAlloc + 1) == []
  {
    AnsweredByFirst(s, cb, evs);
    FirstByDeadline(evs, s.idAlloc + 1, |s.ring|);
  }
}
