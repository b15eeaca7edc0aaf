// The caller's side of remote calls as it is written: a callback map and a timeout monitor.
module Rpcs {
  import opened Wrappers
  import opened TimeoutRing
  import opened RpcModel
  import M = RpcModel

  class Rpc {
    var idAlloc: nat
    var requestCallback: map<int, nat>
    const requestTimeout: TimeoutMonitor<int>
    // The callbacks run so far, and those handed in.
    var calls: seq<Call>
    ghost var given: map<int, nat>

    ghost predicate Valid()
      reads this, requestTimeout, requestTimeout.nodes
    {
      requestTimeout.Valid()
    }

    ghost function View(): State
      reads this, requestTimeout
    {
      State(idAlloc, requestCallback, requestTimeout.ring, calls, given)
    }

    constructor (timeoutSec: int)
      requires timeoutSec >= 1
      ensures Valid() && View() == Init(timeoutSec)
    {
      var monitor := new TimeoutMonitor<int>();
      var ok := monitor.Initialize(timeoutSec);
      assert ok;
      idAlloc, requestCallback, calls, given := 0, map[], [], map[];
      requestTimeout := monitor;
    }

    // While any request waits, the timer runs, so the ticks that settle it do come.
    lemma TimerRuns(id: int)
      requires Valid() && Inv(View()) && id in requestCallback
      ensures requestTimeout.timerEnabled
    {
      PendingIsHeld(View(), id);
    }

    // A request without a callback is a notification and takes no id.
    method Request(cb: Option<nat>) returns (id: int)
      requires Valid()
      modifies this, requestTimeout`valueNumber, requestTimeout`timerEnabled, requestTimeout`ring, requestTimeout.currItem`items
      ensures Valid() && View() == (if cb.Some? then M.Request(old(View()), cb.value) else old(View()))
      ensures id == if cb.Some? then old(idAlloc) + 1 else 0
    {
      id := 0;
      if cb.Some? {
        idAlloc := idAlloc + 1;
        id := idAlloc;
        requestCallback := requestCallback[id := cb.value];
        given := given[id := cb.value];
        requestTimeout.AddValue(id);
      }
    }

    method OnRecvRespond(id: int, errcode: int, result: int)
      modifies this`requestCallback, this`calls
      ensures View() == Settle(old(View()), id, Reply(errcode, result))
    {
      if id in requestCallback {
        calls := calls + [Call(id, requestCallback[id], Reply(errcode, result))];
        requestCallback := requestCallback - {id};
      }
    }

    method OnRequestTimeout(id: int)
      modifies this`requestCallback, this`calls
      ensures View() == Settle(old(View()), id, Timeout)
    {
      if id in requestCallback {
        calls := calls + [Call(id, requestCallback[id], Timeout)];
        requestCallback := requestCallback - {id};
      }
    }

    // One tick of the timer: the monitor hands out the ids of one slot.
    method OnTick()
      requires Valid()
      modifies this`requestCallback, this`calls, requestTimeout, requestTimeout.nodes
      ensures Valid() && View() == TickOnce(old(View()))
    {
      var ids := requestTimeout.OnTimerTick();
      ghost var goal := SettleAll(View(), ids);
      for i := 0 to |ids|
        invariant Valid() && requestTimeout.ring == Turned(old(requestTimeout.ring))
        invariant SettleAll(View(), ids[i..]) == goal
      {
        assert ids[i..][1..] == ids[i + 1..];
        OnRequestTimeout(ids[i]);
      }
    }
  }
}
