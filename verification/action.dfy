// An action: the states its methods lead through.
module Actions {
  datatype ActState = Idle | Running | Pause | Finished | Stoped

  datatype ActResult = Unsure | Success | Fail

  predicate Done(s: ActState) {
    s == Finished || s == Stoped
  }

  class Action {
    var state: ActState
    var result: ActResult
    // The number and the priority an executor gave it.
    ghost var ticket: int
    ghost var home: int

    constructor ()
      ensures state == Idle && result == Unsure && ticket == 0
    {
      state, result, ticket, home := Idle, Unsure, 0, 0;
    }

    method Finish(isSucc: bool) returns (ok: bool)
      modifies this`state, this`result
      ensures ok == !Done(old(state))
      ensures state == if ok then Finished else old(state)
      ensures result == if !ok then old(result) else if isSucc then Success else Fail
    {
      ok := state != Finished && state != Stoped;
      if ok {
        state := Finished;
        result := if isSucc then Success else Fail;
      }
    }

    method Stop() returns (ok: bool)
      modifies this`state
      ensures ok && state == if old(state) == Running || old(state) == Pause then Stoped else old(state)
    {
      if state == Running || state == Pause {
        state := Stoped;
      }
      ok := true;
    }

    // onStart, onPause and onResume: what a derived action does there may end it.
    method Hook()
      modifies this`state, this`result
      ensures state == old(state) || Done(state)
    {
      if * {
        var isSucc: bool := *;
        var _ := Finish(isSucc);
      } else if * {
        var _ := Stop();
      }
    }

    method Start() returns (ok: bool)
      modifies this`state, this`result
      ensures ok == (old(state) == Idle || old(state) == Running)
      ensures if old(state) == Idle then state == Running || Done(state) else state == old(state)
    {
      if state == Running { return true; }
      if state != Idle { return false; }
      var lastState := state;
      Hook();
      if lastState == state {
        state := Running;
      }
      return true;
    }

    method PauseIt() returns (ok: bool)
      modifies this`state, this`result
      ensures ok == (old(state) == Running || old(state) == Pause)
      ensures if old(state) == Running then state == Pause || Done(state) else state == old(state)
    {
      if state == Pause { return true; }
      if state != Running { return false; }
      var lastState := state;
      Hook();
      if lastState == state {
        state := Pause;
      }
      return true;
    }

    method Resume() returns (ok: bool)
      modifies this`state, this`result
      ensures ok == (old(state) == Running || old(state) == Pause)
      ensures if old(state) == Pause then state == Running || Done(state) else state == old(state)
    {
      if state == Running { return true; }
      if state != Pause { return false; }
      var lastState := state;
      Hook();
      if lastState == state {
        state := Running;
      }
      return true;
    }
  }
}
