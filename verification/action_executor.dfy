// The executor as it is written: three deques of actions and the index of the queue that runs.
module ActionExecutors {
  import opened Actions
  import opened ActionTrace
  import opened ActionExecutorModel

  datatype Item = Item(id: int, action: Action)

  class ActionExecutor {
    var queues: seq<seq<Item>>
    var currQueue: int
    var lastId: int
    // The abstract state, and every action ever handed over.
    ghost var model: Exec
    ghost var owned: set<Action>

    // An item shows as its id and its action's state; no action stands in two places.
    ghost predicate Linked(p: int, k: int)
      reads this, owned
    {
      |queues| == 3 && |model.queues| == 3 && 0 <= p < 3 && 0 <= k < |queues[p]| && k < |model.queues[p]| ==>
        var it := queues[p][k];
        && it.action in owned && it.action.ticket == it.id && it.action.home == p
        && model.queues[p][k] == Cell(it.id, it.action.state)
    }

    ghost predicate Valid()
      reads this, owned
    {
      && |queues| == 3 && model.Inv()
      && (forall p :: 0 <= p < 3 ==> |queues[p]| == |model.queues[p]|)
      && (forall p, k {:trigger Linked(p, k)} :: Linked(p, k))
      && currQueue == model.curr && lastId == model.lastId
    }

    ghost function Total(): nat
      requires |queues| == 3
      reads this
    {
      |queues[0]| + |queues[1]| + |queues[2]|
    }

    constructor ()
      ensures Valid() && model == EMPTY && owned == {}
    {
      queues, currQueue, lastId, model, owned := [[], [], []], -1, 0, EMPTY, {};
      EmptyInv();
    }

    // Hand over an action; its number is returned, and the scheduler runs.
    method Append(action: Action, prio: int) returns (id: int)
      requires Valid() && 0 <= prio <= 2 && action !in owned && action.state != Running
      modifies this, owned, action
      ensures Valid() && model.Settled() && owned == old(owned) + {action}
      ensures id == old(lastId) + 1 == lastId && old(model.Appended(prio, action.state)).trace <= model.trace
    {
      id := Enqueue(action, prio);
      var _ := Schedule();
    }

    method Enqueue(action: Action, prio: int) returns (id: int)
      requires Valid() && 0 <= prio <= 2 && action !in owned && action.state != Running
      modifies this, action`ticket, action`home
      ensures Valid() && owned == old(owned) + {action} && lastId == id == old(lastId) + 1
      ensures model == old(model).Appended(prio, action.state)
      ensures queues == old(queues)[prio := old(queues)[prio] + [Item(id, action)]]
    {
      AppendKeeps(model, prio, action.state);
      lastId := lastId + 1;
      id := lastId;
      queues := queues[prio := queues[prio] + [Item(id, action)]];
      action.ticket, action.home, owned := id, prio, owned + {action};
      model := model.Appended(prio, action.state);
      forall p, k ensures Linked(p, k) {
        assert old(Linked(p, k));
      }
    }

    // An action ends by its own doing, or someone stops it; the scheduler hears of it later.
    method ActionEnds(p: int, k: int, isSucc: bool)
      requires Valid() && 0 <= p < 3 && 0 <= k < |queues[p]| && !Done(queues[p][k].action.state)
      modifies this`model, owned
      ensures Valid() && model == old(model).Ended(p, k, Finished)
    {
      OnePlace(p, k);
      assert Linked(p, k);
      EndKeeps(model, p, k, Finished);
      var _ := queues[p][k].action.Finish(isSucc);
      model := model.Ended(p, k, Finished);
      forall q, j ensures Linked(q, j) {
        assert old(Linked(q, j));
      }
    }

    // No action stands in two places.
    lemma OnePlace(p: int, k: int)
      requires Valid() && 0 <= p < 3 && 0 <= k < |queues[p]|
      ensures forall q, j :: 0 <= q < 3 && 0 <= j < |queues[q]| && (q != p || j != k) ==> queues[q][j].action != queues[p][k].action
    {
      assert Linked(p, k);
      forall q, j | 0 <= q < 3 && 0 <= j < |queues[q]| && queues[q][j].action == queues[p][k].action ensures q == p && j == k {
        assert Linked(q, j);
        SameId(model, p, j, k);
      }
    }

    method FirstReadyQueue() returns (ready: int)
      requires Valid()
      ensures ready == -1 ==> forall p :: 0 <= p < 3 ==> model.queues[p] == []
      ensures ready != -1 ==> model.FirstReady(ready)
    {
      ready := -1;
      for i := 0 to 3
        invariant ready == -1 && forall p :: 0 <= p < i ==> model.queues[p] == []
      {
        if queues[i] != [] {
          return i;
        }
      }
    }

    // The front of the current queue gives way.
    method PauseFront(ready: int)
      requires Valid() && currQueue != -1 && model.FirstReady(ready) && ready < currQueue
      modifies this`model, owned
      ensures Valid() && model.RunsOnly(ready) && model.FirstReady(ready) && old(model).trace <= model.trace
      ensures model.home == old(model).home
    {
      var p := currQueue;
      OnePlace(p, 0);
      assert Linked(p, 0);
      var action := queues[p][0].action;
      var was := action.state;
      var _ := action.PauseIt();
      if was == Running {
        ghost var ev := PauseIt(model.FrontId(p));
        TouchKeeps(model, p, action.state, ev);
        model := model.Touch(p, action.state, [ev], p);
        forall q, j ensures Linked(q, j) {
          assert old(Linked(q, j));
        }
        assert !model.Runs(p, 0);
      } else {
        assert !model.Runs(p, 0);
        forall q, j ensures Linked(q, j) {
          assert old(Linked(q, j));
        }
      }
    }

    method StartFront(ready: int)
      requires Valid() && model.FirstReady(ready) && model.RunsOnly(ready) && model.queues[ready][0].state == Idle
      modifies this`model, this`currQueue, owned
      ensures Valid() && model.FirstReady(ready) && model.RunsOnly(ready) && old(model).trace <= model.trace
      ensures model.queues[ready][0].state == Running || Done(model.queues[ready][0].state)
      ensures model.home == old(model).home
    {
      OnePlace(ready, 0);
      assert Linked(ready, 0);
      var action := queues[ready][0].action;
      var ok := action.Start();
      assert ok;
      currQueue := ready;
      ghost var ev := Start(model.FrontId(ready));
      TouchKeeps(model, ready, action.state, ev);
      model := model.Touch(ready, action.state, [ev], ready);
      forall q, j ensures Linked(q, j) {
        assert old(Linked(q, j));
      }
    }

    method ResumeFront(ready: int)
      requires Valid() && model.FirstReady(ready) && model.RunsOnly(ready) && model.queues[ready][0].state == Pause
      modifies this`model, this`currQueue, owned
      ensures Valid() && model.FirstReady(ready) && model.RunsOnly(ready) && old(model).trace <= model.trace
      ensures model.queues[ready][0].state == Running || Done(model.queues[ready][0].state)
      ensures model.home == old(model).home
    {
      OnePlace(ready, 0);
      assert Linked(ready, 0);
      currQueue := ready;
      var action := queues[ready][0].action;
      var _ := action.Resume();
      ghost var ev := Resume(model.FrontId(ready));
      TouchKeeps(model, ready, action.state, ev);
      model := model.Touch(ready, action.state, [ev], ready);
      forall q, j ensures Linked(q, j) {
        assert old(Linked(q, j));
      }
    }

    method PopFront(ready: int)
      requires Valid() && model.Idx(ready, 0) && model.RunsOnly(ready) && Done(model.queues[ready][0].state)
      modifies this`model, this`currQueue, this`queues
      ensures Valid() && model == old(model).Popped(ready) && model.RunsOnly(ready)
      ensures queues == old(queues)[ready := old(queues)[ready][1..]]
    {
      PopKeeps(model, ready);
      queues := queues[ready := queues[ready][1..]];
      currQueue := -1;
      model := model.Popped(ready);
      forall p, k ensures Linked(p, k) {
        assert old(Linked(p, if p == ready then k + 1 else k));
      }
    }

    // How far the front of a queue is from running or being deleted.
    ghost function Weight(r: int): nat
      reads this
    {
      if model.Idx(r, 0) && (model.queues[r][0].state == Idle || model.queues[r][0].state == Pause) then 1 else 0
    }

    // What the front of the ready queue needs: a start, a resume or to be deleted; nothing if it runs.
    method StepFront(ready: int) returns (running: bool)
      requires Valid() && model.FirstReady(ready) && model.RunsOnly(ready)
      modifies this`model, this`currQueue, this`queues, owned
      ensures Valid() && model.RunsOnly(ready) && old(model).trace <= model.trace
      ensures running ==> model.Settled() && queues == old(queues)
      ensures !running ==> queues == old(queues) || queues == old(queues)[ready := old(queues)[ready][1..]]
      ensures !running && queues == old(queues) ==> Weight(ready) < old(Weight(ready))
    {
      assert Linked(ready, 0);
      var state := queues[ready][0].action.state;
      running := false;
      if state == Idle {
        StartFront(ready);
      } else if state == Pause {
        ResumeFront(ready);
      } else if state == Finished || state == Stoped {
        PopFront(ready);
        assert |queues[ready]| < |old(queues)[ready]|;
      } else {
        assert model.Runs(ready, 0);
        running := true;
      }
    }

    // Runs until the most urgent action that can run does, or nothing is left.
    method Schedule() returns (allFinished: bool)
      requires Valid()
      modifies this, owned
      ensures Valid() && model.Settled() && owned == old(owned) && lastId == old(lastId)
      ensures old(model).trace <= model.trace
      ensures allFinished <==> forall p :: 0 <= p < 3 ==> model.queues[p] == []
    {
      while true
        invariant Valid() && owned == old(owned) && lastId == old(lastId) && old(model).trace <= model.trace
        decreases Total()
      {
        var ready := FirstReadyQueue();
        if ready == -1 {
          return true;
        }
        if currQueue != -1 && ready < currQueue {
          PauseFront(ready);
        }
        ghost var before := queues;
        while queues[ready] != []
          invariant Valid() && owned == old(owned) && lastId == old(lastId) && old(model).trace <= model.trace
          invariant model.RunsOnly(ready) && 0 <= ready < 3
          invariant forall p :: 0 <= p < 3 && p != ready ==> queues[p] == before[p]
          decreases |queues[ready]|, Weight(ready)
        {
          assert model.FirstReady(ready);
          var running := StepFront(ready);
          if running {
            return false;
          }
        }
      }
    }
  }
}
