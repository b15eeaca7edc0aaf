// What an executor does to its actions, as a trace, and what the trace says about each action's life.
module ActionTrace {
  import opened Wrappers

  datatype Phase = Waiting | Active | Paused | Gone

  // Append says in which phase the action was when it was handed over.
  datatype Ev =
    | Append(id: int, prio: nat, phase: Phase)
    | Start(id: int)
    | PauseIt(id: int)
    | Resume(id: int)
    | Delete(id: int, prio: nat)

  type Lives = map<int, Phase>

  predicate At(l: Lives, id: int, p: Phase) {
    id in l && l[id] == p
  }

  // One event on the lives of the actions; None if it may not happen.
  function Live1(l: Lives, ev: Ev): Option<Lives> {
    match ev
    case Append(id, _, phase) => if id in l || phase == Gone then None else Some(l[id := phase])
    case Start(id) => if At(l, id, Waiting) then Some(l[id := Active]) else None
    case PauseIt(id) => if At(l, id, Active) then Some(l[id := Paused]) else None
    case Resume(id) => if At(l, id, Paused) then Some(l[id := Active]) else None
    case Delete(id, _) => if id in l && l[id] != Gone then Some(l[id := Gone]) else None
  }

  function Live(trace: seq<Ev>): Option<Lives>
    decreases |trace|
  {
    if trace == [] then Some(map[])
    else
      var before := Live(trace[..|trace| - 1]);
      if before == None then None else Live1(before.value, trace[|trace| - 1])
  }

  lemma LiveSnoc(trace: seq<Ev>, ev: Ev)
    ensures Live(trace + [ev]) == if Live(trace) == None then None else Live1(Live(trace).value, ev)
  {
    assert (trace + [ev])[..|trace|] == trace;
  }

  // The ids appended at a priority, and the ids deleted from it, in order.
  function Fed(trace: seq<Ev>, p: nat): seq<int>
    decreases |trace|
  {
    if trace == [] then []
    else
      var ev := trace[|trace| - 1];
      Fed(trace[..|trace| - 1], p) + if ev.Append? && ev.prio == p then [ev.id] else []
  }

  function Deleted(trace: seq<Ev>, p: nat): seq<int>
    decreases |trace|
  {
    if trace == [] then []
    else
      var ev := trace[|trace| - 1];
      Deleted(trace[..|trace| - 1], p) + if ev.Delete? && ev.prio == p then [ev.id] else []
  }

  lemma FedSnoc(trace: seq<Ev>, ev: Ev, p: nat)
    ensures Fed(trace + [ev], p) == Fed(trace, p) + if ev.Append? && ev.prio == p then [ev.id] else []
    ensures Deleted(trace + [ev], p) == Deleted(trace, p) + if ev.Delete? && ev.prio == p then [ev.id] else []
  {
    assert (trace + [ev])[..|trace|] == trace;
  }

  // How often an action was started or deleted.
  function Starts(trace: seq<Ev>, id: int): nat {
    if trace == [] then 0
    else Starts(trace[..|trace| - 1], id) + if trace[|trace| - 1] == Start(id) then 1 else 0
  }

  function Deletes(trace: seq<Ev>, id: int): nat {
    if trace == [] then 0
    else
      var ev := trace[|trace| - 1];
      Deletes(trace[..|trace| - 1], id) + if ev.Delete? && ev.id == id then 1 else 0
  }

  // No action is started twice, and every action is deleted exactly once if it is gone and never otherwise.
  lemma {:induction false} StartedAndDeletedOnce(trace: seq<Ev>, id: int)
    requires Live(trace).Some?
    ensures Starts(trace, id) <= 1
    ensures id !in Live(trace).value || Live(trace).value[id] == Waiting ==> Starts(trace, id) == 0
    ensures Deletes(trace, id) == if At(Live(trace).value, id, Gone) then 1 else 0
    decreases |trace|
  {
    if trace != [] {
      StartedAndDeletedOnce(trace[..|trace| - 1], id);
    }
  }

  // An action never waits again once it has been started, and a deleted one is never touched again.
  lemma {:induction false} NeverBack(trace: seq<Ev>, n: nat, id: int)
    requires n <= |trace| && Live(trace).Some?
    ensures Live(trace[..n]).Some?
    ensures id in Live(trace[..n]).value ==> id in Live(trace).value
    ensures id in Live(trace[..n]).value && Live(trace[..n]).value[id] != Waiting ==> Live(trace).value[id] != Waiting
    ensures At(Live(trace[..n]).value, id, Gone) ==> At(Live(trace).value, id, Gone)
    decreases |trace|
  {
    if n == |trace| {
      assert trace[..n] == trace;
    } else {
      assert trace[..|trace| - 1][..n] == trace[..n];
      NeverBack(trace[..|trace| - 1], n, id);
    }
  }

  lemma {:induction false} GoneIsSilent(trace: seq<Ev>, n: nat, id: int)
    requires n < |trace| && Live(trace).Some? && Live(trace[..n]).Some? && At(Live(trace[..n]).value, id, Gone)
    ensures forall k :: n <= k < |trace| ==> trace[k].id != id
    decreases |trace|
  {
    forall k | n <= k < |trace| ensures trace[k].id != id {
      assert trace[..k + 1][..k] == trace[..k];
      assert trace[..k][..n] == trace[..n];
      NeverBack(trace, k, id);
      NeverBack(trace, k + 1, id);
      NeverBack(trace[..k], n, id);
    }
  }
}
