// The executor's queues on values: the steps of its scheduler, and what every one of them keeps.
module ActionExecutorModel {
  import opened Actions
  import opened ActionTrace

  datatype Cell = Cell(id: int, state: ActState)

  // `home` remembers the queue each id was appended to; `trace` what has been done to the actions.
  datatype Exec = Exec(queues: seq<seq<Cell>>, curr: int, lastId: int, home: map<int, nat>, trace: seq<Ev>) {
    predicate Idx(p: int, k: int) {
      |queues| == 3 && 0 <= p < 3 && 0 <= k < |queues[p]|
    }

    // An item and the trace agree on where its action is in its life.
    predicate CellOk(p: int, k: int) {
      Idx(p, k) ==>
        var c := queues[p][k];
        && 0 < c.id <= lastId && c.id in home && home[c.id] == p
        && Live(trace).Some? && c.id in Live(trace).value && Fits(Live(trace).value[c.id], c.state)
    }

    predicate Runs(p: int, k: int) {
      Idx(p, k) && queues[p][k].state == Running
    }

    // Nothing runs but perhaps the front of one queue.
    ghost predicate RunsOnly(r: int) {
      forall p, k {:trigger Runs(p, k)} :: Runs(p, k) ==> p == r && k == 0
    }

    ghost predicate CellsOk() {
      forall p, k {:trigger CellOk(p, k)} :: CellOk(p, k)
    }

    // Each queue holds, in order, what was appended to it and has not been deleted.
    ghost predicate QueueOk(p: int) {
      0 <= p < 3 && |queues| == 3 ==> Rising(queues[p]) && Fed(trace, p) == Deleted(trace, p) + Ids(queues[p])
    }

    ghost predicate LivesOk() {
      && 0 <= lastId && Live(trace).Some?
      && (forall id :: id in Live(trace).value ==> id <= lastId)
    }

    ghost predicate Inv() {
      && |queues| == 3 && -1 <= curr < 3 && (curr != -1 ==> queues[curr] != [])
      && LivesOk() && CellsOk() && RunsOnly(curr)
      && (forall p {:trigger QueueOk(p)} :: QueueOk(p))
    }

    // The most urgent queue that is not empty.
    predicate FirstReady(r: int) {
      |queues| == 3 && 0 <= r < 3 && queues[r] != [] && forall p :: 0 <= p < r ==> queues[p] == []
    }

    // Nothing is left, or the front of the most urgent queue is the one running action.
    ghost predicate Settled() {
      || (|queues| == 3 && forall p :: 0 <= p < 3 ==> queues[p] == [])
      || (FirstReady(curr) && Runs(curr, 0) && RunsOnly(curr))
    }

    function FrontId(r: int): int
      requires Idx(r, 0)
    {
      queues[r][0].id
    }

    // The front action of a queue goes into a state, with at most one event.
    function Touch(r: int, s: ActState, evs: seq<Ev>, c: int): Exec
      requires Idx(r, 0)
    {
      this.(queues := queues[r := queues[r][0 := Cell(FrontId(r), s)]], trace := trace + evs, curr := c)
    }

    function Popped(r: int): Exec
      requires Idx(r, 0)
    {
      this.(queues := queues[r := queues[r][1..]], trace := trace + [Delete(FrontId(r), r)], curr := -1)
    }

    function Appended(p: int, s: ActState): Exec
      requires |queues| == 3 && 0 <= p < 3
    {
      var id := lastId + 1;
      this.(queues := queues[p := queues[p] + [Cell(id, s)]], lastId := id, home := home[id := p],
            trace := trace + [Append(id, p, PhaseOf(s))])
    }

    // An action ends by itself or is stopped, wherever it is.
    function Ended(p: int, k: int, s: ActState): Exec
      requires Idx(p, k)
    {
      this.(queues := queues[p := queues[p][k := Cell(queues[p][k].id, s)]])
    }
  }

  const EMPTY := Exec([[], [], []], -1, 0, map[], [])

  predicate Rising(q: seq<Cell>) {
    forall a, b :: 0 <= a < b < |q| ==> q[a].id < q[b].id
  }

  function Ids(q: seq<Cell>): (r: seq<int>)
    ensures |r| == |q|
  {
    if q == [] then [] else [q[0].id] + Ids(q[1..])
  }

  lemma {:induction false} IdsSnoc(q: seq<Cell>, c: Cell)
    ensures Ids(q + [c]) == Ids(q) + [c.id]
    decreases |q|
  {
    if q != [] {
      assert (q + [c])[1..] == q[1..] + [c];
      IdsSnoc(q[1..], c);
    } else {
      assert [c][1..] == [];
    }
  }

  lemma {:induction false} IdsSame(q: seq<Cell>, r: seq<Cell>)
    requires |q| == |r| && forall k :: 0 <= k < |q| ==> q[k].id == r[k].id
    ensures Ids(q) == Ids(r)
    decreases |q|
  {
    if q != [] {
      IdsSame(q[1..], r[1..]);
    }
  }

  // The phase that goes with an action's state; an action may end in any phase.
  predicate Fits(phase: Phase, s: ActState) {
    match s
    case Idle => phase == Waiting
    case Running => phase == Active
    case Pause => phase == Paused
    case _ => phase != Gone
  }

  function PhaseOf(s: ActState): Phase {
    match s
    case Running => Active
    case Pause => Paused
    case _ => Waiting
  }

  lemma EmptyInv()
    ensures EMPTY.Inv() && EMPTY.Settled()
  {
  }

  // A fresh action goes to the end of its queue.
  lemma AppendKeeps(e: Exec, p: int, s: ActState)
    requires e.Inv() && 0 <= p < 3 && s != Running
    ensures e.Appended(p, s).Inv()
  {
    var e1 := e.Appended(p, s);
    var id := e.lastId + 1;
    var ev := Append(id, p, PhaseOf(s));
    LiveSnoc(e.trace, ev);
    assert id !in Live(e.trace).value;
    forall q, k ensures e1.CellOk(q, k) {
      assert e.CellOk(q, k);
    }
    forall q, k | e1.Runs(q, k) ensures q == e1.curr && k == 0 {
      assert e.Runs(q, k);
    }
    AppendRising(e, p);
    forall q ensures e1.QueueOk(q) {
      assert e.QueueOk(q);
      AppendQueue(e, p, s, q);
    }
  }

  lemma RisingSnoc(q: seq<Cell>, c: Cell)
    requires Rising(q) && forall k :: 0 <= k < |q| ==> q[k].id < c.id
    ensures Rising(q + [c])
  {
  }

  lemma AppendRising(e: Exec, p: int)
    requires e.Inv() && 0 <= p < 3
    ensures forall k :: 0 <= k < |e.queues[p]| ==> e.queues[p][k].id <= e.lastId
  {
    forall k | 0 <= k < |e.queues[p]| ensures e.queues[p][k].id <= e.lastId {
      assert e.CellOk(p, k);
    }
  }

  lemma FedAppend(d: seq<int>, f: seq<int>, q: seq<Cell>, c: Cell)
    requires f == d + Ids(q)
    ensures f + [c.id] == d + Ids(q + [c])
  {
    IdsSnoc(q, c);
  }

  lemma AppendQueue(e: Exec, p: int, s: ActState, q: int)
    requires |e.queues| == 3 && 0 <= p < 3 && e.QueueOk(q)
    requires forall k :: 0 <= k < |e.queues[p]| ==> e.queues[p][k].id <= e.lastId
    ensures e.Appended(p, s).QueueOk(q)
  {
    if 0 <= q < 3 {
      var c := Cell(e.lastId + 1, s);
      FedSnoc(e.trace, Append(c.id, p, PhaseOf(s)), q);
      if p == q {
        RisingSnoc(e.queues[p], c);
        FedAppend(Deleted(e.trace, q), Fed(e.trace, q), e.queues[q], c);
      }
    }
  }

  // The event that goes with a change of the front action.
  predicate FrontEv(e: Exec, r: int, s: ActState, ev: Ev)
    requires e.Idx(r, 0)
  {
    var was, id := e.queues[r][0].state, e.FrontId(r);
    || (was == Idle && ev == Start(id) && (s == Running || Done(s)))
    || (was == Pause && ev == Resume(id) && (s == Running || Done(s)))
    || (was == Running && ev == PauseIt(id) && (s == Pause || Done(s)))
  }

  // Starting, resuming and pausing a front action.
  lemma TouchKeeps(e: Exec, r: int, s: ActState, ev: Ev)
    requires e.Inv() && e.Idx(r, 0) && e.RunsOnly(r) && FrontEv(e, r, s, ev)
    ensures e.Touch(r, s, [ev], r).Inv() && e.Touch(r, s, [ev], r).RunsOnly(r)
  {
    var e1 := e.Touch(r, s, [ev], r);
    LiveSnoc(e.trace, ev);
    assert e.CellOk(r, 0);
    forall p, k ensures e1.CellOk(p, k) {
      assert e.CellOk(p, k);
      OtherId(e, r, p, k);
    }
    forall p, k | e1.Runs(p, k) ensures p == r && k == 0 {
      if p != r || k != 0 { assert e.Runs(p, k); }
    }
    forall p ensures e1.QueueOk(p) {
      TouchQueue(e, r, s, ev, p);
    }
  }

  // Only the front of a queue has the front's id.
  lemma OtherId(e: Exec, r: int, p: int, k: int)
    requires e.Inv() && e.Idx(r, 0)
    ensures e.Idx(p, k) && (p != r || k != 0) ==> e.queues[p][k].id != e.FrontId(r)
  {
    assert e.CellOk(r, 0) && e.CellOk(p, k) && e.QueueOk(r);
  }

  lemma SameId(e: Exec, p: int, j: int, k: int)
    requires e.Inv() && e.Idx(p, j) && e.Idx(p, k) && e.queues[p][j].id == e.queues[p][k].id
    ensures j == k
  {
    assert e.QueueOk(p);
  }

  lemma TouchQueue(e: Exec, r: int, s: ActState, ev: Ev, p: int)
    requires e.Inv() && e.Idx(r, 0) && !ev.Append? && !ev.Delete?
    ensures e.Touch(r, s, [ev], r).QueueOk(p)
  {
    if 0 <= p < 3 {
      assert e.QueueOk(p);
      FedSnoc(e.trace, ev, p);
      IdsSame(e.queues[p], e.Touch(r, s, [ev], r).queues[p]);
    }
  }

  // Deleting a front action that has ended.
  lemma PopKeeps(e: Exec, r: int)
    requires e.Inv() && e.Idx(r, 0) && e.RunsOnly(r) && Done(e.queues[r][0].state)
    ensures e.Popped(r).Inv() && e.Popped(r).RunsOnly(r)
  {
    var e1 := e.Popped(r);
    LiveSnoc(e.trace, Delete(e.FrontId(r), r));
    assert e.CellOk(r, 0);
    forall p, k ensures e1.CellOk(p, k) && !e1.Runs(p, k) {
      var k0 := if p == r then k + 1 else k;
      assert e.CellOk(p, k0);
      OtherId(e, r, p, k0);
      assert e.Runs(p, k0) ==> p == r && k0 == 0;
    }
    forall p ensures e1.QueueOk(p) {
      PopQueue(e, r, p);
    }
  }

  lemma PopQueue(e: Exec, r: int, p: int)
    requires e.Inv() && e.Idx(r, 0)
    ensures e.Popped(r).QueueOk(p)
  {
    if 0 <= p < 3 {
      assert e.QueueOk(p);
      FedSnoc(e.trace, Delete(e.FrontId(r), r), p);
      assert Ids(e.queues[r]) == [e.FrontId(r)] + Ids(e.queues[r][1..]);
    }
  }

  // An action may end anywhere, at any time.
  lemma EndKeeps(e: Exec, p: int, k: int, s: ActState)
    requires e.Inv() && e.Idx(p, k) && Done(s)
    ensures e.Ended(p, k, s).Inv()
  {
    var e1 := e.Ended(p, k, s);
    forall q, j ensures e1.CellOk(q, j) {
      assert e.CellOk(q, j) && e.CellOk(p, k);
    }
    forall q, j | e1.Runs(q, j) ensures q == e1.curr && j == 0 {
      assert e.Runs(q, j);
    }
    forall q ensures e1.QueueOk(q) {
      assert e.QueueOk(q);
      if 0 <= q < 3 { IdsSame(e.queues[q], e1.queues[q]); }
    }
  }

  // Within a priority actions are deleted in the order they were appended, each after at most one start, and
  // what is not deleted is still queued.
  lemma OrderedLives(e: Exec, p: nat, id: int)
    requires e.Inv() && p < 3
    ensures Deleted(e.trace, p) <= Fed(e.trace, p)
    ensures Fed(e.trace, p)[|Deleted(e.trace, p)|..] == Ids(e.queues[p])
    ensures Starts(e.trace, id) <= 1 && Deletes(e.trace, id) <= 1
  {
    assert e.QueueOk(p);
    StartedAndDeletedOnce(e.trace, id);
  }
}
