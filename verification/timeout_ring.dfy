// The timeout monitor: a ring of slots that turns one place with every tick of a timer.
module TimeoutRing {
  // The slots in the order they will be emptied; the last one takes what is added.
  type Ring<T> = seq<seq<T>>

  function Added<T>(r: Ring<T>, v: T): Ring<T>
    requires r != []
  {
    r[|r| - 1 := r[|r| - 1] + [v]]
  }

  function Turned<T>(r: Ring<T>): Ring<T>
    requires r != []
  {
    r[1..] + [[]]
  }

  function Empty<T>(n: nat): Ring<T> {
    seq(n, _ => [])
  }

  function Total<T>(r: Ring<T>): nat {
    if r == [] then 0 else |r[0]| + Total(r[1..])
  }

  lemma {:induction false} TotalSnoc<T>(r: Ring<T>, s: seq<T>)
    ensures Total(r + [s]) == Total(r) + |s|
    decreases |r|
  {
    if r == [] {
      assert [s][1..] == [];
      assert Total([s]) == |s| + Total<T>([]);
    } else {
      assert (r + [s])[1..] == r[1..] + [s];
      TotalSnoc(r[1..], s);
    }
  }

  lemma TotalAdded<T>(r: Ring<T>, v: T)
    requires r != []
    ensures Total(Added(r, v)) == Total(r) + 1
  {
    var front := r[..|r| - 1];
    TotalSnoc(front, r[|r| - 1]);
    TotalSnoc(front, r[|r| - 1] + [v]);
    assert r == front + [r[|r| - 1]];
    assert Added(r, v) == front + [r[|r| - 1] + [v]];
  }

  lemma TotalTurned<T>(r: Ring<T>)
    requires r != []
    ensures Total(Turned(r)) == Total(r) - |r[0]|
  {
    TotalSnoc(r[1..], []);
  }

  lemma {:induction false} TotalEmpty<T>(n: nat)
    ensures Total(Empty<T>(n)) == 0
    decreases n
  {
    if n > 0 {
      TotalEmpty<T>(n - 1);
      assert Empty<T>(n)[1..] == Empty<T>(n - 1);
    }
  }

  datatype Op<T> = Add(v: T) | Tick

  function Ticks<T>(ops: seq<Op<T>>): nat {
    if ops == [] then 0 else Ticks(ops[..|ops| - 1]) + if ops[|ops| - 1].Tick? then 1 else 0
  }

  // What is added between tick k and the next one.
  function AddsIn<T>(ops: seq<Op<T>>, k: int): seq<T> {
    if ops == [] then []
    else
      var before := ops[..|ops| - 1];
      AddsIn(before, k) + if ops[|ops| - 1].Add? && Ticks(before) == k then [ops[|ops| - 1].v] else []
  }

  function Run<T>(n: nat, ops: seq<Op<T>>): (r: Ring<T>)
    requires n > 0
    ensures |r| == n
  {
    if ops == [] then Empty(n)
    else
      var r := Run(n, ops[..|ops| - 1]);
      match ops[|ops| - 1]
      case Add(v) => Added(r, v)
      case Tick => Turned(r)
  }

  lemma {:induction false} NoAddsLater<T>(ops: seq<Op<T>>, k: int)
    requires k < 0 || k > Ticks(ops)
    ensures AddsIn(ops, k) == []
    decreases |ops|
  {
    if ops != [] {
      NoAddsLater(ops[..|ops| - 1], k);
    }
  }

  // After t ticks, slot i of n holds what was added after tick t - n + 1 + i.
  lemma {:induction false} SlotsHoldPeriods<T>(n: nat, ops: seq<Op<T>>, i: nat)
    requires i < n
    ensures Run(n, ops)[i] == AddsIn(ops, Ticks(ops) - n + 1 + i)
    decreases |ops|
  {
    if ops != [] {
      var before := ops[..|ops| - 1];
      if ops[|ops| - 1].Tick? {
        if i < n - 1 {
          SlotsHoldPeriods(n, before, i + 1);
        } else {
          NoAddsLater(before, Ticks(ops));
        }
      } else {
        SlotsHoldPeriods(n, before, i);
      }
    }
  }

  // A tick fires exactly what was added between the n-th and the (n-1)-th tick before it: every value fires
  // once, on the n-th tick after it was added.
  lemma FiresAfterN<T>(n: nat, ops: seq<Op<T>>)
    requires n > 0
    ensures Run(n, ops)[0] == AddsIn(ops, Ticks(ops) + 1 - n)
  {
    SlotsHoldPeriods(n, ops, 0);
  }

  // Turning a sequence of different things by one place.
  function Rotated<X>(s: seq<X>): seq<X>
    requires s != []
  {
    s[1..] + [s[0]]
  }

  lemma RotatedAt<X>(s: seq<X>)
    requires s != [] && forall i, j :: 0 <= i < j < |s| ==> s[i] != s[j]
    ensures
      var r := Rotated(s);
      && |r| == |s| && r[|s| - 1] == s[0] && (forall i :: 0 <= i < |s| - 1 ==> r[i] == s[i + 1])
      && (forall i, j :: 0 <= i < j < |r| ==> r[i] != r[j]) && forall x :: x in r ==> x in s
  {
  }

  class PollItem<T> {
    var next: PollItem?<T>
    var items: seq<T>

    constructor ()
      ensures next == null && items == []
    {
      next, items := null, [];
    }
  }

  class TimeoutMonitor<T> {
    var currItem: PollItem?<T>
    var valueNumber: int
    var timerEnabled: bool
    // The items of the ring in the order of their links, the current one last.
    ghost var nodes: seq<PollItem<T>>
    ghost var ring: Ring<T>

    ghost predicate Valid()
      reads this, nodes
    {
      && |nodes| == |ring| > 0
      && currItem == nodes[|nodes| - 1] && currItem.next == nodes[0]
      && (forall i :: 0 <= i < |nodes| - 1 ==> nodes[i].next == nodes[i + 1])
      && (forall i, j :: 0 <= i < j < |nodes| ==> nodes[i] != nodes[j])
      && (forall i :: 0 <= i < |nodes| ==> nodes[i].items == ring[i])
      && valueNumber == Total(ring) && (timerEnabled <==> valueNumber > 0)
    }

    constructor ()
      ensures currItem == null && valueNumber == 0 && !timerEnabled && nodes == []
    {
      currItem, valueNumber, timerEnabled, nodes, ring := null, 0, false, [], [];
    }

    // Fewer than one check is refused.
    method Initialize(checkTimes: int) returns (ok: bool)
      requires currItem == null && valueNumber == 0 && !timerEnabled
      modifies this
      ensures ok == (checkTimes >= 1)
      ensures ok ==> Valid() && ring == Empty(checkTimes) && fresh(nodes)
      ensures !ok ==> unchanged(this)
    {
      if checkTimes < 1 {
        return false;
      }
      var first := new PollItem<T>();
      var last := first;
      ghost var made := [first];
      for i := 1 to checkTimes
        invariant |made| == i && made[0] == first && made[i - 1] == last && fresh(made)
        invariant forall k :: 0 <= k < i - 1 ==> made[k].next == made[k + 1]
        invariant forall j, k :: 0 <= j < k < i ==> made[j] != made[k]
        invariant forall k :: 0 <= k < i ==> made[k].items == []
        invariant unchanged(this)
      {
        var item := new PollItem<T>();
        last.next := item;
        last := item;
        made := made + [item];
      }
      last.next := first;
      // The ring is closed; the current item is the first one made, so it stands last in the order of firing.
      currItem := first;
      nodes := made[1..] + [first];
      ring := Empty(checkTimes);
      TotalEmpty<T>(checkTimes);
      ok := true;
    }

    method AddValue(value: T)
      requires Valid()
      modifies this`valueNumber, this`timerEnabled, this`ring, currItem`items
      ensures Valid() && ring == Added(old(ring), value) && nodes == old(nodes)
    {
      currItem.items := currItem.items + [value];
      if valueNumber == 0 {
        timerEnabled := true;
      }
      valueNumber := valueNumber + 1;
      TotalAdded(ring, value);
      ring := Added(ring, value);
    }

    // One tick: the values of the oldest slot are handed to the callback, in order.
    method OnTimerTick() returns (fired: seq<T>)
      requires Valid()
      modifies this, nodes
      ensures Valid() && fired == old(ring)[0] && ring == Turned(old(ring))
      ensures |nodes| == |old(nodes)| && forall x :: x in nodes ==> x in old(nodes)
    {
      currItem := currItem.next;
      fired := currItem.items;
      currItem.items := [];
      valueNumber := valueNumber - |fired|;
      if valueNumber == 0 {
        timerEnabled := false;
      }
      TotalTurned(ring);
      Turn();
    }

    // The item that has been emptied is the current one now, so it stands last.
    ghost method Turn()
      requires |nodes| == |ring| > 0 && currItem == nodes[0] && nodes[|nodes| - 1].next == nodes[0]
      requires forall i :: 0 <= i < |nodes| - 1 ==> nodes[i].next == nodes[i + 1]
      requires forall i, j :: 0 <= i < j < |nodes| ==> nodes[i] != nodes[j]
      requires nodes[0].items == [] && forall i :: 0 < i < |nodes| ==> nodes[i].items == ring[i]
      requires valueNumber == Total(Turned(ring)) && (timerEnabled <==> valueNumber > 0)
      modifies this`nodes, this`ring
      ensures Valid() && ring == Turned(old(ring))
      ensures |nodes| == |old(nodes)| && forall x :: x in nodes ==> x in old(nodes)
    {
      RotatedAt(nodes);
      nodes := Rotated(nodes);
      ring := Turned(ring);
    }
  }
}
