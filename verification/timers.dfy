// The loop's timer engine: timer objects in a pool, a cabinet that names them, a min-heap that orders
// them, and a deferred release. One iteration of the expiry sweep is a step of its own, so that the
// adds and deletes a callback makes in the middle of a sweep are the steps that follow it.
module Timers {
  import opened Wrappers
  import opened Cabinets
  import opened TimerHeaps
  import opened TimerSweeps

  /** The engine as a value: `bag` and `parked` are the pointers in the heap and awaiting release. */
  datatype Eng = Eng(pool: Pool, live: map<Token, Option<Ptr>>, bag: multiset<Ptr>, parked: multiset<Ptr>) {
    // An object in the pool is in the heap or awaits release, once; one in the heap is what its token names.
    ghost predicate PtrOk(p: Ptr) {
      && bag[p] + parked[p] == (if p in pool then 1 else 0)
      && (bag[p] > 0 ==> pool[p].expired > 0 && pool[p].interval < CLOCK_END && pool[p].token in live && live[pool[p].token] == Some(p))
    }

    ghost predicate TokenOk(t: Token) {
      t in live ==> live[t].Some? && bag[live[t].value] > 0 && live[t].value in pool && pool[live[t].value].token == t
    }

    /** Heap, cabinet, pool and release queue tell the same story. */
    ghost predicate Agree() {
      (forall p :: PtrOk(p)) && (forall t :: TokenOk(t))
    }

    /** What a user sees: the live timers by token. */
    ghost function View(): (m: map<Token, Timer>)
      requires Agree()
      ensures m.Keys == live.Keys
      ensures forall t :: t in m ==> live[t].Some? && live[t].value in pool && m[t] == pool[live[t].value]
    {
      assert forall t | t in live :: TokenOk(t);
      map t | t in live :: pool[live[t].value]
    }

    ghost function Added(p: Ptr, tm: Timer): Eng {
      Eng(pool[p := tm], live[tm.token := Some(p)], bag + multiset{p}, parked)
    }

    // The timer has left the cabinet and the heap; its object awaits release.
    ghost function Deleted(p: Ptr): Eng
      requires p in pool
    {
      Eng(pool[p := pool[p].(expired := 0)], live - {pool[p].token}, bag - multiset{p}, parked + multiset{p})
    }

    ghost function Retired(p: Ptr): Eng
      requires p in pool
    {
      Eng(pool - {p}, live - {pool[p].token}, bag - multiset{p}, parked)
    }

    ghost function Rearmed(p: Ptr): Eng
      requires p in pool
    {
      this.(pool := pool[p := Next(pool[p])])
    }

    ghost function Released(p: Ptr): Eng {
      Eng(pool - {p}, live, bag, parked - multiset{p})
    }
  }

  lemma AddedAgrees(e: Eng, p: Ptr, tm: Timer)
    requires e.Agree() && p !in e.pool && tm.token !in e.live
    requires tm.expired > 0 && tm.interval < CLOCK_END
    ensures e.Added(p, tm).Agree() && e.Added(p, tm).View() == e.View()[tm.token := tm]
    ensures tm.token !in e.View() && e.Added(p, tm).pool.Keys == e.pool.Keys + {p}
  {
    var e' := e.Added(p, tm);
    assert e.PtrOk(p);
    forall q ensures e'.PtrOk(q) { assert e.PtrOk(q); }
    forall t ensures e'.TokenOk(t) { assert e.TokenOk(t); }
  }

  lemma DeletedAgrees(e: Eng, p: Ptr)
    requires e.Agree() && e.bag[p] > 0
    ensures p in e.pool
    ensures e.Deleted(p).Agree() && e.Deleted(p).View() == e.View() - {e.pool[p].token}
  {
    assert e.PtrOk(p);
    var e' := e.Deleted(p);
    forall q ensures e'.PtrOk(q) { assert e.PtrOk(q); }
    forall t ensures e'.TokenOk(t) { assert e.TokenOk(t); }
    forall t | t in e.live && t != e.pool[p].token ensures e'.View()[t] == e.View()[t] {
      assert e.TokenOk(t);
    }
    assert e'.View() == e.View() - {e.pool[p].token};
  }

  // What deleting by token does: nothing when the token names no timer.
  ghost function Erased(e: Eng, token: Token): Eng {
    if token in e.live && e.live[token].Some? && e.live[token].value in e.pool
    then e.Deleted(e.live[token].value) else e
  }

  lemma ErasedAgrees(e: Eng, token: Token)
    requires e.Agree()
    ensures Erased(e, token).Agree() && Erased(e, token).View() == e.View() - {token}
    ensures Erased(e, token).pool.Keys == e.pool.Keys
  {
    assert e.TokenOk(token);
    if token in e.live { DeletedAgrees(e, e.live[token].value); }
  }

  // The cabinet answers null exactly for a token that names no timer.
  lemma NotFound(e: Eng, token: Token)
    requires e.Agree() && (token in e.live ==> e.live[token] == None)
    ensures token !in e.live && e.live - {token} == e.live && Erased(e, token) == e
  {
    assert e.TokenOk(token);
  }

  lemma FoundTimer(e: Eng, token: Token, p: Ptr)
    requires e.Agree() && token in e.live && e.live[token] == Some(p)
    ensures e.bag[p] > 0 && p in e.pool && e.pool[p].token == token && Erased(e, token) == e.Deleted(p)
    ensures e.Deleted(p).Agree()
  {
    assert e.TokenOk(token);
    DeletedAgrees(e, p);
  }

  lemma RetiredAgrees(e: Eng, p: Ptr)
    requires e.Agree() && e.bag[p] > 0
    ensures p in e.pool
    ensures e.Retired(p).Agree() && e.Retired(p).View() == e.View() - {e.pool[p].token}
  {
    assert e.PtrOk(p);
    var e' := e.Retired(p);
    forall q ensures e'.PtrOk(q) { assert e.PtrOk(q); }
    forall t ensures e'.TokenOk(t) { assert e.TokenOk(t); }
  }

  lemma RearmedAgrees(e: Eng, p: Ptr)
    requires e.Agree() && e.bag[p] > 0
    requires p in e.pool && Next(e.pool[p]).expired > 0
    ensures e.Rearmed(p).Agree()
    ensures e.Rearmed(p).View() == e.View()[e.pool[p].token := Next(e.pool[p])]
  {
    var e' := e.Rearmed(p);
    assert e.PtrOk(p);
    forall q ensures e'.PtrOk(q) { assert e.PtrOk(q); }
    forall t ensures e'.TokenOk(t) { assert e.TokenOk(t); }
    forall t | t in e.live && t != e.pool[p].token ensures e'.View()[t] == e.View()[t] {
      assert e.TokenOk(t);
    }
    assert e'.View() == e.View()[e.pool[p].token := Next(e.pool[p])];
  }

  lemma ReleasedAgrees(e: Eng, p: Ptr)
    requires e.Agree() && e.parked[p] > 0
    ensures p in e.pool
    ensures e.Released(p).Agree() && e.Released(p).View() == e.View()
  {
    assert e.PtrOk(p);
    var e' := e.Released(p);
    forall q ensures e'.PtrOk(q) { assert e.PtrOk(q); }
    forall t ensures e'.TokenOk(t) { assert e.TokenOk(t); }
  }

  // ---- runs of the engine ----

  /** One thing that happens to the engine; a callback's adds and deletes follow the FireOp that ran it. */
  datatype TimerOp = AddOp(p: Ptr, tm: Timer) | DeleteOp(token: Token) | FireOp(p: Ptr, now: nat) | ReleaseOp(p: Ptr)

  ghost predicate Enabled(e: Eng, op: TimerOp) {
    match op
    case AddOp(p, tm) => p !in e.pool && tm.token !in e.live && tm.expired > 0 && tm.interval < CLOCK_END
    case DeleteOp(token) => true
    case FireOp(p, now) => e.bag[p] > 0 && now < CLOCK_END && p in e.pool && e.pool[p].expired <= now
    case ReleaseOp(p) => e.parked[p] > 0
  }

  ghost function Apply(e: Eng, op: TimerOp): Eng
    requires Enabled(e, op)
  {
    match op
    case AddOp(p, tm) => e.Added(p, tm)
    case DeleteOp(token) => Erased(e, token)
    case FireOp(p, now) => if e.pool[p].repeat == 1 then e.Retired(p) else e.Rearmed(p)
    case ReleaseOp(p) => e.Released(p)
  }

  // The same event for a user, who knows timers by token only.
  ghost predicate Seen(m: map<Token, Timer>, op: TimerOp, m': map<Token, Timer>) {
    match op
    case AddOp(p, tm) => tm.token !in m && m' == m[tm.token := tm]
    case DeleteOp(token) => m' == m - {token}
    case FireOp(p, now) => exists t :: t in m && m[t].expired <= now && m' == Fire(m, t)
    case ReleaseOp(p) => m' == m
  }

  lemma ApplyAgrees(e: Eng, op: TimerOp)
    requires e.Agree() && Enabled(e, op)
    ensures Apply(e, op).Agree() && Seen(e.View(), op, Apply(e, op).View())
  {
    match op
    case AddOp(p, tm) => AddedAgrees(e, p, tm);
    case DeleteOp(token) => ErasedAgrees(e, token);
    case FireOp(p, now) =>
      assert e.PtrOk(p);
      if e.pool[p].repeat == 1 { RetiredAgrees(e, p); } else { RearmedAgrees(e, p); }
      assert e.pool[p].token in e.View() && Apply(e, op).View() == Fire(e.View(), e.pool[p].token);
    case ReleaseOp(p) => ReleasedAgrees(e, p);
  }

  ghost predicate StepTo(e: Eng, op: TimerOp, e': Eng) {
    Enabled(e, op) && e' == Apply(e, op)
  }

  ghost predicate IsRun(es: seq<Eng>, ops: seq<TimerOp>) {
    |es| == |ops| + 1 && es[0].Agree() && forall i :: 0 <= i < |ops| ==> StepTo(es[i], ops[i], es[i + 1])
  }

  /** In every run the heap, the cabinet, the pool and the release queue agree, and each step is what the user saw. */
  lemma {:induction false} RunAgrees(es: seq<Eng>, ops: seq<TimerOp>, n: nat)
    requires IsRun(es, ops) && n < |es|
    ensures es[n].Agree()
    ensures n > 0 ==> es[n - 1].Agree() && Seen(es[n - 1].View(), ops[n - 1], es[n].View())
  {
    if n > 0 {
      RunAgrees(es, ops, n - 1);
      assert StepTo(es[n - 1], ops[n - 1], es[n - 1 + 1]);
      ApplyAgrees(es[n - 1], ops[n - 1]);
    }
  }

  ghost function Adds(ops: seq<TimerOp>, n: nat, p: Ptr): nat
    requires n <= |ops|
  {
    if n == 0 then 0 else Adds(ops, n - 1, p) + (if ops[n - 1].AddOp? && ops[n - 1].p == p then 1 else 0)
  }

  // The step gives the object back: a deferred release, or the last firing of a timer.
  ghost predicate GivesBack(e: Eng, op: TimerOp, p: Ptr) {
    op == ReleaseOp(p) || (op.FireOp? && op.p == p && p in e.pool && e.pool[p].repeat == 1)
  }

  ghost function Releases(es: seq<Eng>, ops: seq<TimerOp>, n: nat, p: Ptr): nat
    requires n <= |ops| < |es|
  {
    if n == 0 then 0 else Releases(es, ops, n - 1, p) + (if GivesBack(es[n - 1], ops[n - 1], p) then 1 else 0)
  }

  ghost function Held(e: Eng, p: Ptr): nat {
    if p in e.pool then 1 else 0
  }

  lemma ApplyHolds(e: Eng, op: TimerOp, p: Ptr)
    requires e.Agree() && Enabled(e, op)
    ensures Held(Apply(e, op), p) + (if GivesBack(e, op, p) then 1 else 0)
         == Held(e, p) + (if op.AddOp? && op.p == p then 1 else 0)
  {
    assert e.PtrOk(p);
    if op.DeleteOp? { ErasedAgrees(e, op.token); }
  }

  /** In every run each timer object is released exactly once for each time that it was taken from the pool: what
      was there at the start or added is either still there or released. */
  lemma {:induction false} ReleasedOnce(es: seq<Eng>, ops: seq<TimerOp>, n: nat, p: Ptr)
    requires IsRun(es, ops) && n < |es|
    ensures Held(es[0], p) + Adds(ops, n, p) == Releases(es, ops, n, p) + Held(es[n], p)
  {
    if n > 0 {
      ReleasedOnce(es, ops, n - 1, p);
      RunAgrees(es, ops, n - 1);
      assert StepTo(es[n - 1], ops[n - 1], es[n - 1 + 1]);
      ApplyHolds(es[n - 1], ops[n - 1], p);
    }
  }

  // ---- vectors and bags ----

  lemma DropLast(h: seq<Ptr>)
    requires h != []
    ensures multiset(h[..|h| - 1]) == multiset(h) - multiset{h[|h| - 1]}
  {
    assert h == h[..|h| - 1] + [h[|h| - 1]];
  }

  // Changing a timer that is not in the front part leaves the front part in heap order.
  lemma HeapToFrame(h: seq<Ptr>, n: nat, pool: Pool, pool': Pool, p: Ptr)
    requires InPool(h, pool) && n <= |h| && HeapTo(h, n, pool) && InPool(h, pool')
    requires p !in h[..n] && forall q :: q in pool && q != p ==> q in pool' && pool'[q] == pool[q]
    ensures HeapTo(h, n, pool')
  {
    forall i | 0 < i < n ensures Le(pool', h[Parent(i)], h[i]) {
      assert Le(pool, h[Parent(i)], h[i]);
      assert h[i] in h[..n] && h[Parent(i)] in h[..n];
    }
  }

  lemma HeapPrefix(h: seq<Ptr>, n: nat, pool: Pool)
    requires InPool(h, pool) && n <= |h| && HeapTo(h, n, pool)
    ensures InPool(h[..n], pool) && IsHeap(h[..n], pool)
  {
    var r := h[..n];
    forall i | 0 < i < |r| ensures Le(pool, r[Parent(i)], r[i]) {
      assert Le(pool, h[Parent(i)], h[i]);
    }
  }

  lemma HeapSnoc(h: seq<Ptr>, p: Ptr, pool: Pool)
    requires InPool(h, pool) && IsHeap(h, pool) && p in pool
    ensures InPool(h + [p], pool) && HeapTo(h + [p], |h|, pool)
  {
    var v := h + [p];
    forall i | 0 < i < |h| ensures Le(pool, v[Parent(i)], v[i]) {
      assert Le(pool, h[Parent(i)], h[i]);
    }
  }

  // The deleted timer is the only one that is due at instant 0, so it is on top.
  lemma ZeroOnTop(e: Eng, h: seq<Ptr>, pool: Pool, p: Ptr)
    requires e.Agree() && multiset(h) == e.bag && p in e.bag
    requires p in e.pool && pool == e.Deleted(p).pool
    requires InPool(h, pool) && IsHeap(h, pool)
    ensures h[0] == p
  {
    TopIsLeast(h, pool);
    assert Le(pool, h[0], p);
    assert e.PtrOk(h[0]);
    assert h[0] in multiset(h);
  }

  // vector::push_back and std::push_heap.
  method Insert(heap: seq<Ptr>, pool: Pool, p: Ptr, tm: Timer) returns (h: seq<Ptr>)
    requires InPool(heap, pool) && IsHeap(heap, pool) && p !in pool
    ensures multiset(h) == multiset(heap) + multiset{p}
    ensures InPool(h, pool[p := tm]) && IsHeap(h, pool[p := tm])
  {
    var pool' := pool[p := tm];
    HeapToFrame(heap, |heap|, pool, pool', p);
    HeapSnoc(heap, p, pool');
    h := PushHeap(heap + [p], pool');
    assert multiset(heap + [p]) == multiset(h);
  }

  // std::make_heap, std::pop_heap and vector::pop_back, after the timer to remove was made due at 0.
  method RemoveZero(heap: seq<Ptr>, pool: Pool, p: Ptr, ghost e: Eng) returns (h: seq<Ptr>)
    requires e.Agree() && multiset(heap) == e.bag && p in e.bag
    requires p in e.pool && pool == e.Deleted(p).pool && InPool(heap, pool)
    ensures multiset(h) == multiset(heap) - multiset{p}
    ensures InPool(h, pool) && IsHeap(h, pool)
  {
    h := MakeHeap(heap, pool);
    assert p in multiset(h);
    ZeroOnTop(e, h, pool, p);
    h := PopHeap(h, pool);
    DropLast(h);
    HeapPrefix(h, |h| - 1, pool);
    h := h[..|h| - 1];
  }

  // Taking a pointer that is not in the heap out of the pool leaves the heap alone.
  lemma KeepsHeap(e: Eng, h: seq<Ptr>, p: Ptr)
    requires e.Agree() && e.bag == multiset(h) && e.parked[p] > 0
    requires InPool(h, e.pool) && IsHeap(h, e.pool)
    ensures InPool(h, e.pool - {p}) && IsHeap(h, e.pool - {p})
  {
    assert e.PtrOk(p);
    assert p !in multiset(h);
    forall i | 0 <= i < |h| ensures h[i] != p { assert h[i] in multiset(h); }
    HeapToFrame(h, |h|, e.pool, e.pool - {p}, p);
  }

  lemma LastIsUnique(h: seq<Ptr>, e: Eng)
    requires e.Agree() && multiset(h) == e.bag && h != []
    ensures h[|h| - 1] !in h[..|h| - 1]
  {
    DropLast(h);
    assert e.PtrOk(h[|h| - 1]);
    assert h[|h| - 1] !in multiset(h[..|h| - 1]);
  }

  // std::pop_heap and vector::pop_back.
  method PopTop(heap: seq<Ptr>, pool: Pool, ghost e: Eng) returns (h: seq<Ptr>)
    requires e.Agree() && multiset(heap) == e.bag && heap != [] && pool == e.pool
    requires InPool(heap, pool) && IsHeap(heap, pool)
    ensures multiset(h) == multiset(heap) - multiset{heap[0]}
    ensures InPool(h, pool - {heap[0]}) && IsHeap(h, pool - {heap[0]})
  {
    var p := heap[0];
    h := PopHeap(heap, pool);
    LastIsUnique(h, e);
    DropLast(h);
    HeapPrefix(h, |h| - 1, pool);
    h := h[..|h| - 1];
    HeapToFrame(h, |h|, pool, pool - {p}, p);
  }

  // std::push_heap of the last element, whose timer has become `tm`.
  method PushLast(v: seq<Ptr>, pool: Pool, tm: Timer, ghost e: Eng) returns (h: seq<Ptr>)
    requires e.Agree() && multiset(v) == e.bag && v != [] && pool == e.pool
    requires InPool(v, pool) && HeapTo(v, |v| - 1, pool)
    ensures multiset(h) == multiset(v)
    ensures InPool(h, pool[v[|v| - 1] := tm]) && IsHeap(h, pool[v[|v| - 1] := tm])
  {
    var p := v[|v| - 1];
    LastIsUnique(v, e);
    HeapToFrame(v, |v| - 1, pool, pool[p := tm], p);
    h := PushHeap(v, pool[p := tm]);
  }

  // The top timer's fields move on by one interval; std::pop_heap and std::push_heap put it in its new place.
  method Rearm(heap: seq<Ptr>, pool: Pool, ghost e: Eng) returns (h: seq<Ptr>, pool': Pool)
    requires e.Agree() && multiset(heap) == e.bag && heap != [] && pool == e.pool
    requires InPool(heap, pool) && IsHeap(heap, pool)
    ensures heap[0] in pool && multiset(h) == multiset(heap) && pool' == e.Rearmed(heap[0]).pool
    ensures pool'.Keys == pool.Keys && InPool(h, pool') && IsHeap(h, pool')
  {
    h := PopHeap(heap, pool);
    var tm := pool[heap[0]];
    tm := tm.(expired := (tm.expired + tm.interval) % WORD);
    if tm.repeat != 0 {
      tm := tm.(repeat := tm.repeat - 1);
    }
    h := PushLast(h, pool, tm, e);
    pool' := pool[heap[0] := tm];
  }

  class TimerLoop {
    var pool: Pool
    const cabinet: Cabinet<Ptr>
    var heap: seq<Ptr>
    // The objects that queued functions will release.
    var deferred: seq<Ptr>
    // How many objects the pool has handed out and taken back.
    ghost var allocs: nat
    ghost var frees: nat

    ghost function Snapshot(): Eng
      reads this, cabinet
    {
      Eng(pool, cabinet.contents, multiset(heap), multiset(deferred))
    }

    ghost predicate Valid()
      reads this, cabinet
    {
      && cabinet.Valid()
      && Snapshot().Agree()
      && InPool(heap, pool) && IsHeap(heap, pool)
      && allocs == frees + |pool|
    }

    ghost function View(): map<Token, Timer>
      requires Valid()
      reads this, cabinet
    {
      Snapshot().View()
    }

    constructor ()
      ensures Valid() && View() == map[] && fresh(cabinet)
    {
      cabinet := new Cabinet<Ptr>();
      pool, heap, deferred, allocs, frees := map[], [], [], 0, 0;
    }

    // The top of the heap is due no later than any live timer.
    lemma TopIsNext()
      requires Valid() && heap != []
      ensures pool[heap[0]].token in View() && View()[pool[heap[0]].token] == pool[heap[0]]
      ensures forall u :: u in View() ==> pool[heap[0]].expired <= View()[u].expired
    {
      var e := Snapshot();
      assert e.PtrOk(heap[0]);
      TopIsLeast(heap, pool);
      forall u | u in View() ensures pool[heap[0]].expired <= View()[u].expired {
        assert e.TokenOk(u);
        assert Le(pool, heap[0], e.live[u].value);
      }
    }

    lemma EmptyHeap()
      requires Valid() && heap == []
      ensures View() == map[]
    {
      forall u ensures u !in View() {
        assert Snapshot().TokenOk(u);
      }
    }

    /** Milliseconds to sleep: -1 is for ever. `hasNext` says whether functions are queued. */
    method GetWaitTime(now: nat, hasNext: bool) returns (wait: int)
      requires Valid() && now < CLOCK_END
      ensures hasNext ==> wait == 0
      ensures !hasNext ==> (wait == -1 <==> View() == map[])
      ensures forall t :: t in View() ==> 0 <= wait && now + wait <= Max(now, View()[t].expired)
      ensures !hasNext ==> forall t :: t in View() && View()[t].expired < now + CLOCK_END
                             && (forall u :: u in View() ==> View()[t].expired <= View()[u].expired)
                             ==> wait == Max(0, View()[t].expired - now)
    {
      if hasNext {
        return 0;
      }
      wait := -1;
      if heap != [] {
        TopIsNext();
        // The difference of two 64-bit unsigned numbers, read as a signed one.
        var diff := if now <= pool[heap[0]].expired then pool[heap[0]].expired - now else pool[heap[0]].expired + WORD - now;
        wait := if diff < CLOCK_END then diff else diff - WORD;
        if wait < 0 {
          wait := 0;
        }
      } else {
        EmptyHeap();
      }
    }

    /** A new timer, due after `interval`; `p` is the address the pool hands out. */
    method AddTimer(now: nat, interval: nat, repeat: nat, cb: nat, p: Ptr) returns (token: Token)
      requires Valid() && p !in pool
      requires 0 < now < CLOCK_END && interval < CLOCK_END && |cabinet.cells| < NO_POS
      modifies this`pool, this`heap, this`allocs, cabinet
      ensures Valid() && token !in old(View())
      ensures View() == old(View())[token := Timer(token, interval, now + interval, repeat, cb)]
      ensures pool.Keys == old(pool.Keys) + {p} && allocs == old(allocs) + 1
    {
      ghost var e := Snapshot();
      token := cabinet.Alloc(Some(p));
      assert cabinet.Valid();
      var tm := Timer(token, interval, (now + interval) % WORD, repeat, cb);
      assert tm.expired == now + interval;
      AddedAgrees(e, p, tm);
      Arm(p, tm, e);
    }

    // Fills in the new timer object and pushes it.
    method Arm(p: Ptr, tm: Timer, ghost e: Eng)
      requires p !in pool && InPool(heap, pool) && IsHeap(heap, pool)
      requires Snapshot() == e.(live := e.live[tm.token := Some(p)])
      modifies this`pool, this`heap, this`allocs
      ensures Snapshot() == e.Added(p, tm)
      ensures InPool(heap, pool) && IsHeap(heap, pool)
      ensures allocs == old(allocs) + 1 && |pool| == |old(pool)| + 1
    {
      heap := Insert(heap, pool, p, tm);
      pool, allocs := pool[p := tm], allocs + 1;
    }

    /** Deletes the timer named by `token`, if there is one; its object is released later. */
    method DeleteTimer(token: Token)
      requires Valid()
      modifies this`pool, this`heap, this`deferred, cabinet
      ensures Valid() && View() == old(View()) - {token}
      ensures pool.Keys == old(pool.Keys)
    {
      ErasedAgrees(Snapshot(), token);
      Erase(token, Snapshot());
    }

    // Cabinet, heap and release queue, one after the other.
    method Erase(token: Token, ghost e: Eng)
      requires cabinet.Valid() && e.Agree() && Snapshot() == e && InPool(heap, pool) && IsHeap(heap, pool)
      modifies this`pool, this`heap, this`deferred, cabinet
      ensures cabinet.Valid() && Snapshot() == Erased(e, token) && InPool(heap, pool) && IsHeap(heap, pool)
      ensures pool.Keys == old(pool.Keys) && |pool| == |old(pool)|
    {
      var found := Detach(token, e);
      if found.Some? {
        Discard(found.value, e);
      }
    }

    // Takes the timer's token out of the cabinet.
    method Detach(token: Token, ghost e: Eng) returns (found: Option<Ptr>)
      requires cabinet.Valid() && e.Agree() && Snapshot() == e
      modifies cabinet
      ensures cabinet.Valid() && Erased(e, token).Agree()
      ensures found == None ==> Snapshot() == e == Erased(e, token)
      ensures found.Some? ==> var p := found.value;
        e.bag[p] > 0 && p in pool && pool[p].token == token
        && Snapshot() == e.(live := e.live - {token}) && Erased(e, token) == e.Deleted(p)
    {
      ErasedAgrees(e, token);
      found := cabinet.Free(token);
      if found == None {
        NotFound(e, token);
      } else {
        FoundTimer(e, token, found.value);
      }
    }

    // Takes the timer out of the heap and queues the release of its object.
    method Discard(p: Ptr, ghost e: Eng)
      requires e.Agree() && e.bag[p] > 0 && p in pool
      requires Snapshot() == e.(live := e.live - {pool[p].token})
      requires InPool(heap, pool) && IsHeap(heap, pool)
      modifies this`pool, this`heap, this`deferred
      ensures p in e.pool && Snapshot() == e.Deleted(p)
      ensures InPool(heap, pool) && IsHeap(heap, pool)
      ensures pool.Keys == old(pool.Keys) && |pool| == |old(pool)|
    {
      pool := pool[p := pool[p].(expired := 0)];
      assert pool.Keys == old(pool.Keys);
      heap := RemoveZero(heap, pool, p, e);
      deferred := deferred + [p];
    }

    /** A queued function releases a deleted timer's object. */
    method RunDeferred()
      requires Valid() && deferred != []
      modifies this`pool, this`deferred, this`frees
      ensures Valid() && View() == old(View())
      ensures deferred == old(deferred)[1..] && pool.Keys == old(pool.Keys) - {old(deferred)[0]}
      ensures frees == old(frees) + 1
    {
      ghost var e, ds := Snapshot(), deferred;
      var p := deferred[0];
      assert ds == [p] + ds[1..];
      ReleasedAgrees(e, p);
      KeepsHeap(e, heap, p);
      pool, deferred, frees := pool - {p}, deferred[1..], frees + 1;
      assert Snapshot() == e.Released(p);
    }

    /** One iteration of the expiry sweep: fires the timer on top if it is due. */
    method ExpireFirst(now: nat) returns (f: Option<Firing>)
      requires Valid() && now < CLOCK_END
      modifies this`pool, this`heap, this`frees, cabinet
      ensures Valid()
      ensures f == None ==> View() == old(View()) && forall t :: t in View() ==> now < View()[t].expired
      ensures f != None ==> Fired(old(View()), f.value, now, View())
    {
      if heap == [] {
        EmptyHeap();
        return None;
      }
      var p := heap[0];
      TopIsNext();
      if now < pool[p].expired {
        return None;
      }
      f := Some(Firing(pool[p].token, pool[p].expired, pool[p].cb));
      if pool[p].repeat == 1 {
        RetireTop();
      } else {
        RearmTop();
      }
    }

    // The top timer has fired for the last time.
    method RetireTop()
      requires Valid() && heap != []
      modifies this`pool, this`heap, this`frees, cabinet
      ensures Valid()
      ensures View() == old(View()) - {old(pool[heap[0]].token)}
    {
      ghost var e := Snapshot();
      var p := heap[0];
      RetiredAgrees(e, p);
      heap := PopTop(heap, pool, e);
      var x := cabinet.Free(pool[p].token);
      assert cabinet.Valid();
      pool, frees := pool - {p}, frees + 1;
      assert Snapshot() == e.Retired(p);
    }

    // The top timer has fired and is due again one interval later.
    method RearmTop()
      requires Valid() && heap != [] && pool[heap[0]].expired < CLOCK_END
      modifies this`pool, this`heap
      ensures Valid()
      ensures View() == old(View()[pool[heap[0]].token := Next(pool[heap[0]])])
    {
      ghost var e := Snapshot();
      assert e.PtrOk(heap[0]);
      RearmedAgrees(e, heap[0]);
      heap, pool := Rearm(heap, pool, e);
      assert Snapshot() == e.Rearmed(old(heap[0]));
    }

    /** The expiry sweep, with callbacks that leave the timers alone. */
    method HandleExpiredTimers(now: nat) returns (log: seq<Firing>)
      requires Valid() && now < CLOCK_END
      requires forall t :: t in View() ==> Tame(View()[t])
      modifies this`pool, this`heap, this`frees, cabinet
      ensures Valid()
      ensures Ordered(log, now)
      ensures forall t :: t in old(View()) ==> DuesIn(log, t) == Dues(old(View())[t], now)
      ensures forall t :: t in View() <==> t in old(View()) && Swept(old(View())[t], now).Some?
      ensures forall t :: t in View() ==> View()[t] == Swept(old(View())[t], now).value
    {
      ghost var m0 := View();
      MidwayStart(m0, now);
      log := [];
      var f := ExpireFirst(now);
      ghost var m := m0;
      while f != None
        invariant Valid()
        invariant Midway(m0, m, log, now) && forall t :: t in m ==> Tame(m[t])
        invariant f == None ==> m == View() && forall t :: t in m ==> now < m[t].expired
        invariant f != None ==> Fired(m, f.value, now, View())
        decreases if f == None then 0 else Owed(m, now) + 1
      {
        MidwayStep(m0, m, log, now, f.value.token);
        OwedStep(m, now, f.value.token);
        log := log + [f.value];
        m := View();
        f := ExpireFirst(now);
      }
      SweepDone(m0, m, log, now);
    }
  }

  // The firing f takes the timers from m to m'.
  ghost predicate Fired(m: map<Token, Timer>, f: Firing, now: nat, m': map<Token, Timer>) {
    && IsNext(m, f.token, now)
    && f == Firing(f.token, m[f.token].expired, m[f.token].cb)
    && m' == Fire(m, f.token)
  }
}
