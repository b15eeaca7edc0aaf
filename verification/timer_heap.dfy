// The binary min-heap of timer pointers, ordered by expiry, with the standard heap algorithms.
module TimerHeaps {
  import opened Cabinets

  // A pointer to a timer object handed out by the object pool.
  type Ptr = nat

  datatype Timer = Timer(token: Token, interval: nat, expired: nat, repeat: nat, cb: nat)

  type Pool = map<Ptr, Timer>

  function Parent(i: nat): (p: nat)
    requires i > 0
    ensures p < i && (i == 2 * p + 1 || i == 2 * p + 2)
  {
    (i - 1) / 2
  }

  ghost predicate InPool(h: seq<Ptr>, pool: Pool) {
    forall i :: 0 <= i < |h| ==> h[i] in pool
  }

  predicate Le(pool: Pool, p: Ptr, q: Ptr)
    requires p in pool && q in pool
  {
    pool[p].expired <= pool[q].expired
  }

  // h[..n] is in heap order.
  ghost predicate HeapTo(h: seq<Ptr>, n: nat, pool: Pool)
    requires InPool(h, pool) && n <= |h|
  {
    forall i {:trigger Parent(i)} :: 0 < i < n ==> Le(pool, h[Parent(i)], h[i])
  }

  ghost predicate IsHeap(h: seq<Ptr>, pool: Pool)
    requires InPool(h, pool)
  {
    HeapTo(h, |h|, pool)
  }

  lemma {:induction false} TopTo(h: seq<Ptr>, n: nat, pool: Pool, i: nat)
    requires InPool(h, pool) && n <= |h| && HeapTo(h, n, pool) && i < n
    ensures Le(pool, h[0], h[i])
  {
    if i > 0 {
      TopTo(h, n, pool, Parent(i));
    }
  }

  /** The front of a heap is due no later than any timer in it. */
  lemma TopIsLeast(h: seq<Ptr>, pool: Pool)
    requires InPool(h, pool) && IsHeap(h, pool) && h != []
    ensures forall p :: p in multiset(h) ==> Le(pool, h[0], p)
  {
    forall p | p in multiset(h) ensures Le(pool, h[0], p) {
      var i :| 0 <= i < |h| && h[i] == p;
      TopTo(h, |h|, pool, i);
    }
  }

  function Swap(h: seq<Ptr>, i: nat, j: nat): (r: seq<Ptr>)
    requires i < |h| && j < |h|
    ensures |r| == |h| && r[i] == h[j] && r[j] == h[i]
    ensures forall k :: 0 <= k < |h| && k != i && k != j ==> r[k] == h[k]
    ensures multiset(r) == multiset(h)
  {
    h[i := h[j]][j := h[i]]
  }

  lemma InPoolByBag(h: seq<Ptr>, r: seq<Ptr>, pool: Pool)
    requires InPool(h, pool) && multiset(r) == multiset(h)
    ensures InPool(r, pool)
  {
    forall i | 0 <= i < |r| ensures r[i] in pool {
      assert r[i] in multiset(r);
      assert r[i] in multiset(h);
    }
  }

  // Heap order everywhere below n except between i and its parent; what hangs below i is above i's parent.
  ghost predicate UpHole(h: seq<Ptr>, n: nat, i: nat, pool: Pool)
    requires InPool(h, pool) && i < n <= |h|
  {
    && (forall k {:trigger Parent(k)} :: 0 < k < n && k != i ==> Le(pool, h[Parent(k)], h[k]))
    && (forall k {:trigger Parent(k)} :: 0 < k < n && i > 0 && Parent(k) == i ==> Le(pool, h[Parent(i)], h[k]))
  }

  lemma UpStep(h: seq<Ptr>, n: nat, i: nat, pool: Pool)
    requires InPool(h, pool) && 0 < i < n <= |h| && UpHole(h, n, i, pool)
    requires !Le(pool, h[Parent(i)], h[i])
    ensures var r := Swap(h, i, Parent(i)); InPool(r, pool) && UpHole(r, n, Parent(i), pool)
  {
    var p := Parent(i);
    var r := Swap(h, i, p);
    InPoolByBag(h, r, pool);
    forall k | 0 < k < n && k != p ensures Le(pool, r[Parent(k)], r[k]) {
      assert k != i ==> Le(pool, h[Parent(k)], h[k]);
    }
    forall k | 0 < k < n && p > 0 && Parent(k) == p ensures Le(pool, r[Parent(p)], r[k]) {
      assert Le(pool, h[Parent(p)], h[p]);
      assert k != i ==> Le(pool, h[p], h[k]);
    }
  }

  /** std::push_heap: the last element joins the heap in front of it. */
  method PushHeap(v: seq<Ptr>, pool: Pool) returns (h: seq<Ptr>)
    requires InPool(v, pool) && |v| > 0 && HeapTo(v, |v| - 1, pool)
    ensures multiset(h) == multiset(v) && InPool(h, pool) && IsHeap(h, pool)
  {
    h := v;
    var i := |v| - 1;
    while i > 0 && !Le(pool, h[Parent(i)], h[i])
      invariant |h| == |v| && 0 <= i < |h|
      invariant multiset(h) == multiset(v) && InPool(h, pool)
      invariant UpHole(h, |h|, i, pool)
    {
      UpStep(h, |h|, i, pool);
      var p := Parent(i);
      h, i := Swap(h, i, p), p;
    }
  }

  // Heap order between lo and n except between i and its children; i's children are above i's parent.
  ghost predicate DownHole(h: seq<Ptr>, lo: nat, n: nat, i: nat, pool: Pool)
    requires InPool(h, pool) && lo <= i && n <= |h|
  {
    && (forall k {:trigger Parent(k)} :: 0 < k < n && Parent(k) >= lo && Parent(k) != i ==> Le(pool, h[Parent(k)], h[k]))
    && (forall k {:trigger Parent(k)} :: 0 < k < n && i > lo && Parent(k) == i && Parent(i) >= lo ==> Le(pool, h[Parent(i)], h[k]))
  }

  // The child of i that is due first.
  function LeastChild(h: seq<Ptr>, n: nat, i: nat, pool: Pool): (c: nat)
    requires InPool(h, pool) && n <= |h| && 2 * i + 1 < n
    ensures c < n && c > 0 && Parent(c) == i
    ensures forall k {:trigger Parent(k)} :: 0 < k < n && Parent(k) == i ==> Le(pool, h[c], h[k])
  {
    if 2 * i + 2 < n && !Le(pool, h[2 * i + 1], h[2 * i + 2]) then 2 * i + 2 else 2 * i + 1
  }

  lemma DownStep(h: seq<Ptr>, lo: nat, n: nat, i: nat, pool: Pool)
    requires InPool(h, pool) && lo <= i && n <= |h| && 2 * i + 1 < n && DownHole(h, lo, n, i, pool)
    requires !Le(pool, h[i], h[LeastChild(h, n, i, pool)])
    ensures var c := LeastChild(h, n, i, pool);
            var r := Swap(h, i, c);
            InPool(r, pool) && DownHole(r, lo, n, c, pool)
  {
    var c := LeastChild(h, n, i, pool);
    var r := Swap(h, i, c);
    InPoolByBag(h, r, pool);
    forall k | 0 < k < n && Parent(k) >= lo && Parent(k) != c ensures Le(pool, r[Parent(k)], r[k]) {
      if Parent(k) != i {
        assert Le(pool, h[Parent(k)], h[k]);
      }
    }
    forall k | 0 < k < n && Parent(k) == c ensures Le(pool, r[i], r[k]) {
      assert Le(pool, h[c], h[k]);
    }
  }

  // Sinks the element at `start` until it is no later than its children.
  method SiftDown(v: seq<Ptr>, start: nat, n: nat, pool: Pool) returns (h: seq<Ptr>)
    requires InPool(v, pool) && start < n <= |v| && DownHole(v, start, n, start, pool)
    ensures |h| == |v| && multiset(h) == multiset(v) && InPool(h, pool)
    ensures forall k {:trigger Parent(k)} :: 0 < k < n && Parent(k) >= start ==> Le(pool, h[Parent(k)], h[k])
    ensures forall k :: n <= k < |v| ==> h[k] == v[k]
  {
    h := v;
    var i := start;
    while 2 * i + 1 < n && !Le(pool, h[i], h[LeastChild(h, n, i, pool)])
      invariant |h| == |v| && start <= i < n
      invariant multiset(h) == multiset(v) && InPool(h, pool)
      invariant DownHole(h, start, n, i, pool)
      invariant forall k :: n <= k < |v| ==> h[k] == v[k]
      decreases n - i
    {
      var c := LeastChild(h, n, i, pool);
      DownStep(h, start, n, i, pool);
      h, i := Swap(h, i, c), c;
    }
    forall k | 0 < k < n && Parent(k) >= start ensures Le(pool, h[Parent(k)], h[k]) {
      if Parent(k) == i {
        assert Le(pool, h[LeastChild(h, n, i, pool)], h[k]);
      }
    }
  }

  /** std::pop_heap: the front goes to the back, and the rest is a heap again. */
  method PopHeap(v: seq<Ptr>, pool: Pool) returns (h: seq<Ptr>)
    requires InPool(v, pool) && |v| > 0 && IsHeap(v, pool)
    ensures |h| == |v| && multiset(h) == multiset(v) && InPool(h, pool)
    ensures h[|h| - 1] == v[0] && HeapTo(h, |h| - 1, pool)
  {
    var n := |v| - 1;
    h := Swap(v, 0, n);
    InPoolByBag(v, h, pool);
    if n > 0 {
      forall k | 0 < k < n && Parent(k) >= 0 && Parent(k) != 0 ensures Le(pool, h[Parent(k)], h[k]) {
        assert Le(pool, v[Parent(k)], v[k]);
      }
      h := SiftDown(h, 0, n, pool);
    }
  }

  /** std::make_heap: any vector becomes a heap. */
  method MakeHeap(v: seq<Ptr>, pool: Pool) returns (h: seq<Ptr>)
    requires InPool(v, pool)
    ensures multiset(h) == multiset(v) && InPool(h, pool) && IsHeap(h, pool)
  {
    h := v;
    var i := |v|;
    while i > 0
      invariant 0 <= i <= |v| == |h|
      invariant multiset(h) == multiset(v) && InPool(h, pool)
      invariant forall k {:trigger Parent(k)} :: 0 < k < |h| && Parent(k) >= i ==> Le(pool, h[Parent(k)], h[k])
    {
      i := i - 1;
      h := SiftDown(h, i, |h|, pool);
    }
  }
}
