// The generational slot map: a vector of cells, a free list threaded through the empty cells, and
// tokens made of an id and a position.
module Cabinets {
  import opened Wrappers

  const MAX_ID: nat := 0xFFFF_FFFF_FFFF_FFFF
  // The position that ends the free list.
  const NO_POS: nat := 0xFFFF_FFFF_FFFF_FFFF

  datatype Token = Token(id: nat, pos: nat) {
    predicate IsNull() { id == 0 }
  }

  // The union inside a cell: an object pointer (None is the null pointer) or the next free position.
  datatype Slot<+T> = Obj(ptr: Option<T>) | NextFree(pos: nat)
  datatype Cell<+T> = Cell(id: nat, slot: Slot<T>)

  /** The state of a cabinet. */
  datatype Cab<+T> = Cab(lastId: nat, cells: seq<Cell<T>>, firstFree: nat, count: nat) {
    // fl is the free list, head first.
    ghost predicate ValidWith(fl: seq<nat>) {
      && lastId <= MAX_ID
      && |cells| <= NO_POS
      && firstFree == FreeAt(fl, 0)
      && (forall k :: 0 <= k < |fl| ==> fl[k] < |cells| && cells[fl[k]].id == 0 && cells[fl[k]].slot.NextFree?)
      && (forall k {:trigger Linked(fl, k)} :: 0 <= k < |fl| ==> Linked(fl, k))
      && (forall i, j :: 0 <= i < j < |fl| ==> fl[i] != fl[j])
      && (forall p :: 0 <= p < |cells| && cells[p].id == 0 ==> p in fl)
      && (forall p :: 0 <= p < |cells| && cells[p].id != 0 ==> cells[p].slot.Obj?)
      && count + |fl| == |cells|
    }

    // The cell of the k-th free position leads to the next one.
    ghost predicate Linked(fl: seq<nat>, k: nat)
      requires k < |fl| && fl[k] < |cells| && cells[fl[k]].slot.NextFree?
    {
      cells[fl[k]].slot.pos == FreeAt(fl, k + 1)
    }

    ghost predicate Valid() {
      exists fl :: ValidWith(fl)
    }

    predicate Holds(t: Token) {
      t.id != 0 && t.pos < |cells| && cells[t.pos].id == t.id
    }

    ghost function Tokens(): set<Token> {
      set p | 0 <= p < |cells| && cells[p].id != 0 :: Token(cells[p].id, p)
    }

    /** What the cabinet stores: the map from live tokens to object pointers. */
    ghost function Live(): (m: map<Token, Option<T>>)
      requires Valid()
      ensures forall t :: t in m <==> Holds(t)
      ensures forall t :: t in m ==> Holds(t) && cells[t.pos].slot.Obj? && m[t] == cells[t.pos].slot.ptr
    {
      assert forall t :: t in Tokens() <==> Holds(t);
      map t | t in Tokens() :: cells[t.pos].slot.ptr
    }

    function NextId(): nat {
      if lastId == MAX_ID then 1 else lastId + 1
    }

    function Alloc(obj: Option<T>): (Cab<T>, Token)
      requires firstFree != NO_POS ==> firstFree < |cells| && cells[firstFree].slot.NextFree?
    {
      if firstFree != NO_POS then
        (Cab(NextId(), cells[firstFree := Cell(NextId(), Obj(obj))], cells[firstFree].slot.pos, count + 1),
         Token(NextId(), firstFree))
      else
        (Cab(NextId(), cells + [Cell(NextId(), Obj(obj))], NO_POS, count + 1), Token(NextId(), |cells|))
    }

    function Update(t: Token, obj: Option<T>): (Cab<T>, bool) {
      if Holds(t) then
        (this.(cells := cells[t.pos := Cell(t.id, Obj(obj))]), true)
      else
        (this, false)
    }

    function Free(t: Token): (Cab<T>, Option<T>)
      requires Holds(t) ==> cells[t.pos].slot.Obj? && count > 0
    {
      if Holds(t) then
        (Cab(lastId, cells[t.pos := Cell(0, NextFree(firstFree))], t.pos, count - 1), cells[t.pos].slot.ptr)
      else
        (this, None)
    }

    function At(t: Token): Option<T>
      requires Holds(t) ==> cells[t.pos].slot.Obj?
    {
      if Holds(t) then cells[t.pos].slot.ptr else None
    }
  }

  function FreeAt(fl: seq<nat>, k: nat): nat {
    if k < |fl| then fl[k] else NO_POS
  }

  function EmptyCab<T>(): (c: Cab<T>)
    ensures c.Valid() && c.Live() == map[]
  {
    var c := Cab(0, [], NO_POS, 0);
    assert c.ValidWith([]);
    c
  }

  ghost function TokensBelow<T>(c: Cab<T>, n: nat): set<Token>
    requires n <= |c.cells|
  {
    set p | 0 <= p < n && c.cells[p].id != 0 :: Token(c.cells[p].id, p)
  }

  ghost function FreeBelow<T>(c: Cab<T>, n: nat): set<nat>
    requires n <= |c.cells|
  {
    set p: nat | 0 <= p < n && c.cells[p].id == 0
  }

  lemma {:induction false} SplitCount<T>(c: Cab<T>, n: nat)
    requires n <= |c.cells|
    ensures |TokensBelow(c, n)| + |FreeBelow(c, n)| == n
  {
    if n == 0 {
      assert TokensBelow(c, n) == {} && FreeBelow(c, n) == {};
    } else {
      SplitCount(c, n - 1);
      var p: nat := n - 1;
      if c.cells[p].id != 0 {
        assert TokensBelow(c, n) == TokensBelow(c, p) + {Token(c.cells[p].id, p)};
        assert FreeBelow(c, n) == FreeBelow(c, p);
      } else {
        assert TokensBelow(c, n) == TokensBelow(c, p);
        assert FreeBelow(c, n) == FreeBelow(c, p) + {p};
      }
    }
  }

  ghost function Elems(s: seq<nat>): set<nat> {
    set x | x in s
  }

  lemma {:induction false} DistinctCount(s: seq<nat>)
    requires forall i, j :: 0 <= i < j < |s| ==> s[i] != s[j]
    ensures |Elems(s)| == |s|
  {
    if s == [] {
      assert Elems(s) == {};
    } else {
      DistinctCount(s[1..]);
      assert s[0] !in Elems(s[1..]);
      assert Elems(s) == Elems(s[1..]) + {s[0]};
    }
  }

  // `count` is the number of live tokens: the positions split into live ones and free ones.
  lemma CountIsLive<T>(c: Cab<T>)
    requires c.Valid()
    ensures c.count == |c.Live()|
  {
    var fl :| c.ValidWith(fl);
    SplitCount(c, |c.cells|);
    DistinctCount(fl);
    assert c.Live().Keys == TokensBelow(c, |c.cells|);
    assert FreeBelow(c, |c.cells|) == Elems(fl);
  }

  // ---- each operation refines the operation on the map ----

  lemma AllocReuseValid<T>(c: Cab<T>, fl: seq<nat>, obj: Option<T>)
    requires c.ValidWith(fl) && fl != []
    ensures c.Linked(fl, 0) && c.Alloc(obj).0.ValidWith(fl[1..])
  {
    var fl', c' := fl[1..], c.Alloc(obj).0;
    assert c.Linked(fl, 0);
    forall k | 0 <= k < |fl'|
      ensures fl'[k] < |c'.cells| && c'.cells[fl'[k]].id == 0 && c'.cells[fl'[k]].slot.NextFree? && c'.Linked(fl', k)
    {
      assert fl'[k] == fl[k + 1] && fl[k + 1] != fl[0];
      assert c.Linked(fl, k + 1);
    }
    AllocCover(c, fl, c');
  }

  // Every position that is still free is in the rest of the list.
  lemma AllocCover<T>(c: Cab<T>, fl: seq<nat>, c': Cab<T>)
    requires c.ValidWith(fl) && fl != [] && |c'.cells| == |c.cells|
    requires forall p :: 0 <= p < |c.cells| && c'.cells[p].id == 0 ==> p != fl[0] && c.cells[p].id == 0
    ensures forall p :: 0 <= p < |c'.cells| && c'.cells[p].id == 0 ==> p in fl[1..]
  {
    forall p | 0 <= p < |c'.cells| && c'.cells[p].id == 0 ensures p in fl[1..] {
      var i :| 0 <= i < |fl| && fl[i] == p;
      assert fl[1..][i - 1] == p;
    }
  }

  lemma AllocValid<T>(c: Cab<T>, fl: seq<nat>, obj: Option<T>)
    requires c.ValidWith(fl) && |c.cells| < NO_POS
    ensures c.Alloc(obj).0.Valid()
  {
    if fl != [] {
      AllocReuseValid(c, fl, obj);
    } else {
      assert c.Alloc(obj).0.ValidWith([]);
    }
  }

  lemma AllocLive<T>(c: Cab<T>, fl: seq<nat>, obj: Option<T>)
    requires c.ValidWith(fl) && |c.cells| < NO_POS
    requires c.Alloc(obj).0.Valid()
    ensures var (c', t) := c.Alloc(obj); t !in c.Live() && c'.Live() == c.Live()[t := obj]
  {
    var (c', t) := c.Alloc(obj);
    var m := c.Live()[t := obj];
    assert t !in c.Live();
    forall u ensures u in m <==> u in c'.Live() {
      assert c'.Holds(u) <==> c.Holds(u) || u == t;
    }
    assert c'.Live() == m;
  }

  lemma AllocRefines<T>(c: Cab<T>, obj: Option<T>)
    requires c.Valid() && |c.cells| < NO_POS
    ensures var (c', t) := c.Alloc(obj);
            && c'.Valid()
            && t.id == c'.lastId != 0
            && t !in c.Live()
            && c'.Live() == c.Live()[t := obj]
            && |c'.cells| == Max(|c.cells|, c'.count)
  {
    var fl :| c.ValidWith(fl);
    AllocValid(c, fl, obj);
    AllocLive(c, fl, obj);
  }

  lemma UpdateValid<T>(c: Cab<T>, fl: seq<nat>, t: Token, obj: Option<T>)
    requires c.ValidWith(fl)
    ensures c.Update(t, obj).0.ValidWith(fl)
  {
    var c' := c.Update(t, obj).0;
    forall k | 0 <= k < |fl| ensures c'.Linked(fl, k) {
      assert c.Linked(fl, k);
    }
  }

  lemma UpdateRefines<T>(c: Cab<T>, t: Token, obj: Option<T>)
    requires c.Valid()
    ensures var (c', ok) := c.Update(t, obj);
            && c'.Valid()
            && ok == (t in c.Live())
            && c'.Live() == (if ok then c.Live()[t := obj] else c.Live())
  {
    var fl :| c.ValidWith(fl);
    var (c', ok) := c.Update(t, obj);
    UpdateValid(c, fl, t, obj);
    assert ok ==> c'.Live() == c.Live()[t := obj];
  }

  lemma FreePre<T>(c: Cab<T>, t: Token)
    requires c.Valid() && c.Holds(t)
    ensures c.cells[t.pos].slot.Obj? && c.count > 0
  {
    CountIsLive(c);
    assert t in c.Live();
  }

  lemma FreeValid<T>(c: Cab<T>, fl: seq<nat>, t: Token)
    requires c.ValidWith(fl) && c.Holds(t) && c.cells[t.pos].slot.Obj? && c.count > 0
    ensures c.Free(t).0.ValidWith([t.pos] + fl)
  {
    var fl', c' := [t.pos] + fl, c.Free(t).0;
    assert t.pos !in fl;
    forall k | 0 <= k < |fl'| ensures c'.Linked(fl', k) {
      if k > 0 { assert c.Linked(fl, k - 1); }
    }
  }

  lemma FreeRefines<T>(c: Cab<T>, t: Token)
    requires c.Valid()
    ensures c.Holds(t) ==> c.cells[t.pos].slot.Obj? && c.count > 0
    ensures var (c', p) := c.Free(t);
            && c'.Valid()
            && p == (if t in c.Live() then c.Live()[t] else None)
            && c'.Live() == c.Live() - {t}
  {
    if c.Holds(t) {
      FreePre(c, t);
      var fl :| c.ValidWith(fl);
      FreeValid(c, fl, t);
      assert c.Free(t).0.Live() == c.Live() - {t};
    }
  }

  lemma AtRefines<T>(c: Cab<T>, t: Token)
    requires c.Valid()
    ensures c.Holds(t) ==> c.cells[t.pos].slot.Obj?
    ensures c.At(t) == (if t in c.Live() then c.Live()[t] else None)
  {
  }

  // ---- runs ----

  datatype Op<+T> = AllocOp(obj: Option<T>) | UpdateOp(t: Token, obj: Option<T>) | FreeOp(t: Token)
  datatype Result<+T> = Issued(t: Token) | Updated(ok: bool) | Freed(ptr: Option<T>)

  ghost function Step<T>(c: Cab<T>, op: Op<T>): (r: (Cab<T>, Result<T>))
    requires c.Valid() && |c.cells| < NO_POS
    ensures r.0.Valid() && |r.0.cells| <= |c.cells| + 1
    ensures |r.0.cells| == Max(|c.cells|, r.0.count)
  {
    CountBound(c);
    match op
    case AllocOp(obj) => AllocRefines(c, obj); var (c', t) := c.Alloc(obj); (c', Issued(t))
    case UpdateOp(t, obj) => UpdateRefines(c, t, obj); var (c', ok) := c.Update(t, obj); (c', Updated(ok))
    case FreeOp(t) => FreeRefines(c, t); var (c', p) := c.Free(t); (c', Freed(p))
  }

  lemma CountBound<T>(c: Cab<T>)
    requires c.Valid()
    ensures c.count <= |c.cells|
  {
  }

  /** The map seen by a caller accepts the result of the operation and moves to m'. */
  ghost predicate MapStep<T(!new)>(m: map<Token, Option<T>>, op: Op<T>, res: Result<T>, m': map<Token, Option<T>>) {
    match op
    case AllocOp(obj) => res.Issued? && !res.t.IsNull() && res.t !in m && m' == m[res.t := obj]
    case UpdateOp(t, obj) => res == Updated(t in m) && m' == (if t in m then m[t := obj] else m)
    case FreeOp(t) => res == Freed(if t in m then m[t] else None) && m' == m - {t}
  }

  ghost predicate MapRun<T(!new)>(m: map<Token, Option<T>>, ops: seq<Op<T>>, res: seq<Result<T>>, m': map<Token, Option<T>>)
    requires |ops| == |res|
    decreases |ops|
  {
    if ops == [] then m == m'
    else exists m1 :: MapStep(m, ops[0], res[0], m1) && MapRun(m1, ops[1..], res[1..], m')
  }

  // There is room for another cell at every step.
  ghost predicate Fits<T>(c: Cab<T>, ops: seq<Op<T>>)
    requires c.Valid()
    decreases |ops|
  {
    ops == [] || (|c.cells| < NO_POS && Fits(Step(c, ops[0]).0, ops[1..]))
  }

  ghost function Exec<T>(c: Cab<T>, ops: seq<Op<T>>): (r: (Cab<T>, seq<Result<T>>))
    requires c.Valid() && Fits(c, ops)
    ensures r.0.Valid() && |r.1| == |ops|
    decreases |ops|
  {
    if ops == [] then (c, [])
    else
      var (c1, r1) := Step(c, ops[0]);
      var (c2, rs) := Exec(c1, ops[1..]);
      (c2, [r1] + rs)
  }

  /** Every run of operations answers as a map from tokens to objects would, whether or not ids wrap. */
  lemma {:induction false} RunRefinesMap<T(!new)>(c: Cab<T>, ops: seq<Op<T>>)
    requires c.Valid() && Fits(c, ops)
    ensures var (c', res) := Exec(c, ops); MapRun(c.Live(), ops, res, c'.Live())
    decreases |ops|
  {
    if ops != [] {
      var (c1, r1) := Step(c, ops[0]);
      var (c2, rs) := Exec(c1, ops[1..]);
      match ops[0] {
        case AllocOp(obj) => AllocRefines(c, obj);
        case UpdateOp(t, obj) => UpdateRefines(c, t, obj);
        case FreeOp(t) => FreeRefines(c, t);
      }
      assert MapStep(c.Live(), ops[0], r1, c1.Live());
      RunRefinesMap(c1, ops[1..]);
      var res := [r1] + rs;
      assert res[0] == r1 && res[1..] == rs;
    }
  }

  /** The largest number of objects alive at once during a run. */
  ghost function Peak<T>(c: Cab<T>, ops: seq<Op<T>>): nat
    requires c.Valid() && Fits(c, ops)
    decreases |ops|
  {
    if ops == [] then c.count else Max(c.count, Peak(Step(c, ops[0]).0, ops[1..]))
  }

  /** The vector of cells is never longer than the historical peak of live objects requires. */
  lemma {:induction false} CellsArePeak<T>(c: Cab<T>, ops: seq<Op<T>>)
    requires c.Valid() && Fits(c, ops)
    ensures |Exec(c, ops).0.cells| == Max(|c.cells|, Peak(c, ops))
    decreases |ops|
  {
    CountBound(c);
    if ops != [] {
      CellsArePeak(Step(c, ops[0]).0, ops[1..]);
    }
  }

  // ---- stale tokens ----

  function Allocs<T>(ops: seq<Op<T>>): nat
    decreases |ops|
  {
    if ops == [] then 0 else (if ops[0].AllocOp? then 1 else 0) + Allocs(ops[1..])
  }

  // The allocation, counted from now, that issues the id.
  function Dist(lastId: nat, id: nat): (n: nat)
    requires lastId <= MAX_ID && 1 <= id <= MAX_ID
    ensures n > 0
  {
    if id > lastId then id - lastId else MAX_ID - lastId + id
  }

  lemma StaleStep<T>(c: Cab<T>, op: Op<T>, t: Token)
    requires c.Valid() && |c.cells| < NO_POS && 1 <= t.id <= MAX_ID && !c.Holds(t)
    ensures var c1 := Step(c, op).0;
      && c1.lastId <= MAX_ID
      && (c1.Holds(t) ==> op.AllocOp? && Dist(c.lastId, t.id) == 1)
      && (op.AllocOp? && Dist(c.lastId, t.id) > 1 ==> Dist(c1.lastId, t.id) == Dist(c.lastId, t.id) - 1)
      && (!op.AllocOp? ==> c1.lastId == c.lastId)
  {
    if op.FreeOp? { FreeRefines(c, op.t); }
  }

  /** A token that is not live does not resolve until its id is issued again: for a token that was issued and freed,
      not before MAX_ID - lastId + id more allocations, however many other operations there are. */
  lemma {:induction false} StaleUntilWrap<T>(c: Cab<T>, ops: seq<Op<T>>, t: Token)
    requires c.Valid() && Fits(c, ops) && 1 <= t.id <= MAX_ID && !c.Holds(t)
    requires Allocs(ops) < Dist(c.lastId, t.id)
    ensures !Exec(c, ops).0.Holds(t)
    decreases |ops|
  {
    if ops != [] {
      StaleStep(c, ops[0], t);
      StaleUntilWrap(Step(c, ops[0]).0, ops[1..], t);
    }
  }

  // Allocates in the cell at the head of the free list, and frees it again, until the id is issued.
  ghost function RevivalOps<T>(lastId: nat, pos: nat, x: T, id: nat): seq<Op<T>>
    requires lastId <= MAX_ID && 1 <= id <= MAX_ID
    decreases Dist(lastId, id)
  {
    if Dist(lastId, id) == 1 then [AllocOp(Some(x))]
    else
      var next := if lastId == MAX_ID then 1 else lastId + 1;
      [AllocOp(Some(x)), FreeOp(Token(next, pos))] + RevivalOps(next, pos, x, id)
  }

  // One such pair moves the id counter on, and nothing else.
  lemma PairStep<T>(c: Cab<T>, x: T)
    requires c.Valid() && c.firstFree != NO_POS && |c.cells| < NO_POS
    ensures c.firstFree < |c.cells| && c.cells[c.firstFree].slot.NextFree?
    ensures
      var c1 := Step(c, AllocOp(Some(x))).0;
      && c1 == c.Alloc(Some(x)).0 && |c1.cells| < NO_POS
      && Step(c1, FreeOp(Token(c.NextId(), c.firstFree))).0 == c.(lastId := c.NextId())
  {
    var fl :| c.ValidWith(fl);
    assert c.Linked(fl, 0);
    AllocRefines(c, Some(x));
    var c1 := c.Alloc(Some(x)).0;
    var t := Token(c.NextId(), c.firstFree);
    FreeRefines(c1, t);
    assert c.cells[c.firstFree] == Cell(0, NextFree(c.cells[c.firstFree].slot.pos));
    assert c1.Free(t).0.cells == c.cells;
  }

  lemma NextIdValid<T>(c: Cab<T>)
    requires c.Valid()
    ensures c.(lastId := c.NextId()).Valid()
  {
    var fl :| c.ValidWith(fl);
    var c' := c.(lastId := c.NextId());
    forall k | 0 <= k < |fl| ensures c'.Linked(fl, k) {
      assert c.Linked(fl, k);
    }
    assert c'.ValidWith(fl);
  }

  lemma {:induction false} Revives<T>(c: Cab<T>, x: T, id: nat)
    requires c.Valid() && c.firstFree != NO_POS && |c.cells| < NO_POS && 1 <= id <= MAX_ID
    ensures var ops := RevivalOps(c.lastId, c.firstFree, x, id);
      && Fits(c, ops) && Allocs(ops) == Dist(c.lastId, id)
      && Exec(c, ops).0.Holds(Token(id, c.firstFree))
      && Exec(c, ops).0.cells[c.firstFree].slot == Obj(Some(x))
    decreases Dist(c.lastId, id)
  {
    PairStep(c, x);
    if Dist(c.lastId, id) > 1 {
      var next, t := c.(lastId := c.NextId()), Token(c.NextId(), c.firstFree);
      NextIdValid(c);
      Revives(next, x, id);
      var rest := RevivalOps(next.lastId, c.firstFree, x, id);
      var ops := [AllocOp(Some(x)), FreeOp(t)] + rest;
      assert ops[1..] == [FreeOp(t)] + rest;
      assert ops[1..][1..] == rest;
    }
  }

  /** That many allocations are enough: the token of an object that has been freed can then resolve to another. */
  lemma WrapRevives<T>(c: Cab<T>, t: Token, x: T)
    requires c.Valid() && c.Holds(t) && t.id <= MAX_ID && |c.cells| < NO_POS
    ensures c.cells[t.pos].slot.Obj? && c.count > 0
    ensures var c' := c.Free(t).0;
      && c'.Valid() && !c'.Holds(t)
      && exists ops :: Fits(c', ops) && Allocs(ops) == Dist(c.lastId, t.id) && Resolves(Exec(c', ops).0, t, Some(x))
  {
    FreeRefines(c, t);
    var c' := c.Free(t).0;
    Revives(c', x, t.id);
    var ops := RevivalOps(c'.lastId, t.pos, x, t.id);
    assert Fits(c', ops) && Resolves(Exec(c', ops).0, t, Some(x));
  }

  ghost predicate Resolves<T>(c: Cab<T>, t: Token, ptr: Option<T>) {
    c.Holds(t) && c.cells[t.pos].slot == Obj(ptr)
  }

  // m is what c stores.
  ghost predicate Shows<T>(c: Cab<T>, m: map<Token, Option<T>>) {
    && (forall t :: t in m <==> c.Holds(t))
    && (forall t :: t in m ==> c.Holds(t) && c.cells[t.pos].slot == Obj(m[t]))
  }

  lemma ShowsLive<T>(c: Cab<T>, m: map<Token, Option<T>>)
    requires c.Valid()
    ensures Shows(c, m) <==> m == c.Live()
  {
    if Shows(c, m) {
      assert m.Keys == c.Live().Keys;
    }
  }

  /** The cabinet itself, updated in place. */
  class Cabinet<T> {
    var lastId: nat
    var cells: seq<Cell<T>>
    var firstFree: nat
    var count: nat
    // The objects by token.
    ghost var contents: map<Token, Option<T>>

    ghost function State(): Cab<T>
      reads this
    {
      Cab(lastId, cells, firstFree, count)
    }

    ghost predicate Valid()
      reads this
    {
      State().Valid() && Shows(State(), contents)
    }

    constructor ()
      ensures State() == EmptyCab() && Valid() && contents == map[]
    {
      lastId, cells, firstFree, count := 0, [], NO_POS, 0;
      contents := map[];
      new;
      assert State() == EmptyCab<T>();
    }

    method AllocId() returns (id: nat)
      modifies this`lastId
      ensures id == lastId == old(State().NextId())
    {
      if lastId == MAX_ID {
        lastId := 0;
      }
      lastId := lastId + 1;
      id := lastId;
    }

    // Unlinks the head of the free list, or appends a cell.
    method AllocPos() returns (pos: nat)
      requires firstFree != NO_POS ==> firstFree < |cells| && cells[firstFree].slot.NextFree?
      modifies this`cells, this`firstFree
      ensures old(firstFree) != NO_POS ==>
                pos == old(firstFree) < |cells| && cells == old(cells) && firstFree == old(cells[firstFree].slot.pos)
      ensures old(firstFree) == NO_POS ==>
                pos == |old(cells)| && |cells| == pos + 1 && cells[..pos] == old(cells) && firstFree == NO_POS
    {
      if firstFree != NO_POS {
        pos := firstFree;
        firstFree := cells[pos].slot.pos;
      } else {
        cells := cells + [Cell(0, Obj(None))];
        pos := |cells| - 1;
      }
    }

    method Alloc(obj: Option<T>) returns (t: Token)
      requires Valid() && |cells| < NO_POS
      modifies this
      ensures Valid() && t !in old(contents) && contents == old(contents)[t := obj]
      ensures t.id == lastId == old(State().NextId())
      ensures count == old(count) + 1 && |cells| == Max(|old(cells)|, count)
      ensures t.pos == if old(firstFree) != NO_POS then old(firstFree) else |old(cells)|
    {
      ghost var c := State();
      AllocRefines(c, obj);
      ShowsLive(c, contents);
      var id := AllocId();
      var pos := AllocPos();
      cells := cells[pos := Cell(id, Obj(obj))];
      count := count + 1;
      t := Token(id, pos);
      contents := contents[t := obj];
      assert State() == c.Alloc(obj).0;
      ShowsLive(c.Alloc(obj).0, contents);
    }

    method Update(t: Token, obj: Option<T>) returns (ok: bool)
      requires Valid()
      modifies this`cells, this`contents
      ensures Valid() && ok == (t in old(contents))
      ensures contents == (if ok then old(contents)[t := obj] else old(contents))
    {
      UpdateRefines(State(), t, obj);
      ShowsLive(State(), contents);
      if t.IsNull() || t.pos >= |cells| {
        return false;
      }
      if cells[t.pos].id == t.id {
        cells := cells[t.pos := Cell(t.id, Obj(obj))];
        contents := contents[t := obj];
        ShowsLive(State(), contents);
        return true;
      }
      return false;
    }

    method Free(t: Token) returns (p: Option<T>)
      requires Valid()
      modifies this
      ensures Valid() && contents == old(contents) - {t}
      ensures p == if t in old(contents) then old(contents)[t] else None
      ensures lastId == old(lastId) && |cells| == |old(cells)|
      ensures t !in old(contents) ==> State() == old(State())
      ensures t in old(contents) ==> firstFree == t.pos
    {
      FreeRefines(State(), t);
      ShowsLive(State(), contents);
      if t.IsNull() || t.pos >= |cells| {
        return None;
      }
      if cells[t.pos].id == t.id {
        p := cells[t.pos].slot.ptr;
        cells := cells[t.pos := Cell(0, NextFree(firstFree))];
        firstFree := t.pos;
        count := count - 1;
        contents := contents - {t};
        ShowsLive(old(State().Free(t)).0, contents);
        assert State() == old(State().Free(t)).0;
      } else {
        p := None;
      }
    }

    method At(t: Token) returns (p: Option<T>)
      requires Valid()
      ensures p == if t in contents then contents[t] else None
    {
      if t.IsNull() || t.pos >= |cells| {
        return None;
      }
      if cells[t.pos].id == t.id {
        return cells[t.pos].slot.ptr;
      }
      return None;
    }

    method Size() returns (n: nat)
      requires Valid()
      ensures n == |contents|
    {
      CountIsLive(State());
      ShowsLive(State(), contents);
      n := count;
    }
  }
}
