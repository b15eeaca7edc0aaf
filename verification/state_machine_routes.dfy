// Where one event takes a machine: the answer of the event's own handler, else that of the default handler, else the
// first route that accepts the event.
module StateMachineRoutes {
  import opened Wrappers
  import opened StateMachineModel

  // A state that can be entered: a state of the machine, or the terminal state.
  predicate Listed(m: Machine, id: StateId) {
    id == 0 || (id != -1 && exists n :: 0 <= n < |m.states| && m.states[n].id == id)
  }

  predicate Accepts(r: Route, env: Env, e: Event) {
    match r.guard
    case None => r.eventId == 0 || r.eventId == e.id
    case Some(g) => (r.eventId == 0 || r.eventId == e.id) && env.guard(g, e)
  }

  // The route is the first to accept the event.
  predicate IsFirst(routes: seq<Route>, k: nat, env: Env, e: Event) {
    k < |routes| && Accepts(routes[k], env, e) && forall j :: 0 <= j < k ==> !Accepts(routes[j], env, e)
  }

  // The handler asked is the event's own, or the default one if the event has none; it names a state or none.
  predicate Says(d: StateDef, env: Env, e: Event, id: StateId) {
    if e.id in d.events then env.handler(d.events[e.id], e) == id
    else if d.defaultEvent.Some? then env.handler(d.defaultEvent.value, e) == id
    else id == -1
  }

  // It is the machine's own turn: its state has no sub-machine, or that has just ended on this event.
  predicate OwnTurn(m: Machine, i: Inst, env: Env, e: Event, path: seq<StateId>) {
    i.running && i.curr.Some? &&
    var d := Def(m, i.curr.value);
    d.sub == None ||
    Run(d.sub.value, SubInst(i, i.curr.value), env, e, path + [i.curr.value]).inst.curr == Some(0)
  }

  // What a sub-machine has done before its machine's own turn, and that it has been stopped.
  function Before(m: Machine, i: Inst, env: Env, e: Event, path: seq<StateId>): seq<Act>
    requires i.curr.Some?
  {
    var id := i.curr.value;
    var d := Def(m, id);
    if d.sub == None then []
    else
      var o := Run(d.sub.value, SubInst(i, id), env, e, path + [id]);
      o.trace + Stop(o.inst, path + [id]).trace
  }

  lemma {:induction false} ListedIff(states: seq<StateDef>, id: StateId)
    ensures Find(states, id).Some? <==> id != -1 && exists n :: 0 <= n < |states| && states[n].id == id
  {
    if id != -1 && states != [] {
      ListedIff(states[1..], id);
      if n :| 0 <= n < |states| && states[n].id == id {
        if n > 0 { assert states[1..][n - 1].id == id; }
      }
    }
  }

  lemma KnownIff(m: Machine, id: StateId)
    ensures Known(m, id) <==> Listed(m, id)
  {
    ListedIff(m.states, id);
  }

  lemma FirstIs(routes: seq<Route>, k: nat, env: Env, e: Event)
    requires IsFirst(routes, k, env, e)
    ensures FirstRoute(routes, env, e) == k
  {
    var f := FirstRoute(routes, env, e);
    assert Matches(routes[k], env, e);
    if f < k { assert Accepts(routes[f], env, e); }
  }

  // The machine on its own turn.
  function Ready(m: Machine, i: Inst, env: Env, e: Event, path: seq<StateId>): Inst
    requires i.curr.Some?
  {
    var id := i.curr.value;
    var d := Def(m, id);
    if d.sub == None then i
    else i.(subs := i.subs[id := Stop(Run(d.sub.value, SubInst(i, id), env, e, path + [id]).inst, path + [id]).inst])
  }

  lemma OwnTurnLeaves(m: Machine, i: Inst, env: Env, e: Event, path: seq<StateId>)
    requires OwnTurn(m, i, env, e, path)
    ensures Run(m, i, env, e, path) == Leave(m, Ready(m, i, env, e, path), env, e, path, Before(m, i, env, e, path))
  {
  }

  /** No handler names a state: the machine goes where the first route that accepts the event leads, with that
      route's action between the exit and the entry, and says so. */
  lemma TakesRoute(m: Machine, i: Inst, env: Env, e: Event, path: seq<StateId>, k: nat)
    requires OwnTurn(m, i, env, e, path)
    requires var d := Def(m, i.curr.value);
      Says(d, env, e, -1) && IsFirst(d.routes, k, env, e) && Listed(m, d.routes[k].next)
    ensures
      var o, from, to := Run(m, i, env, e, path), i.curr.value, Def(m, i.curr.value).routes[k].next;
      && o.ret && o.inst.curr == Some(to) && o.inst.last == Some(from)
      && Before(m, i, env, e, path)
         + [Exit(path, from, e), RouteAct(path, from, k, e), Enter(path, to, e), Changed(path, from, to, e)] <= o.trace
  {
    var d := Def(m, i.curr.value);
    FirstIs(d.routes, k, env, e);
    KnownIff(m, d.routes[k].next);
    OwnTurnLeaves(m, i, env, e, path);
  }

  /** The handler names a state: the machine goes there, whatever its routes are. */
  lemma TakesAnswer(m: Machine, i: Inst, env: Env, e: Event, path: seq<StateId>, to: StateId)
    requires OwnTurn(m, i, env, e, path)
    requires Says(Def(m, i.curr.value), env, e, to) && to != -1 && Listed(m, to)
    ensures
      var o, from := Run(m, i, env, e, path), i.curr.value;
      && o.ret && o.inst.curr == Some(to) && o.inst.last == Some(from)
      && Before(m, i, env, e, path) + [Exit(path, from, e), Enter(path, to, e), Changed(path, from, to, e)] <= o.trace
  {
    KnownIff(m, to);
    OwnTurnLeaves(m, i, env, e, path);
    assert [Exit(path, i.curr.value, e)] + [] + [Enter(path, to, e), Changed(path, i.curr.value, to, e)]
        == [Exit(path, i.curr.value, e), Enter(path, to, e), Changed(path, i.curr.value, to, e)];
  }

  /** Otherwise it stays where it is and says so: no handler names a state and no route accepts the event, or what
      is named does not exist. */
  lemma StaysPut(m: Machine, i: Inst, env: Env, e: Event, path: seq<StateId>)
    requires OwnTurn(m, i, env, e, path)
    requires forall to :: Says(Def(m, i.curr.value), env, e, to) && to != -1 ==> !Listed(m, to)
    requires var d := Def(m, i.curr.value);
      Says(d, env, e, -1) ==> forall k: nat :: IsFirst(d.routes, k, env, e) ==> !Listed(m, d.routes[k].next)
    ensures
      var o := Run(m, i, env, e, path);
      !o.ret && o.inst.curr == i.curr && o.inst.last == i.last && o.trace == Before(m, i, env, e, path)
  {
    var d := Def(m, i.curr.value);
    var k := FirstRoute(d.routes, env, e);
    if Says(d, env, e, -1) && k < |d.routes| {
      forall j | 0 <= j < k ensures !Accepts(d.routes[j], env, e) { assert !Matches(d.routes[j], env, e); }
      assert Accepts(d.routes[k], env, e);
      assert IsFirst(d.routes, k, env, e);
      KnownIff(m, d.routes[k].next);
    }
    var a := Answer(d, env, e);
    assert Says(d, env, e, a);
    KnownIff(m, a);
    StaysIn(m, i, env, e, path);
  }

  lemma StaysIn(m: Machine, i: Inst, env: Env, e: Event, path: seq<StateId>)
    requires OwnTurn(m, i, env, e, path)
    requires var mv := Decide(Def(m, i.curr.value), env, e); mv == Stay || !Known(m, mv.next)
    ensures
      var o := Run(m, i, env, e, path);
      !o.ret && o.inst.curr == i.curr && o.inst.last == i.last && o.trace == Before(m, i, env, e, path)
  {
    OwnTurnLeaves(m, i, env, e, path);
  }

  /** A sub-machine that goes on keeps the event for itself: its machine stays, and answers as it does. */
  lemma SubKeepsEvent(m: Machine, i: Inst, env: Env, e: Event, path: seq<StateId>)
    requires i.running && i.curr.Some? && !OwnTurn(m, i, env, e, path)
    ensures
      var o, id := Run(m, i, env, e, path), i.curr.value;
      var s := Run(Def(m, id).sub.value, SubInst(i, id), env, e, path + [id]);
      o.ret == s.ret && o.trace == s.trace && o.inst == i.(subs := i.subs[id := s.inst])
  {
  }

  /** start() enters the initial state, exactly if the machine does not run yet and has one. */
  lemma Starts(m: Machine, i: Inst, path: seq<StateId>)
    ensures
      var o := Start(m, i, path);
      && (o.ret <==> !i.running && m.init != -1 && exists n :: 0 <= n < |m.states| && m.states[n].id == m.init)
      && (o.ret ==> o.inst.running && o.inst.curr == Some(m.init) && [Enter(path, m.init, NO_EVENT)] <= o.trace)
      && (!o.ret ==> o.inst == i && o.trace == [])
  {
    ListedIff(m.states, m.init);
  }

  /** stop() leaves the current state of a machine that runs. */
  lemma Stops(i: Inst, path: seq<StateId>)
    requires i.running && i.curr.Some?
    ensures
      var o := Stop(i, path);
      !o.inst.running && o.inst.curr == None && o.inst.last == i.last && o.trace == [Exit(path, i.curr.value, NO_EVENT)]
  {
  }
}
