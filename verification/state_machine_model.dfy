// The hierarchical state machine on values: what start, stop and run do to a tree of machines, and the
// trace of actions they invoke. Callbacks do not call the machine.
module StateMachineModel {
  import opened Wrappers

  type StateId = int

  const NULL_STATE: StateId := -1
  const TERM_STATE: StateId := 0
  const ANY_EVENT: int := 0

  // `extra` stands for the rest of what a guard or a handler may look at.
  datatype Event = Event(id: int, extra: nat)

  const NO_EVENT := Event(0, 0)

  // Guards and handlers are named; what they answer is the environment's business.
  datatype Env = Env(guard: (nat, Event) -> bool, handler: (nat, Event) -> StateId)

  datatype Route = Route(eventId: int, next: StateId, guard: Option<nat>)

  datatype StateDef = StateDef(
    id: StateId,
    sub: Option<Machine>,
    routes: seq<Route>,
    events: map<int, nat>,
    defaultEvent: Option<nat>)

  // How a machine was built: its states, and which one is first.
  datatype Machine = Machine(init: StateId, states: seq<StateDef>)

  // What changes while it runs. Sub-machines are known by the state they belong to.
  datatype Inst = Inst(running: bool, curr: Option<StateId>, last: Option<StateId>, subs: map<StateId, Inst>)

  const FRESH := Inst(false, None, None, map[])

  // The state that ends a machine when the user has not defined one.
  const TERM_DEF := StateDef(TERM_STATE, None, [], map[], None)

  // The actions, with the ids of the enclosing states.
  datatype Act =
    | Enter(path: seq<StateId>, id: StateId, ev: Event)
    | Exit(path: seq<StateId>, id: StateId, ev: Event)
    | RouteAct(path: seq<StateId>, from: StateId, index: nat, ev: Event)
    | Changed(path: seq<StateId>, from: StateId, to: StateId, ev: Event)

  datatype Outcome = Outcome(inst: Inst, trace: seq<Act>, ret: bool)

  function Find(states: seq<StateDef>, id: StateId): (r: Option<StateDef>)
    ensures r.Some? ==> r.value in states && r.value.id == id
    ensures r == None ==> id == NULL_STATE || forall d :: d in states ==> d.id != id
  {
    if id == NULL_STATE || states == [] then None
    else if states[0].id == id then Some(states[0])
    else Find(states[1..], id)
  }

  // The definition of the current state: the user's, or the built-in terminal state.
  function Def(m: Machine, id: StateId): StateDef {
    var d := Find(m.states, id);
    if d.Some? then d.value else TERM_DEF
  }

  function SubInst(i: Inst, id: StateId): Inst {
    if id in i.subs then i.subs[id] else FRESH
  }

  predicate IsTerminated(i: Inst) {
    i.curr == Some(TERM_STATE)
  }

  function Start(m: Machine, i: Inst, path: seq<StateId>): Outcome {
    var d := Find(m.states, m.init);
    if i.running || d == None then Outcome(i, [], false)
    else
      var id := m.init;
      var i1 := i.(running := true, curr := Some(id));
      var enter := [Enter(path, id, NO_EVENT)];
      if d.value.sub == None then Outcome(i1, enter, true)
      else
        var o := Start(d.value.sub.value, SubInst(i, id), path + [id]);
        Outcome(i1.(subs := i.subs[id := o.inst]), enter + o.trace, true)
  }

  // stop() leaves the sub-machine alone.
  function Stop(i: Inst, path: seq<StateId>): Outcome {
    if !i.running || i.curr == None then Outcome(i, [], true)
    else Outcome(i.(running := false, curr := None), [Exit(path, i.curr.value, NO_EVENT)], true)
  }

  // Where a state goes on an event: a handler's answer, or the first route that matches.
  datatype Move = Stay | Go(next: StateId, route: Option<nat>)

  predicate Matches(r: Route, env: Env, e: Event) {
    && (r.eventId == ANY_EVENT || r.eventId == e.id)
    && (r.guard.Some? ==> env.guard(r.guard.value, e))
  }

  function FirstRoute(routes: seq<Route>, env: Env, e: Event): (k: nat)
    ensures k <= |routes|
    ensures k < |routes| ==> Matches(routes[k], env, e)
    ensures forall j :: 0 <= j < k ==> !Matches(routes[j], env, e)
  {
    if routes == [] then 0 else if Matches(routes[0], env, e) then 0 else 1 + FirstRoute(routes[1..], env, e)
  }

  // What the handler of an event says; NULL_STATE when there is none.
  function Answer(d: StateDef, env: Env, e: Event): StateId {
    if e.id in d.events then env.handler(d.events[e.id], e)
    else if d.defaultEvent.Some? then env.handler(d.defaultEvent.value, e)
    else NULL_STATE
  }

  function Decide(d: StateDef, env: Env, e: Event): Move {
    var answer := Answer(d, env, e);
    if answer != NULL_STATE then Go(answer, None)
    else
      var k := FirstRoute(d.routes, env, e);
      if k < |d.routes| then Go(d.routes[k].next, Some(k)) else Stay
  }

  predicate Known(m: Machine, id: StateId) {
    Find(m.states, id).Some? || id == TERM_STATE
  }

  // The exit, route, enter and change actions of one transition.
  function MoveTrace(path: seq<StateId>, from: StateId, mv: Move, e: Event): seq<Act>
    requires mv.Go?
  {
    [Exit(path, from, e)]
    + (if mv.route.Some? then [RouteAct(path, from, mv.route.value, e)] else [])
    + [Enter(path, mv.next, e), Changed(path, from, mv.next, e)]
  }

  function Run(m: Machine, i: Inst, env: Env, e: Event, path: seq<StateId>): Outcome
    decreases m, 1
  {
    if !i.running || i.curr == None then Outcome(i, [], false)
    else
      var id := i.curr.value;
      var d := Def(m, id);
      if d.sub == None then Leave(m, i, env, e, path, [])
      else
        assert d.sub.value < m;
        var o := Run(d.sub.value, SubInst(i, id), env, e, path + [id]);
        if !IsTerminated(o.inst) then Outcome(i.(subs := i.subs[id := o.inst]), o.trace, o.ret)
        else
          var s := Stop(o.inst, path + [id]);
          Leave(m, i.(subs := i.subs[id := s.inst]), env, e, path, o.trace + s.trace)
  }

  // The machine's own part of run(), after its sub-machine let it have the event.
  function Leave(m: Machine, i: Inst, env: Env, e: Event, path: seq<StateId>, before: seq<Act>): Outcome
    requires i.curr.Some?
    decreases m, 0
  {
    var id := i.curr.value;
    var mv := Decide(Def(m, id), env, e);
    if mv == Stay || !Known(m, mv.next) then Outcome(i, before, false)
    else
      var i1 := i.(curr := Some(mv.next), last := Some(id));
      var trace := before + MoveTrace(path, id, mv, e);
      var sub := Def(m, mv.next).sub;
      if sub == None then Outcome(i1, trace, true)
      else
        var o1 := Start(sub.value, SubInst(i1, mv.next), path + [mv.next]);
        assert sub.value < m;
        var o2 := Run(sub.value, o1.inst, env, e, path + [mv.next]);
        Outcome(i1.(subs := i1.subs[mv.next := o2.inst]), trace + o1.trace + o2.trace, true)
  }
}
