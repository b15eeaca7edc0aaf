// When a tree of machines stops listening: a machine that waits for a sub-machine which does not run ignores every
// event, and so do all machines above it. What an event does is decided by the states that are active.
module StateMachineDeaf {
  import opened Wrappers
  import opened StateMachineModel
  import opened StateMachineTrace

  /** Along the active states, some machine waits for a sub-machine that does not run. */
  predicate Deaf(m: Machine, i: Inst)
    decreases m
  {
    i.running && i.curr.Some? &&
    var d := Def(m, i.curr.value);
    var si := SubInst(i, i.curr.value);
    d.sub.Some? && (!si.running || Deaf(d.sub.value, si))
  }

  // The state has no way out on an event: no answer and no route, or one that leads nowhere.
  predicate Stuck(m: Machine, id: StateId, env: Env, e: Event) {
    var mv := Decide(Def(m, id), env, e);
    mv == Stay || !Known(m, mv.next)
  }

  // Where a machine is after its own part of an event.
  function Landing(m: Machine, id: StateId, env: Env, e: Event): StateId {
    if Stuck(m, id, env, e) then id else Decide(Def(m, id), env, e).next
  }

  // The event brings a machine with these active states to its end.
  predicate Ends(m: Machine, active: seq<StateId>, env: Env, e: Event)
    decreases m
  {
    active != [] &&
    var sub := Def(m, active[0]).sub;
    (sub == None || Ends(sub.value, active[1..], env, e)) && Landing(m, active[0], env, e) == TERM_STATE
  }

  // The event has any effect on a machine with these active states.
  predicate Acts(m: Machine, active: seq<StateId>, env: Env, e: Event)
    decreases m
  {
    active != [] &&
    var sub := Def(m, active[0]).sub;
    if sub == None then !Stuck(m, active[0], env, e)
    else Acts(sub.value, active[1..], env, e) || Ends(sub.value, active[1..], env, e)
  }

  // The states that start() enters.
  function InitPath(m: Machine): seq<StateId>
    decreases m
  {
    var d := Find(m.states, m.init);
    if d == None then [] else [m.init] + (if d.value.sub.Some? then InitPath(d.value.sub.value) else [])
  }

  // A machine without its initial state does not start; start() comes to one.
  predicate InitFails(m: Machine)
    decreases m
  {
    var d := Find(m.states, m.init);
    d == None || (d.value.sub.Some? && InitFails(d.value.sub.value))
  }

  // The event makes a machine with these active states deaf: where the sub-machines have had their say, a state
  // with an ended sub-machine has no way out, or the way leads to a state whose sub-machine does not start, or goes
  // deaf on the same event.
  predicate GoesDeaf(m: Machine, active: seq<StateId>, env: Env, e: Event)
    decreases m
  {
    active != [] &&
    var sub := Def(m, active[0]).sub;
    if sub.Some? && !Ends(sub.value, active[1..], env, e) then GoesDeaf(sub.value, active[1..], env, e)
    else if Stuck(m, active[0], env, e) then sub.Some?
    else
      var to := Def(m, Landing(m, active[0], env, e)).sub;
      to.Some? && (InitFails(to.value) || GoesDeaf(to.value, InitPath(to.value), env, e))
  }

  lemma {:induction false} StartActive(m: Machine, i: Inst, path: seq<StateId>)
    requires EndsPlain(m) && Tidy(m, i) && !i.running
    ensures var j := Start(m, i, path).inst;
      && Tidy(m, j) && Active(m, j) == InitPath(m)
      && (Deaf(m, j) || !j.running <==> InitFails(m))
    decreases m
  {
    StartNests(m, i, Spot(path, map[]));
    var d := Find(m.states, m.init);
    if d.Some? && d.value.sub.Some? {
      assert Def(m, m.init) == d.value;
      assert TidyAt(m, i, m.init);
      StartActive(d.value.sub.value, SubInst(i, m.init), path + [m.init]);
    }
  }

  lemma RunTidy(m: Machine, i: Inst, env: Env, e: Event, path: seq<StateId>)
    requires EndsPlain(m) && Tidy(m, i)
    ensures Tidy(m, Run(m, i, env, e, path).inst)
    ensures Run(m, i, env, e, path).inst.running == i.running
  {
    RunNests(m, i, env, e, path, Spot(path + Active(m, i), map[]));
  }

  // A machine ends on an event exactly when its active states say so.
  lemma {:induction false} EndsIff(m: Machine, i: Inst, env: Env, e: Event, path: seq<StateId>)
    requires EndsPlain(m) && Tidy(m, i)
    ensures IsTerminated(Run(m, i, env, e, path).inst) <==> Ends(m, Active(m, i), env, e)
    decreases m
  {
    if i.running {
      var id := i.curr.value;
      var sub := Def(m, id).sub;
      if sub.Some? {
        assert TidyAt(m, i, id);
        EndsIff(sub.value, SubInst(i, id), env, e, path + [id]);
        assert Active(m, i)[1..] == Active(sub.value, SubInst(i, id));
      }
    }
  }

  /** An event has an effect exactly when the innermost active state has a way out, or has ended its machine. */
  lemma {:induction false} HeardIff(m: Machine, i: Inst, env: Env, e: Event, path: seq<StateId>)
    requires EndsPlain(m) && Tidy(m, i)
    ensures Run(m, i, env, e, path).trace != [] <==> Acts(m, Active(m, i), env, e)
    decreases m
  {
    if i.running {
      var id := i.curr.value;
      var sub := Def(m, id).sub;
      if sub.Some? {
        assert TidyAt(m, i, id);
        HeardIff(sub.value, SubInst(i, id), env, e, path + [id]);
        EndsIff(sub.value, SubInst(i, id), env, e, path + [id]);
        RunTidy(sub.value, SubInst(i, id), env, e, path + [id]);
        assert Active(m, i)[1..] == Active(sub.value, SubInst(i, id));
      }
    }
  }

  lemma StillRun(m: Machine, i: Inst, env: Env, e: Event, path: seq<StateId>)
    requires Tidy(m, i) && !i.running
    ensures Run(m, i, env, e, path) == Outcome(i, [], false) && !IsTerminated(i) && Active(m, i) == []
  {
  }

  lemma {:induction false} DeafRun(m: Machine, i: Inst, env: Env, e: Event, path: seq<StateId>)
    requires EndsPlain(m) && Tidy(m, i) && Deaf(m, i)
    ensures
      var o := Run(m, i, env, e, path);
      o.trace == [] && !o.ret && o.inst.curr == i.curr && Tidy(m, o.inst) && Deaf(m, o.inst) && !IsTerminated(o.inst)
      && Active(m, o.inst) == Active(m, i)
    decreases m
  {
    var id := i.curr.value;
    var sub, si := Def(m, id).sub.value, SubInst(i, id);
    assert TidyAt(m, i, id);
    RunTidy(m, i, env, e, path);
    if si.running {
      DeafRun(sub, si, env, e, path + [id]);
    } else {
      StillRun(sub, si, env, e, path + [id]);
    }
  }

  /** A deaf machine ignores every later event, and stays in the same states. */
  lemma {:induction false} DeafForever(m: Machine, i: Inst, steps: seq<Step>)
    requires EndsPlain(m) && Tidy(m, i) && Deaf(m, i)
    ensures RunAll(m, i, steps).trace == []
    ensures Active(m, RunAll(m, i, steps).inst) == Active(m, i) && Deaf(m, RunAll(m, i, steps).inst)
    decreases |steps|
  {
    if steps != [] {
      DeafRun(m, i, steps[0].env, steps[0].ev, []);
      DeafForever(m, Run(m, i, steps[0].env, steps[0].ev, []).inst, steps[1..]);
    }
  }

  /** Exactly when one event makes a tree of machines deaf. */
  lemma {:induction false} GoesDeafIff(m: Machine, i: Inst, env: Env, e: Event, path: seq<StateId>)
    requires EndsPlain(m) && Tidy(m, i) && i.running && !Deaf(m, i)
    ensures Deaf(m, Run(m, i, env, e, path).inst) <==> GoesDeaf(m, Active(m, i), env, e)
    decreases m, 1
  {
    var id := i.curr.value;
    var d := Def(m, id);
    if d.sub == None {
      LeaveDeafIff(m, i, env, e, path, []);
    } else {
      var sub, si := d.sub.value, SubInst(i, id);
      assert TidyAt(m, i, id);
      var o := Run(sub, si, env, e, path + [id]);
      EndsIff(sub, si, env, e, path + [id]);
      RunTidy(sub, si, env, e, path + [id]);
      assert Active(m, i)[1..] == Active(sub, si);
      if IsTerminated(o.inst) {
        var st := Stop(o.inst, path + [id]);
        TidyMove(sub, o.inst, st.inst);
        TidySub(m, i, id, st.inst);
        LeaveDeafIff(m, i.(subs := i.subs[id := st.inst]), env, e, path, o.trace + st.trace);
      } else {
        GoesDeafIff(sub, si, env, e, path + [id]);
      }
    }
  }

  lemma {:induction false} LeaveDeafIff(m: Machine, i: Inst, env: Env, e: Event, path: seq<StateId>, before: seq<Act>)
    requires EndsPlain(m) && Tidy(m, i) && i.running
    requires Def(m, i.curr.value).sub.Some? ==> !SubInst(i, i.curr.value).running
    ensures
      var id := i.curr.value;
      Deaf(m, Leave(m, i, env, e, path, before).inst) <==>
      if Stuck(m, id, env, e) then Def(m, id).sub.Some?
      else
        var to := Def(m, Landing(m, id, env, e)).sub;
        to.Some? && (InitFails(to.value) || GoesDeaf(to.value, InitPath(to.value), env, e))
    decreases m, 0
  {
    var id := i.curr.value;
    if !Stuck(m, id, env, e) {
      var to := Landing(m, id, env, e);
      if Def(m, to).sub.Some? {
        var i1 := i.(curr := Some(to), last := Some(id));
        TidyMove(m, i, i1);
        assert TidyAt(m, i1, to);
        EnterDeafIff(Def(m, to).sub.value, SubInst(i1, to), env, e, path + [to]);
      }
    }
  }

  // A sub-machine that is started and given the event that led to it.
  lemma {:induction false} EnterDeafIff(m: Machine, i: Inst, env: Env, e: Event, path: seq<StateId>)
    requires EndsPlain(m) && Tidy(m, i) && !i.running
    ensures
      var j := Run(m, Start(m, i, path).inst, env, e, path).inst;
      !j.running || Deaf(m, j) <==> InitFails(m) || GoesDeaf(m, InitPath(m), env, e)
    decreases m, 2
  {
    StartActive(m, i, path);
    var j := Start(m, i, path).inst;
    RunTidy(m, j, env, e, path);
    if Deaf(m, j) {
      DeafRun(m, j, env, e, path);
    } else if j.running {
      GoesDeafIff(m, j, env, e, path);
    }
  }

  // ---- how to build a machine that never goes deaf ----

  // Routes lead to states that exist: addRoute() accepts no others.
  ghost predicate Built(m: Machine)
    decreases m
  {
    forall id ::
      && (forall k :: 0 <= k < |Def(m, id).routes| ==> Known(m, Def(m, id).routes[k].next))
      && (Def(m, id).sub.Some? ==> Built(Def(m, id).sub.value))
  }

  // The state has a route for any event with no guard.
  predicate AnyRoute(d: StateDef) {
    exists k :: 0 <= k < |d.routes| && d.routes[k].eventId == ANY_EVENT && d.routes[k].guard == None
  }

  /** Every state with a sub-machine has an unguarded route for any event, and every sub-machine has its initial
      state, at every depth. */
  ghost predicate WayOut(m: Machine)
    decreases m
  {
    forall id :: Def(m, id).sub.Some? ==> WayOutAt(m, id)
  }

  ghost predicate WayOutAt(m: Machine, id: StateId)
    requires Def(m, id).sub.Some?
    decreases m, 0
  {
    var sub := Def(m, id).sub.value;
    AnyRoute(Def(m, id)) && Find(sub.states, sub.init).Some? && WayOut(sub)
  }

  // The handlers of states with a sub-machine name no state that does not exist.
  ghost predicate Honest(m: Machine, env: Env)
    decreases m
  {
    forall id :: Def(m, id).sub.Some? ==> HonestAt(m, id, env)
  }

  ghost predicate HonestAt(m: Machine, id: StateId, env: Env)
    requires Def(m, id).sub.Some?
    decreases m, 0
  {
    && (forall e :: Answer(Def(m, id), env, e) == NULL_STATE || Known(m, Answer(Def(m, id), env, e)))
    && Honest(Def(m, id).sub.value, env)
  }

  lemma NotStuck(m: Machine, id: StateId, env: Env, e: Event)
    requires Built(m) && WayOut(m) && Honest(m, env) && Def(m, id).sub.Some?
    ensures !Stuck(m, id, env, e)
  {
    var d := Def(m, id);
    assert WayOutAt(m, id) && HonestAt(m, id, env);
    var k :| 0 <= k < |d.routes| && d.routes[k].eventId == ANY_EVENT && d.routes[k].guard == None;
    assert Matches(d.routes[k], env, e);
  }

  lemma {:induction false} InitSucceeds(m: Machine)
    requires WayOut(m) && Find(m.states, m.init).Some?
    ensures !InitFails(m)
    decreases m
  {
    var d := Def(m, m.init);
    if d.sub.Some? {
      assert WayOutAt(m, m.init);
      InitSucceeds(d.sub.value);
    }
  }

  lemma {:induction false} NeverGoesDeaf(m: Machine, active: seq<StateId>, env: Env, e: Event)
    requires Built(m) && WayOut(m) && Honest(m, env)
    ensures !GoesDeaf(m, active, env, e)
    decreases m
  {
    if active != [] {
      var sub := Def(m, active[0]).sub;
      if sub.Some? {
        assert WayOutAt(m, active[0]) && HonestAt(m, active[0], env);
        NotStuck(m, active[0], env, e);
        NeverGoesDeaf(sub.value, active[1..], env, e);
      }
      var to := Def(m, Landing(m, active[0], env, e)).sub;
      if to.Some? {
        assert WayOutAt(m, Landing(m, active[0], env, e)) && HonestAt(m, Landing(m, active[0], env, e), env);
        InitSucceeds(to.value);
        NeverGoesDeaf(to.value, InitPath(to.value), env, e);
      }
    }
  }

  lemma {:induction false} StaysAlert(m: Machine, i: Inst, steps: seq<Step>)
    requires EndsPlain(m) && Built(m) && WayOut(m) && forall k :: 0 <= k < |steps| ==> Honest(m, steps[k].env)
    requires Tidy(m, i) && i.running && !Deaf(m, i)
    ensures !Deaf(m, RunAll(m, i, steps).inst)
    decreases |steps|
  {
    if steps != [] {
      NeverGoesDeaf(m, Active(m, i), steps[0].env, steps[0].ev);
      GoesDeafIff(m, i, steps[0].env, steps[0].ev, []);
      RunTidy(m, i, steps[0].env, steps[0].ev, []);
      StaysAlert(m, Run(m, i, steps[0].env, steps[0].ev, []).inst, steps[1..]);
    }
  }

  /** A machine so built goes deaf in no run. */
  lemma NeverDeaf(m: Machine, steps: seq<Step>)
    requires EndsPlain(m) && Built(m) && WayOut(m) && forall k :: 0 <= k < |steps| ==> Honest(m, steps[k].env)
    ensures !Deaf(m, RunAll(m, Start(m, FRESH, []).inst, steps).inst)
  {
    FreshIsTidy(m);
    StartActive(m, FRESH, []);
    var i := Start(m, FRESH, []).inst;
    if i.running {
      InitSucceeds(m);
      StaysAlert(m, i, steps);
    } else {
      Asleep(m, i, steps);
    }
  }

  lemma {:induction false} Asleep(m: Machine, i: Inst, steps: seq<Step>)
    requires !i.running
    ensures RunAll(m, i, steps).inst == i
    decreases |steps|
  {
    if steps != [] { Asleep(m, i, steps[1..]); }
  }

  // ---- machines that do ----

  // A state with one route, on event 5.
  function Plain(next: StateId): StateDef {
    StateDef(1, None, [Route(5, next, None)], map[], None)
  }

  // A machine of one state, whose sub-machine ends on event 5, and one above it.
  const INNER := Machine(1, [Plain(TERM_STATE)])
  const MIDDLE := Machine(1, [StateDef(1, Some(INNER), [], map[], None)])
  const OUTER := Machine(1, [StateDef(1, Some(MIDDLE), [], map[], None)])
  const QUIET := Env((g, e) => true, (h, e) => NULL_STATE)

  lemma WitnessPlain()
    ensures EndsPlain(INNER) && EndsPlain(MIDDLE) && EndsPlain(OUTER)
  {
    assert forall id :: Def(INNER, id).sub == None;
    assert forall id :: Def(MIDDLE, id).sub.Some? ==> Def(MIDDLE, id).sub.value == INNER;
    assert forall id :: Def(OUTER, id).sub.Some? ==> Def(OUTER, id).sub.value == MIDDLE;
  }

  /** One event makes the whole tree deaf, though only the machine in the middle waits for one that has stopped. */
  lemma CanGoDeaf()
    ensures
      var i := Start(OUTER, FRESH, []).inst;
      && EndsPlain(OUTER) && Active(OUTER, i) == [1, 1, 1] && !Deaf(OUTER, i)
      && Deaf(OUTER, Run(OUTER, i, QUIET, Event(5, 0), []).inst)
  {
    WitnessPlain();
    FreshIsTidy(OUTER);
    StartActive(OUTER, FRESH, []);
    var i := Start(OUTER, FRESH, []).inst;
    assert Def(OUTER, 1).sub == Some(MIDDLE) && Def(MIDDLE, 1).sub == Some(INNER) && Def(INNER, 1) == Plain(TERM_STATE);
    assert InitPath(INNER) == [1] && !InitFails(INNER);
    assert InitPath(MIDDLE) == [1, 1] && !InitFails(MIDDLE);
    assert Ends(INNER, [1], QUIET, Event(5, 0));
    assert GoesDeaf(MIDDLE, [1, 1], QUIET, Event(5, 0));
    assert !Ends(MIDDLE, [1, 1], QUIET, Event(5, 0));
    assert [1, 1, 1][1..] == [1, 1];
    GoesDeafIff(OUTER, i, QUIET, Event(5, 0), []);
  }

  /** stop() right after start() leaves the sub-machine running, and the actions do not nest. */
  lemma CanStopOutOfOrder()
    ensures
      var o := Start(MIDDLE, FRESH, []);
      && EndsPlain(MIDDLE) && Replay(Spot([], map[]), o.trace).Some?
      && Replay(Spot([], map[]), o.trace + Stop(o.inst, []).trace) == None
  {
    WitnessPlain();
    FreshIsTidy(MIDDLE);
    StartActive(MIDDLE, FRESH, []);
    StartNests(MIDDLE, FRESH, Spot([], map[]));
    var o := Start(MIDDLE, FRESH, []);
    assert InitPath(INNER) == [1] && |InitPath(MIDDLE)| == 2;
    assert [] + Active(MIDDLE, o.inst) == Active(MIDDLE, o.inst);
    var s := Replay(Spot([], map[]), o.trace).value;
    StopNestsIff(MIDDLE, o.inst, s);
    ReplayConcat(Spot([], map[]), o.trace, Stop(o.inst, []).trace);
  }
}
