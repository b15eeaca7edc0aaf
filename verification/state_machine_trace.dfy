// What a tree of machines does over whole runs: its actions nest like brackets.
module StateMachineTrace {
  import opened Wrappers
  import opened StateMachineModel

  // The states a tree of machines is in, outermost first.
  function Active(m: Machine, i: Inst): seq<StateId>
    decreases m
  {
    if !i.running || i.curr == None then []
    else
      var d := Def(m, i.curr.value);
      [i.curr.value] + (if d.sub.Some? then Active(d.sub.value, SubInst(i, i.curr.value)) else [])
  }

  // An observer of the actions: the states entered and not yet left, and the state each machine left last.
  datatype Spot = Spot(stack: seq<StateId>, left: map<seq<StateId>, StateId>)

  // The observer after one more action; None if the action does not fit.
  function Replay1(s: Spot, a: Act): Option<Spot> {
    match a
    case Enter(path, id, _) =>
      if s.stack == path then Some(s.(stack := path + [id])) else None
    case Exit(path, id, _) =>
      if s.stack == path + [id] then Some(Spot(path, s.left[path := id])) else None
    case RouteAct(path, from, _, _) =>
      if s.stack == path && path in s.left && s.left[path] == from then Some(s) else None
    case Changed(path, from, to, _) =>
      if s.stack == path + [to] && path in s.left && s.left[path] == from then Some(s) else None
  }

  function Replay(s: Spot, trace: seq<Act>): Option<Spot>
    decreases |trace|
  {
    if trace == [] then Some(s)
    else
      var r := Replay1(s, trace[0]);
      if r == None then None else Replay(r.value, trace[1..])
  }

  // The actions fit and lead from one stack to another.
  predicate Leads(s: Spot, trace: seq<Act>, stack: seq<StateId>) {
    Replay(s, trace).Some? && Replay(s, trace).value.stack == stack
  }

  lemma {:induction false} ReplayConcat(s: Spot, a: seq<Act>, b: seq<Act>)
    requires Replay(s, a).Some?
    ensures Replay(s, a + b) == Replay(Replay(s, a).value, b)
    decreases |a|
  {
    if a == [] {
      assert a + b == b;
    } else {
      assert (a + b)[1..] == a[1..] + b;
      ReplayConcat(Replay1(s, a[0]).value, a[1..], b);
    }
  }

  lemma ReplayOne(s: Spot, a: Act)
    ensures Replay(s, [a]) == Replay1(s, a)
  {
    var r := Replay1(s, a);
    if r.Some? {
      assert [a][1..] == [];
      assert Replay(r.value, []) == Some(r.value);
    }
  }

  // Terminal states have no sub-machine, at any depth.
  ghost predicate EndsPlain(m: Machine)
    decreases m
  {
    && Def(m, TERM_STATE).sub == None
    && forall id :: Def(m, id).sub.Some? ==> EndsPlain(Def(m, id).sub.value)
  }

  // Only the current state's sub-machine runs, at any depth.
  ghost predicate Tidy(m: Machine, i: Inst)
    decreases m
  {
    && (i.running <==> i.curr.Some?)
    && forall id :: Def(m, id).sub.Some? ==> TidyAt(m, i, id)
  }

  ghost predicate TidyAt(m: Machine, i: Inst, id: StateId)
    requires Def(m, id).sub.Some?
    decreases m, 0
  {
    && Tidy(Def(m, id).sub.value, SubInst(i, id))
    && (i.curr != Some(id) ==> !SubInst(i, id).running)
  }

  lemma {:induction false} FreshIsTidy(m: Machine)
    ensures Tidy(m, FRESH)
    decreases m
  {
    forall id | Def(m, id).sub.Some? ensures TidyAt(m, FRESH, id) {
      FreshIsTidy(Def(m, id).sub.value);
    }
  }

  // Replacing the sub-machine of the current state by a tidy one.
  lemma TidySub(m: Machine, i: Inst, id: StateId, s: Inst)
    requires Tidy(m, i) && i.curr == Some(id) && Def(m, id).sub.Some? && Tidy(Def(m, id).sub.value, s)
    ensures Tidy(m, i.(subs := i.subs[id := s]))
  {
    var i1 := i.(subs := i.subs[id := s]);
    forall k | Def(m, k).sub.Some? ensures TidyAt(m, i1, k) {
      assert TidyAt(m, i, k);
    }
  }

  // Moving to another state while no sub-machine runs.
  lemma TidyMove(m: Machine, i: Inst, j: Inst)
    requires Tidy(m, i) && j.subs == i.subs && (j.running <==> j.curr.Some?)
    requires i.curr.Some? && Def(m, i.curr.value).sub.Some? ==> !SubInst(i, i.curr.value).running
    ensures Tidy(m, j)
    ensures forall k :: Def(m, k).sub.Some? ==> !SubInst(j, k).running
  {
    forall k | Def(m, k).sub.Some? ensures TidyAt(m, j, k) && !SubInst(j, k).running {
      assert TidyAt(m, i, k);
    }
  }

  // Starting a machine enters exactly the states it ends up in, outermost first.
  lemma {:induction false} StartNests(m: Machine, i: Inst, s: Spot)
    requires EndsPlain(m) && Tidy(m, i) && !i.running
    ensures Tidy(m, Start(m, i, s.stack).inst)
    ensures Leads(s, Start(m, i, s.stack).trace, s.stack + Active(m, Start(m, i, s.stack).inst))
    decreases m
  {
    var path, id, d := s.stack, m.init, Find(m.states, m.init);
    if d.Some? {
      var enter := Enter(path, id, NO_EVENT);
      var i1 := i.(running := true, curr := Some(id));
      ReplayOne(s, enter);
      TidyMove(m, i, i1);
      assert Def(m, id) == d.value;
      if d.value.sub.Some? {
        var sub, s1 := d.value.sub.value, s.(stack := path + [id]);
        assert TidyAt(m, i, id);
        StartNests(sub, SubInst(i, id), s1);
        var o := Start(sub, SubInst(i, id), path + [id]);
        ReplayConcat(s, [enter], o.trace);
        TidySub(m, i1, id, o.inst);
        Assoc(path, [id], Active(sub, o.inst));
      }
    } else {
      assert path + [] == path;
    }
  }

  // A machine that has reached its terminal state is stopped by one exit action.
  lemma StopNests(m: Machine, i: Inst, s: Spot, path: seq<StateId>)
    requires EndsPlain(m) && Tidy(m, i) && IsTerminated(i) && s.stack == path + Active(m, i)
    ensures Leads(s, Stop(i, path).trace, path) && Tidy(m, Stop(i, path).inst) && !Stop(i, path).inst.running
  {
    assert Active(m, i) == [TERM_STATE];
    ReplayOne(s, Exit(path, TERM_STATE, NO_EVENT));
    TidyMove(m, i, Stop(i, path).inst);
  }

  // The actions of one transition fit in one order only.
  lemma MoveNests(s: Spot, path: seq<StateId>, from: StateId, mv: Move, e: Event)
    requires mv.Go? && s.stack == path + [from]
    ensures Leads(s, MoveTrace(path, from, mv, e), path + [mv.next])
  {
    var s1 := Spot(path, s.left[path := from]);
    var exit := [Exit(path, from, e)];
    var route := if mv.route.Some? then [RouteAct(path, from, mv.route.value, e)] else [];
    var rest := [Enter(path, mv.next, e), Changed(path, from, mv.next, e)];
    ReplayOne(s, exit[0]);
    assert Replay(s1, route) == Some(s1) by {
      if mv.route.Some? { ReplayOne(s1, route[0]); }
    }
    ReplayConcat(s, exit, route);
    EnterNests(s1, path, from, mv.next, e);
    ReplayConcat(s, exit + route, rest);
  }

  lemma EnterNests(s: Spot, path: seq<StateId>, from: StateId, to: StateId, e: Event)
    requires s.stack == path && path in s.left && s.left[path] == from
    ensures Leads(s, [Enter(path, to, e), Changed(path, from, to, e)], path + [to])
  {
    var s1 := s.(stack := path + [to]);
    ReplayOne(s, Enter(path, to, e));
    ReplayOne(s1, Changed(path, from, to, e));
    ReplayConcat(s, [Enter(path, to, e)], [Changed(path, from, to, e)]);
    assert [Enter(path, to, e)] + [Changed(path, from, to, e)] == [Enter(path, to, e), Changed(path, from, to, e)];
  }

  // One event given to a machine.
  lemma {:induction false} RunNests(m: Machine, i: Inst, env: Env, e: Event, path: seq<StateId>, s: Spot)
    requires EndsPlain(m) && Tidy(m, i) && s.stack == path + Active(m, i)
    ensures Tidy(m, Run(m, i, env, e, path).inst)
    ensures Leads(s, Run(m, i, env, e, path).trace, path + Active(m, Run(m, i, env, e, path).inst))
    decreases m, 1
  {
    if i.running {
      var id := i.curr.value;
      var d := Def(m, id);
      if d.sub == None {
        LeaveNests(m, i, env, e, path, [], s);
      } else {
        var sub := d.sub.value;
        assert TidyAt(m, i, id);
        Assoc(path, [id], Active(sub, SubInst(i, id)));
        RunNests(sub, SubInst(i, id), env, e, path + [id], s);
        var o := Run(sub, SubInst(i, id), env, e, path + [id]);
        Assoc(path, [id], Active(sub, o.inst));
        if !IsTerminated(o.inst) {
          TidySub(m, i, id, o.inst);
        } else {
          AfterSub(m, i, env, e, path, o, s);
        }
      }
    }
  }

  // The sub-machine has just terminated.
  lemma {:induction false} AfterSub(m: Machine, i: Inst, env: Env, e: Event, path: seq<StateId>, o: Outcome, s: Spot)
    requires EndsPlain(m) && Tidy(m, i) && i.running && Def(m, i.curr.value).sub.Some?
    requires var sub := Def(m, i.curr.value).sub.value;
      && Tidy(sub, o.inst) && IsTerminated(o.inst)
      && Leads(s, o.trace, path + [i.curr.value] + Active(sub, o.inst))
    ensures
      var id := i.curr.value;
      var st := Stop(o.inst, path + [id]);
      var o2 := Leave(m, i.(subs := i.subs[id := st.inst]), env, e, path, o.trace + st.trace);
      Tidy(m, o2.inst) && Leads(s, o2.trace, path + Active(m, o2.inst))
    decreases m, 0, 2
  {
    var id := i.curr.value;
    var sub := Def(m, id).sub.value;
    var st := Stop(o.inst, path + [id]);
    var i1 := i.(subs := i.subs[id := st.inst]);
    StopNests(sub, o.inst, Replay(s, o.trace).value, path + [id]);
    ReplayConcat(s, o.trace, st.trace);
    TidySub(m, i, id, st.inst);
    LeaveNests(m, i1, env, e, path, o.trace + st.trace, s);
  }

  lemma {:induction false} LeaveNests(m: Machine, i: Inst, env: Env, e: Event, path: seq<StateId>, before: seq<Act>, s: Spot)
    requires EndsPlain(m) && Tidy(m, i) && i.running
    requires Def(m, i.curr.value).sub.Some? ==> !SubInst(i, i.curr.value).running
    requires Leads(s, before, path + [i.curr.value])
    ensures Tidy(m, Leave(m, i, env, e, path, before).inst)
    ensures Leads(s, Leave(m, i, env, e, path, before).trace, path + Active(m, Leave(m, i, env, e, path, before).inst))
    decreases m, 0, 1
  {
    var id := i.curr.value;
    var mv := Decide(Def(m, id), env, e);
    if mv == Stay || !Known(m, mv.next) {
      assert Active(m, i) == [id];
    } else {
      var i1 := i.(curr := Some(mv.next), last := Some(id));
      var s1 := Replay(s, before).value;
      MoveNests(s1, path, id, mv, e);
      ReplayConcat(s, before, MoveTrace(path, id, mv, e));
      TidyMove(m, i, i1);
      var sub := Def(m, mv.next).sub;
      if sub.Some? {
        EnterSub(m, i1, env, e, path, before + MoveTrace(path, id, mv, e), s);
      }
    }
  }

  // The sub-machine of a state just entered is started and given the same event.
  lemma {:induction false} EnterSub(m: Machine, i: Inst, env: Env, e: Event, path: seq<StateId>, before: seq<Act>, s: Spot)
    requires EndsPlain(m) && Tidy(m, i) && i.running && Def(m, i.curr.value).sub.Some?
    requires !SubInst(i, i.curr.value).running && Leads(s, before, path + [i.curr.value])
    ensures
      var id := i.curr.value;
      var sub := Def(m, id).sub.value;
      var o1 := Start(sub, SubInst(i, id), path + [id]);
      var o2 := Run(sub, o1.inst, env, e, path + [id]);
      var i2 := i.(subs := i.subs[id := o2.inst]);
      Tidy(m, i2) && Leads(s, before + o1.trace + o2.trace, path + Active(m, i2))
    decreases m, 0, 0
  {
    var id := i.curr.value;
    var sub := Def(m, id).sub.value;
    var s1 := Replay(s, before).value;
    assert TidyAt(m, i, id);
    StartNests(sub, SubInst(i, id), s1);
    var o1 := Start(sub, SubInst(i, id), path + [id]);
    ReplayConcat(s, before, o1.trace);
    RunNests(sub, o1.inst, env, e, path + [id], Replay(s1, o1.trace).value);
    var o2 := Run(sub, o1.inst, env, e, path + [id]);
    ReplayConcat(s, before + o1.trace, o2.trace);
    TidySub(m, i, id, o2.inst);
    Assoc(path, [id], Active(sub, o2.inst));
  }

  // A whole run: the root is started once and then given events, each with its own environment.
  datatype Step = Step(env: Env, ev: Event)

  function RunAll(m: Machine, i: Inst, steps: seq<Step>): Outcome
    decreases |steps|
  {
    if steps == [] then Outcome(i, [], true)
    else
      var o := Run(m, i, steps[0].env, steps[0].ev, []);
      var rest := RunAll(m, o.inst, steps[1..]);
      Outcome(rest.inst, o.trace + rest.trace, rest.ret)
  }

  lemma {:induction false} RunAllNests(m: Machine, i: Inst, steps: seq<Step>, s: Spot)
    requires EndsPlain(m) && Tidy(m, i) && s.stack == Active(m, i)
    ensures Tidy(m, RunAll(m, i, steps).inst)
    ensures Leads(s, RunAll(m, i, steps).trace, Active(m, RunAll(m, i, steps).inst))
    decreases |steps|
  {
    if steps != [] {
      var o := Run(m, i, steps[0].env, steps[0].ev, []);
      RunOneNests(m, i, steps[0], s);
      var s1 := Replay(s, o.trace).value;
      RunAllNests(m, o.inst, steps[1..], s1);
      ReplayConcat(s, o.trace, RunAll(m, o.inst, steps[1..]).trace);
    }
  }

  lemma RunOneNests(m: Machine, i: Inst, step: Step, s: Spot)
    requires EndsPlain(m) && Tidy(m, i) && s.stack == Active(m, i)
    ensures Tidy(m, Run(m, i, step.env, step.ev, []).inst)
    ensures Leads(s, Run(m, i, step.env, step.ev, []).trace, Active(m, Run(m, i, step.env, step.ev, []).inst))
  {
    assert [] + Active(m, i) == Active(m, i);
    RunNests(m, i, step.env, step.ev, [], s);
    var j := Run(m, i, step.env, step.ev, []).inst;
    assert [] + Active(m, j) == Active(m, j);
  }

  // Over every run from the start, enter and exit actions nest across the levels, every exit names the state
  // entered last, a state is left only when nothing is active below it, and what has been entered and not left
  // is exactly what is active.
  lemma EveryRunNests(m: Machine, steps: seq<Step>)
    requires EndsPlain(m)
    ensures
      var o0 := Start(m, FRESH, []);
      var o := RunAll(m, o0.inst, steps);
      Tidy(m, o.inst) && Leads(Spot([], map[]), o0.trace + o.trace, Active(m, o.inst))
  {
    var s := Spot([], map[]);
    FreshIsTidy(m);
    StartNests(m, FRESH, s);
    var o0 := Start(m, FRESH, []);
    assert [] + Active(m, o0.inst) == Active(m, o0.inst);
    var s1 := Replay(s, o0.trace).value;
    RunAllNests(m, o0.inst, steps, s1);
    ReplayConcat(s, o0.trace, RunAll(m, o0.inst, steps).trace);
  }

  // stop() on a machine keeps the nesting exactly when its sub-machine is not active: it never stops it.
  lemma StopNestsIff(m: Machine, i: Inst, s: Spot)
    requires i.running && i.curr.Some? && s.stack == Active(m, i)
    ensures Replay(s, Stop(i, []).trace).Some? <==> |Active(m, i)| == 1
  {
    ReplayOne(s, Exit([], i.curr.value, NO_EVENT));
    assert [] + [i.curr.value] == [i.curr.value];
  }
}
