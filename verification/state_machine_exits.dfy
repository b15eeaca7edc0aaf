// When a state is left: a state with a sub-machine is left only right after that sub-machine has been stopped in its
// terminal state, at every depth.
module StateMachineExits {
  import opened Wrappers
  import opened StateMachineModel
  import opened StateMachineTrace

  // The machine that the states of a path lead down to.
  function Below(m: Machine, rel: seq<StateId>): Option<Machine>
    decreases |rel|
  {
    if rel == [] then Some(m)
    else
      var sub := Def(m, rel[0]).sub;
      if sub == None then None else Below(sub.value, rel[1..])
  }

  // The action leaves a state that has a sub-machine; m is the machine at `base`.
  predicate LeavesParent(m: Machine, base: seq<StateId>, a: Act) {
    a.Exit? && base <= a.path &&
    var n := Below(m, a.path[|base|..]);
    n.Some? && Def(n.value, a.id).sub.Some?
  }

  /** Where an action leaves a state with a sub-machine, the one before it stopped that in its terminal state. */
  predicate ExitOk(m: Machine, base: seq<StateId>, t: seq<Act>, k: nat)
    requires k < |t|
  {
    && base <= t[k].path
    && (LeavesParent(m, base, t[k]) ==> k > 0 && t[k - 1] == Exit(t[k].path + [t[k].id], TERM_STATE, NO_EVENT))
  }

  ghost predicate Orderly(m: Machine, base: seq<StateId>, t: seq<Act>) {
    forall k :: 0 <= k < |t| ==> ExitOk(m, base, t, k)
  }

  lemma OrderlyConcat(m: Machine, base: seq<StateId>, a: seq<Act>, b: seq<Act>)
    requires Orderly(m, base, a) && Orderly(m, base, b)
    ensures Orderly(m, base, a + b)
  {
    forall k | 0 <= k < |a + b| ensures ExitOk(m, base, a + b, k) {
      if k < |a| {
        assert ExitOk(m, base, a, k);
      } else {
        assert ExitOk(m, base, b, k - |a|);
      }
    }
  }

  // What is orderly for a sub-machine is orderly for the machine above it.
  lemma Lift(m: Machine, base: seq<StateId>, id: StateId, t: seq<Act>)
    requires Def(m, id).sub.Some? && Orderly(Def(m, id).sub.value, base + [id], t)
    ensures Orderly(m, base, t)
  {
    forall k | 0 <= k < |t| ensures ExitOk(m, base, t, k) {
      assert ExitOk(Def(m, id).sub.value, base + [id], t, k);
      LiftPath(m, base, id, t[k].path);
    }
  }

  lemma LiftPath(m: Machine, base: seq<StateId>, id: StateId, path: seq<StateId>)
    requires Def(m, id).sub.Some? && base + [id] <= path
    ensures base <= path && Below(m, path[|base|..]) == Below(Def(m, id).sub.value, path[|base| + 1..])
  {
    var rel := path[|base|..];
    assert path[|base|] == (base + [id])[|base|];
    assert rel[0] == id && rel[1..] == path[|base| + 1..];
  }

  lemma {:induction false} StartOrderly(m: Machine, i: Inst, base: seq<StateId>)
    ensures Orderly(m, base, Start(m, i, base).trace)
    decreases m
  {
    var d := Find(m.states, m.init);
    if !i.running && d.Some? && d.value.sub.Some? {
      assert Def(m, m.init) == d.value;
      var sub := d.value.sub.value;
      StartOrderly(sub, SubInst(i, m.init), base + [m.init]);
      var t := Start(sub, SubInst(i, m.init), base + [m.init]).trace;
      Lift(m, base, m.init, t);
      OrderlyConcat(m, base, [Enter(base, m.init, NO_EVENT)], t);
    }
  }

  // A sub-machine has ended and been stopped, if there is one.
  predicate SubEnded(m: Machine, base: seq<StateId>, id: StateId, before: seq<Act>) {
    Def(m, id).sub.Some? ==> before != [] && before[|before| - 1] == Exit(base + [id], TERM_STATE, NO_EVENT)
  }

  lemma MoveOrderly(m: Machine, base: seq<StateId>, id: StateId, mv: Move, e: Event, before: seq<Act>)
    requires mv.Go? && Orderly(m, base, before) && SubEnded(m, base, id, before)
    ensures Orderly(m, base, before + MoveTrace(base, id, mv, e))
  {
    var t := before + MoveTrace(base, id, mv, e);
    forall k | 0 <= k < |t| ensures ExitOk(m, base, t, k) {
      if k < |before| {
        assert ExitOk(m, base, before, k);
      } else if k == |before| {
        assert t[k] == Exit(base, id, e) && base[|base|..] == [];
        assert Below(m, []) == Some(m);
      } else {
        assert !t[k].Exit? && t[k].path == base;
      }
    }
  }

  lemma {:induction false} RunOrderly(m: Machine, i: Inst, env: Env, e: Event, base: seq<StateId>)
    requires EndsPlain(m) && Tidy(m, i)
    ensures Orderly(m, base, Run(m, i, env, e, base).trace)
    decreases m, 1
  {
    if i.running {
      var id := i.curr.value;
      var d := Def(m, id);
      if d.sub == None {
        LeaveOrderly(m, i, env, e, base, []);
      } else {
        var sub, si := d.sub.value, SubInst(i, id);
        assert TidyAt(m, i, id);
        RunOrderly(sub, si, env, e, base + [id]);
        var o := Run(sub, si, env, e, base + [id]);
        Lift(m, base, id, o.trace);
        if IsTerminated(o.inst) {
          EndedOrderly(m, i, env, e, base, o);
        }
      }
    }
  }

  // The sub-machine has just ended: it is stopped, and the machine has its own turn.
  lemma {:induction false} EndedOrderly(m: Machine, i: Inst, env: Env, e: Event, base: seq<StateId>, o: Outcome)
    requires EndsPlain(m) && Tidy(m, i) && i.running && Def(m, i.curr.value).sub.Some?
    requires IsTerminated(o.inst) && Orderly(m, base, o.trace)
    requires o == Run(Def(m, i.curr.value).sub.value, SubInst(i, i.curr.value), env, e, base + [i.curr.value])
    ensures
      var id := i.curr.value;
      var s := Stop(o.inst, base + [id]);
      Orderly(m, base, Leave(m, i.(subs := i.subs[id := s.inst]), env, e, base, o.trace + s.trace).trace)
    decreases m, 0, 1
  {
    var id := i.curr.value;
    var sub, si := Def(m, id).sub.value, SubInst(i, id);
    assert TidyAt(m, i, id);
    var path := base + [id];
    RunNests(sub, si, env, e, path, Spot(path + Active(sub, si), map[]));
    var s := Stop(o.inst, path);
    assert s.trace == [Exit(path, TERM_STATE, NO_EVENT)];
    StopOrderly(m, base, id);
    OrderlyConcat(m, base, o.trace, s.trace);
    TidyMove(sub, o.inst, s.inst);
    TidySub(m, i, id, s.inst);
    LeaveOrderly(m, i.(subs := i.subs[id := s.inst]), env, e, base, o.trace + s.trace);
  }

  // Leaving a terminal state leaves no sub-machine behind.
  lemma StopOrderly(m: Machine, base: seq<StateId>, id: StateId)
    requires EndsPlain(m) && Def(m, id).sub.Some?
    ensures Orderly(m, base, [Exit(base + [id], TERM_STATE, NO_EVENT)])
  {
    var t := [Exit(base + [id], TERM_STATE, NO_EVENT)];
    assert (base + [id])[|base|..] == [id] && [id][1..] == [];
    assert Below(m, [id]) == Some(Def(m, id).sub.value);
    assert ExitOk(m, base, t, 0);
  }

  lemma {:induction false} LeaveOrderly(m: Machine, i: Inst, env: Env, e: Event, base: seq<StateId>, before: seq<Act>)
    requires EndsPlain(m) && Tidy(m, i) && i.running
    requires Def(m, i.curr.value).sub.Some? ==> !SubInst(i, i.curr.value).running
    requires Orderly(m, base, before) && SubEnded(m, base, i.curr.value, before)
    ensures Orderly(m, base, Leave(m, i, env, e, base, before).trace)
    decreases m, 0, 0
  {
    var id := i.curr.value;
    var mv := Decide(Def(m, id), env, e);
    if mv.Go? && Known(m, mv.next) {
      var trace := before + MoveTrace(base, id, mv, e);
      MoveOrderly(m, base, id, mv, e, before);
      var i1 := i.(curr := Some(mv.next), last := Some(id));
      TidyMove(m, i, i1);
      if Def(m, mv.next).sub.Some? {
        assert TidyAt(m, i1, mv.next);
        var sub, si, path := Def(m, mv.next).sub.value, SubInst(i1, mv.next), base + [mv.next];
        StartNests(sub, si, Spot(path, map[]));
        var o1 := Start(sub, si, path);
        StartOrderly(sub, si, path);
        RunOrderly(sub, o1.inst, env, e, path);
        var o2 := Run(sub, o1.inst, env, e, path);
        Lift(m, base, mv.next, o1.trace);
        Lift(m, base, mv.next, o2.trace);
        OrderlyConcat(m, base, trace, o1.trace);
        OrderlyConcat(m, base, trace + o1.trace, o2.trace);
      }
    }
  }

  lemma {:induction false} RunAllOrderly(m: Machine, i: Inst, steps: seq<Step>)
    requires EndsPlain(m) && Tidy(m, i)
    ensures Orderly(m, [], RunAll(m, i, steps).trace)
    decreases |steps|
  {
    if steps != [] {
      var o := Run(m, i, steps[0].env, steps[0].ev, []);
      RunOneNests(m, i, steps[0], Spot(Active(m, i), map[]));
      RunOrderly(m, i, steps[0].env, steps[0].ev, []);
      RunAllOrderly(m, o.inst, steps[1..]);
      OrderlyConcat(m, [], o.trace, RunAll(m, o.inst, steps[1..]).trace);
    }
  }

  /** Over every run from the start, at every depth, a state with a sub-machine is left only directly after that
      sub-machine has been stopped in its terminal state. */
  lemma LeftOnlyAfterEnd(m: Machine, steps: seq<Step>)
    requires EndsPlain(m)
    ensures
      var o := Start(m, FRESH, []);
      Orderly(m, [], o.trace + RunAll(m, o.inst, steps).trace)
  {
    FreshIsTidy(m);
    StartNests(m, FRESH, Spot([], map[]));
    StartOrderly(m, FRESH, []);
    var o := Start(m, FRESH, []);
    RunAllOrderly(m, o.inst, steps);
    OrderlyConcat(m, [], o.trace, RunAll(m, o.inst, steps).trace);
  }
}
