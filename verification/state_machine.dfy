// The state machine as it is written: objects that update their own fields and call their sub-machines.
module StateMachines {
  import opened Wrappers
  import opened StateMachineModel
  import M = StateMachineModel

  class StateMachine {
    const def: Machine
    const subs: map<StateId, StateMachine>
    ghost const Repr: set<object>

    var running: bool
    var curr: Option<StateId>
    var last: Option<StateId>

    // The machines form a tree that matches the definition; nothing in the tree's shape changes.
    ghost predicate Valid()
      decreases def
    {
      && this in Repr
      && (forall id :: id in subs <==> Def(def, id).sub.Some?)
      && (forall id :: id in subs ==> SubValid(id))
      && (forall a, b :: a in subs && b in subs && a != b ==> subs[a].Repr !! subs[b].Repr)
    }

    ghost predicate SubValid(id: StateId)
      requires id in subs
      decreases def, 0
    {
      && Def(def, id).sub == Some(subs[id].def)
      && subs[id] in subs[id].Repr && subs[id].Repr <= Repr && this !in subs[id].Repr
      && subs[id].Valid()
    }

    ghost function View(): Inst
      requires Valid()
      reads this, Repr
      decreases def
    {
      Inst(running, curr, last, map id | id in subs :: (assert SubValid(id); SubView(id)))
    }

    ghost function SubView(id: StateId): Inst
      requires Valid() && id in subs
      reads subs[id], subs[id].Repr
      decreases def, 0
    {
      assert SubValid(id);
      subs[id].View()
    }

    // A stopped machine over machines of its own for the states that have one.
    constructor (m: Machine, children: map<StateId, StateMachine>, ghost below: set<object>)
      requires forall id :: id in children <==> Def(m, id).sub.Some?
      requires forall id :: id in children ==>
        Def(m, id).sub == Some(children[id].def) && children[id] in children[id].Repr && children[id].Valid()
      requires forall id :: id in children ==> children[id].Repr <= below
      requires forall a, b :: a in children && b in children && a != b ==> children[a].Repr !! children[b].Repr
      ensures Valid() && def == m && subs == children && Repr == {this} + below && fresh(this)
      ensures !running && curr == None && last == None
    {
      def, subs, Repr := m, children, {this} + below;
      running, curr, last := false, None, None;
      new;
      forall id | id in subs ensures SubValid(id) {
        assert this !in subs[id].Repr;
      }
    }

    method SetState(isRunning: bool, to: Option<StateId>, from: Option<StateId>)
      requires Valid()
      modifies this
      ensures View() == old(View()).(running := isRunning, curr := to, last := from)
    {
      running, curr, last := isRunning, to, from;
      forall id | id in subs ensures SubView(id) == old(SubView(id)) {
        assert SubValid(id);
      }
      assert View().subs == old(View()).subs;
    }

    method StartSub(id: StateId, path: seq<StateId>) returns (trace: seq<Act>)
      requires Valid() && id in subs
      modifies Repr
      ensures
        var o := M.Start(subs[id].def, SubInst(old(View()), id), path + [id]);
        trace == o.trace && View() == old(View()).(subs := old(View()).subs[id := o.inst])
      decreases def, 0, 0
    {
      assert SubValid(id);
      var ret;
      ret, trace := subs[id].Start(path + [id]);
      OthersKeep(id);
    }

    method RunSub(id: StateId, env: Env, e: Event, path: seq<StateId>) returns (ret: bool, trace: seq<Act>)
      requires Valid() && id in subs
      modifies Repr
      ensures
        var o := M.Run(subs[id].def, SubInst(old(View()), id), env, e, path + [id]);
        trace == o.trace && ret == o.ret && View() == old(View()).(subs := old(View()).subs[id := o.inst])
      decreases def, 0, 0
    {
      assert SubValid(id);
      ret, trace := subs[id].Run(env, e, path + [id]);
      OthersKeep(id);
    }

    method StopSub(id: StateId, path: seq<StateId>) returns (trace: seq<Act>)
      requires Valid() && id in subs
      modifies Repr
      ensures
        var o := M.Stop(SubInst(old(View()), id), path + [id]);
        trace == o.trace && View() == old(View()).(subs := old(View()).subs[id := o.inst])
    {
      assert SubValid(id);
      trace := subs[id].Stop(path + [id]);
      OthersKeep(id);
    }

    method SubEnded(id: StateId) returns (ended: bool)
      requires Valid() && id in subs
      ensures ended == IsTerminated(SubInst(View(), id))
    {
      assert SubValid(id);
      assert SubInst(View(), id) == SubView(id);
      ended := subs[id].curr == Some(TERM_STATE);
    }

    // Work on one sub-machine leaves the others and this machine's own fields alone.
    twostate lemma OthersKeep(id: StateId)
      requires Valid() && id in subs
      requires unchanged(Repr - subs[id].Repr)
      ensures View() == old(View()).(subs := old(View()).subs[id := SubView(id)])
    {
      assert SubValid(id);
      forall k | k in subs && k != id ensures SubView(k) == old(SubView(k)) {
        assert SubValid(k);
        assert subs[k].Repr <= Repr - subs[id].Repr;
      }
      assert View().subs == old(View()).subs[id := SubView(id)];
    }

    method Start(path: seq<StateId>) returns (ret: bool, trace: seq<Act>)
      requires Valid()
      modifies Repr
      ensures Outcome(View(), trace, ret) == M.Start(def, old(View()), path)
      decreases def, 1
    {
      var d := Find(def.states, def.init);
      if running || d == None {
        return false, [];
      }
      SetState(true, Some(def.init), last);
      trace := [Enter(path, def.init, NO_EVENT)];
      ret := true;
      assert Def(def, def.init) == d.value;
      if def.init in subs {
        assert SubValid(def.init);
        var more := StartSub(def.init, path);
        trace := trace + more;
      }
    }

    method Stop(path: seq<StateId>) returns (trace: seq<Act>)
      requires Valid()
      modifies this
      ensures Outcome(View(), trace, true) == M.Stop(old(View()), path)
    {
      trace := [];
      if running && curr.Some? {
        trace := [Exit(path, curr.value, NO_EVENT)];
        SetState(false, None, last);
      }
    }

    method Run(env: Env, e: Event, path: seq<StateId>) returns (ret: bool, trace: seq<Act>)
      requires Valid()
      modifies Repr
      ensures Outcome(View(), trace, ret) == M.Run(def, old(View()), env, e, path)
      decreases def, 2
    {
      if !running || curr == None {
        return false, [];
      }
      var id := curr.value;
      trace := [];
      if id in subs {
        assert SubValid(id);
        var ended;
        ended, ret, trace := RunBelow(id, env, e, path);
        if !ended {
          return;
        }
      }
      ret, trace := Leave(env, e, path, trace);
    }

    // The sub-machine's turn; it is stopped when the event ends it.
    method RunBelow(id: StateId, env: Env, e: Event, path: seq<StateId>) returns (ended: bool, ret: bool, trace: seq<Act>)
      requires Valid() && id in subs
      modifies Repr
      ensures
        var o := M.Run(subs[id].def, SubInst(old(View()), id), env, e, path + [id]);
        var s := M.Stop(o.inst, path + [id]);
        && ended == IsTerminated(o.inst) && ret == o.ret
        && trace == (if ended then o.trace + s.trace else o.trace)
        && View() == old(View()).(subs := old(View()).subs[id := if ended then s.inst else o.inst])
      decreases def, 1
    {
      ghost var i := View();
      ret, trace := RunSub(id, env, e, path);
      ghost var s := SubInst(View(), id);
      var more;
      ended, more := StopIfEnded(id, path);
      trace := trace + more;
      assert View().subs == i.subs[id := if ended then M.Stop(s, path + [id]).inst else s];
    }

    method StopIfEnded(id: StateId, path: seq<StateId>) returns (ended: bool, trace: seq<Act>)
      requires Valid() && id in subs
      modifies Repr
      ensures
        var s := SubInst(old(View()), id);
        && ended == IsTerminated(s)
        && trace == (if ended then M.Stop(s, path + [id]).trace else [])
        && View() == if ended then old(View()).(subs := old(View()).subs[id := M.Stop(s, path + [id]).inst]) else old(View())
    {
      trace := [];
      ended := SubEnded(id);
      if ended {
        trace := StopSub(id, path);
      }
    }

    method Leave(env: Env, e: Event, path: seq<StateId>, before: seq<Act>) returns (ret: bool, trace: seq<Act>)
      requires Valid() && curr.Some?
      modifies Repr
      ensures Outcome(View(), trace, ret) == M.Leave(def, old(View()), env, e, path, before)
      decreases def, 1
    {
      var id := curr.value;
      var mv := Decide(Def(def, id), env, e);
      if mv == Stay || !Known(def, mv.next) {
        return false, before;
      }
      SetState(running, Some(mv.next), Some(id));
      trace := before + MoveTrace(path, id, mv, e);
      ret := true;
      if mv.next in subs {
        trace := EnterSub(mv.next, env, e, path, trace);
      }
    }

    method EnterSub(id: StateId, env: Env, e: Event, path: seq<StateId>, before: seq<Act>) returns (trace: seq<Act>)
      requires Valid() && id in subs
      modifies Repr
      ensures
        var sub := Def(def, id).sub.value;
        var o1 := M.Start(sub, SubInst(old(View()), id), path + [id]);
        var o2 := M.Run(sub, o1.inst, env, e, path + [id]);
        trace == before + o1.trace + o2.trace && View() == old(View()).(subs := old(View()).subs[id := o2.inst])
      decreases def, 0, 1
    {
      assert SubValid(id);
      var i := View();
      var started := StartSub(id, path);
      assert SubInst(View(), id) == View().subs[id];
      var _, ran := RunSub(id, env, e, path);
      trace := before + started + ran;
      assert View().subs == i.subs[id := View().subs[id]];
    }
  }
}
