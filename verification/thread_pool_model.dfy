// The thread pool as a step system: a step is what one thread does while it holds the pool's lock,
// or the execution of one task outside the lock.
module ThreadPoolModel {
  import opened Wrappers
  import opened Cabinets

  const LEVELS: nat := 5
  const PRIO_MIN: int := -2
  const PRIO_MAX: int := 2

  type WorkerId = nat

  // Where a worker is in threadProc.
  datatype Pc =
    | Checking            // at the top of the loop
    | Waiting             // asleep on the condition variable
    | HasTask(t: Token)   // has popped a task, has not yet declared it as being done
    | Running(t: Token)   // has declared it, has not yet executed it
    | Ran(t: Token)       // has executed it
    | Leaving             // has decided to exit, is still registered

  // What has become of an accepted task.
  datatype Life = Queued | Popped(w: WorkerId) | Doing(w: WorkerId) | Done | Cancelled

  datatype Tp = Tp(
    minThreads: nat,
    maxThreads: nat,
    undo: set<Token>,            // the tokens in the cabinet of waiting tasks
    lastId: nat,                 // the last id that cabinet issued
    queues: seq<seq<Token>>,     // the waiting tasks by level, most urgent first
    doing: set<Token>,
    idle: nat,
    workers: map<WorkerId, Pc>,  // the registered threads
    life: map<Token, Life>,      // history: every task ever accepted
    runs: map<Token, nat>)       // history: how often it was executed

  function Init(minThreads: nat, maxThreads: nat, ws: set<WorkerId>): Tp {
    Tp(minThreads, maxThreads, {}, 0, [[], [], [], [], []], {}, 0, map w | w in ws :: Checking, map[], map[])
  }

  // ---- the steps ----

  // An urgency out of range is clamped; level 0 is the most urgent.
  function Level(prio: int): (l: nat)
    ensures l < LEVELS
  {
    (if prio < PRIO_MIN then PRIO_MIN else if prio > PRIO_MAX then PRIO_MAX else prio) + PRIO_MAX
  }

  predicate NeedsWorker(s: Tp) {
    |s.undo| > s.idle && |s.workers| < s.maxThreads
  }

  // execute(): t is the token the cabinet issues, w the name of a thread that may be created.
  function Execute(s: Tp, level: nat, t: Token, w: WorkerId): Tp
    requires |s.queues| == LEVELS && level < LEVELS
  {
    var q := s.(undo := s.undo + {t}, lastId := t.id,
                queues := s.queues[level := s.queues[level] + [t]],
                life := s.life[t := Queued], runs := s.runs[t := 0]);
    if NeedsWorker(q) then q.(workers := q.workers[w := Checking]) else q
  }

  // The most urgent level with a waiting task, or the number of levels.
  function FirstLevel(q: seq<seq<Token>>): (i: nat)
    ensures i <= |q|
    ensures i < |q| ==> q[i] != []
    ensures forall j :: 0 <= j < i ==> q[j] == []
  {
    if q == [] then 0 else if q[0] != [] then 0 else 1 + FirstLevel(q[1..])
  }

  predicate AnyWaiting(s: Tp) {
    FirstLevel(s.queues) < |s.queues|
  }

  function NextTask(s: Tp): Token
    requires AnyWaiting(s)
  {
    s.queues[FirstLevel(s.queues)][0]
  }

  // popOneTask()
  function Pop(s: Tp, w: WorkerId): Tp
    requires AnyWaiting(s)
  {
    var l, t := FirstLevel(s.queues), NextTask(s);
    s.(undo := s.undo - {t}, queues := s.queues[l := s.queues[l][1..]],
       workers := s.workers[w := HasTask(t)], life := s.life[t := Popped(w)])
  }

  predicate ShouldLeave(s: Tp) {
    s.idle >= |s.undo| && |s.workers| > s.minThreads
  }

  // The first critical section of the loop: leave, or wait, or find work at once.
  function Check(s: Tp, w: WorkerId): Tp {
    if ShouldLeave(s) then s.(workers := s.workers[w := Leaving])
    else if AnyWaiting(s) then Pop(s, w)
    else s.(idle := s.idle + 1, workers := s.workers[w := Waiting])
  }

  function Wake(s: Tp, w: WorkerId): Tp
    requires AnyWaiting(s) && s.idle > 0
  {
    Pop(s.(idle := s.idle - 1), w)
  }

  function Begin(s: Tp, w: WorkerId): Tp
    requires w in s.workers && s.workers[w].HasTask?
  {
    var t := s.workers[w].t;
    s.(doing := s.doing + {t}, workers := s.workers[w := Running(t)], life := s.life[t := Doing(w)])
  }

  function Run(s: Tp, w: WorkerId): Tp
    requires w in s.workers && s.workers[w].Running? && s.workers[w].t in s.runs
  {
    var t := s.workers[w].t;
    s.(workers := s.workers[w := Ran(t)], runs := s.runs[t := s.runs[t] + 1])
  }

  function Finish(s: Tp, w: WorkerId): Tp
    requires w in s.workers && s.workers[w].Ran?
  {
    var t := s.workers[w].t;
    s.(doing := s.doing - {t}, workers := s.workers[w := Checking], life := s.life[t := Done])
  }

  function Leave(s: Tp, w: WorkerId): Tp {
    s.(workers := s.workers - {w})
  }

  // cancel(): 0 is success, 1 is not found, 2 is being done.
  function CancelCode(s: Tp, t: Token): int {
    if t in s.doing then 2 else if LevelOf(s.queues, t) < |s.queues| then 0 else 1
  }

  function Cancel(s: Tp, t: Token): Tp {
    if CancelCode(s, t) != 0 then s
    else
      var l := LevelOf(s.queues, t);
      s.(undo := s.undo - {t}, queues := s.queues[l := Erase(s.queues[l], t)], life := s.life[t := Cancelled])
  }

  // The most urgent level that holds t, or the number of levels.
  function LevelOf(q: seq<seq<Token>>, t: Token): (i: nat)
    ensures i <= |q|
    ensures i < |q| ==> t in q[i]
    ensures forall j :: 0 <= j < i ==> t !in q[j]
  {
    if q == [] then 0 else if t in q[0] then 0 else 1 + LevelOf(q[1..], t)
  }

  // Removes the first occurrence.
  function Erase(s: seq<Token>, t: Token): seq<Token> {
    if s == [] then [] else if s[0] == t then s[1..] else [s[0]] + Erase(s[1..], t)
  }

  datatype Event =
    | ExecuteEv(prio: int, t: Token, w: WorkerId)
    | CancelEv(t: Token)
    | CheckEv(w: WorkerId) | WakeEv(w: WorkerId) | BeginEv(w: WorkerId) | RunEv(w: WorkerId)
    | FinishEv(w: WorkerId) | LeaveEv(w: WorkerId)

  predicate At(s: Tp, w: WorkerId, pc: Pc) {
    w in s.workers && s.workers[w] == pc
  }

  predicate Enabled(s: Tp, ev: Event) {
    match ev
    // Before the id counter of the cabinet wraps, a new token has the next id.
    case ExecuteEv(_, t, w) => t.id == s.lastId + 1 && w !in s.workers
    case CancelEv(_) => true
    case CheckEv(w) => At(s, w, Checking)
    case WakeEv(w) => At(s, w, Waiting) && AnyWaiting(s) && s.idle > 0
    case BeginEv(w) => w in s.workers && s.workers[w].HasTask?
    case RunEv(w) => w in s.workers && s.workers[w].Running? && s.workers[w].t in s.runs
    case FinishEv(w) => w in s.workers && s.workers[w].Ran?
    case LeaveEv(w) => At(s, w, Leaving)
  }

  function Apply(s: Tp, ev: Event): Tp
    requires Enabled(s, ev) && |s.queues| == LEVELS
  {
    match ev
    case ExecuteEv(prio, t, w) => Execute(s, Level(prio), t, w)
    case CancelEv(t) => Cancel(s, t)
    case CheckEv(w) => Check(s, w)
    case WakeEv(w) => Wake(s, w)
    case BeginEv(w) => Begin(s, w)
    case RunEv(w) => Run(s, w)
    case FinishEv(w) => Finish(s, w)
    case LeaveEv(w) => Leave(s, w)
  }

  // ---- what every step keeps ----

  // In how many places of the five queues the token stands.
  ghost function Places(q: seq<seq<Token>>, t: Token): nat {
    if q == [] then 0 else multiset(q[0])[t] + Places(q[1..], t)
  }

  // The token is where its life says it is, and nowhere else.
  ghost predicate TaskOk(s: Tp, t: Token) {
    && Places(s.queues, t) == (if t in s.undo then 1 else 0)
    && (t in s.undo <==> t in s.life && s.life[t] == Queued)
    && (t in s.doing <==> t in s.life && s.life[t].Doing?)
    && (t in s.life ==> t.id <= s.lastId && t in s.runs)
    && (t in s.life && s.life[t].Popped? ==> At(s, s.life[t].w, HasTask(t)))
    && (t in s.life && s.life[t].Doing? ==> At(s, s.life[t].w, Running(t)) || At(s, s.life[t].w, Ran(t)))
    && (t in s.life ==> s.runs[t] == (if s.life[t].Done? || (s.life[t].Doing? && At(s, s.life[t].w, Ran(t))) then 1 else 0))
  }

  // A worker holds exactly what says that it does.
  ghost predicate WorkerOk(s: Tp, w: WorkerId) {
    && (w in s.workers && s.workers[w].HasTask? ==>
          s.workers[w].t in s.life && s.life[s.workers[w].t] == Popped(w))
    && (w in s.workers && (s.workers[w].Running? || s.workers[w].Ran?) ==>
          s.workers[w].t in s.life && s.life[s.workers[w].t] == Doing(w))
  }

  // Each level holds its tasks in the order in which they were accepted.
  ghost predicate LevelOk(s: Tp, l: nat)
    requires l < |s.queues|
  {
    forall i, j :: 0 <= i < j < |s.queues[l]| ==> s.queues[l][i].id < s.queues[l][j].id
  }

  ghost function Sleepers(ws: map<WorkerId, Pc>): set<WorkerId> {
    set w | w in ws && ws[w] == Waiting
  }

  ghost predicate CountsOk(s: Tp) {
    |s.workers| <= s.maxThreads && s.idle == |Sleepers(s.workers)|
  }

  ghost predicate Inv(s: Tp) {
    && |s.queues| == LEVELS
    && (forall t :: TaskOk(s, t))
    && (forall w :: WorkerOk(s, w))
    && (forall l {:trigger LevelOk(s, l)} :: 0 <= l < LEVELS ==> LevelOk(s, l))
    && CountsOk(s)
  }

  // ---- queues ----

  lemma {:induction false} PlacesUpdate(q: seq<seq<Token>>, l: nat, x: seq<Token>, t: Token)
    requires l < |q|
    ensures Places(q[l := x], t) + multiset(q[l])[t] == Places(q, t) + multiset(x)[t]
  {
    if l > 0 {
      PlacesUpdate(q[1..], l - 1, x, t);
      assert q[l := x][1..] == q[1..][l - 1 := x];
    } else {
      assert q[l := x][1..] == q[1..];
    }
  }

  lemma {:induction false} PlacesAtLeast(q: seq<seq<Token>>, l: nat, t: Token)
    requires l < |q|
    ensures Places(q, t) >= multiset(q[l])[t]
  {
    if l > 0 { PlacesAtLeast(q[1..], l - 1, t); }
  }

  lemma {:induction false} PlacesSome(q: seq<seq<Token>>, t: Token)
    ensures Places(q, t) > 0 <==> LevelOf(q, t) < |q|
  {
    if q != [] { PlacesSome(q[1..], t); }
  }

  lemma HeadCount(x: seq<Token>, t: Token)
    requires x != []
    ensures multiset(x)[t] == multiset(x[1..])[t] + (if t == x[0] then 1 else 0)
  {
    assert x == [x[0]] + x[1..];
  }

  lemma {:induction false} EraseCount(x: seq<Token>, t: Token, u: Token)
    ensures multiset(Erase(x, t))[u] == multiset(x)[u] - (if u == t && t in x then 1 else 0)
  {
    if x != [] {
      HeadCount(x, u);
      if x[0] != t {
        EraseCount(x[1..], t, u);
        HeadCount(Erase(x, t), u);
        assert Erase(x, t)[1..] == Erase(x[1..], t);
      }
    }
  }

  ghost predicate Rising(x: seq<Token>) {
    forall i, j :: 0 <= i < j < |x| ==> x[i].id < x[j].id
  }

  lemma {:induction false} EraseRising(x: seq<Token>, t: Token)
    requires Rising(x)
    ensures Rising(Erase(x, t))
    ensures forall u :: u in Erase(x, t) ==> u in x
  {
    if x != [] && x[0] != t {
      EraseRising(x[1..], t);
      RisingCons(x, Erase(x[1..], t));
    }
  }

  // A rising part of the rest, put behind the first one.
  lemma RisingCons(x: seq<Token>, y: seq<Token>)
    requires x != [] && Rising(x) && Rising(y) && forall u :: u in y ==> u in x[1..]
    ensures Rising([x[0]] + y)
  {
    forall j | 0 <= j < |y| ensures x[0].id < y[j].id {
      assert y[j] in y;
      var k :| 0 <= k < |x[1..]| && x[1..][k] == y[j];
      assert x[k + 1] == y[j];
    }
  }

  lemma FirstIsPlaced(s: Tp)
    requires AnyWaiting(s) && forall t :: TaskOk(s, t)
    ensures NextTask(s) in s.undo && NextTask(s) in s.life && s.life[NextTask(s)] == Queued
  {
    var l, t := FirstLevel(s.queues), NextTask(s);
    PlacesAtLeast(s.queues, l, t);
    assert TaskOk(s, t);
  }

  // ---- each step ----

  lemma PopTasks(s: Tp, w: WorkerId)
    requires |s.queues| == LEVELS && AnyWaiting(s) && forall t :: TaskOk(s, t)
    requires At(s, w, Checking) || At(s, w, Waiting)
    ensures forall t :: TaskOk(Pop(s, w), t)
  {
    var l, n, s' := FirstLevel(s.queues), NextTask(s), Pop(s, w);
    FirstIsPlaced(s);
    forall t ensures TaskOk(s', t) {
      assert TaskOk(s, t);
      PlacesUpdate(s.queues, l, s.queues[l][1..], t);
      HeadCount(s.queues[l], t);
    }
  }

  lemma PopWorkers(s: Tp, w: WorkerId)
    requires |s.queues| == LEVELS && AnyWaiting(s) && (forall t :: TaskOk(s, t)) && forall v :: WorkerOk(s, v)
    requires At(s, w, Checking) || At(s, w, Waiting)
    ensures forall v :: WorkerOk(Pop(s, w), v)
  {
    FirstIsPlaced(s);
    forall v ensures WorkerOk(Pop(s, w), v) { assert WorkerOk(s, v); }
  }

  lemma ExecuteTasks(s: Tp, level: nat, t: Token, w: WorkerId)
    requires |s.queues| == LEVELS && level < LEVELS && t.id == s.lastId + 1 && w !in s.workers
    requires forall u :: TaskOk(s, u)
    ensures forall u :: TaskOk(Execute(s, level, t, w), u)
  {
    var s' := Execute(s, level, t, w);
    forall u ensures TaskOk(s', u) {
      assert TaskOk(s, u) && TaskOk(s, t);
      PlacesUpdate(s.queues, level, s.queues[level] + [t], u);
    }
  }

  lemma ExecuteLevels(s: Tp, level: nat, t: Token, w: WorkerId)
    requires |s.queues| == LEVELS && level < LEVELS && t.id == s.lastId + 1
    requires forall u :: TaskOk(s, u)
    requires forall l {:trigger LevelOk(s, l)} :: 0 <= l < LEVELS ==> LevelOk(s, l)
    ensures var s' := Execute(s, level, t, w);
            forall l {:trigger LevelOk(s', l)} :: 0 <= l < LEVELS ==> LevelOk(s', l)
  {
    var s' := Execute(s, level, t, w);
    forall l | 0 <= l < LEVELS ensures LevelOk(s', l) {
      assert LevelOk(s, l);
      forall i | 0 <= i < |s.queues[l]| ensures s.queues[l][i].id <= s.lastId {
        PlacesAtLeast(s.queues, l, s.queues[l][i]);
        assert TaskOk(s, s.queues[l][i]);
      }
    }
  }

  lemma CancelTasks(s: Tp, t: Token)
    requires |s.queues| == LEVELS && forall u :: TaskOk(s, u)
    ensures forall u :: TaskOk(Cancel(s, t), u)
  {
    if CancelCode(s, t) == 0 {
      var l := LevelOf(s.queues, t);
      PlacesSome(s.queues, t);
      forall u ensures TaskOk(Cancel(s, t), u) {
        assert TaskOk(s, u) && TaskOk(s, t);
        PlacesUpdate(s.queues, l, Erase(s.queues[l], t), u);
        EraseCount(s.queues[l], t, u);
      }
    }
  }

  lemma CancelLevels(s: Tp, t: Token)
    requires |s.queues| == LEVELS
    requires forall l {:trigger LevelOk(s, l)} :: 0 <= l < LEVELS ==> LevelOk(s, l)
    ensures forall l {:trigger LevelOk(Cancel(s, t), l)} :: 0 <= l < LEVELS ==> LevelOk(Cancel(s, t), l)
  {
    forall l | 0 <= l < LEVELS ensures LevelOk(Cancel(s, t), l) {
      assert LevelOk(s, l);
      assert Rising(s.queues[l]);
      EraseRising(s.queues[l], t);
    }
  }

  lemma CountWithout(s: set<WorkerId>, w: WorkerId)
    ensures |s| == |s - {w}| + (if w in s then 1 else 0)
  {
    if w in s { assert s == s - {w} + {w}; } else { assert s == s - {w}; }
  }

  lemma WorkersUpdate(ws: map<WorkerId, Pc>, w: WorkerId, pc: Pc)
    ensures |ws[w := pc]| == |ws| + (if w in ws then 0 else 1)
  {
    var after := ws[w := pc];
    assert after.Keys - {w} == ws.Keys - {w};
    CountWithout(after.Keys, w);
    CountWithout(ws.Keys, w);
    assert |after| == |after.Keys| && |ws| == |ws.Keys|;
  }

  lemma SleepersUpdate(ws: map<WorkerId, Pc>, w: WorkerId, pc: Pc)
    ensures |Sleepers(ws[w := pc])| == |Sleepers(ws)| + (if pc == Waiting then 1 else 0)
                                       - (if w in ws && ws[w] == Waiting then 1 else 0)
    ensures |ws[w := pc]| == |ws| + (if w in ws then 0 else 1)
  {
    var before, after := Sleepers(ws), Sleepers(ws[w := pc]);
    SleepersBut(ws, w, pc);
    CountWithout(after, w);
    CountWithout(before, w);
    WorkersUpdate(ws, w, pc);
  }

  lemma SleepersBut(ws: map<WorkerId, Pc>, w: WorkerId, pc: Pc)
    ensures Sleepers(ws[w := pc]) - {w} == Sleepers(ws) - {w}
    ensures w in Sleepers(ws[w := pc]) <==> pc == Waiting
    ensures w in Sleepers(ws) <==> w in ws && ws[w] == Waiting
  {
  }

  lemma SleepersRemove(ws: map<WorkerId, Pc>, w: WorkerId)
    requires w in ws && ws[w] != Waiting
    ensures Sleepers(ws - {w}) == Sleepers(ws) && |ws - {w}| == |ws| - 1
  {
    assert (ws - {w}).Keys == ws.Keys - {w};
    assert |ws| == |ws.Keys| && |ws - {w}| == |(ws - {w}).Keys|;
  }

  lemma StepCounts(s: Tp, ev: Event)
    requires |s.queues| == LEVELS && CountsOk(s) && Enabled(s, ev)
    ensures CountsOk(Apply(s, ev))
  {
    match ev
    case ExecuteEv(_, _, w) => SleepersUpdate(s.workers, w, Checking);
    case CancelEv(_) =>
    case CheckEv(w) =>
      SleepersUpdate(s.workers, w, Leaving);
      SleepersUpdate(s.workers, w, Waiting);
      if AnyWaiting(s) { SleepersUpdate(s.workers, w, HasTask(NextTask(s))); }
    case WakeEv(w) => SleepersUpdate(s.workers, w, HasTask(NextTask(s)));
    case BeginEv(w) => SleepersUpdate(s.workers, w, Running(s.workers[w].t));
    case RunEv(w) => SleepersUpdate(s.workers, w, Ran(s.workers[w].t));
    case FinishEv(w) => SleepersUpdate(s.workers, w, Checking);
    case LeaveEv(w) => SleepersRemove(s.workers, w);
  }

  // The steps that leave the queues alone.
  lemma WorkTasks(s: Tp, ev: Event)
    requires |s.queues| == LEVELS && Enabled(s, ev) && (forall t :: TaskOk(s, t)) && forall w :: WorkerOk(s, w)
    requires ev.BeginEv? || ev.RunEv? || ev.FinishEv? || ev.LeaveEv?
    ensures forall t :: TaskOk(Apply(s, ev), t)
  {
    assert WorkerOk(s, ev.w);
    forall t ensures TaskOk(Apply(s, ev), t) { assert TaskOk(s, t); }
  }

  lemma StepTasks(s: Tp, ev: Event)
    requires Inv(s) && Enabled(s, ev)
    ensures forall t :: TaskOk(Apply(s, ev), t)
  {
    match ev
    case ExecuteEv(prio, t, w) => ExecuteTasks(s, Level(prio), t, w);
    case CancelEv(t) => CancelTasks(s, t);
    case CheckEv(w) =>
      if !ShouldLeave(s) && AnyWaiting(s) {
        PopTasks(s, w);
      } else {
        forall t ensures TaskOk(Apply(s, ev), t) { assert TaskOk(s, t); }
      }
    case WakeEv(w) =>
      var s1 := s.(idle := s.idle - 1);
      forall t ensures TaskOk(s1, t) { assert TaskOk(s, t); }
      PopTasks(s1, w);
    case _ => WorkTasks(s, ev);
  }

  lemma WakeWorkers(s: Tp, w: WorkerId)
    requires Inv(s) && Enabled(s, WakeEv(w))
    ensures forall v :: WorkerOk(Wake(s, w), v)
  {
    var s1 := s.(idle := s.idle - 1);
    forall t ensures TaskOk(s1, t) { assert TaskOk(s, t); }
    forall v ensures WorkerOk(s1, v) { assert WorkerOk(s, v); }
    PopWorkers(s1, w);
  }

  lemma StepWorkers(s: Tp, ev: Event)
    requires Inv(s) && Enabled(s, ev)
    ensures forall w :: WorkerOk(Apply(s, ev), w)
  {
    match ev
    case ExecuteEv(_, t, _) =>
      assert TaskOk(s, t);
      forall v ensures WorkerOk(Apply(s, ev), v) { assert WorkerOk(s, v); }
    case CancelEv(t) =>
      assert TaskOk(s, t);
      PlacesSome(s.queues, t);
      forall v ensures WorkerOk(Apply(s, ev), v) { assert WorkerOk(s, v); }
    case CheckEv(w) =>
      if !ShouldLeave(s) && AnyWaiting(s) {
        PopWorkers(s, w);
      } else {
        forall v ensures WorkerOk(Apply(s, ev), v) { assert WorkerOk(s, v); }
      }
    case WakeEv(w) => WakeWorkers(s, w);
    case _ =>
      assert WorkerOk(s, ev.w);
      forall v ensures WorkerOk(Apply(s, ev), v) { assert WorkerOk(s, v); }
  }

  lemma StepLevels(s: Tp, ev: Event)
    requires Inv(s) && Enabled(s, ev)
    ensures |Apply(s, ev).queues| == LEVELS
    ensures forall l {:trigger LevelOk(Apply(s, ev), l)} :: 0 <= l < LEVELS ==> LevelOk(Apply(s, ev), l)
  {
    match ev
    case ExecuteEv(prio, t, w) => ExecuteLevels(s, Level(prio), t, w);
    case CancelEv(t) => CancelLevels(s, t);
    case _ =>
      forall l | 0 <= l < LEVELS ensures LevelOk(Apply(s, ev), l) { assert LevelOk(s, l); }
  }

  lemma StepInv(s: Tp, ev: Event)
    requires Inv(s) && Enabled(s, ev)
    ensures Inv(Apply(s, ev))
  {
    StepTasks(s, ev);
    StepWorkers(s, ev);
    StepLevels(s, ev);
    StepCounts(s, ev);
  }

  lemma InitInv(minThreads: nat, maxThreads: nat, ws: set<WorkerId>)
    requires |ws| == minThreads <= maxThreads
    ensures Inv(Init(minThreads, maxThreads, ws))
  {
    var s := Init(minThreads, maxThreads, ws);
    assert s.workers.Keys == ws;
    assert |s.workers| == |s.workers.Keys|;
    assert Sleepers(s.workers) == {};
    forall t ensures TaskOk(s, t) {
      EmptyPlaces(s.queues, t);
    }
  }

  lemma {:induction false} EmptyPlaces(q: seq<seq<Token>>, t: Token)
    requires forall i :: 0 <= i < |q| ==> q[i] == []
    ensures Places(q, t) == 0
  {
    if q != [] { EmptyPlaces(q[1..], t); }
  }

  // ---- runs ----

  ghost predicate StepTo(s: Tp, ev: Event, s': Tp) {
    |s.queues| == LEVELS && Enabled(s, ev) && s' == Apply(s, ev)
  }

  ghost predicate IsRun(ss: seq<Tp>, evs: seq<Event>) {
    && |ss| == |evs| + 1
    && Inv(ss[0])
    && forall i :: 0 <= i < |evs| ==> StepTo(ss[i], evs[i], ss[i + 1])
  }

  lemma {:induction false} RunInv(ss: seq<Tp>, evs: seq<Event>, n: nat)
    requires IsRun(ss, evs) && n < |ss|
    ensures Inv(ss[n])
  {
    if n > 0 {
      RunInv(ss, evs, n - 1);
      assert StepTo(ss[n - 1], evs[n - 1], ss[n - 1 + 1]);
      StepInv(ss[n - 1], evs[n - 1]);
    }
  }

  /** In every interleaving the waiting cabinet holds exactly the tokens in the five queues, each once;
      and no task is executed twice. */
  lemma WaitingIsQueued(ss: seq<Tp>, evs: seq<Event>, n: nat, t: Token)
    requires IsRun(ss, evs) && n < |ss|
    ensures Places(ss[n].queues, t) == (if t in ss[n].undo then 1 else 0)
    ensures t in ss[n].runs && t in ss[n].life ==> ss[n].runs[t] <= 1
    ensures |ss[n].workers| <= ss[n].maxThreads
  {
    RunInv(ss, evs, n);
    assert TaskOk(ss[n], t);
  }

  predicate Does(pc: Pc, t: Token) {
    pc == Running(t) || pc == Ran(t)
  }

  /** In every interleaving an accepted task is in exactly one of: the queues, the hands of one worker that
      popped it, the hands of one worker that does it, done, cancelled. */
  lemma OnePlace(ss: seq<Tp>, evs: seq<Event>, n: nat, t: Token)
    requires IsRun(ss, evs) && n < |ss| && t in ss[n].life
    ensures t in ss[n].undo <==> ss[n].life[t] == Queued
    ensures (exists w :: At(ss[n], w, HasTask(t))) <==> ss[n].life[t].Popped?
    ensures (exists w :: w in ss[n].workers && Does(ss[n].workers[w], t)) <==> ss[n].life[t].Doing?
    ensures t in ss[n].doing <==> ss[n].life[t].Doing?
  {
    RunInv(ss, evs, n);
    var s := ss[n];
    assert TaskOk(s, t);
    forall w | At(s, w, HasTask(t)) ensures s.life[t] == Popped(w) { assert WorkerOk(s, w); }
    forall w | w in s.workers && Does(s.workers[w], t) ensures s.life[t] == Doing(w) { assert WorkerOk(s, w); }
  }

  /** No two workers ever have the same task. */
  lemma OneWorker(ss: seq<Tp>, evs: seq<Event>, n: nat, t: Token, v: WorkerId, w: WorkerId)
    requires IsRun(ss, evs) && n < |ss| && v in ss[n].workers && w in ss[n].workers
    requires ss[n].workers[v] == HasTask(t) || Does(ss[n].workers[v], t)
    requires ss[n].workers[w] == HasTask(t) || Does(ss[n].workers[w], t)
    ensures v == w
  {
    RunInv(ss, evs, n);
    assert WorkerOk(ss[n], v) && WorkerOk(ss[n], w);
  }

  lemma FinalStep(s: Tp, ev: Event, t: Token)
    requires Inv(s) && Enabled(s, ev) && t in s.life && (s.life[t] == Cancelled || s.life[t] == Done)
    ensures var s' := Apply(s, ev); t in s'.life && s'.life[t] == s.life[t]
  {
    assert TaskOk(s, t);
    match ev
    case ExecuteEv(_, _, _) =>
    case CancelEv(u) => PlacesSome(s.queues, u); assert TaskOk(s, u);
    case CheckEv(w) => if AnyWaiting(s) { FirstIsPlaced(s); }
    case WakeEv(w) => FirstIsPlaced(s);
    case _ => assert WorkerOk(s, ev.w);
  }

  ghost predicate IsCancelled(s: Tp, t: Token) {
    t in s.life && s.life[t] == Cancelled
  }

  lemma CancelledNext(ss: seq<Tp>, evs: seq<Event>, m: nat, t: Token)
    requires IsRun(ss, evs) && m < |evs|
    requires IsCancelled(ss[m], t) || (evs[m] == CancelEv(t) && CancelCode(ss[m], t) == 0)
    ensures IsCancelled(ss[m + 1], t)
  {
    RunInv(ss, evs, m);
    assert StepTo(ss[m], evs[m], ss[m + 1]);
    if IsCancelled(ss[m], t) {
      FinalStep(ss[m], evs[m], t);
    }
  }

  lemma {:induction false} StaysCancelled(ss: seq<Tp>, evs: seq<Event>, i: nat, n: nat, t: Token)
    requires IsRun(ss, evs) && i < n < |ss|
    requires evs[i] == CancelEv(t) && CancelCode(ss[i], t) == 0
    ensures IsCancelled(ss[n], t)
  {
    if n == i + 1 {
      CancelledNext(ss, evs, i, t);
    } else {
      StaysCancelled(ss, evs, i, n - 1, t);
      CancelledNext(ss, evs, n - 1, t);
    }
  }

  /** A task for which cancel() returned 0 never runs: not before the call and not after it. */
  lemma CancelledNeverRuns(ss: seq<Tp>, evs: seq<Event>, i: nat, n: nat, t: Token)
    requires IsRun(ss, evs) && i < n < |ss|
    requires evs[i] == CancelEv(t) && CancelCode(ss[i], t) == 0
    ensures t in ss[n].runs && ss[n].runs[t] == 0
  {
    StaysCancelled(ss, evs, i, n, t);
    RunInv(ss, evs, n);
    assert TaskOk(ss[n], t);
  }

  /** What cancel() answers says where a task is. */
  lemma CancelAnswers(s: Tp, t: Token)
    requires Inv(s)
    ensures CancelCode(s, t) == 0 <==> t in s.undo
    ensures CancelCode(s, t) == 2 <==> t in s.doing
    ensures CancelCode(s, t) == 0 ==> var s' := Cancel(s, t); t !in s'.undo && s'.undo == s.undo - {t}
  {
    assert TaskOk(s, t);
    PlacesSome(s.queues, t);
  }

  /** A pop takes what was accepted first among the tasks of the most urgent level that has any. */
  lemma PopsMostUrgentOldest(s: Tp, u: Token)
    requires Inv(s) && AnyWaiting(s) && u in s.undo
    ensures LevelOf(s.queues, u) < LEVELS
    ensures FirstLevel(s.queues) <= LevelOf(s.queues, u)
    ensures FirstLevel(s.queues) == LevelOf(s.queues, u) ==> u == NextTask(s) || NextTask(s).id < u.id
  {
    var l := FirstLevel(s.queues);
    assert TaskOk(s, u);
    PlacesSome(s.queues, u);
    assert LevelOk(s, l);
  }

  // Popping leaves every other queued task where it is.
  lemma PopTakesOne(s: Tp, w: WorkerId)
    requires Inv(s) && AnyWaiting(s)
    ensures Pop(s, w).undo == s.undo - {NextTask(s)} && NextTask(s) in s.undo
    ensures At(Pop(s, w), w, HasTask(NextTask(s)))
  {
    FirstIsPlaced(s);
  }

  // ---- urgency, as the callers gave it ----

  // The urgency a task counts with; smaller is more urgent.
  function Clamped(prio: int): int {
    if prio < -2 then -2 else if prio > 2 then 2 else prio
  }

  lemma StepWithin(s: Tp, ev: Event, l: nat, t: Token)
    requires Inv(s) && Enabled(s, ev) && l < LEVELS && t in Apply(s, ev).queues[l]
    ensures t in s.queues[l] || (ev.ExecuteEv? && ev.t == t && Level(ev.prio) == l)
  {
    if ev.CancelEv? && CancelCode(s, ev.t) == 0 {
      var k := LevelOf(s.queues, ev.t);
      assert LevelOk(s, k);
      assert Rising(s.queues[k]);
      EraseRising(s.queues[k], ev.t);
    }
  }

  // A waiting task stands in the level of the urgency it came with.
  lemma {:induction false} CameWith(ss: seq<Tp>, evs: seq<Event>, n: nat, l: nat, t: Token) returns (i: nat)
    requires IsRun(ss, evs) && n < |ss| && l < LEVELS && |ss[n].queues| == LEVELS && t in ss[n].queues[l]
    requires forall k :: 0 <= k < LEVELS && k < |ss[0].queues| ==> ss[0].queues[k] == []
    ensures i < n && evs[i].ExecuteEv? && evs[i].t == t && Level(evs[i].prio) == l
  {
    assert n > 0;
    RunInv(ss, evs, n - 1);
    assert StepTo(ss[n - 1], evs[n - 1], ss[n - 1 + 1]);
    StepWithin(ss[n - 1], evs[n - 1], l, t);
    if t in ss[n - 1].queues[l] {
      i := CameWith(ss, evs, n - 1, l, t);
    } else {
      i := n - 1;
    }
  }

  lemma {:induction false} IdsRise(ss: seq<Tp>, evs: seq<Event>, i: nat, n: nat)
    requires IsRun(ss, evs) && i <= n < |ss|
    ensures ss[i].lastId <= ss[n].lastId
  {
    if i < n {
      IdsRise(ss, evs, i, n - 1);
      assert StepTo(ss[n - 1], evs[n - 1], ss[n - 1 + 1]);
    }
  }

  // Tokens are given out in the order of their ids.
  lemma AcceptedInOrder(ss: seq<Tp>, evs: seq<Event>, i: nat, j: nat)
    requires IsRun(ss, evs) && i < |evs| && j < |evs| && evs[i].ExecuteEv? && evs[j].ExecuteEv?
    ensures i < j <==> evs[i].t.id < evs[j].t.id
  {
    assert StepTo(ss[i], evs[i], ss[i + 1]) && StepTo(ss[j], evs[j], ss[j + 1]);
    if i < j { IdsRise(ss, evs, i + 1, j); }
    if j < i { IdsRise(ss, evs, j + 1, i); }
  }

  lemma WaitsSomewhere(s: Tp, t: Token)
    requires Inv(s) && t in s.undo
    ensures LevelOf(s.queues, t) < LEVELS && t in s.queues[LevelOf(s.queues, t)]
  {
    assert TaskOk(s, t);
    PlacesSome(s.queues, t);
  }

  /** In every run from an empty pool: the next task to be popped came with the least clamped urgency among all
      waiting tasks, and before all others that came with the same. */
  lemma NextByUrgency(ss: seq<Tp>, evs: seq<Event>, n: nat, i: nat, j: nat)
    requires IsRun(ss, evs) && n < |ss| && i < n && j < n && evs[i].ExecuteEv? && evs[j].ExecuteEv?
    requires forall k :: 0 <= k < LEVELS && k < |ss[0].queues| ==> ss[0].queues[k] == []
    requires AnyWaiting(ss[n]) && NextTask(ss[n]) == evs[i].t && evs[j].t in ss[n].undo
    ensures Clamped(evs[i].prio) <= Clamped(evs[j].prio)
    ensures Clamped(evs[i].prio) == Clamped(evs[j].prio) ==> i <= j
  {
    var s := ss[n];
    RunInv(ss, evs, n);
    PopsMostUrgentOldest(s, evs[j].t);
    WaitsSomewhere(s, evs[j].t);
    var i1 := CameWith(ss, evs, n, FirstLevel(s.queues), evs[i].t);
    var j1 := CameWith(ss, evs, n, LevelOf(s.queues, evs[j].t), evs[j].t);
    AcceptedInOrder(ss, evs, i, i1);
    AcceptedInOrder(ss, evs, i1, i);
    AcceptedInOrder(ss, evs, j, j1);
    AcceptedInOrder(ss, evs, j1, j);
    AcceptedInOrder(ss, evs, i, j);
    AcceptedInOrder(ss, evs, j, i);
  }

  // There is a next task exactly while one waits.
  lemma AnyWaitingIff(s: Tp)
    requires Inv(s)
    ensures AnyWaiting(s) <==> s.undo != {}
  {
    if AnyWaiting(s) {
      FirstIsPlaced(s);
    } else if t :| t in s.undo {
      WaitsSomewhere(s, t);
    }
  }

  // ---- what a worker does with a task ----

  // A worker that does not leave and finds a task, at once or when woken, takes the next one.
  lemma TakesNext(s: Tp, ev: Event)
    requires Inv(s) && Enabled(s, ev) && AnyWaiting(s)
    requires ev.WakeEv? || (ev.CheckEv? && !(s.idle >= |s.undo| && |s.workers| > s.minThreads))
    ensures var t := NextTask(s);
      At(Apply(s, ev), ev.w, HasTask(t)) && Apply(s, ev).undo == s.undo - {t} && t in s.undo
  {
    FirstIsPlaced(s);
  }

  // Then it runs it, once, and comes back for more.
  lemma DoesTask(s: Tp, w: WorkerId, t: Token)
    requires Inv(s) && At(s, w, HasTask(t))
    ensures Enabled(s, BeginEv(w)) && Inv(Apply(s, BeginEv(w)))
    ensures var s1 := Apply(s, BeginEv(w)); Enabled(s1, RunEv(w)) && Inv(Apply(s1, RunEv(w)))
    ensures var s2 := Apply(Apply(s, BeginEv(w)), RunEv(w)); Enabled(s2, FinishEv(w)) && Inv(Apply(s2, FinishEv(w)))
    ensures var r := Apply(Apply(Apply(s, BeginEv(w)), RunEv(w)), FinishEv(w));
      && At(r, w, Checking) && t in r.runs && r.runs[t] == 1 && t in r.life && r.life[t] == Done
      && r.undo == s.undo && r.workers == s.workers[w := Checking]
      && r.maxThreads == s.maxThreads && r.minThreads == s.minThreads
  {
    assert WorkerOk(s, w) && TaskOk(s, t);
    StepInv(s, BeginEv(w));
    var s1 := Apply(s, BeginEv(w));
    assert WorkerOk(s1, w) && TaskOk(s1, t);
    StepInv(s1, RunEv(w));
    var s2 := Apply(s1, RunEv(w));
    StepInv(s2, FinishEv(w));
    assert s.workers[w := Running(t)][w := Ran(t)][w := Checking] == s.workers[w := Checking];
  }

  // A worker that has decided to exit goes.
  lemma LeaverGoes(s: Tp, w: WorkerId)
    requires |s.queues| == LEVELS && At(s, w, Leaving)
    ensures Enabled(s, LeaveEv(w)) && Apply(s, LeaveEv(w)).workers.Keys == s.workers.Keys - {w}
  {
  }

  // ---- who will run a waiting task ----

  // Some registered worker has not decided to exit.
  ghost predicate Live(s: Tp) {
    exists w :: w in s.workers && s.workers[w] != Leaving
  }

  ghost predicate Served(s: Tp) {
    s.undo != {} ==> Live(s)
  }

  // With equal bounds every thread stays.
  ghost predicate Fixed(s: Tp) {
    s.minThreads == s.maxThreads == |s.workers| && forall w :: w in s.workers ==> s.workers[w] != Leaving
  }

  lemma FixedStep(s: Tp, ev: Event)
    requires Inv(s) && Fixed(s) && Enabled(s, ev)
    ensures Fixed(Apply(s, ev)) && Apply(s, ev).maxThreads == s.maxThreads
  {
    var s' := Apply(s, ev);
    if s'.workers != s.workers {
      assert s'.workers.Keys == s.workers.Keys;
      assert |s'.workers| == |s'.workers.Keys| && |s.workers| == |s.workers.Keys|;
    }
  }

  lemma {:induction false} FixedRun(ss: seq<Tp>, evs: seq<Event>, n: nat)
    requires IsRun(ss, evs) && Fixed(ss[0]) && ss[0].maxThreads > 0 && n < |ss|
    ensures Fixed(ss[n]) && ss[n].maxThreads > 0 && Live(ss[n])
  {
    if n > 0 {
      FixedRun(ss, evs, n - 1);
      RunInv(ss, evs, n - 1);
      assert StepTo(ss[n - 1], evs[n - 1], ss[n - 1 + 1]);
      FixedStep(ss[n - 1], evs[n - 1]);
    }
    FixedLive(ss[n]);
  }

  lemma FixedLive(s: Tp)
    requires Fixed(s) && s.maxThreads > 0
    ensures Live(s)
  {
    assert |s.workers| == |s.workers.Keys|;
    var w :| w in s.workers.Keys;
    assert s.workers[w] != Leaving;
  }

  // Some run leads from one state to another.
  ghost predicate Reaches(s: Tp, t: Tp) {
    exists ss, evs :: IsRun(ss, evs) && ss[0] == s && ss[|evs|] == t
  }

  lemma ReachesItself(s: Tp)
    requires Inv(s)
    ensures Reaches(s, s)
  {
    var evs: seq<Event> := [];
    assert IsRun([s], evs) && [s][|evs|] == s;
  }

  lemma ReachesNext(s: Tp, t: Tp, ev: Event)
    requires Reaches(s, t) && |t.queues| == LEVELS && Enabled(t, ev)
    ensures Reaches(s, Apply(t, ev))
  {
    var ss, evs :| IsRun(ss, evs) && ss[0] == s && ss[|evs|] == t;
    RunSnoc(ss, evs, ev);
    var ss', evs' := ss + [Apply(t, ev)], evs + [ev];
    assert IsRun(ss', evs') && ss'[0] == s && ss'[|evs'|] == Apply(t, ev);
  }

  lemma RunSnoc(ss: seq<Tp>, evs: seq<Event>, ev: Event)
    requires IsRun(ss, evs)
    requires var t := ss[|evs|]; |t.queues| == LEVELS && Enabled(t, ev)
    ensures IsRun(ss + [Apply(ss[|evs|], ev)], evs + [ev])
  {
    var ss', evs' := ss + [Apply(ss[|evs|], ev)], evs + [ev];
    forall i | 0 <= i < |evs'| ensures StepTo(ss'[i], evs'[i], ss'[i + 1]) {
      if i < |evs| {
        assert StepTo(ss[i], evs[i], ss[i + 1]);
        assert ss'[i] == ss[i] && ss'[i + 1] == ss[i + 1] && evs'[i] == evs[i];
      }
    }
  }

  lemma ReachesTrans(s: Tp, t: Tp, u: Tp)
    requires Reaches(s, t) && Reaches(t, u)
    ensures Reaches(s, u)
  {
    var ss, evs :| IsRun(ss, evs) && ss[0] == t && ss[|evs|] == u;
    ReachesAlong(s, ss, evs, |evs|);
  }

  lemma {:induction false} ReachesAlong(s: Tp, ss: seq<Tp>, evs: seq<Event>, n: nat)
    requires IsRun(ss, evs) && n < |ss| && Reaches(s, ss[0])
    ensures Reaches(s, ss[n])
  {
    if n > 0 {
      ReachesAlong(s, ss, evs, n - 1);
      assert StepTo(ss[n - 1], evs[n - 1], ss[n - 1 + 1]);
      ReachesNext(s, ss[n - 1], evs[n - 1]);
    }
  }

  // Nothing is queued, and every worker is at the top of its loop or about to exit.
  ghost predicate AtRest(s: Tp) {
    && s.queues == [[], [], [], [], []] && s.undo == {} && s.doing == {}
    && forall w :: w in s.workers ==> s.workers[w] == Checking || s.workers[w] == Leaving
  }

  lemma RestIdle(s: Tp)
    requires AtRest(s) && CountsOk(s)
    ensures s.idle == 0
  {
    assert Sleepers(s.workers) == {};
  }

  // A name that no worker has.
  lemma {:induction false} Above(ws: set<WorkerId>) returns (w: WorkerId)
    ensures forall v :: v in ws ==> v < w
    decreases |ws|
  {
    if ws == {} {
      w := 0;
    } else {
      var v :| v in ws;
      var w1 := Above(ws - {v});
      w := Max(v + 1, w1);
      forall u | u in ws ensures u < w {
        assert u == v || u in ws - {v};
      }
    }
  }

  // A task that is cancelled at once leaves one worker more.
  lemma GrowOnce(s0: Tp, s: Tp) returns (r: Tp)
    requires Reaches(s0, s) && Inv(s) && AtRest(s) && |s.workers| < s.maxThreads
    ensures Reaches(s0, r) && Inv(r) && AtRest(r) && |r.workers| == |s.workers| + 1
    ensures r.maxThreads == s.maxThreads && r.minThreads == s.minThreads
  {
    var w := Above(s.workers.Keys);
    var t := Token(s.lastId + 1, 0);
    ExecuteAtRest(s, t, w);
    var s1 := Apply(s, ExecuteEv(0, t, w));
    Advance(s0, s, ExecuteEv(0, t, w));
    r := CancelAgain(s0, s1, t);
    SleepersUpdate(s.workers, w, Checking);
  }

  lemma Advance(s0: Tp, s: Tp, ev: Event)
    requires Reaches(s0, s) && Inv(s) && Enabled(s, ev)
    ensures Reaches(s0, Apply(s, ev)) && Inv(Apply(s, ev))
  {
    ReachesNext(s0, s, ev);
    StepInv(s, ev);
  }

  lemma CancelAgain(s0: Tp, s: Tp, t: Token) returns (r: Tp)
    requires Reaches(s0, s) && Inv(s)
    requires s.queues == [[], [], [t], [], []] && s.undo == {t} && s.doing == {}
    requires forall w :: w in s.workers ==> s.workers[w] == Checking || s.workers[w] == Leaving
    ensures Reaches(s0, r) && Inv(r) && AtRest(r) && r.workers == s.workers
    ensures r.maxThreads == s.maxThreads && r.minThreads == s.minThreads
  {
    Advance(s0, s, CancelEv(t));
    r := Apply(s, CancelEv(t));
    CancelOnly(s, t);
  }

  lemma ExecuteAtRest(s: Tp, t: Token, w: WorkerId)
    requires AtRest(s) && CountsOk(s) && |s.workers| < s.maxThreads
    ensures var s' := Execute(s, 2, t, w);
      && s'.queues == [[], [], [t], [], []] && s'.undo == {t} && s'.doing == {}
      && s'.workers == s.workers[w := Checking]
  {
    RestIdle(s);
    assert s.undo + {t} == {t} && |{t}| == 1;
    assert s.queues[2] + [t] == [t];
    var q := s.queues[2 := [t]];
    assert q == [[], [], [t], [], []];
  }

  lemma CancelOnly(s: Tp, t: Token)
    requires s.queues == [[], [], [t], [], []] && s.undo == {t} && t !in s.doing
    ensures Cancel(s, t).queues == [[], [], [], [], []] && Cancel(s, t).undo == {} && Cancel(s, t).workers == s.workers
  {
    assert t in s.queues[2];
    assert LevelOf(s.queues, t) == 2;
    assert Erase([t], t) == [];
  }

  lemma {:induction false} GrowFull(s0: Tp, s: Tp) returns (r: Tp)
    requires Reaches(s0, s) && Inv(s) && AtRest(s)
    ensures Reaches(s0, r) && Inv(r) && AtRest(r) && |r.workers| == r.maxThreads
    ensures r.maxThreads == s.maxThreads && r.minThreads == s.minThreads
    decreases s.maxThreads - |s.workers|
  {
    if |s.workers| < s.maxThreads {
      var s1 := GrowOnce(s0, s);
      r := GrowFull(s0, s1);
    } else {
      r := s;
    }
  }

  ghost function Stayers(ws: map<WorkerId, Pc>): set<WorkerId> {
    set w | w in ws && ws[w] == Checking
  }

  // While more threads are registered than must stay, each of them decides to exit.
  lemma {:induction false} AllLeave(s0: Tp, s: Tp) returns (r: Tp)
    requires Reaches(s0, s) && Inv(s) && AtRest(s) && |s.workers| == s.maxThreads > s.minThreads
    ensures Reaches(s0, r) && Inv(r) && AtRest(r) && |r.workers| == r.maxThreads && !Live(r)
    decreases |Stayers(s.workers)|
  {
    if w :| w in s.workers && s.workers[w] == Checking {
      RestIdle(s);
      var s1 := Apply(s, CheckEv(w));
      assert s1 == s.(workers := s.workers[w := Leaving]);
      Advance(s0, s, CheckEv(w));
      SleepersUpdate(s.workers, w, Leaving);
      assert Stayers(s1.workers) == Stayers(s.workers) - {w};
      r := AllLeave(s0, s1);
    } else {
      r := s;
    }
  }

  // A task that finds the pool full of workers about to exit.
  lemma Strands(s0: Tp, s: Tp) returns (r: Tp)
    requires Reaches(s0, s) && Inv(s) && AtRest(s) && |s.workers| == s.maxThreads && !Live(s)
    ensures Reaches(s0, r) && !Served(r)
  {
    var w := Above(s.workers.Keys);
    var t := Token(s.lastId + 1, 0);
    r := Apply(s, ExecuteEv(0, t, w));
    ReachesNext(s0, s, ExecuteEv(0, t, w));
    assert r.workers == s.workers && t in r.undo;
  }

  /** From the pair of bounds a caller can tell whether a waiting task may be left without a worker that will look
      at the queues again: in some run it is, exactly if the bounds differ. */
  lemma StarvesIff(minThreads: nat, maxThreads: nat, ws: set<WorkerId>)
    requires |ws| == minThreads <= maxThreads && maxThreads > 0
    ensures (exists s :: Reaches(Init(minThreads, maxThreads, ws), s) && !Served(s)) <==> minThreads < maxThreads
  {
    var s0 := Init(minThreads, maxThreads, ws);
    InitInv(minThreads, maxThreads, ws);
    assert s0.workers.Keys == ws && |s0.workers| == |s0.workers.Keys|;
    if minThreads < maxThreads {
      ReachesItself(s0);
      var s1 := GrowFull(s0, s0);
      var s2 := AllLeave(s0, s1);
      var s3 := Strands(s0, s2);
    } else {
      forall s | Reaches(s0, s) ensures Served(s) {
        var ss, evs :| IsRun(ss, evs) && ss[0] == s0 && ss[|evs|] == s;
        FixedRun(ss, evs, |evs|);
      }
    }
  }

  // Serving one task, in four steps.
  lemma ServeOne(s0: Tp, s: Tp, w: WorkerId) returns (r: Tp)
    requires Reaches(s0, s) && Inv(s) && Fixed(s) && At(s, w, Checking) && s.undo != {}
    ensures Reaches(s0, r) && Inv(r) && Fixed(r) && At(r, w, Checking) && r.maxThreads == s.maxThreads
    ensures AnyWaiting(s) && r.undo == s.undo - {NextTask(s)} && NextTask(s) in s.undo
    ensures NextTask(s) in r.life && r.life[NextTask(s)] == Done
  {
    AnyWaitingIff(s);
    var t := NextTask(s);
    TakesNext(s, CheckEv(w));
    Advance(s0, s, CheckEv(w));
    FixedStep(s, CheckEv(w));
    var s1 := Apply(s, CheckEv(w));
    DoesTask(s1, w, t);
    ReachesNext(s0, s1, BeginEv(w));
    ReachesNext(s0, Apply(s1, BeginEv(w)), RunEv(w));
    ReachesNext(s0, Apply(Apply(s1, BeginEv(w)), RunEv(w)), FinishEv(w));
    r := Apply(Apply(Apply(s1, BeginEv(w)), RunEv(w)), FinishEv(w));
    SleepersUpdate(s1.workers, w, Checking);
  }

  lemma DoneStays(s: Tp, r: Tp, t: Token)
    requires Reaches(s, r) && t in s.life && s.life[t] == Done
    ensures t in r.life && r.life[t] == Done
  {
    var ss, evs :| IsRun(ss, evs) && ss[0] == s && ss[|evs|] == r;
    DoneInRun(ss, evs, |evs|, t);
  }

  lemma {:induction false} DoneInRun(ss: seq<Tp>, evs: seq<Event>, n: nat, t: Token)
    requires IsRun(ss, evs) && n < |ss| && t in ss[0].life && ss[0].life[t] == Done
    ensures t in ss[n].life && ss[n].life[t] == Done
  {
    if n > 0 {
      DoneInRun(ss, evs, n - 1, t);
      RunInv(ss, evs, n - 1);
      assert StepTo(ss[n - 1], evs[n - 1], ss[n - 1 + 1]);
      FinalStep(ss[n - 1], evs[n - 1], t);
    }
  }

  /** With equal bounds, one worker at the top of its loop is enough: from there some run does every waiting task. */
  lemma {:induction false} DrainsAll(s: Tp, w: WorkerId) returns (r: Tp)
    requires Inv(s) && Fixed(s) && At(s, w, Checking)
    ensures Reaches(s, r) && r.undo == {}
    ensures forall t :: t in s.undo ==> t in r.life && r.life[t] == Done
    decreases |s.undo|
  {
    ReachesItself(s);
    if s.undo == {} {
      r := s;
    } else {
      var s1 := ServeOne(s, s, w);
      r := DrainsAll(s1, w);
      ReachesTrans(s, s1, r);
      DoneStays(s1, r, NextTask(s));
    }
  }
}
