// The thread pool's own code over the step system: what each critical section does to its fields.
module ThreadPools {
  import opened Wrappers
  import opened Cabinets
  import opened ThreadPoolModel

  lemma {:induction false} LevelOfIs(q: seq<seq<Token>>, t: Token, i: nat)
    requires i <= |q| && (i < |q| ==> t in q[i]) && forall j :: 0 <= j < i ==> t !in q[j]
    ensures LevelOf(q, t) == i
  {
    if i > 0 {
      LevelOfIs(q[1..], t, i - 1);
    }
  }

  lemma {:induction false} FirstLevelIs(q: seq<seq<Token>>, i: nat)
    requires i <= |q| && (i < |q| ==> q[i] != []) && forall j :: 0 <= j < i ==> q[j] == []
    ensures FirstLevel(q) == i
  {
    if i > 0 {
      FirstLevelIs(q[1..], i - 1);
    }
  }

  // std::find and deque::erase.
  method EraseFirst(s: seq<Token>, t: Token) returns (r: seq<Token>)
    requires t in s
    ensures r == Erase(s, t)
  {
    var k := 0;
    while s[k] != t
      invariant 0 <= k < |s| && t !in s[..k] && t in s[k..]
      decreases |s| - k
    {
      k := k + 1;
    }
    EraseAt(s, t, k);
    r := s[..k] + s[k + 1..];
  }

  lemma {:induction false} EraseAt(s: seq<Token>, t: Token, k: nat)
    requires k < |s| && s[k] == t && t !in s[..k]
    ensures Erase(s, t) == s[..k] + s[k + 1..]
  {
    if k > 0 {
      assert s[0] in s[..k];
      assert s[..k] == [s[0]] + s[1..][..k - 1];
      assert s[1..][k..] == s[k + 1..];
      EraseAt(s[1..], t, k - 1);
    }
  }

  class ThreadPool {
    var isReady: bool
    var minThreads: nat
    var maxThreads: nat
    // The waiting tasks by token; a task is its number in the order of acceptance.
    const undo: Cabinet<nat>
    var queues: seq<seq<Token>>
    var doing: set<Token>
    var idle: nat
    var workers: map<WorkerId, Pc>
    ghost var life: map<Token, Life>
    ghost var runs: map<Token, nat>

    ghost function State(): Tp
      reads this, undo
    {
      Tp(minThreads, maxThreads, undo.contents.Keys, undo.lastId, queues, doing, idle, workers, life, runs)
    }

    ghost predicate Valid()
      reads this, undo
    {
      undo.Valid() && Inv(State())
    }

    constructor ()
      ensures !isReady && undo.Valid() && undo.contents == map[] && undo.lastId == 0 && fresh(undo)
    {
      undo := new Cabinet<nat>();
      isReady, minThreads, maxThreads, queues, doing := false, 0, 0, [[], [], [], [], []], {};
      idle, workers, life, runs := 0, map[], map[], map[];
    }

    /** Refuses bad bounds; otherwise starts `minNum` workers, named by `ws`. */
    method Initialize(minNum: int, maxNum: int, ws: set<WorkerId>) returns (ok: bool)
      requires undo.Valid() && undo.contents == map[] && undo.lastId == 0
      requires minNum >= 0 ==> |ws| == minNum
      modifies this
      ensures ok <==> !old(isReady) && 0 <= minNum <= maxNum && maxNum != 0
      ensures !ok ==> isReady == old(isReady) && State() == old(State())
      ensures ok ==> isReady && Valid() && State() == Init(minNum, maxNum, ws)
    {
      if isReady {
        return false;
      }
      if maxNum < 0 || minNum < 0 || minNum > maxNum || maxNum == 0 {
        return false;
      }
      minThreads, maxThreads := minNum, maxNum;
      queues, doing, idle, life, runs := [[], [], [], [], []], {}, 0, map[], map[];
      workers := map w | w in ws :: Checking;
      isReady := true;
      ok := true;
      InitInv(minNum, maxNum, ws);
      assert undo.contents.Keys == {};
    }

    /** Accepts a task, and starts the worker `w` if the idle ones do not suffice. */
    method Execute(item: nat, prio: int, w: WorkerId) returns (token: Token)
      requires isReady ==> Valid()
      requires undo.lastId < MAX_ID && |undo.cells| < NO_POS && w !in workers
      modifies this`queues, this`workers, this`life, this`runs, undo
      ensures !old(isReady) ==> token.IsNull() && State() == old(State())
      ensures old(isReady) ==> Valid() && State() == ThreadPoolModel.Execute(old(State()), Level(prio), token, w)
      ensures old(isReady) ==> token.id == old(undo.lastId) + 1 && token !in old(undo.contents)
      ensures old(isReady) ==>
        workers == if |old(undo.contents)| + 1 > idle && |old(workers)| < maxThreads then old(workers)[w := Checking]
                   else old(workers)
    {
      if !isReady {
        return Token(0, 0);
      }
      token := Accept(item, Level(prio), w);
      StepInv(old(State()), ExecuteEv(prio, token, w));
    }

    method Accept(item: nat, level: nat, w: WorkerId) returns (token: Token)
      requires undo.Valid() && level < |queues| == LEVELS
      requires undo.lastId < MAX_ID && |undo.cells| < NO_POS
      modifies this`queues, this`workers, this`life, this`runs, undo
      ensures undo.Valid() && State() == ThreadPoolModel.Execute(old(State()), level, token, w)
      ensures token.id == old(undo.lastId) + 1 && token !in old(undo.contents)
      ensures workers == if |old(undo.contents)| + 1 > idle && |old(workers)| < maxThreads then old(workers)[w := Checking]
                         else old(workers)
    {
      ghost var waiting := undo.contents.Keys;
      token := undo.Alloc(Some(item));
      assert undo.contents.Keys == waiting + {token};
      var size := undo.Size();
      assert |waiting + {token}| == size;
      Enqueue(level, token, size, w);
    }

    // Queues the token and, when there are more waiting tasks than idle threads, calls createWorker().
    method Enqueue(level: nat, token: Token, size: nat, w: WorkerId)
      requires level < |queues|
      modifies this`queues, this`workers, this`life, this`runs
      ensures queues == old(queues)[level := old(queues)[level] + [token]]
      ensures life == old(life)[token := Queued] && runs == old(runs)[token := 0]
      ensures workers == if size > idle && |old(workers)| < maxThreads then old(workers)[w := Checking] else old(workers)
    {
      queues := queues[level := queues[level] + [token]];
      life, runs := life[token := Queued], runs[token := 0];
      if size > idle {
        if |workers| < maxThreads {
          workers := workers[w := Checking];
        }
      }
    }

    /** 0: cancelled, 1: no such task, 2: being done. */
    method Cancel(token: Token) returns (code: int)
      requires Valid()
      modifies this`queues, this`life, undo
      ensures Valid() && State() == ThreadPoolModel.Cancel(old(State()), token)
      ensures code == CancelCode(old(State()), token)
    {
      ghost var s := State();
      StepInv(s, CancelEv(token));
      if token in doing {
        return 2;
      }
      var i := 0;
      while i < |queues|
        invariant 0 <= i <= |queues| && State() == s && undo.Valid()
        invariant forall j :: 0 <= j < i ==> token !in queues[j]
      {
        if token in queues[i] {
          LevelOfIs(queues, token, i);
          Withdraw(token, i);
          return 0;
        }
        i := i + 1;
      }
      LevelOfIs(queues, token, i);
      code := 1;
    }

    // Takes a waiting task out of its level and out of the cabinet.
    method Withdraw(token: Token, i: nat)
      requires undo.Valid() && token !in doing && i < |queues| && LevelOf(queues, token) == i
      modifies this`queues, this`life, undo
      ensures undo.Valid() && State() == ThreadPoolModel.Cancel(old(State()), token)
    {
      ghost var s := State();
      var rest := EraseFirst(queues[i], token);
      queues := queues[i := rest];
      life := life[token := Cancelled];
      var item := undo.Free(token);
      assert undo.contents.Keys == s.undo - {token};
    }

    // Pops the next task and gives it to worker w; there is one.
    method PopOneTask(w: WorkerId)
      requires undo.Valid() && AnyWaiting(State())
      modifies this`queues, this`workers, this`life, undo
      ensures undo.Valid() && State() == Pop(old(State()), w)
    {
      ghost var s := State();
      var i := 0;
      while queues[i] == []
        invariant 0 <= i <= FirstLevel(queues) < |queues| && State() == s && undo.Valid()
        decreases |queues| - i
      {
        i := i + 1;
      }
      var token := queues[i][0];
      queues := queues[i := queues[i][1..]];
      var item := undo.Free(token);
      workers, life := workers[w := HasTask(token)], life[token := Popped(w)];
      assert undo.contents.Keys == s.undo - {token};
    }

    // Whether the wait for work is over.
    method ShouldExitWaiting() returns (yes: bool)
      requires |queues| == LEVELS
      ensures yes == AnyWaiting(State())
    {
      var i := 0;
      while i < |queues|
        invariant 0 <= i <= |queues|
        invariant forall j :: 0 <= j < i ==> queues[j] == []
      {
        if queues[i] != [] {
          FirstLevelIs(queues, i);
          return true;
        }
        i := i + 1;
      }
      FirstLevelIs(queues, i);
      yes := false;
    }

    /** The top of the worker's loop: decides to leave, or finds a task, or falls asleep. */
    method CheckIn(w: WorkerId)
      requires Valid() && At(State(), w, Checking)
      modifies this`queues, this`workers, this`life, this`idle, undo
      ensures Valid() && State() == Check(old(State()), w)
      ensures w in workers
      ensures workers[w] == Leaving <==> old(idle) >= |old(undo.contents)| && |old(workers)| > minThreads
    {
      StepInv(State(), CheckEv(w));
      var size := undo.Size();
      assert size == |State().undo|;
      if idle >= size && |workers| > minThreads {
        workers := workers[w := Leaving];
        return;
      }
      var some := ShouldExitWaiting();
      if some {
        PopOneTask(w);
      } else {
        idle, workers := idle + 1, workers[w := Waiting];
      }
    }

    /** A sleeping worker wakes up because there is work. */
    method WakeUp(w: WorkerId)
      requires Valid() && At(State(), w, Waiting) && AnyWaiting(State())
      modifies this`queues, this`workers, this`life, this`idle, undo
      ensures Valid() && old(State()).idle > 0 && State() == Wake(old(State()), w)
    {
      assert w in Sleepers(workers);
      StepInv(State(), WakeEv(w));
      idle := idle - 1;
      PopOneTask(w);
    }

    method BeginTask(w: WorkerId)
      requires Valid() && w in workers && workers[w].HasTask?
      modifies this`doing, this`workers, this`life
      ensures Valid() && State() == Begin(old(State()), w)
    {
      StepInv(State(), BeginEv(w));
      var t := workers[w].t;
      doing, workers, life := doing + {t}, workers[w := Running(t)], life[t := Doing(w)];
    }

    method RunTask(w: WorkerId)
      requires Valid() && w in workers && workers[w].Running?
      modifies this`workers, this`runs
      ensures Valid() && old(workers[w].t) in old(runs) && State() == Run(old(State()), w)
    {
      var t := workers[w].t;
      assert WorkerOk(State(), w) && TaskOk(State(), t);
      StepInv(State(), RunEv(w));
      workers, runs := workers[w := Ran(t)], runs[t := runs[t] + 1];
    }

    method FinishTask(w: WorkerId)
      requires Valid() && w in workers && workers[w].Ran?
      modifies this`doing, this`workers, this`life
      ensures Valid() && State() == Finish(old(State()), w)
    {
      StepInv(State(), FinishEv(w));
      var t := workers[w].t;
      doing, workers, life := doing - {t}, workers[w := Checking], life[t := Done];
    }
  }
}
