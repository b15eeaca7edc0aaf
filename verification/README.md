# Verified cores of cpp-tbox

cpp-tbox is a C++ framework around an event loop. These modules model its hand-written stateful cores and its
codecs, and prove what they are for. All files are verified together with

    dafny verify dfyconfig.toml

## How the model is built

Classes follow the program: the same fields, loops and branches, updated in place. Each class is tied to a
specification on values by its contracts, and what the program promises is proved about the specification, over
every run where a run matters.

| files | what they model |
|---|---|
| `cabinet` | the generational slot map: cells, the free list inside them, tokens |
| `timer_heap`, `timer_sweep`, `timers` | the loop's timers: heap, cabinet, object pool, expiry sweep, deferred release |
| `async_pipe_model`, `async_pipe` | the pipe between producers and a backend thread |
| `thread_pool_model`, `thread_pool` | the thread pool |
| `run_queues_model`, `run_queues` | functions submitted to a loop, from it or from other threads, over several loop runs |
| `state_machine_model`, `state_machine_routes`, `state_machine_trace`, `state_machine_exits`, `state_machine_deaf`, `state_machine` | nested state machines |
| `action`, `action_trace`, `action_executor_model`, `action_executor` | actions and the preemptive executor |
| `aes_bytes`, `aes_model`, `aes_vectors`, `aes` | the AES cipher, and its standard |
| `md5_model`, `md5` | the MD5 calculator |
| `url_coding`, `url_path`, `url_round_trip`, `url` | percent-encoding, and the path part of a URL |
| `scalable_integer`, `trace_stream` | the variable-length integer and the trace files made of it |
| `buffer`, `log_frames`, `log_sink` | the byte buffer, log records as frames in chunks, and both over the pipe |
| `timeout_ring`, `rpc_model`, `rpc` | the timeout monitor, and remote calls that rely on it |
| `alarm_search`, `alarm` | weekly and working-day alarms |

Threads are step systems. A step is what a thread does inside one critical section, or what it does between two of
them; a run is any interleaving. A timed wait may end at any time. The producer's methods of the pipe let the
backend run at every lock boundary; the other classes execute one thread's step, or several, on their own.

Callbacks and hooks are entries of a trace, or choices left open: an action's hook may end the action, a
function on the loop may submit and cancel others, a guard or handler of a state machine may answer anything. They
do not call back into the object that runs them, except where a row below says so. The clock is a parameter.

Integers are unbounded unless their width matters. It is written out for ids and tokens, for the MD5 counter, for
the trace and the scalable integer, and for the alarm's waiting time.

Facts about the program that the proofs brought out, each with a lemma of its own:

- A task can be left in the thread pool with no worker to do it, exactly if the bounds on threads differ
  (`StarvesIff`).
- The loop's wake-up flag outlives the end of a loop run (`FlagLeftUpIff` says exactly when), and then no later
  loop run is woken for cross-thread functions (`NeverWokenAgain`, `StaleFlagSwallowsWakeUp`).
- A state machine whose sub-machine ends while no route leads on ignores all later events, and so do the machines
  above it (`DeafForever`, `GoesDeafIff`, `CanGoDeaf`; `NeverDeaf` says how to build one that does not). `stop()`
  does not stop sub-machines (`StopNestsIff`, `CanStopOutOfOrder`).
- A token of the cabinet comes back to life once the id counter has wrapped, and no sooner (`StaleUntilWrap`,
  `WrapRevives`).
- An MD5 update of 2^29 bytes or more counts one carry too many unless there is one (`CounterIff`).
- A URL fragment with ';' or '?' is misread when the path has no parameters or no query (`RoundTripIff`).
- The waiting time of an alarm overflows beyond 49.7 days (`RemainIff`, `LongHoliday`), and an alarm that is disabled and
  enabled again, with the same or another schedule, skips all that is due up to its old target (`ReenableIff`,
  `SkipsDays`).
- A scalable integer of eleven bytes, and no other input, makes the parser read past its table (`OutcomeIff`).

## Model

| member | source | states |
|---|---|---|
| `Cabinets.CountIsLive` | modules/base/cabinet.hpp:94-137 | `count_` is the number of live tokens: every cell is live or on the free list, and the free list has no repetition |
| `Cabinets.AllocRefines` | modules/base/cabinet.hpp:94-105 | allocation issues a token that was not live and adds exactly that binding; a cell is appended only when no cell is free |
| `Cabinets.UpdateRefines` | modules/base/cabinet.hpp:107-119 | update rebinds a live token and refuses every other one without change |
| `Cabinets.FreeRefines` | modules/base/cabinet.hpp:121-137 | free returns the bound object and removes exactly that binding; a dead, foreign or null token changes nothing |
| `Cabinets.AtRefines` | modules/base/cabinet.hpp:148-158 | lookup answers what the map from live tokens to objects says, null for any other token |
| `Cabinets.RunRefinesMap` | modules/base/cabinet.hpp:94-158 | every run of alloc, update and free is a run of a map from tokens to objects with the same answers |
| `Cabinets.CellsArePeak` | modules/base/cabinet.hpp:186-200 | the number of cells is the historical peak of live objects |
| `Cabinets.StaleUntilWrap` | modules/base/cabinet.hpp:121-184 | between clears a freed token does not resolve again before its id is issued again, MAX_ID - lastId + id allocations later, whatever else happens and though its cell is reused |
| `Cabinets.WrapRevives` | modules/base/cabinet.hpp:121-200 | and after exactly that many it can: from every state with a live token there is a run in which the freed token resolves to another object |
| `Cabinets.Cabinet.Alloc` | modules/base/cabinet.hpp:94-105 | the new contents, token and cells in place |
| `Cabinets.Cabinet.Update` | modules/base/cabinet.hpp:107-119 | in place, the map gains the new binding exactly for a live token |
| `Cabinets.Cabinet.Free` | modules/base/cabinet.hpp:121-137 | in place: the cell goes to the head of the free list and the binding goes |
| `Cabinets.Cabinet.At` | modules/base/cabinet.hpp:148-158 | answers from the contents |
| `Cabinets.Cabinet.AllocPos` | modules/base/cabinet.hpp:186-200 | the head of the free list or a new cell |
| `TimerHeaps.TopIsLeast` | modules/event/common_loop_timer.cpp:62-67 | the front of a heap expires no later than any element |
| `TimerHeaps.PushHeap` | modules/event/common_loop_timer.cpp:134-135 | sifting the last element up restores the heap and keeps its elements |
| `TimerHeaps.PopHeap` | modules/event/common_loop_timer.cpp:76-76 | the front goes to the end, the rest is a heap again, the elements are kept |
| `TimerHeaps.MakeHeap` | modules/event/common_loop_timer.cpp:152-154 | any vector becomes a heap of the same elements |
| `TimerSweeps.FiresStep` | modules/event/common_loop_timer.cpp:77-88 | a timer due at e with interval d fires floor((now - e) / d) + 1 times in a sweep, at most `repeat` times if that is positive: one firing is one less |
| `TimerSweeps.DuesStep` | modules/event/common_loop_timer.cpp:77-88 | the instants it fires for, one interval apart |
| `TimerSweeps.SweptIsLater` | modules/event/common_loop_timer.cpp:62-67 | what is left of a swept timer is due after now |
| `TimerSweeps.MidwayStep` | modules/event/common_loop_timer.cpp:62-98 | midway through a sweep, what each timer has fired and what it still owes is what it owed at the start, in non-decreasing due time |
| `TimerSweeps.OwedStep` | modules/event/common_loop_timer.cpp:62-98 | each firing uses up one of the firings still owed, so the sweep ends when intervals are positive |
| `TimerSweeps.SweepDone` | modules/event/common_loop_timer.cpp:62-98 | when nothing is due, every timer has fired exactly what it owed |
| `Timers.ApplyAgrees` | modules/event/common_loop_timer.cpp:75-159 | every add, delete, firing and deferred release keeps heap, cabinet and object pool in agreement and does to the timers what a user of tokens sees |
| `Timers.RunAgrees` | modules/event/common_loop_timer.cpp:75-159 | the same over every run, callbacks that add or delete timers in mid-sweep included: each live timer is in the heap once and its token resolves to it |
| `Timers.ReleasedOnce` | modules/event/common_loop_timer.cpp:75-159 | over every run, for each timer object: what was there at the start or added is either still there or was released, each time exactly once |
| `Timers.ZeroOnTop` | modules/event/common_loop_timer.cpp:152-155 | a timer whose `expired` is set to 0 is the only one at the front, so popping the front removes exactly it; needs a clock above 0 |
| `Timers.DeletedAgrees` | modules/event/common_loop_timer.cpp:140-159 | deleting takes out the named timer only and parks its object for release |
| `Timers.ErasedAgrees` | modules/event/common_loop_timer.cpp:140-144 | a token that names no timer deletes nothing |
| `Timers.TimerLoop.GetWaitTime` | modules/event/common_loop_timer.cpp:40-54 | never sleeps past a live timer, does not sleep while deferred calls wait, sleeps for ever only without timers |
| `Timers.TimerLoop.AddTimer` | modules/event/common_loop_timer.cpp:118-138 | exactly one timer is added, due one interval from now, under a new token |
| `Timers.TimerLoop.DeleteTimer` | modules/event/common_loop_timer.cpp:140-159 | exactly the named timer goes |
| `Timers.TimerLoop.ExpireFirst` | modules/event/common_loop_timer.cpp:62-88 | one turn of the sweep fires the earliest due timer and re-arms or retires it |
| `Timers.TimerLoop.HandleExpiredTimers` | modules/event/common_loop_timer.cpp:56-99 | with callbacks that leave timers alone the sweep ends, fires in order of due time, pays each timer what it is owed and leaves only later ones |
| `AsyncPipeModel.StepInv` | modules/util/async_pipe.cpp:246-368 | every critical section of a producer or the backend, in any interleaving, keeps byte order, buffer counts and buffer sizes |
| `AsyncPipeModel.RunIsFifo` | modules/util/async_pipe.cpp:246-368 | over every interleaving, delivered bytes, the buffer in the backend's hand, the full queue, the current buffer and what the call in progress has left are the bytes appended in lock order |
| `AsyncPipeModel.RunKeepsPool` | modules/util/async_pipe.cpp:182-208 | `buff_num_` is the number of live buffers and stays between the minimum and the maximum; each callback gets 1 to `buff_size` bytes |
| `AsyncPipeModel.BuffersAhead` | modules/util/async_pipe.cpp:252-266 | a producer that waits for a buffer always has buffers in the full queue or in the backend's hand |
| `AsyncPipeModel.StarvingStep` | modules/util/async_pipe.cpp:330-363 | while it waits, every backend step brings it nearer to a buffer though buffers are deleted |
| `AsyncPipeModel.StarvingBackendRuns` | modules/util/async_pipe.cpp:288-368 | the backend is never blocked while a producer waits |
| `AsyncPipeModel.ProducerServed` | modules/util/async_pipe.cpp:252-363 | a waiting producer gets a buffer after at most max - min + 1 handed-over buffers and a bounded number of backend steps |
| `AsyncPipeModel.TimedFlush` | modules/util/async_pipe.cpp:288-330 | over every interleaving: if a sleep of the backend times out and no producer holds the lock at its next step, all that the calls had appended by then has been delivered when the backend is next at the head of its loop |
| `AsyncPipeModel.TimeoutDelivers` | modules/util/async_pipe.cpp:293-364 | step by step, with no other thread running: a timeout with the lock free delivers the current buffer though it is not full, and the buffer is then deleted or kept |
| `AsyncPipeModel.WakeDelivers` | modules/util/async_pipe.cpp:293-364 | a wake-up by full buffers delivers exactly those, in order, and leaves the current buffer alone |
| `AsyncPipeModel.DrainDelivers` | modules/util/async_pipe.cpp:330-364 | one run of the inner loop delivers the whole queue in order and deletes the buffers beyond the minimum |
| `AsyncPipeModel.WaitsOnlyAtMax` | modules/util/async_pipe.cpp:252-267 | over every interleaving a producer comes to wait only when the pool has its maximum and no buffer is free |
| `AsyncPipeModel.ClosingStep` | modules/util/async_pipe.cpp:210-228 | after the stop signal, with no producer, the backend comes nearer to its end with every step |
| `AsyncPipeModel.ClosedDelivered` | modules/util/async_pipe.cpp:210-228 | when the backend has ended, everything appended has been delivered |
| `AsyncPipes.PipeBuffer.Append` | modules/util/async_pipe.cpp:111-121 | writes what fits |
| `AsyncPipes.AsyncPipe.AppendLockless` | modules/util/async_pipe.cpp:246-286 | the producer's loop: it ends for every amount of data and follows the steps above, with the backend running at every lock boundary |
| `AsyncPipes.AsyncPipe.CriticalSection` | modules/util/async_pipe.cpp:288-368 | one critical section of the backend on the real queues is one backend step |
| `AsyncPipes.AsyncPipe.Cleanup` | modules/util/async_pipe.cpp:210-228 | ends with everything delivered, the buffers deleted and the stop signal taken back |
| `ThreadPoolModel.StepInv` | modules/eventx/thread_pool.cpp:139-427 | every step of execute, cancel and the worker loop keeps the places of tasks, the order of the queues and the counts of threads |
| `ThreadPoolModel.RunInv` | modules/eventx/thread_pool.cpp:139-427 | the same over every interleaving before cleanup |
| `ThreadPoolModel.WaitingIsQueued` | modules/eventx/thread_pool.cpp:139-181 | the tokens in the waiting cabinet are exactly those in the five queues, each in one place |
| `ThreadPoolModel.OnePlace` | modules/eventx/thread_pool.cpp:290-366 | an accepted task is in exactly one of waiting, popped, being done, done, cancelled |
| `ThreadPoolModel.OneWorker` | modules/eventx/thread_pool.cpp:327-364 | no two workers ever hold the same one |
| `ThreadPoolModel.CancelledNeverRuns` | modules/eventx/thread_pool.cpp:209-232 | after cancel() answered 0, no worker ever holds it |
| `ThreadPoolModel.CancelAnswers` | modules/eventx/thread_pool.cpp:209-232 | the three answers of cancel() tell where a task is |
| `ThreadPoolModel.PopsMostUrgentOldest` | modules/eventx/thread_pool.cpp:415-427 | a pop takes the oldest of the most urgent level that has any |
| `ThreadPoolModel.PopTakesOne` | modules/eventx/thread_pool.cpp:415-427 | and leaves all others where they are |
| `ThreadPoolModel.NextByUrgency` | modules/eventx/thread_pool.cpp:148-162 | over every run: the next task to be popped came with the least urgency number, clamped to -2..2, of all waiting tasks, and of those with the same it was accepted first |
| `ThreadPoolModel.TakesNext` | modules/eventx/thread_pool.cpp:303-328 | a worker that finds work and does not leave takes the next task |
| `ThreadPoolModel.DoesTask` | modules/eventx/thread_pool.cpp:331-364 | then it runs it once and comes back for more |
| `ThreadPoolModel.LeaverGoes` | modules/eventx/thread_pool.cpp:367-382 | a worker that has decided to exit gives up its place |
| `ThreadPoolModel.DrainsAll` | modules/eventx/thread_pool.cpp:290-365 | with equal bounds, one worker at the top of its loop is enough to do every waiting task |
| `ThreadPoolModel.StarvesIff` | modules/eventx/thread_pool.cpp:99-118 | from the two bounds alone: in some run a waiting task is left with no worker that will look at the queues again, exactly if the bounds differ |
| `ThreadPoolModel.FixedRun` | modules/eventx/thread_pool.cpp:299-313 | with equal bounds no worker ever leaves, in no run |
| `ThreadPools.ThreadPool.Initialize` | modules/eventx/thread_pool.cpp:99-127 | which bounds are refused; how many threads are started |
| `ThreadPools.ThreadPool.Execute` | modules/eventx/thread_pool.cpp:139-181 | queues at the clamped level and starts a thread exactly when there are more waiting tasks than idle threads and room for one |
| `ThreadPools.ThreadPool.Cancel` | modules/eventx/thread_pool.cpp:209-232 | the answer, and exactly the named one taken out |
| `ThreadPools.ThreadPool.PopOneTask` | modules/eventx/thread_pool.cpp:415-427 | the loop over the levels is the pop step |
| `ThreadPools.ThreadPool.CheckIn` | modules/eventx/thread_pool.cpp:299-313 | a worker decides to leave, waits or finds work |
| `ThreadPools.EraseFirst` | modules/eventx/thread_pool.cpp:214-224 | find and erase removes the first occurrence only |
| `RunQueuesModel.StepInv` | modules/event/common_loop_run.cpp:41-299 | every step of any thread (a submission, a cancellation, the swap at the start of a handler, taking one function, the rounds of a clean-up) keeps the queues ordered, each id in one place and the wake-up flag true to the queue |
| `RunQueuesModel.RunInv` | modules/event/common_loop_run.cpp:41-299 | the same over every interleaving of such steps, in the middle of a batch too |
| `RunQueuesModel.ExecutedInOrder` | modules/event/common_loop_run.cpp:158-269 | functions of one queue execute at most once and in submission order |
| `RunQueuesModel.NeverSleepsOnWork` | modules/event/common_loop_run.cpp:273-299 | at every step of a running loop a non-empty cross-thread queue has a wake-up pending, exactly if no earlier loop run ended with the flag up |
| `RunQueuesModel.CancelledNeverRuns` | modules/event/common_loop_run.cpp:128-156 | once cancel() answered true the function never executes, whether it was taken out of a queue or out of the batch being executed |
| `RunQueuesModel.CancelAnswers` | modules/event/common_loop_run.cpp:128-156 | cancel() answers true exactly for a function in a queue or in a handler's batch; a clean-up moves functions out of its reach |
| `RunQueuesModel.FlagLeftUpIff` | modules/event/common_loop.cpp:95-105 | a loop run ends with the flag up exactly if it was up when the loop stopped or a cross-thread function was submitted during the clean-up |
| `RunQueuesModel.NeverWokenAgain` | modules/event/common_loop.cpp:69-105 | after that the cross-thread handler is called in no later loop run |
| `RunQueuesModel.StaleFlagSwallowsWakeUp` | modules/event/common_loop.cpp:69-105 | a concrete run of two loop runs in which a submitted function waits with no wake-up pending |
| `RunQueuesModel.DrainIsBatch` | modules/event/common_loop_run.cpp:158-235 | a handler call executes at most the functions present at its start, whatever they submit |
| `RunQueuesModel.QueuedIsServed` | modules/event/common_loop_run.cpp:158-269 | over every run: what is queued when a handler, or a round of a clean-up, takes its queue has been executed or cancelled when that batch is done |
| `RunQueuesModel.RoundsExecute` | modules/event/common_loop_run.cpp:238-271 | a clean-up executes what it finds queued, the runNext functions first, each queue in order |
| `RunQueuesModel.StopExecutes` | modules/event/common_loop_run.cpp:238-271 | something may be left queued at the end of a loop run only after a hundred rounds |
| `RunQueuesModel.HandlersAreRuns` | modules/event/common_loop_run.cpp:158-269 | handler calls and the end of a loop run are runs of those steps |
| `RunQueues.CommonLoop.HandleNextFunc` | modules/event/common_loop_run.cpp:158-196 | swap and drain in place; every function that was queued has been executed or cancelled |
| `RunQueues.CommonLoop.HandleRunInLoopFunc` | modules/event/common_loop_run.cpp:203-235 | swap under the lock, reset of the eventfd, drain; every function that was queued has been executed or cancelled |
| `RunQueues.CommonLoop.CleanupDeferredTasks` | modules/event/common_loop_run.cpp:238-271 | at most a hundred rounds, each executing what the two queues held, runNext functions first |
| `RunQueues.CommonLoop.RunThisAfterLoop` | modules/event/common_loop.cpp:95-105 | the clean-up, and the eventfd is closed; it ends whatever the functions submit |
| `RunQueues.CommonLoop.CancelItem` | modules/event/common_loop_run.cpp:128-156 | looks in the three queues in order and removes from the first that has it |
| `RunQueues.CommonLoop.SubmitInLoop` | modules/event/common_loop_run.cpp:56-75 | new even id at the end of the queue, wake-up requested |
| `RunQueues.CommonLoop.SubmitNext` | modules/event/common_loop_run.cpp:83-97 | new odd id at the end of the queue |
| `StateMachineTrace.EveryRunNests` | modules/flow/state_machine.cpp:335-479 | for every tree of machines whose terminal states have no sub-machine and every run of events: enter and exit actions nest across levels, every exit names the state entered last, a state is left only when nothing is active below it, and what was entered and not left is what is active |
| `StateMachineExits.LeftOnlyAfterEnd` | modules/flow/state_machine.cpp:397-459 | over every such run, at every depth, the exit of a state with a sub-machine stands directly after the exit by which that sub-machine was stopped in its terminal state |
| `StateMachineExits.RunOrderly` | modules/flow/state_machine.cpp:387-479 | the same for one event given to a machine anywhere in the tree |
| `StateMachineTrace.StartNests` | modules/flow/state_machine.cpp:335-366 | starting enters the initial states of the nested machines, outermost first |
| `StateMachineTrace.RunNests` | modules/flow/state_machine.cpp:387-479 | one event given to a machine keeps the nesting |
| `StateMachineTrace.LeaveNests` | modules/flow/state_machine.cpp:403-479 | so does its own part: exit, route, enter, changed in that order, then the new sub-machine's start and event |
| `StateMachineTrace.MoveNests` | modules/flow/state_machine.cpp:449-471 | the actions of one transition fit in that order only |
| `StateMachineTrace.StopNests` | modules/flow/state_machine.cpp:368-385 | a terminated sub-machine is stopped by one exit action |
| `StateMachineTrace.StopNestsIff` | modules/flow/state_machine.cpp:368-385 | stop() keeps the nesting exactly if no sub-machine is active, because it never stops one |
| `StateMachineDeaf.HeardIff` | modules/flow/state_machine.cpp:387-479 | an event has an effect on a tree of machines exactly if the innermost active state has a way out on it, or has ended its machine |
| `StateMachineDeaf.DeafForever` | modules/flow/state_machine.cpp:397-402 | if anywhere along the active states a machine waits for a sub-machine that does not run, the whole tree ignores every later event |
| `StateMachineDeaf.GoesDeafIff` | modules/flow/state_machine.cpp:397-475 | exactly when one event brings that about, decided by the active states: where the sub-machines have had their say, a state whose sub-machine has ended has no way out, or the way leads to a state whose sub-machine does not start or goes deaf on the same event |
| `StateMachineDeaf.NeverDeaf` | modules/flow/state_machine.cpp:262-289 | a machine in which every state with a sub-machine has an unguarded route for any event, and every sub-machine its initial state, goes deaf in no run |
| `StateMachineDeaf.CanGoDeaf` | modules/flow/state_machine.cpp:397-437 | a machine of three levels that one event makes deaf |
| `StateMachineDeaf.CanStopOutOfOrder` | modules/flow/state_machine.cpp:368-385 | a machine whose stop() right after start() breaks the nesting |
| `StateMachineRoutes.TakesRoute` | modules/flow/state_machine.cpp:416-479 | when no handler names a state, the machine goes where the first route leads whose event and guard accept the event, with the exit, that route's action, the entry and the change in this order, and answers true |
| `StateMachineRoutes.TakesAnswer` | modules/flow/state_machine.cpp:407-414 | when the event's own handler names a state, or the default handler if the event has none, the machine goes there whatever its routes are |
| `StateMachineRoutes.StaysPut` | modules/flow/state_machine.cpp:433-449 | otherwise it stays and answers false |
| `StateMachineRoutes.SubKeepsEvent` | modules/flow/state_machine.cpp:397-402 | a sub-machine that goes on keeps the event; its machine stays and answers as it does |
| `StateMachineRoutes.Starts` | modules/flow/state_machine.cpp:335-366 | start() enters the initial state, exactly if the machine does not run and has one |
| `StateMachineRoutes.Stops` | modules/flow/state_machine.cpp:368-385 | stop() leaves the current state and remembers nothing new |
| `StateMachineModel.FirstRoute` | modules/flow/state_machine.cpp:419-437 | the first route in order whose event and guard match |
| `StateMachines.StateMachine.Start` | modules/flow/state_machine.cpp:335-366 | the tree of objects changes as specified and gives the specified actions |
| `StateMachines.StateMachine.Stop` | modules/flow/state_machine.cpp:368-385 | likewise |
| `StateMachines.StateMachine.Run` | modules/flow/state_machine.cpp:387-479 | likewise, sub-machines first |
| `StateMachines.StateMachine.Leave` | modules/flow/state_machine.cpp:403-479 | likewise, the machine's own transition |
| `Actions.Action.Start` | modules/flow/action.cpp:64-91 | from idle to running, or to an end if the hook ends it; refused in other states but running |
| `Actions.Action.PauseIt` | modules/flow/action.cpp:93-120 | from running to paused, or to an end |
| `Actions.Action.Resume` | modules/flow/action.cpp:122-149 | from paused to running, or to an end |
| `Actions.Action.Stop` | modules/flow/action.cpp:151-172 | only an action under way is stopped |
| `Actions.Action.Finish` | modules/flow/action.cpp:174-198 | ends an action once, with its result |
| `ActionTrace.StartedAndDeletedOnce` | modules/flow/action_executor.cpp:130-173 | no action is started twice; one is deleted exactly once if it is gone and never otherwise |
| `ActionTrace.NeverBack` | modules/flow/action_executor.cpp:130-173 | a started action never waits again: a preempted one is resumed, not restarted |
| `ActionTrace.GoneIsSilent` | modules/flow/action_executor.cpp:160-168 | a deleted action is never touched again |
| `ActionExecutorModel.AppendKeeps` | modules/flow/action_executor.cpp:40-53 | appending keeps queues, lives of actions and the single runner in step |
| `ActionExecutorModel.TouchKeeps` | modules/flow/action_executor.cpp:123-158 | so do starting, resuming and pausing the front of a queue |
| `ActionExecutorModel.PopKeeps` | modules/flow/action_executor.cpp:160-168 | so does deleting a front action that has ended |
| `ActionExecutorModel.EndKeeps` | modules/flow/action.cpp:151-198 | so does an action that ends anywhere at any time |
| `ActionExecutorModel.OrderedLives` | modules/flow/action_executor.cpp:40-176 | within a priority, deletion follows the order of appending, and what is not deleted is queued |
| `ActionExecutors.ActionExecutor.Schedule` | modules/flow/action_executor.cpp:105-176 | the nested loops end; then all queues are empty, or the front of the most urgent non-empty queue is the one running action, whatever the hooks do |
| `ActionExecutors.ActionExecutor.Append` | modules/flow/action_executor.cpp:40-53 | a new number, the action at the end of its queue, and the same on return |
| `ActionExecutors.ActionExecutor.Enqueue` | modules/flow/action_executor.cpp:40-53 | the action stands last in the queue of its priority, under the next number |
| `ActionExecutors.ActionExecutor.PauseFront` | modules/flow/action_executor.cpp:121-127 | the running front of a less urgent queue gives way |
| `ActionExecutors.ActionExecutor.StepFront` | modules/flow/action_executor.cpp:130-173 | what the front of the ready queue needs next; it comes nearer to running or going |
| `ActionExecutors.ActionExecutor.FirstReadyQueue` | modules/flow/action_executor.cpp:109-116 | the most urgent queue that is not empty |
| `AesBytes.SboxInverse` | modules/crypto/aes.cpp:29-67 | the two substitution tables undo each other on all 256 bytes |
| `AesVectors.SboxIsAffineInverse` | modules/crypto/aes.cpp:29-48 | the substitution table is the affine image of the inverse in GF(2^8): section 5.1.1 of FIPS 197 |
| `AesBytes.FFmul` | modules/crypto/aes.cpp:69-88 | the loop over four bits of the factor |
| `AesBytes.FFmulXor` | modules/crypto/aes.cpp:69-88 | multiplication by a fixed factor is additive |
| `AesBytes.Unmix` | modules/crypto/aes.cpp:113-126 | inverse column mix after column mix is the identity in GF(2^8) |
| `AesModel.MixInverse` | modules/crypto/aes.cpp:113-172 | for whole states |
| `AesModel.ShiftSubInverse` | modules/crypto/aes.cpp:90-158 | inverse shift and substitution undo substitution and shift |
| `AesModel.InvRoundsUndo` | modules/crypto/aes.cpp:187-239 | after the inverse cipher has used round keys 10 to n, its state is the cipher's of round n - 1, substituted and shifted |
| `AesModel.CipherInverse` | modules/crypto/aes.cpp:187-239 | for every key schedule and block the inverse cipher undoes the cipher: section 5.3 of FIPS 197 |
| `AesVectors.CipherIsStandard` | modules/crypto/aes.cpp:187-212 | nine full rounds after the first round key, and one that does not mix: section 5.1 of FIPS 197 |
| `AesVectors.FirstRound` | modules/crypto/aes.cpp:187-206 | the start and the first round of the example of appendix C.1 of FIPS 197 |
| `AesVectors.LastRound` | modules/crypto/aes.cpp:197-212 | its last round and output |
| `AesVectors.FirstKey` | modules/crypto/aes.cpp:241-270 | its first derived round key: section 5.2 of FIPS 197 |
| `AesModel.RcIsPower` | modules/crypto/aes.cpp:243-243 | the round constants are the powers of two of the field |
| `AesModel.OneExpansion` | modules/crypto/aes.cpp:241-270 | a key has one expansion only |
| `Aes.SubBytes` | modules/crypto/aes.cpp:90-97 | in place, every byte |
| `Aes.InvSubBytes` | modules/crypto/aes.cpp:137-144 | in place, every byte |
| `Aes.ShiftRows` | modules/crypto/aes.cpp:99-111 | row r turns left by r places |
| `Aes.InvShiftRows` | modules/crypto/aes.cpp:146-158 | and back |
| `Aes.MixColumns` | modules/crypto/aes.cpp:113-126 | every column is mixed |
| `Aes.InvMixColumns` | modules/crypto/aes.cpp:160-172 | every column is unmixed |
| `Aes.AES.AddRoundKey` | modules/crypto/aes.cpp:128-135 | the round key is added |
| `Aes.AES.Cipher` | modules/crypto/aes.cpp:187-212 | computes the cipher of the specification, input and output buffer equal or not |
| `Aes.AES.InvCipher` | modules/crypto/aes.cpp:214-239 | computes the inverse cipher of the specification |
| `Aes.AES.KeyExpansion` | modules/crypto/aes.cpp:241-270 | the round keys follow one from another as section 5.2 of FIPS 197 says |
| `Md5Model.FoldSnoc` | modules/crypto/md5.cpp:272-289 | one more complete block is one more use of the block function |
| `Md5Model.CounterIff` | modules/crypto/md5.cpp:261-271 | the two-word bit counter is right exactly for updates below 2^29 bytes and for larger ones whose low words carry |
| `Md5Model.IndexOk` | modules/crypto/md5.cpp:257-257 | the low word of the counter tells the place in the block |
| `Md5Model.DecodeEncode` | modules/crypto/md5.cpp:95-129 | little-endian words survive becoming bytes |
| `Md5Model.EncodeDecode` | modules/crypto/md5.cpp:95-129 | and the other way round |
| `Md5Model.WordOfBytes` | modules/crypto/md5.cpp:95-106 | the first byte of a word is its least significant one: section 2 of RFC 1321 |
| `Md5Model.InitBytes` | modules/crypto/md5.cpp:240-250 | the chaining words start as the bytes 01 23 to 32 10: section 3.3 of RFC 1321 |
| `Md5Model.PadShape` | modules/crypto/md5.cpp:297-325 | the message is followed by 80, as few zeros as leave room for eight bytes in the last block, and its length in bits, least significant byte first: sections 3.1 and 3.2 of RFC 1321 |
| `Md5.Encode` | modules/crypto/md5.cpp:95-106 | the loop writes the words as specified |
| `Md5.Decode` | modules/crypto/md5.cpp:115-129 | the loop reads back the words that the bytes encode |
| `Md5.MD5.Update` | modules/crypto/md5.cpp:251-295 | any piece below 2^29 bytes is appended to the message: complete blocks are absorbed, the rest is kept |
| `Md5.MD5.Finish` | modules/crypto/md5.cpp:297-325 | the digest is the fold over the blocks of the padded message, however it was fed: sections 3.1, 3.2 and 3.5 of RFC 1321 |
| `UrlCoding.DecodeEncode` | modules/http/url.cpp:46-99 | decoding undoes encoding on every byte string, in both modes |
| `UrlCoding.EncodeHides` | modules/http/url.cpp:46-64 | an encoded string holds no special character but the escape itself |
| `UrlCoding.DecodeSameIff` | modules/http/url.cpp:66-99 | decoding leaves a string as it is exactly when it holds no '%' |
| `UrlCoding.HexDigits` | modules/http/url.cpp:25-38 | the sixteen digits by value; small letters are read as well |
| `UrlCoding.EscapedIff` | modules/http/url.cpp:20-24 | which characters stay as they are: letters, digits, ! ' ( ) * - _ ~, and . and / in a path |
| `UrlCoding.DecodePair` | modules/http/url.cpp:86-95 | two digits, large or small, make the byte they stand for |
| `UrlCoding.DecodeBroken` | modules/http/url.cpp:66-99 | an escape with a bad digit fails |
| `UrlCoding.DecodeCut` | modules/http/url.cpp:66-99 | one that is cut short is dropped |
| `UrlCoding.UrlEncode` | modules/http/url.cpp:46-64 | the loop over characters |
| `UrlCoding.UrlDecode` | modules/http/url.cpp:66-99 | the loop with its escape states; a bad digit fails, an escape cut short is dropped |
| `UrlCoding.JoinSplit` | modules/util/string.cpp:30-46 | the pieces hold no separator and join to the string |
| `UrlCoding.SplitJoin` | modules/util/string.cpp:30-46 | joined parts without separators are split into themselves |
| `UrlCoding.SplitAll` | modules/util/string.cpp:30-46 | the search loop, for a separator of one character |
| `UrlPath.ItemParses` | modules/http/url.cpp:255-263 | a printed entry parses back exactly if its key is not empty |
| `UrlPath.ItemShape` | modules/http/url.cpp:255-263 | an item is a non-empty key, exactly one equals sign, and a value; anything else is refused |
| `UrlPath.PlainItem` | modules/http/url.cpp:127-143 | an item is key, equals sign, value, and needs no escape for plain characters |
| `UrlPath.PrintedForm` | modules/http/url.cpp:123-147 | where the marks ; = ? & # go |
| `UrlRoundTrip.Marks` | modules/http/url.cpp:234-244 | where the first ';', '?' and '#' of a printed path stand |
| `UrlRoundTrip.RoundTripIff` | modules/http/url.cpp:123-297 | printing and parsing into a fresh path gives the path back exactly if it starts with '/', has no empty key, no '%' in the fragment, and no ';' or '?' there unless it has parameters or a query |
| `Url.UrlPathToString` | modules/http/url.cpp:123-147 | prints as specified, entries in the order they are visited |
| `Url.StringToUrlPath` | modules/http/url.cpp:227-297 | parses as specified, with the unsigned lengths of substr() |
| `ScalableInteger.TablesFit` | modules/util/scalable_integer.cpp:31-69 | n bytes hold the 128^n values after those of n - 1 bytes, without gap or overlap |
| `ScalableInteger.NeedIff` | modules/util/scalable_integer.cpp:76-81 | which values take n bytes |
| `ScalableInteger.ParseCode` | modules/util/scalable_integer.cpp:73-137 | every 64-bit value is read back, whatever follows it |
| `ScalableInteger.Examples` | modules/util/scalable_integer.cpp:73-107 | the codes at the ends of the first ranges, most significant group first |
| `ScalableInteger.ThreeBytes` | modules/util/scalable_integer.cpp:73-107 | and of the first code of three bytes |
| `ScalableInteger.PrefixFree` | modules/util/scalable_integer.cpp:73-137 | no code is the beginning of another |
| `ScalableInteger.CodeParse` | modules/util/scalable_integer.cpp:73-137 | a complete code of up to nine bytes is what its value is written as |
| `ScalableInteger.CodeIsShortest` | modules/util/scalable_integer.cpp:73-137 | no complete code of up to ten bytes is shorter than the one written |
| `ScalableInteger.DumpScalableInteger` | modules/util/scalable_integer.cpp:73-107 | writes the code, or nothing when it does not fit |
| `ScalableInteger.OutcomeIff` | modules/util/scalable_integer.cpp:109-137 | the parser looks past its table exactly on a code of eleven bytes, finds nothing exactly if no code ends within eleven bytes, and otherwise finds the first code |
| `ScalableInteger.ElevenBytes` | modules/util/scalable_integer.cpp:116-134 | such an input |
| `ScalableInteger.ParseScalableInteger` | modules/util/scalable_integer.cpp:109-137 | the loop finds the length and value of the first code of up to ten bytes, and comes to the other two outcomes exactly as just said |
| `TraceStream.AllocKeeps` | modules/trace/sink.cpp:353-391 | an index map and its list file stay inverse to each other |
| `TraceStream.IndexInjective` | modules/trace/sink.cpp:353-391 | different names never share an index |
| `TraceStream.RowFits` | modules/trace/sink.cpp:237-246 | with indices below 2^32 a record takes at most 35 of the 40 bytes |
| `TraceStream.LeftRow` | modules/trace/sink.cpp:237-246 | the five integers of a record stand in the order time difference, duration, thread, name, module |
| `TraceStream.ReadFile` | modules/trace/sink.cpp:237-252 | the rows come back from their concatenated codes |
| `TraceStream.ReadBack` | modules/trace/sink.cpp:229-253 | file and lists give back every record, times modulo 2^64 |
| `TraceStream.RestoreSnoc` | modules/trace/sink.cpp:237-248 | one more record in the file is one more for a reader, though the lists have grown |
| `TraceStream.Sink.RecvRecord` | modules/trace/sink.cpp:229-253 | a record that passes the filter is added to file and lists; another leaves no trace |
| `Buffers.Buffer.EnsureWritableSize` | modules/util/buffer.cpp:92-126 | room is found in place, by compaction or by a larger array; the contents stay |
| `Buffers.Buffer.Append` | modules/util/buffer.cpp:137-145 | the contents grow by the bytes |
| `Buffers.Buffer.HasRead` | modules/util/buffer.cpp:147-156 | the oldest bytes go; too many empty the buffer |
| `Buffers.Buffer.Fetch` | modules/util/buffer.cpp:163-169 | the oldest bytes come out, as many as there are and as fit |
| `Buffers.Buffer.CloneFrom` | modules/util/buffer.cpp:172-190 | the contents alone are copied |
| `Buffers.Buffer.Swap` | modules/util/buffer.cpp:75-84 | contents change places |
| `Buffers.Buffer.Shrink` | modules/util/buffer.cpp:192-196 | room without contents is given back |
| `LogFrames.DrainSplit` | modules/log/async_sink.cpp:59-80 | draining a stream at once or in two parts hands out the same records |
| `LogFrames.FeedIsDrain` | modules/log/async_sink.cpp:59-80 | likewise for any chunks |
| `LogFrames.DrainPrefix` | modules/log/async_sink.cpp:52-80 | of the first n bytes exactly the completely arrived records come out |
| `LogFrames.ArrivedIsMost` | modules/log/async_sink.cpp:52-57 | which records those are |
| `LogFrames.ChunksDoNotMatter` | modules/log/async_sink.cpp:52-80 | for any records and any cut of their stream into chunks, the backend gets in order exactly the records whose bytes have all arrived |
| `LogFrames.LogReader.OnReadPipe` | modules/log/async_sink.cpp:59-80 | the loop over the buffer drains it and keeps the rest |
| `LogSink.HandsOutRecords` | modules/log/async_sink.cpp:52-80 | in every interleaving of the front end and the pipe's backend, at every moment, the records handed out are in order exactly those whose bytes have been delivered |
| `LogSink.AllHandedOut` | modules/log/async_sink.cpp:31-57 | when the pipe has been cleaned up, every record has been handed out |
| `TimeoutRing.SlotsHoldPeriods` | modules/eventx/timeout_monitor_impl.hpp:67-117 | after t ticks, slot i of n holds what was added after tick t - n + 1 + i |
| `TimeoutRing.FiresAfterN` | modules/eventx/timeout_monitor_impl.hpp:67-117 | a tick hands out exactly what was added between the n-th and the (n - 1)-th tick before it: every value once, on the n-th tick after it was added |
| `TimeoutRing.TotalTurned` | modules/eventx/timeout_monitor_impl.hpp:108-110 | a tick takes off the total what it hands out |
| `TimeoutRing.TimeoutMonitor.Initialize` | modules/eventx/timeout_monitor_impl.hpp:44-65 | a closed ring of empty items; fewer than one is refused |
| `TimeoutRing.TimeoutMonitor.AddValue` | modules/eventx/timeout_monitor_impl.hpp:68-74 | into the current item; the number is the total, the timer runs exactly if it is positive |
| `TimeoutRing.TimeoutMonitor.OnTimerTick` | modules/eventx/timeout_monitor_impl.hpp:100-117 | the ring turns, the oldest values come out, number and timer follow |
| `RpcModel.StepKeeps` | modules/jsonrpc/rpc.cpp:76-190 | every request, reply and tick keeps: an id waits and was not called, or was called once with its own callback |
| `RpcModel.RunInv` | modules/jsonrpc/rpc.cpp:76-190 | the same over every run: no callback runs twice |
| `RpcModel.AnsweredByFirst` | modules/jsonrpc/rpc.cpp:76-190 | whatever else happens, the callback of a request has run with the first reply to it or, if none came before the tick that ends its time, with the timeout; exactly once, and not at all before either is there |
| `RpcModel.AnsweredByDeadline` | modules/jsonrpc/rpc.cpp:76-190 | a request's callback has run exactly once when as many ticks as the timeout have passed |
| `RpcModel.NotBeforeDeadline` | modules/jsonrpc/rpc.cpp:76-190 | without a reply it has not run before that tick |
| `Rpcs.Rpc.TimerRuns` | modules/jsonrpc/rpc.cpp:76-86 | while any request waits the timer is enabled, so those ticks come |
| `Rpcs.Rpc.Request` | modules/jsonrpc/rpc.cpp:76-86 | a new id for a callback, none for a notification |
| `Rpcs.Rpc.OnRecvRespond` | modules/jsonrpc/rpc.cpp:171-180 | runs and forgets the callback that waits for the id, ignores others |
| `Rpcs.Rpc.OnTick` | modules/jsonrpc/rpc.cpp:182-190 | the ids the monitor hands out time out in order |
| `AlarmSearch.CalculateWeekly` | modules/alarm/weekly_alarm.cpp:57-79 | the least later instant with the given time of day on an enabled weekday; fails exactly if none is enabled |
| `AlarmSearch.CalculateWorkday` | modules/alarm/workday_alarm.cpp:56-76 | the same over working days; fails exactly if none of today and the next 366 days gives a later instant |
| `AlarmSearch.SearchIsLeast` | modules/alarm/weekly_alarm.cpp:66-76 | looking day by day from today finds the least instant of all |
| `AlarmSearch.WeekdayNext` | modules/alarm/weekly_alarm.cpp:60-67 | the weekday arithmetic of the loop is that of the calendar |
| `AlarmSearch.WeekdaysFollow` | modules/alarm/weekly_alarm.cpp:60-67 | day 0 was a Thursday, and the days of the week follow each other |
| `AlarmSearch.SpecialDays` | modules/alarm/workday_calendar.cpp:53-61 | a special day counts as the calendar says, working day or day off, on any weekday; other days count by their weekday |
| `AlarmSearch.TargetsIncrease` | modules/alarm/alarm.cpp:173-220 | successive targets strictly increase |
| `AlarmSearch.SkippedIff` | modules/alarm/alarm.cpp:173-220 | a due instant is skipped exactly if the timer for an earlier target fired no sooner than it; firing early skips and repeats none |
| `Alarms.RemainIff` | modules/alarm/alarm.cpp:198-200 | the 32-bit waiting time is right exactly below about 49.7 days |
| `Alarms.LongHoliday` | modules/alarm/workday_alarm.cpp:56-76 | a calendar with such a wait: after fifty days off the timer runs for seven hours |
| `Alarms.WeeklyWithinWeek` | modules/alarm/weekly_alarm.cpp:66-76 | a weekly target is at most a week from where the search starts |
| `Alarms.ReenableIff` | modules/alarm/alarm.cpp:82-100 | an alarm that is enabled again, with any schedule, aims at the next instant from now on exactly if nothing of that schedule is due up to the old target; otherwise all that is due until then is skipped |
| `Alarms.SameSchedule` | modules/alarm/alarm.cpp:82-100 | with the schedule kept, so that the old target is due, that is exactly if the target has passed |
| `Alarms.SkipsDays` | modules/alarm/weekly_alarm.cpp:30-55 | an alarm for Mondays that is made a daily one stays silent until Tuesday: initialize() keeps the old target |
| `Alarms.Alarm.Enable` | modules/alarm/alarm.cpp:82-90 | what enable() aims at, and the condition just given |
| `Alarms.Alarm.InitializeWeekly` | modules/alarm/weekly_alarm.cpp:30-55 | which arguments are refused; the mask from its seven characters |
| `Alarms.Alarm.InitializeWorkday` | modules/alarm/workday_alarm.cpp:32-54 | which arguments are refused, a null calendar among them |
| `Alarms.Alarm.ActiveTimer` | modules/alarm/alarm.cpp:173-214 | the target becomes the least due instant after now and the old target, or nothing changes |
| `Alarms.Alarm.OnTimeExpired` | modules/alarm/alarm.cpp:216-229 | the next target lies later, however early or late the timer fired |
| `Alarms.Alarm.Refresh` | modules/alarm/alarm.cpp:115-122 | the calendar is the new one, the old target is forgotten, and the next one is the least after now; or nothing is due within the search |
| `Alarms.Alarm.Disable` | modules/alarm/alarm.cpp:92-100 | stops the timer and keeps the target |

## Left out

- StarvesIff: speaks of workers that will look at the queues again, not of a task being executed in the end, which depends on how long other tasks take.
- Sockets, files, event demultiplexing, logging, terminals, JSON, coroutines: plumbing over other libraries, or presentation.
- `AsyncPipe`: which buffer object holds what; buffers in the queues are values, the free ones a number, and `PipeBuffer` shows the writing into one. `try_lock()` fails only while the lock is held, the callback is set, and producers are told apart only by the order in which they get the lock.
- `ThreadPool::cleanup` and a second initialisation, the wrap of token ids in the pool, task callbacks in the main loop.
- `Cabinet::clear`, `foreach` and `reserve`; `clear` restarts the ids, after which old tokens may name new objects.
- `CommonLoop`: the wrap of run ids, an eventfd that cannot be created, and `cleanup()` called while the loop runs.
- Timers.TimerLoop.AddTimer: takes no interval of 2^63 milliseconds or more, whose due time would wrap or count as past.
- `StateMachine`: building a machine, and actions that call the machine they belong to; sub-machines form a tree; a guard or handler that is asked twice within one event answers the same.
- `ActionExecutor`: `cancel`, `cancelCurrent`, `cancelAll`, `Action::block`, `Action::reset`, timeouts of actions, and hooks that append to the executor that runs them. The action-started and action-finished callbacks are the start and delete entries of the trace.
- ActionExecutors.ActionExecutor.Append: is handed no action that already runs, because two would run at once.
- AES: modes of operation and the constructor without a key, whose round keys are undefined.
- MD5: the 64 steps of the block function, which is a parameter; updates of 2^29 bytes or more are covered by `CounterIff` only, and for one of 2^32 bytes or more the program's 32-bit loop index never reaches the end, even where the counter is right.
- URL: scheme and host; what a failed parse leaves in the path it was to fill; separators of more than one character in `Split`.
- UrlPathToString: takes the entries of the two maps in any order of visiting instead of fixing the order of the keys.
- ParseScalableInteger: the read past the table is an outcome of its own and has no value.
- RecvRecord: takes the answer of the module filter as a parameter, and does not model the counters of the list files wrapping, because they number the lines of a file.
- `Sink`: files that cannot be opened or have been removed, and the packets in which records reach it; the frames of the log sink have the same form.
- Buffer.HasWritten: a caller that writes into the array itself is not modelled.
- `TimeoutMonitor::cleanup` and adding from its callback; the answering side of `Rpc`, which only notes late answers, and the wrap of its 32-bit request ids.
- `Alarm`: 32-bit overflow of instants, changing the time zone while the alarm runs, and the calendar's list of subscribers, whose effect on an alarm is `Refresh`; it takes the changed calendar as a parameter.
- Cron alarms: their search is in code that is not part of this model.
