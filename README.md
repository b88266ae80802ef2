# Worker pool bookkeeping, modelled and verified in Dafny

This project models `WorkerPool` from src/WorkerPool.ts. The pool is a fixed-size set of worker threads.
It hands each submitted task to an idle worker, or queues the task when none is idle. When a worker reports a
result, the pool invokes the task's callback and gives the worker the next queued task. When a worker crashes,
the pool reports the error and replaces the worker with a fresh one.

All of this bookkeeping runs on one coordinating thread. It uses four pieces of state:
- `workers`, the live workers;
- `freeWorkers`, a stack of idle workers (the top is the last element);
- `tasks`, a FIFO queue of pending `{ task, callback }` records;
- each worker's `kTaskInfo` slot, which holds the callback of the task the worker is running.

Four events change that state:
- `runTask`, a submission;
- a worker's `'message'`, a completion;
- the `kWorkerFreedEvent` listener, the dispatch;
- a worker's `'error'`, a crash followed by a replacement.

The files:
- `pool_model.dfy` (module `PoolModel`) holds the state as a datatype `Pool` and each event as a function.
  Worker threads are opaque ids handed out in order. Whatever the pool does outside its own bookkeeping goes into
  an ordered log of effects: a task posted to a worker, a callback invoked with `(err, result)`, the pool-level
  `'error'` emitted, or a worker terminated.
- `worker_pool.dfy` (module `WorkerPoolClass`) holds the class `WorkerPool`. It has the source's fields, and its
  methods update them in place, one method per event. The constructor and `close` keep the source's loops. Each
  method is proved to move the state exactly as the matching `PoolModel` function does. Beyond that:
  - the constructor establishes `Inv`;
  - `RunTask` and `Message` keep both `Consistent` and `Inv`;
  - `Error` keeps `Consistent`.

  `AddNewWorker`, `WorkerFreed` and `Close` are proved only equal to their model functions. `AddNewWorker` on its
  own changes the worker count. What `close` keeps is proved about `PoolModel.Close`.
- `pool_properties.dfy` (module `PoolProperties`) holds what the bookkeeping guarantees:
  - the shape of the pool right after construction;
  - `Inv`, an invariant kept by submissions and completions: a listed worker holds a task exactly when it is not on
    the free stack; every free worker is listed; tasks wait only while no worker is free; there are `numThreads`
    workers;
  - `Consistent`, the weaker part of `Inv` that crashes keep too;
  - a bound on the tasks in flight;
  - the FIFO law of the queue;
  - a ledger theorem: along submissions and completions, every callback passed to `runTask` is queued, held by a
    listed worker, or invoked. This holds exactly as often as the callback was passed, so no callback is lost and
    none is invoked twice.
- `pool_findings.dfy` (module `PoolFindings`) holds two defects of the crash-and-replace path (the `'error'` handler and the closing `emit` of `addNewWorker`). It also holds a corrected
  handler, with proofs that the corrected handler keeps `Inv` and the ledger over every sequence of events,
  crashes included.

Line 77 of src/WorkerPool.ts emits the string 'kWorkerFreedEvent'. That string is only the description of the
symbol declared at line 7, and the listener at line 42 is registered under the symbol itself. So `addNewWorker`
triggers no dispatch. The model follows the code. The dispatch that the replacement evidently should trigger is
modelled separately, as the corrected handler (see Findings).

The comment at lines 54-55 gives the completion order that the code follows at lines 56-58:
1. invoke the callback;
2. clear the slot;
3. push the worker on the free stack.

The model keeps this order.

## Model

| member | source | states |
|---|---|---|
| `WorkerPoolClass.WorkerPool.constructor` | src/WorkerPool.ts:30-48 | `numThreads` calls of `addNewWorker` leave `workers` and `freeWorkers` listing the same `numThreads` distinct workers. Nothing is queued, no worker holds a task, and `Inv` holds. |
| `WorkerPoolClass.WorkerPool.AddNewWorker` | src/WorkerPool.ts:50-78 | One fresh worker is pushed on `workers` and on `freeWorkers`. The queue is untouched and nothing is dispatched, because the event is emitted under a string name that has no listener. |
| `WorkerPoolClass.WorkerPool.RunTask` | src/WorkerPool.ts:80-90 | With an empty free stack, the record joins the back of `tasks` and nothing else changes. Otherwise the top free worker is popped (LIFO), takes the callback into its slot and is posted the task, and `tasks` is unchanged. It keeps `Consistent` and `Inv`. |
| `WorkerPoolClass.WorkerPool.WorkerFreed` | src/WorkerPool.ts:42-47 | The front record, if any, is shifted off `tasks` and passed to `runTask`. With an empty queue nothing changes. |
| `WorkerPoolClass.WorkerPool.Message` | src/WorkerPool.ts:53-60 | Invokes the slot's callback with `(null, result)`, clears the slot, pushes the worker on the free stack, then runs the listener. It keeps `Consistent` and `Inv` for a listed worker. |
| `WorkerPoolClass.WorkerPool.Error` | src/WorkerPool.ts:62-73 | Reports the crash to the slot's callback or as a pool-level error, splices the worker out of `workers`, and adds a replacement. It keeps `Consistent` for a listed worker. |
| `WorkerPoolClass.WorkerPool.Close` | src/WorkerPool.ts:92-96 | Terminates each worker in `workers`, in order. Nothing but the log of effects may change. |
| `PoolModel.IndexOf` | src/WorkerPool.ts:71 | `indexOf` gives -1 exactly when the worker is absent. Otherwise it gives the first position holding the worker. |
| `PoolModel.SpliceOne` | src/WorkerPool.ts:71 | `splice(start, 1)` at a position inside the list drops exactly that element and keeps the order of the rest. At `start` = -1, the result of a failed `indexOf`, it drops the last element of a non-empty list. An empty list is left as it is. |
| `PoolProperties.ConstructShape` | src/WorkerPool.ts:30-40 | After construction, `workers` equals `freeWorkers`. Both hold `numThreads` distinct workers, all with empty slots. `tasks` and the log are empty, and `Inv` holds. |
| `PoolProperties.RunTaskPreserves` | src/WorkerPool.ts:80-90 | `runTask` keeps `Consistent`, and keeps `Inv`. |
| `PoolProperties.MessagePreserves` | src/WorkerPool.ts:53-60 | A completion from a listed busy worker keeps `Consistent` and `Inv`. |
| `PoolProperties.ErrorPreserves` | src/WorkerPool.ts:62-77 | A crash of a listed worker keeps `Consistent`. The worker count stays `numThreads`, and a listed worker still holds a task exactly when it is off the free stack. |
| `PoolProperties.RunPreserves` | src/WorkerPool.ts:42-89 | Any sequence of submissions, completions and crashes keeps `Consistent`. One without crashes keeps `Inv`. |
| `PoolProperties.InFlightBound` | src/WorkerPool.ts:81-89 | At most `numThreads` tasks are in flight. Under `Inv`, the tasks in flight plus the free workers equal `numThreads`. |
| `PoolProperties.CompletionDispatchesFront` | src/WorkerPool.ts:42-46 | A completion invokes the callback once with `(null, result)` before anything is dispatched. If records wait, the front one is posted to the worker just freed, which stays off the stack. Otherwise that worker ends on top of the free stack with an empty slot. |
| `PoolProperties.CrashReplacesOneForOne` | src/WorkerPool.ts:62-77 | A crash produces exactly one report: `(err, null)` to the slot's callback, or a pool-level `'error'`. The worker leaves `workers`. One fresh worker is appended to both lists, so the count is unchanged. The queue is untouched, nothing is dispatched, and the crashed worker's slot is kept. |
| `PoolProperties.CloseTerminatesEvery` | src/WorkerPool.ts:92-96 | `close` logs one termination per listed worker, in list order, and only for listed workers. `workers`, `freeWorkers`, `tasks` and the slots are unchanged. `close` keeps `Consistent` and `Inv`. |
| `PoolProperties.StepQueue` | src/WorkerPool.ts:43-45 | Each event either appends at the back of the queue or shifts its front, and changes the queue in no other way. |
| `PoolProperties.QueueIsFifo` | src/WorkerPool.ts:81-84 | Over any events, records leave the queue in the order they entered it. |
| `PoolProperties.RunTaskLedger` | src/WorkerPool.ts:80-90 | When every free worker is listed (as `Inv` guarantees), a submission adds its callback to the ledger exactly once: it is queued, or held by the listed worker it was posted to. |
| `PoolProperties.MessageLedger` | src/WorkerPool.ts:53-59 | A completion moves the callback from held to invoked, and moves a dispatched record from queued to held. The ledger is unchanged. |
| `PoolProperties.NoCallbackLost` | src/WorkerPool.ts:18-21 | Along submissions and completions, the ledger grows by exactly the callbacks submitted. Every callback is queued, held or invoked, once per submission. |
| `PoolFindings.ReplacementStrandsQueue` | src/WorkerPool.ts:77 | As written: a busy worker crashes while records wait. Its replacement idles on the free stack beside the non-empty queue, so `Inv` fails. The next submission is then posted to that worker ahead of every waiting record. |
| `PoolFindings.IdleCrashLeavesDeadWorkerFree` | src/WorkerPool.ts:71 | As written: after an idle worker crashes it is off `workers` but still on the free stack, so `Inv` fails. |
| `PoolFindings.DeadWorkerSwallowsTask` | src/WorkerPool.ts:71 | As written, with one thread: after an idle crash and two submissions, the second task is posted to the dead worker and its callback drops out of the ledger. |
| `PoolFindings.ErrorFixedPreserves` | src/WorkerPool.ts:62-77 | Corrected handler: the crashed worker leaves both lists, and `Inv` is kept. If records wait, the replacement takes the front one: it is shifted off the queue, its callback fills the replacement's slot, its task is the last one posted, and the free stack ends empty. |
| `PoolFindings.ErrorFixedLedger` | src/WorkerPool.ts:62-77 | Corrected handler: the crashed worker's callback moves from held to invoked. The ledger is unchanged. |
| `PoolFindings.RunFixedKeepsGuarantees` | src/WorkerPool.ts:62-77 | With the corrected handler, every sequence of events, crashes included, keeps `Inv`. The ledger grows by exactly the callbacks submitted. |

## Left out

- Worker threads themselves are left out: thread creation, `postMessage`, `terminate` and the computation in `task.js`. A worker is an opaque id. Posting and terminating are entries in the ghost log of effects.
- `AsyncResource` scoping and `emitDestroy` (src/WorkerPool.ts:9-22) are async-hooks tracing. They do not touch the bookkeeping. `WorkerPoolTaskInfo.done` is modelled as one `Invoked(callback, err, result)` entry.
- The `EventEmitter` machinery is left out. The freed-event listener is a direct call at the point where the source emits the event. `emit('error', err)` is a `PoolError` entry.
- When no `'error'` listener is registered, Node's `emit('error')` throws. src/index.ts registers none. The model assumes the pool's owner listens, so the handler goes on to the splice and the replacement.
- Callbacks are assumed to leave the pool's state alone. A callback that calls `runTask`, or one that throws, is not modelled.
- Timing and real parallelism are left out. Completions and crashes arrive as an arbitrary sequence of events (`PoolModel.Step`). A worker replies only to a task it was posted, and a crashed worker emits nothing more.
- Events after `close` are not modelled. `close` is a hard stop, and no guarantee is made about callbacks after it.
- A failing `new Worker(...)` (an exception during provisioning) is not modelled. Fresh ids always succeed.
- `numThreads` is modelled as an integer. A fractional JavaScript number, which would make the constructor loop run up to the next integer, is not modelled. A negative count creates no workers, as in the source.
- Task payloads, results and errors are opaque integers. Callbacks are opaque integer ids.
- src/index.ts, the driver script, is not part of this model.
- `PoolModel.Message`: requires the worker's slot to hold a task. With an empty slot the source's handler throws a `TypeError` at its first line (src/WorkerPool.ts:56), and the process ends.
- `WorkerPoolClass.WorkerPool.Message`: the same precondition as `PoolModel.Message`, for the same reason.
- `WorkerPoolClass.WorkerPool.Error`: promises only `Consistent`, not `Inv`, because the handler as written does not keep `Inv` (see Findings).

## Findings

| source | as written | input that shows it | evidently intended | confidence | as-written member | corrected member |
|---|---|---|---|---|---|---|
| src/WorkerPool.ts:77 | `addNewWorker` emits the freed event under a string name. The listener is registered under the symbol of line 7, so a replacement worker never triggers dispatch. | `numThreads` = 1. Submit task a, which runs on worker 0, then task b, which is queued. Worker 0 crashes. Worker 1 now idles while b waits. A third submission, c, is posted to worker 1 ahead of b. | Emit the symbol, so that the replacement takes the front waiting record. | not executed | `PoolFindings.ReplacementStrandsQueue` | `PoolFindings.ErrorFixedPreserves` |
| src/WorkerPool.ts:71 | The crashed worker is spliced out of `workers` only. An idle worker that crashes stays on the free stack. | `numThreads` = 1, and the pool's owner listens for `'error'`. Without that listener, the `emit('error')` at line 68 throws and the process ends before line 71 runs. src/index.ts registers no such listener. Worker 0 crashes while idle. Then submit (10, callback 100) and (20, callback 200). Task 20 is posted to the dead worker 0, and callback 200 is never invoked. | Also remove the crashed worker from `freeWorkers`. | not executed | `PoolFindings.DeadWorkerSwallowsTask` | `PoolFindings.ErrorFixedLedger` |
