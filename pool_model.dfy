/**
 * The bookkeeping of `WorkerPool` (src/WorkerPool.ts) as values.
 *
 * Every mutation of the pool happens on one coordinating thread, so each
 * event handler is a function from the pool's state before the event to its
 * state after it. Worker threads are opaque ids handed out in order; what the
 * pool does to the outside world (posting a task, invoking a callback,
 * emitting the pool-level 'error', terminating a worker) is appended to a log
 * of effects. The class in worker_pool.dfy is proved against these functions.
 */
module PoolModel {

  /** A worker thread, known only by identity; `new Worker(...)` takes the next unused id. */
  type WorkerId = nat
  /** A user callback passed to `runTask`, known only by identity. */
  type CallbackId = nat
  /** The opaque task payload, result and error value. */
  type Payload = int
  type ResultValue = int
  type ErrorValue = int

  datatype Option<T> = None | Some(value: T)

  /** A queued `{ task, callback }` record. */
  datatype TaskRec = TaskRec(task: Payload, callback: CallbackId)

  /** What the pool does to the world outside its own bookkeeping. */
  datatype Effect =
    | Posted(worker: WorkerId, task: Payload)                                              // worker.postMessage(task)
    | Invoked(callback: CallbackId, err: Option<ErrorValue>, result: Option<ResultValue>) // callback(err, result)
    | PoolError(error: ErrorValue)                                                         // this.emit('error', err)
    | Terminated(worker: WorkerId)                                                         // worker.terminate()

  /** `WorkerPoolTaskInfo`: what a busy worker's `kTaskInfo` slot holds. */
  datatype TaskInfo = TaskInfo(callback: CallbackId) {
    /** `done(err, result)`: one invocation of the callback with both arguments. */
    function Done(err: Option<ErrorValue>, result: Option<ResultValue>): Effect {
      Invoked(callback, err, result)
    }
  }

  /**
   * The pool: `workers`, the `freeWorkers` stack (top at the end), the
   * `tasks` queue (front at index 0), every worker's `kTaskInfo` slot, the
   * next unused worker id and the log of effects.
   */
  datatype Pool = Pool(
    numThreads: int,
    workers: seq<WorkerId>,
    free: seq<WorkerId>,
    tasks: seq<TaskRec>,
    taskInfo: map<WorkerId, Option<TaskInfo>>,
    nextId: WorkerId,
    effects: seq<Effect>)

  /** How many times the constructor's counting loop runs: none for a negative count. */
  function Size(numThreads: int): nat {
    if numThreads < 0 then 0 else numThreads
  }

  /** Whether worker `w`'s `kTaskInfo` slot holds a task (it is neither null nor undefined). */
  predicate HoldsTask(p: Pool, w: WorkerId) {
    w in p.taskInfo && p.taskInfo[w].Some?
  }

  /** `Array.prototype.indexOf`: the first position of `w` in `s`, or -1. */
  function IndexOf(s: seq<WorkerId>, w: WorkerId): (i: int)
    ensures -1 <= i < |s|
    ensures i == -1 <==> w !in s
    ensures 0 <= i ==> s[i] == w && w !in s[..i]
  {
    if |s| == 0 then -1
    else if s[0] == w then 0
    else
      var j := IndexOf(s[1..], w);
      if j == -1 then -1
      else
        assert s[..j + 1] == [s[0]] + s[1..][..j];
        j + 1
  }

  /**
   * `Array.prototype.splice(start, 1)`: removes one element; a negative start
   * counts back from the end, so -1 removes the last element.
   */
  function SpliceOne(s: seq<WorkerId>, start: int): (r: seq<WorkerId>)
    requires start < |s|
    ensures |s| > 0 ==> |r| == |s| - 1
    ensures multiset(r) <= multiset(s)
    ensures 0 <= start ==> r == s[..start] + s[start + 1..]
    ensures start == -1 && |s| > 0 ==> r == s[..|s| - 1]
    ensures |s| == 0 ==> r == s
  {
    if |s| == 0 then s
    else
      var k := if 0 <= start then start else if |s| + start < 0 then 0 else |s| + start;
      assert s == s[..k] + [s[k]] + s[k + 1..];
      assert k == |s| - 1 ==> s[k + 1..] == [];
      s[..k] + s[k + 1..]
  }

  /** The pool right after `super()` and the three `= []` assignments. */
  function Empty(numThreads: int): Pool {
    Pool(numThreads, [], [], [], map[], 0, [])
  }

  /**
   * `addNewWorker`: a fresh worker is pushed on `workers` and on
   * `freeWorkers`. Its closing `emit('kWorkerFreedEvent')` uses a string
   * name that no listener is registered under, so nothing is dispatched.
   */
  function AddNewWorker(p: Pool): Pool {
    var w := p.nextId;
    p.(workers := p.workers + [w], free := p.free + [w],
       taskInfo := p.taskInfo[w := None], nextId := w + 1)
  }

  /** `k` calls of `addNewWorker`. */
  function AddWorkers(p: Pool, k: nat): Pool {
    if k == 0 then p else AddNewWorker(AddWorkers(p, k - 1))
  }

  /**
   * The constructor: `numThreads` calls of `addNewWorker`. The freed-event
   * listener is registered only afterwards; it is `WorkerFreed` below.
   */
  function Construct(numThreads: int): Pool {
    AddWorkers(Empty(numThreads), Size(numThreads))
  }

  /**
   * `runTask(task, callback)`: with no free worker the record joins the back
   * of the queue; otherwise the most recently pushed free worker is popped,
   * gets the callback in its slot and is sent the task.
   */
  function RunTask(p: Pool, task: Payload, callback: CallbackId): Pool {
    if |p.free| == 0 then
      p.(tasks := p.tasks + [TaskRec(task, callback)])
    else
      var w := p.free[|p.free| - 1];
      p.(free := p.free[..|p.free| - 1],
         taskInfo := p.taskInfo[w := Some(TaskInfo(callback))],
         effects := p.effects + [Posted(w, task)])
  }

  /** The `kWorkerFreedEvent` listener: shift the front record, if any, and run it. */
  function WorkerFreed(p: Pool): Pool {
    if |p.tasks| > 0 then
      RunTask(p.(tasks := p.tasks[1..]), p.tasks[0].task, p.tasks[0].callback)
    else p
  }

  /**
   * The worker's 'message' handler: `done(null, result)` on the slot's task,
   * clear the slot, push the worker on the free stack, then the freed-event
   * listener runs. With an empty slot the handler throws at its first line,
   * so the slot must be filled.
   */
  function Message(p: Pool, w: WorkerId, result: ResultValue): Pool
    requires HoldsTask(p, w)
  {
    var info := p.taskInfo[w].value;
    WorkerFreed(p.(effects := p.effects + [info.Done(None, Some(result))],
                   taskInfo := p.taskInfo[w := None],
                   free := p.free + [w]))
  }

  /** The report of a crash: the slot's callback gets the error, or else the pool emits it. */
  function CrashReport(slot: Option<TaskInfo>, err: ErrorValue): Effect {
    match slot
    case Some(info) => info.Done(Some(err), None)
    case None => PoolError(err)
  }

  /**
   * The worker's 'error' handler: report the error, splice the worker out of
   * `workers` (at its `indexOf`, which is -1 if it is not there), then
   * `addNewWorker`. The slot is not cleared and `freeWorkers` is not touched.
   */
  function Error(p: Pool, w: WorkerId, err: ErrorValue): Pool
    requires w in p.taskInfo
  {
    var q := p.(effects := p.effects + [CrashReport(p.taskInfo[w], err)],
                workers := SpliceOne(p.workers, IndexOf(p.workers, w)));
    AddNewWorker(q)
  }

  /** `terminate()` for each worker in `workers`, in order. */
  function Terminations(ws: seq<WorkerId>): seq<Effect> {
    seq(|ws|, i requires 0 <= i < |ws| => Terminated(ws[i]))
  }

  /** `close`: terminates every listed worker; the bookkeeping is left as it is. */
  function Close(p: Pool): Pool {
    p.(effects := p.effects + Terminations(p.workers))
  }

  /** The events that drive the pool after construction. */
  datatype Step =
    | Submit(task: Payload, callback: CallbackId)   // a call of runTask
    | Complete(worker: WorkerId, result: ResultValue) // a 'message' from a worker
    | Crash(worker: WorkerId, err: ErrorValue)       // an 'error' from a worker

  /**
   * Which events can arrive: a worker thread replies only to a task it was
   * sent, and a worker that has crashed emits nothing more, so completions
   * and crashes come from listed workers.
   */
  predicate Enabled(p: Pool, s: Step) {
    match s
    case Submit(_, _) => true
    case Complete(w, _) => w in p.workers && HoldsTask(p, w)
    case Crash(w, _) => w in p.workers && w in p.taskInfo
  }

  function Apply(p: Pool, s: Step): Pool
    requires Enabled(p, s)
  {
    match s
    case Submit(t, cb) => RunTask(p, t, cb)
    case Complete(w, r) => Message(p, w, r)
    case Crash(w, e) => Error(p, w, e)
  }

  /** Every event of `steps` can arrive in the state the previous ones leave. */
  predicate Executable(p: Pool, steps: seq<Step>)
    decreases |steps|
  {
    |steps| == 0 || (Enabled(p, steps[0]) && Executable(Apply(p, steps[0]), steps[1..]))
  }

  function Run(p: Pool, steps: seq<Step>): Pool
    requires Executable(p, steps)
    decreases |steps|
  {
    if |steps| == 0 then p else Run(Apply(p, steps[0]), steps[1..])
  }

  /** Whether no crash occurs among `steps`. */
  predicate NoCrash(steps: seq<Step>) {
    forall i :: 0 <= i < |steps| ==> !steps[i].Crash?
  }
}
