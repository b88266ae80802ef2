/**
 * `WorkerPool` (src/WorkerPool.ts) as a class whose methods update its
 * fields in place, one method per event: the constructor, `addNewWorker`,
 * `runTask`, the freed-event listener, the worker's 'message' and 'error'
 * handlers, and `close`. Each method is proved to move the pool's state as
 * the matching function of pool_model.dfy does, and to keep the invariants
 * proved about those functions in pool_properties.dfy.
 */
module WorkerPoolClass {
  import opened PoolModel
  import opened PoolProperties

  class WorkerPool {
    /** The configured concurrency, as passed to the constructor. */
    const numThreads: int
    /** Every live worker. */
    var workers: seq<WorkerId>
    /** The idle workers, used as a stack: the top is the last element. */
    var freeWorkers: seq<WorkerId>
    /** The pending `{ task, callback }` records, front first. */
    var tasks: seq<TaskRec>
    /** `worker[kTaskInfo]` of every worker created so far. */
    var taskInfo: map<WorkerId, Option<TaskInfo>>
    /** The id the next `new Worker(...)` receives. */
    var nextId: WorkerId
    /** Tasks posted, callbacks invoked, pool-level errors emitted and workers terminated, in order. */
    ghost var effects: seq<Effect>

    /** The pool's whole state as a value of the model. */
    ghost function State(): Pool
      reads this
    {
      Pool(numThreads, workers, freeWorkers, tasks, taskInfo, nextId, effects)
    }

    /**
     * Creates `numThreads` workers, each pushed on `workers` and on
     * `freeWorkers`; the freed-event listener is the method `WorkerFreed`
     * below, called directly where the source emits the event.
     */
    constructor (numThreads: int)
      ensures State() == Construct(numThreads)
      ensures workers == freeWorkers && |workers| == Size(numThreads) && Distinct(workers)
      ensures tasks == [] && (forall w :: w in workers ==> w in taskInfo && taskInfo[w] == None)
      ensures Inv(State())
    {
      this.numThreads := numThreads;
      workers, freeWorkers, tasks := [], [], [];
      taskInfo, nextId := map[], 0;
      effects := [];
      new;
      var i := 0;
      while i < numThreads
        invariant 0 <= i <= Size(numThreads)
        invariant State() == AddWorkers(Empty(numThreads), i)
      {
        AddNewWorker();
        i := i + 1;
      }
      ConstructShape(numThreads);
    }

    /**
     * `addNewWorker`: a fresh worker (its 'message' and 'error' listeners are
     * `Message` and `Error` below) is pushed on both lists. The closing
     * `emit('kWorkerFreedEvent')` names no registered listener, so nothing
     * is dispatched.
     */
    method AddNewWorker()
      modifies this
      ensures State() == PoolModel.AddNewWorker(old(State()))
      ensures workers == old(workers) + [old(nextId)] && freeWorkers == old(freeWorkers) + [old(nextId)]
      ensures tasks == old(tasks)
    {
      var worker := nextId;
      nextId := nextId + 1;
      taskInfo := taskInfo[worker := None];
      workers := workers + [worker];
      freeWorkers := freeWorkers + [worker];
    }

    /**
     * `runTask(task, callback)`: with no free worker the record joins the
     * back of the queue and nothing else changes; otherwise the top of the
     * free stack is popped, takes the callback into its slot and is posted
     * the task, and the queue is left alone.
     */
    method RunTask(task: Payload, callback: CallbackId)
      modifies this
      ensures State() == PoolModel.RunTask(old(State()), task, callback)
      ensures workers == old(workers)
      ensures old(|freeWorkers|) == 0 ==>
        && tasks == old(tasks) + [TaskRec(task, callback)]
        && freeWorkers == old(freeWorkers) && taskInfo == old(taskInfo)
      ensures old(|freeWorkers|) > 0 ==>
        var top := old(freeWorkers[|freeWorkers| - 1]);
        && freeWorkers == old(freeWorkers[..|freeWorkers| - 1])
        && taskInfo == old(taskInfo)[top := Some(TaskInfo(callback))]
        && tasks == old(tasks)
        && effects == old(effects) + [Posted(top, task)]
      ensures Consistent(old(State())) ==> Consistent(State())
      ensures Inv(old(State())) ==> Inv(State())
    {
      if Consistent(State()) {
        RunTaskPreserves(State(), task, callback);
      }
      if |freeWorkers| == 0 {
        tasks := tasks + [TaskRec(task, callback)];
        return;
      }
      var worker := freeWorkers[|freeWorkers| - 1];
      freeWorkers := freeWorkers[..|freeWorkers| - 1];
      taskInfo := taskInfo[worker := Some(TaskInfo(callback))];
      effects := effects + [Posted(worker, task)];
    }

    /** The `kWorkerFreedEvent` listener: the front record, if any, is shifted off and run. */
    method WorkerFreed()
      modifies this
      ensures State() == PoolModel.WorkerFreed(old(State()))
    {
      if |tasks| > 0 {
        var next := tasks[0];
        tasks := tasks[1..];
        RunTask(next.task, next.callback);
      }
    }

    /**
     * The 'message' handler of `worker`: its callback gets `(null, result)`,
     * its slot is cleared, it is pushed on the free stack and the freed-event
     * listener runs.
     */
    method Message(worker: WorkerId, result: ResultValue)
      requires HoldsTask(State(), worker)
      modifies this
      ensures State() == PoolModel.Message(old(State()), worker, result)
      ensures worker in old(workers) && Consistent(old(State())) ==> Consistent(State())
      ensures worker in old(workers) && Inv(old(State())) ==> Inv(State())
    {
      if worker in workers && Consistent(State()) {
        MessagePreserves(State(), worker, result);
      }
      var info := taskInfo[worker].value;
      effects := effects + [info.Done(None, Some(result))];
      taskInfo := taskInfo[worker := None];
      freeWorkers := freeWorkers + [worker];
      WorkerFreed();
    }

    /**
     * The 'error' handler of `worker`: the slot's callback gets
     * `(err, null)`, or the pool emits 'error' when the slot is empty; the
     * worker is spliced out of `workers` and a replacement is added.
     */
    method Error(worker: WorkerId, err: ErrorValue)
      requires worker in taskInfo
      modifies this
      ensures State() == PoolModel.Error(old(State()), worker, err)
      ensures worker in old(workers) && Consistent(old(State())) ==> Consistent(State())
    {
      if worker in workers && Consistent(State()) {
        ErrorPreserves(State(), worker, err);
      }
      match taskInfo[worker] {
        case Some(info) => effects := effects + [info.Done(Some(err), None)];
        case None => effects := effects + [PoolError(err)];
      }
      workers := SpliceOne(workers, IndexOf(workers, worker));
      AddNewWorker();
    }

    /** `close`: terminates every worker in `workers`, in order; the bookkeeping is untouched. */
    method Close()
      modifies this`effects
      ensures State() == PoolModel.Close(old(State()))
    {
      for i := 0 to |workers|
        invariant effects == old(effects) + Terminations(workers[..i])
      {
        assert Terminations(workers[..i + 1]) == Terminations(workers[..i]) + [Terminated(workers[i])];
        effects := effects + [Terminated(workers[i])];
      }
      assert workers[..|workers|] == workers;
    }
  }
}
