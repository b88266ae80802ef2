/**
 * Two places where the crash-and-replace path of src/WorkerPool.ts does not keep
 * the pool's own guarantees, each shown on the handler as written (the
 * function `Error` of pool_model.dfy), and a corrected handler proved to keep
 * them.
 *
 * 1. Line 77 emits the string 'kWorkerFreedEvent', while the listener is
 *    registered under the symbol `kWorkerFreedEvent` (lines 7 and 42). A
 *    replacement worker created while records wait is therefore never given
 *    one; it idles on the free stack, and the next `runTask` goes to it ahead
 *    of every waiting record.
 * 2. Line 71 splices the crashed worker out of `workers` only. A worker that
 *    crashes while idle stays on the free stack, and a later `runTask` posts
 *    its task to that dead worker, whose callback is then never invoked.
 */
module PoolFindings {
  import opened PoolModel
  import opened PoolProperties

  // ---------------------------------------------------------------------
  // As written
  // ---------------------------------------------------------------------

  /**
   * A crash of a busy worker while records wait: the replacement sits alone
   * on the free stack beside a non-empty queue (so `Inv` fails), and the next
   * submission is posted to it while every waiting record keeps waiting.
   */
  lemma ReplacementStrandsQueue(p: Pool, w: WorkerId, err: ErrorValue, task: Payload, callback: CallbackId)
    requires Inv(p) && w in p.workers && HoldsTask(p, w) && |p.tasks| > 0
    ensures var q := Error(p, w, err);
      && q.tasks == p.tasks
      && q.free == [p.nextId]
      && !Inv(q)
      && RunTask(q, task, callback).tasks == p.tasks
      && RunTask(q, task, callback).effects == q.effects + [Posted(p.nextId, task)]
  {
    CrashReplacesOneForOne(p, w, err);
  }

  /**
   * A crash of an idle worker: it leaves `workers` but stays on the free
   * stack (so `Inv` fails), after the pool emits 'error'.
   */
  lemma IdleCrashLeavesDeadWorkerFree(p: Pool, w: WorkerId, err: ErrorValue)
    requires Inv(p) && w in p.workers && !HoldsTask(p, w)
    ensures var q := Error(p, w, err);
      && q.effects == p.effects + [PoolError(err)]
      && w in q.free && w !in q.workers
      && !Inv(q)
  {
    CrashReplacesOneForOne(p, w, err);
  }

  /** One thread, and worker 0 crashes while idle: worker 1 replaces it, and worker 0 stays on the free stack. */
  lemma OneThreadIdleCrash()
    ensures Construct(1) == Pool(1, [0], [0], [], map[0 := None], 1, [])
    ensures Error(Construct(1), 0, 7) == Pool(1, [1], [0, 1], [], map[0 := None, 1 := None], 2, [PoolError(7)])
  {
    assert AddWorkers(Empty(1), 0) == Empty(1);
  }

  /**
   * One thread: worker 0 crashes while idle, then two tasks are submitted.
   * The first goes to the replacement, worker 1; the second is posted to the
   * dead worker 0, and its callback (200) is neither queued, nor held by a
   * listed worker, nor invoked: the ledger has lost it.
   */
  lemma DeadWorkerSwallowsTask()
    ensures var p0 := Construct(1);
      && p0 == Pool(1, [0], [0], [], map[0 := None], 1, [])
      && var p1 := Error(p0, 0, 7);
      && p1.workers == [1] && p1.free == [0, 1]
      && var p3 := RunTask(RunTask(p1, 10, 100), 20, 200);
      && p3.effects == [PoolError(7), Posted(1, 10), Posted(0, 20)]
      && p3.workers == [1] && p3.tasks == []
      && Ledger(p1) == multiset{}
      && Ledger(p3) == multiset{100}
  {
    OneThreadIdleCrash();
    var p1 := Error(Construct(1), 0, 7);
    var p3 := RunTask(RunTask(p1, 10, 100), 20, 200);
    assert p3.taskInfo == map[0 := Some(TaskInfo(200)), 1 := Some(TaskInfo(100))];
    assert p3.effects == [PoolError(7), Posted(1, 10), Posted(0, 20)];
    var e2, e1 := [Posted(0, 20)], [Posted(1, 10), Posted(0, 20)];
    assert InvokedCallbacks(e2) == multiset{} by {
      assert e2[1..] == [];
    }
    assert InvokedCallbacks(e1) == multiset{} by {
      assert e1[1..] == e2;
    }
    assert InvokedCallbacks(p3.effects) == multiset{} by {
      assert p3.effects[1..] == e1;
    }
    assert HeldCallbacks(p3.taskInfo, [1]) == multiset{100} by {
      assert [1][1..] == [];
    }
    assert InvokedCallbacks(p1.effects) == multiset{} by {
      assert p1.effects[1..] == [];
    }
    assert HeldCallbacks(p1.taskInfo, [1]) == multiset{} by {
      assert [1][1..] == [];
    }
  }

  // ---------------------------------------------------------------------
  // Corrected
  // ---------------------------------------------------------------------

  /**
   * The 'error' handler as evidently intended: the crashed worker also
   * leaves the free stack (only if it is on it: `splice(-1, 1)` would drop
   * the top), and the replacement's arrival triggers the freed-event
   * listener.
   */
  function ErrorFixed(p: Pool, w: WorkerId, err: ErrorValue): Pool
    requires w in p.taskInfo
  {
    WorkerFreed(AddNewWorker(Unlist(p, w, err)))
  }

  /** The corrected handler up to the replacement: report the crash and take the worker off both lists. */
  function Unlist(p: Pool, w: WorkerId, err: ErrorValue): Pool
    requires w in p.taskInfo
  {
    var i := IndexOf(p.free, w);
    p.(effects := p.effects + [CrashReport(p.taskInfo[w], err)],
       workers := SpliceOne(p.workers, IndexOf(p.workers, w)),
       free := if i == -1 then p.free else SpliceOne(p.free, i))
  }

  /** Taking a listed worker off both lists removes it and nothing else. */
  lemma UnlistRemoves(p: Pool, w: WorkerId, err: ErrorValue)
    requires WellFormed(p) && w in p.workers
    ensures var q := Unlist(p, w, err);
      && q.tasks == p.tasks && q.taskInfo == p.taskInfo && q.nextId == p.nextId
      && q.numThreads == p.numThreads
      && Distinct(q.workers) && Distinct(q.free)
      && |q.workers| + 1 == |p.workers|
      && (forall x :: x in q.workers <==> x in p.workers && x != w)
      && (forall x :: x in q.free <==> x in p.free && x != w)
  {
    var q := Unlist(p, w, err);
    var wi := IndexOf(p.workers, w);
    RemoveAt(p.workers, wi);
    assert q.workers == p.workers[..wi] + p.workers[wi + 1..];
    var i := IndexOf(p.free, w);
    if i != -1 {
      RemoveAt(p.free, i);
      assert q.free == p.free[..i] + p.free[i + 1..];
    } else {
      assert q.free == p.free && w !in p.free;
    }
  }

  /** The corrected handler's state just before the freed-event listener runs. */
  lemma FixedBeforeDispatch(p: Pool, w: WorkerId, err: ErrorValue)
    requires Inv(p) && w in p.workers
    ensures var m := AddNewWorker(Unlist(p, w, err));
      && Consistent(m)
      && (forall v :: v in m.free ==> v in m.workers)
      && m.tasks == p.tasks
      && (|m.tasks| > 0 ==> m.free == [p.nextId])
      && w !in m.workers && w !in m.free
  {
    UnlistRemoves(p, w, err);
    FreshReplacement(p, Unlist(p, w, err), w);
  }

  /** A fresh worker added to a pool that `w` has just left, whatever list operations removed it. */
  lemma FreshReplacement(p: Pool, q: Pool, w: WorkerId)
    requires Inv(p) && w in p.workers
    requires q.tasks == p.tasks && q.taskInfo == p.taskInfo && q.nextId == p.nextId
    requires q.numThreads == p.numThreads
    requires Distinct(q.workers) && Distinct(q.free)
    requires |q.workers| + 1 == |p.workers|
    requires forall x :: x in q.workers <==> x in p.workers && x != w
    requires forall x :: x in q.free <==> x in p.free && x != w
    ensures var m := AddNewWorker(q);
      && Consistent(m)
      && (forall v :: v in m.free ==> v in m.workers)
      && m.tasks == p.tasks
      && (|m.tasks| > 0 ==> m.free == [p.nextId])
      && w !in m.workers && w !in m.free
  {
    var n := p.nextId;
    var m := AddNewWorker(q);
    assert n !in p.taskInfo;
    AppendFresh(q.workers, n);
    AppendFresh(q.free, n);
    assert m.workers == q.workers + [n] && m.free == q.free + [n];
    if |p.tasks| > 0 {
      assert p.free == [];
      NoMembers(q.free);
    }
  }

  /** A list with no members is empty. */
  lemma NoMembers(s: seq<WorkerId>)
    ensures (forall x :: x !in s) ==> s == []
  {
    if |s| > 0 {
      assert s[0] in s;
    }
  }

  /** Appending an id a list lacks keeps it without repeats. */
  lemma AppendFresh(s: seq<WorkerId>, n: WorkerId)
    requires Distinct(s) && n !in s
    ensures Distinct(s + [n])
    ensures forall x :: x in s + [n] <==> x in s || x == n
  {
    var r := s + [n];
    forall a, b | 0 <= a < b < |r| ensures r[a] != r[b] {
      assert r[a] == s[a];
      if b < |s| {
        assert r[b] == s[b];
      }
    }
  }

  /**
   * The corrected handler keeps `Inv`: the crashed worker is gone from both
   * lists, `workers` keeps `numThreads` entries, and the replacement takes
   * the front waiting record if there is one.
   */
  lemma ErrorFixedPreserves(p: Pool, w: WorkerId, err: ErrorValue)
    requires Inv(p) && w in p.workers
    ensures Inv(ErrorFixed(p, w, err))
    ensures w !in ErrorFixed(p, w, err).workers && w !in ErrorFixed(p, w, err).free
    ensures |p.tasks| > 0 ==>
      var q := ErrorFixed(p, w, err);
      && q.tasks == p.tasks[1..]
      && q.free == []
      && q.taskInfo[p.nextId] == Some(TaskInfo(p.tasks[0].callback))
      && q.effects[|q.effects| - 1] == Posted(p.nextId, p.tasks[0].task)
  {
    FixedBeforeDispatch(p, w, err);
    var m := AddNewWorker(Unlist(p, w, err));
    if |m.tasks| > 0 {
      RunTaskPreserves(m.(tasks := m.tasks[1..]), m.tasks[0].task, m.tasks[0].callback);
    }
  }

  /** The one report of a crash invokes exactly the callback the slot held, if any. */
  lemma CrashReportLedger(slot: Option<TaskInfo>, err: ErrorValue)
    ensures InvokedCallbacks([CrashReport(slot, err)]) == SlotCallback(slot)
  {
    assert [CrashReport(slot, err)][1..] == [];
  }

  /** Reporting the crash and unlisting the worker moves its callback, if any, from held to invoked. */
  lemma UnlistLedger(p: Pool, w: WorkerId, err: ErrorValue)
    requires WellFormed(p) && w in p.workers
    ensures Ledger(Unlist(p, w, err)) == Ledger(p)
  {
    var q := Unlist(p, w, err);
    var info := p.taskInfo;
    var j := IndexOf(p.workers, w);
    assert q.workers == p.workers[..j] + p.workers[j + 1..];
    HeldRemove(info, p.workers, j);
    InvokedConcat(p.effects, [CrashReport(info[w], err)]);
    CrashReportLedger(info[w], err);
    var queued, invoked := QueuedCallbacks(p.tasks), InvokedCallbacks(p.effects);
    var held, hw := HeldCallbacks(info, q.workers), SlotCallback(info[w]);
    assert HeldCallbacks(info, p.workers) == held + hw;
    assert InvokedCallbacks(q.effects) == invoked + hw;
    calc {
      Ledger(q);
      queued + held + (invoked + hw);
      queued + (held + hw) + invoked;
      Ledger(p);
    }
  }

  /** Dropping position `j` of `ws` takes exactly that worker's callback, if any, out of what `ws` hold. */
  lemma HeldRemove(info: map<WorkerId, Option<TaskInfo>>, ws: seq<WorkerId>, j: int)
    requires 0 <= j < |ws| && ws[j] in info
    ensures HeldCallbacks(info, ws[..j] + ws[j + 1..]) + SlotCallback(info[ws[j]]) == HeldCallbacks(info, ws)
  {
    var w := ws[j];
    var before, after := ws[..j], ws[j + 1..];
    assert ws == before + [w] + after;
    var hb, hw, ha := HeldCallbacks(info, before), SlotCallback(info[w]), HeldCallbacks(info, after);
    HeldConcat(info, before + [w], after);
    HeldConcat(info, before, [w]);
    HeldConcat(info, before, after);
    assert HeldCallbacks(info, [w]) == hw by {
      assert [w][1..] == [];
    }
  }

  /** A fresh worker holds nothing. */
  lemma AddNewWorkerLedger(q: Pool)
    requires q.nextId !in q.workers
    ensures Ledger(AddNewWorker(q)) == Ledger(q)
  {
    var n := q.nextId;
    var m := AddNewWorker(q);
    HeldConcat(m.taskInfo, q.workers, [n]);
    HeldElsewhere(q.taskInfo, q.workers, n, None);
    assert HeldCallbacks(m.taskInfo, [n]) == multiset{} by {
      assert [n][1..] == [];
    }
  }

  /** The freed-event listener moves the front record, if any, from the queue to a listed worker. */
  lemma WorkerFreedLedger(m: Pool)
    requires Consistent(m) && (forall v :: v in m.free ==> v in m.workers)
    requires |m.tasks| > 0 ==> |m.free| > 0
    ensures Ledger(WorkerFreed(m)) == Ledger(m)
  {
    if |m.tasks| > 0 {
      var front := m.tasks[0];
      var m' := m.(tasks := m.tasks[1..]);
      assert Consistent(m') && (forall v :: v in m'.free ==> v in m'.workers);
      RunTaskLedger(m', front.task, front.callback);
      ShiftLedger(m);
    }
  }

  /** Shifting the front record off the queue takes its callback out of the ledger. */
  lemma ShiftLedger(m: Pool)
    requires |m.tasks| > 0
    ensures Ledger(m) == Ledger(m.(tasks := m.tasks[1..])) + multiset{m.tasks[0].callback}
  {
    var front, rest := m.tasks[0], m.tasks[1..];
    assert m.tasks == [front] + rest;
    QueuedConcat([front], rest);
    assert QueuedCallbacks([front]) == multiset{front.callback} by {
      assert [front][1..] == [];
    }
  }

  /**
   * The corrected handler loses no callback: the crashed worker's callback,
   * if it held one, moves from held to invoked, and a record the replacement
   * takes moves from the queue to held.
   */
  lemma ErrorFixedLedger(p: Pool, w: WorkerId, err: ErrorValue)
    requires Inv(p) && w in p.workers
    ensures Ledger(ErrorFixed(p, w, err)) == Ledger(p)
  {
    UnlistRemoves(p, w, err);
    UnlistLedger(p, w, err);
    var q := Unlist(p, w, err);
    assert q.nextId !in q.workers by {
      assert q.nextId !in p.taskInfo;
    }
    AddNewWorkerLedger(q);
    FixedBeforeDispatch(p, w, err);
    WorkerFreedLedger(AddNewWorker(q));
  }

  /** One event with the corrected 'error' handler. */
  function ApplyFixed(p: Pool, s: Step): Pool
    requires Enabled(p, s)
  {
    if s.Crash? then ErrorFixed(p, s.worker, s.err) else Apply(p, s)
  }

  predicate ExecutableFixed(p: Pool, steps: seq<Step>)
    decreases |steps|
  {
    |steps| == 0 || (Enabled(p, steps[0]) && ExecutableFixed(ApplyFixed(p, steps[0]), steps[1..]))
  }

  function RunFixed(p: Pool, steps: seq<Step>): Pool
    requires ExecutableFixed(p, steps)
    decreases |steps|
  {
    if |steps| == 0 then p else RunFixed(ApplyFixed(p, steps[0]), steps[1..])
  }

  /**
   * With the corrected handler, `Inv` holds along every sequence of events,
   * crashes included, and every callback passed to `runTask` stays waiting,
   * held by a listed worker or invoked, exactly as often as it was passed.
   */
  lemma {:induction false} RunFixedKeepsGuarantees(p: Pool, steps: seq<Step>)
    requires Inv(p) && ExecutableFixed(p, steps)
    ensures Inv(RunFixed(p, steps))
    ensures Ledger(RunFixed(p, steps)) == Ledger(p) + Submitted(steps)
    decreases |steps|
  {
    if |steps| > 0 {
      var s := steps[0];
      ApplyFixedKeeps(p, s);
      RunFixedKeepsGuarantees(ApplyFixed(p, s), steps[1..]);
      assert Submitted(steps) == Submitted([s]) + Submitted(steps[1..]) by {
        assert [s][1..] == [];
      }
    }
  }

  /** One event with the corrected handler keeps `Inv` and adds to the ledger exactly the callback it submits. */
  lemma ApplyFixedKeeps(p: Pool, s: Step)
    requires Inv(p) && Enabled(p, s)
    ensures Inv(ApplyFixed(p, s))
    ensures Ledger(ApplyFixed(p, s)) == Ledger(p) + Submitted([s])
  {
    assert Submitted([s]) == if s.Submit? then multiset{s.callback} else multiset{} by {
      assert [s][1..] == [];
    }
    match s {
      case Submit(t, cb) => RunTaskLedger(p, t, cb); RunTaskPreserves(p, t, cb);
      case Complete(w, r) => MessageLedger(p, w, r); MessagePreserves(p, w, r);
      case Crash(w, e) => ErrorFixedLedger(p, w, e); ErrorFixedPreserves(p, w, e);
    }
  }
}
