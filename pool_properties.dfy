/**
 * What the pool's bookkeeping keeps true, stated over the model in
 * pool_model.dfy: the shape after construction, the invariants that the
 * submission and completion paths preserve, the weaker one that crashes
 * preserve too, the bound on tasks in flight, and the FIFO discipline of the
 * pending queue.
 */
module PoolProperties {
  import opened PoolModel

  /** No id occurs twice. */
  ghost predicate Distinct(s: seq<WorkerId>) {
    forall i, j :: 0 <= i < j < |s| ==> s[i] != s[j]
  }

  /** The ids `0 .. k - 1`, in order. */
  function Ids(k: nat): seq<WorkerId> {
    seq(k, i requires 0 <= i < k => i)
  }

  /**
   * Ids are handed out in order: only ids already handed out have a slot,
   * every worker on either list has one, and neither list names a worker
   * twice.
   */
  ghost predicate WellFormed(p: Pool) {
    && (forall w :: w in p.taskInfo ==> w < p.nextId)
    && (forall w :: w in p.workers ==> w in p.taskInfo)
    && (forall w :: w in p.free ==> w in p.taskInfo)
    && Distinct(p.workers)
    && Distinct(p.free)
  }

  /**
   * Holds on every path, crashes included: there are `numThreads` listed
   * workers, and a listed worker holds a task exactly when it is not on the
   * free stack.
   */
  ghost predicate Consistent(p: Pool) {
    && WellFormed(p)
    && |p.workers| == Size(p.numThreads)
    && (forall w :: w in p.workers ==> (w in p.free <==> !HoldsTask(p, w)))
  }

  /**
   * Holds along construction, submissions and completions: besides
   * `Consistent`, every free worker is a listed one and tasks wait in the
   * queue only while no worker is free.
   */
  ghost predicate Inv(p: Pool) {
    && Consistent(p)
    && (forall w :: w in p.free ==> w in p.workers)
    && (|p.tasks| > 0 ==> |p.free| == 0)
  }

  /** The workers of `ws` that hold a task, in order. */
  function Busy(p: Pool, ws: seq<WorkerId>): seq<WorkerId> {
    if |ws| == 0 then []
    else (if HoldsTask(p, ws[0]) then [ws[0]] else []) + Busy(p, ws[1..])
  }

  /** The workers of `ws` that hold no task, in order. */
  function Idle(p: Pool, ws: seq<WorkerId>): seq<WorkerId> {
    if |ws| == 0 then []
    else (if HoldsTask(p, ws[0]) then [] else [ws[0]]) + Idle(p, ws[1..])
  }

  /** The number of tasks in flight: listed workers that hold one. */
  function InFlight(p: Pool): nat {
    |Busy(p, p.workers)|
  }

  // ---------------------------------------------------------------------
  // Sequence facts
  // ---------------------------------------------------------------------

  /** The elements of `s`, as a set. */
  function Elems(s: seq<WorkerId>): (r: set<WorkerId>)
    ensures forall x :: x in r <==> x in s
  {
    if |s| == 0 then {} else {s[0]} + Elems(s[1..])
  }

  lemma {:induction false} DistinctCard(s: seq<WorkerId>)
    requires Distinct(s)
    ensures |Elems(s)| == |s|
  {
    if |s| > 0 {
      var t := s[1..];
      DistinctTail(s);
      DistinctCard(t);
    }
  }

  /** The tail of a list without repeats has none, and lacks the head. */
  lemma DistinctTail(s: seq<WorkerId>)
    requires Distinct(s) && |s| > 0
    ensures Distinct(s[1..]) && s[0] !in s[1..]
  {
    forall i, j | 0 <= i < j < |s[1..]| ensures s[1..][i] != s[1..][j] {
      assert s[1..][i] == s[i + 1] && s[1..][j] == s[j + 1];
    }
  }

  /** Putting a new element in front of a list without repeats keeps it without repeats. */
  lemma DistinctCons(x: WorkerId, s: seq<WorkerId>)
    requires Distinct(s) && x !in s
    ensures Distinct([x] + s)
  {
    var r := [x] + s;
    forall i, j | 0 <= i < j < |r| ensures r[i] != r[j] {
      assert r[j] == s[j - 1];
      if i > 0 {
        assert r[i] == s[i - 1];
      }
    }
  }

  lemma {:induction false} SplitCounts(p: Pool, ws: seq<WorkerId>)
    ensures |Busy(p, ws)| + |Idle(p, ws)| == |ws|
    ensures forall x :: x in Idle(p, ws) <==> x in ws && !HoldsTask(p, x)
    ensures Distinct(ws) ==> Distinct(Idle(p, ws))
  {
    if |ws| > 0 {
      SplitCounts(p, ws[1..]);
      assert ws == [ws[0]] + ws[1..];
      if Distinct(ws) {
        DistinctTail(ws);
        var rest := Idle(p, ws[1..]);
        assert ws[0] !in rest;
        if !HoldsTask(p, ws[0]) {
          DistinctCons(ws[0], rest);
        }
      }
    }
  }

  /** Removing position `i` of a list without repeats removes exactly `s[i]`. */
  lemma RemoveAt(s: seq<WorkerId>, i: nat)
    requires Distinct(s) && i < |s|
    ensures Distinct(s[..i] + s[i + 1..])
    ensures forall x :: x in s[..i] + s[i + 1..] <==> x in s && x != s[i]
  {
    var r := s[..i] + s[i + 1..];
    forall a, b | 0 <= a < b < |r| ensures r[a] != r[b] {
      var a' := if a < i then a else a + 1;
      var b' := if b < i then b else b + 1;
      assert r[a] == s[a'] && r[b] == s[b'];
    }
    forall x ensures x in r <==> x in s && x != s[i] {
      if x in s && x != s[i] {
        var k :| 0 <= k < |s| && s[k] == x;
        assert x == r[if k < i then k else k - 1];
      }
      if x in r {
        var k :| 0 <= k < |r| && r[k] == x;
        assert x == s[if k < i then k else k + 1];
      }
    }
  }

  // ---------------------------------------------------------------------
  // Construction
  // ---------------------------------------------------------------------

  lemma {:induction false} AddWorkersFromEmpty(n: int, k: nat)
    ensures var q := AddWorkers(Empty(n), k);
      && q.numThreads == n && q.nextId == k
      && q.workers == Ids(k) && q.free == Ids(k)
      && q.tasks == [] && q.effects == []
      && (forall w :: w in q.taskInfo <==> w in q.workers)
      && (forall w :: w in q.taskInfo ==> q.taskInfo[w] == None)
  {
    if k > 0 {
      AddWorkersFromEmpty(n, k - 1);
      assert Ids(k) == Ids(k - 1) + [k - 1];
    }
  }

  /**
   * After construction `workers` and `freeWorkers` both list the same
   * `numThreads` distinct fresh workers, nothing is queued, no worker holds
   * a task, nothing has been posted or invoked, and `Inv` holds.
   */
  lemma ConstructShape(numThreads: int)
    ensures var q := Construct(numThreads);
      && q.workers == q.free
      && |q.workers| == Size(numThreads)
      && Distinct(q.workers)
      && (forall w :: w in q.workers ==> w in q.taskInfo && q.taskInfo[w] == None)
      && q.tasks == [] && q.effects == []
      && Inv(q)
  {
    var k := Size(numThreads);
    AddWorkersFromEmpty(numThreads, k);
    var q := Construct(numThreads);
    forall w | w in q.workers ensures w < k {
      var i :| 0 <= i < k && q.workers[i] == w;
    }
  }

  // ---------------------------------------------------------------------
  // Submission, completion, crash: preservation
  // ---------------------------------------------------------------------

  /** `runTask` keeps both invariants. */
  lemma RunTaskPreserves(p: Pool, task: Payload, callback: CallbackId)
    requires Consistent(p)
    ensures Consistent(RunTask(p, task, callback))
    ensures Inv(p) ==> Inv(RunTask(p, task, callback))
  {
    if |p.free| > 0 {
      var n := |p.free| - 1;
      var w := p.free[n];
      var q := RunTask(p, task, callback);
      RemoveAt(p.free, n);
      assert p.free[..n] + p.free[n + 1..] == p.free[..n];
      assert forall v :: v in p.free[..n] ==> v in p.free;
      assert w in p.taskInfo;
      assert q.taskInfo.Keys == p.taskInfo.Keys;
      assert q.nextId == p.nextId && q.workers == p.workers;
      assert WellFormed(q);
      assert forall v :: v in q.workers ==> (v in q.free <==> !HoldsTask(q, v)) by {
        forall v | v in q.workers ensures v in q.free <==> !HoldsTask(q, v) {
          if v == w {
            assert HoldsTask(q, v);
          } else {
            assert v in q.free <==> v in p.free;
            assert HoldsTask(q, v) == HoldsTask(p, v);
          }
        }
      }
    }
  }

  /**
   * A 'message' from a listed busy worker keeps both invariants: the worker
   * is pushed back on the free stack, and if a task is waiting the stack was
   * empty, so the listener hands that task straight back to it.
   */
  lemma MessagePreserves(p: Pool, w: WorkerId, result: ResultValue)
    requires Consistent(p) && w in p.workers && HoldsTask(p, w)
    ensures Consistent(Message(p, w, result))
    ensures Inv(p) ==> Inv(Message(p, w, result))
  {
    var info := p.taskInfo[w].value;
    var q := p.(effects := p.effects + [info.Done(None, Some(result))],
                taskInfo := p.taskInfo[w := None],
                free := p.free + [w]);
    assert w !in p.free;
    assert Distinct(q.free) by {
      forall i, j | 0 <= i < j < |q.free| ensures q.free[i] != q.free[j] {
        if j == |p.free| { assert q.free[i] in p.free; }
      }
    }
    assert Consistent(q);
    if |q.tasks| > 0 {
      RunTaskPreserves(q.(tasks := q.tasks[1..]), q.tasks[0].task, q.tasks[0].callback);
    }
  }

  /**
   * A crash of a listed worker keeps `Consistent`: the worker leaves
   * `workers`, one fresh worker joins both lists, and the count stays
   * `numThreads`.
   */
  lemma ErrorPreserves(p: Pool, w: WorkerId, err: ErrorValue)
    requires Consistent(p) && w in p.workers
    ensures Consistent(Error(p, w, err))
  {
    var i := IndexOf(p.workers, w);
    RemoveAt(p.workers, i);
    var n := p.nextId;
    var q := Error(p, w, err);
    var ws := p.workers[..i] + p.workers[i + 1..];
    assert q.workers == ws + [n];
    assert Distinct(q.workers) by {
      forall a, b | 0 <= a < b < |q.workers| ensures q.workers[a] != q.workers[b] {
        if b == |ws| {
          assert q.workers[a] == ws[a];
          assert ws[a] in p.workers;
          assert ws[a] in p.taskInfo;
        } else {
          assert q.workers[a] == ws[a] && q.workers[b] == ws[b];
        }
      }
    }
    assert Distinct(q.free) by {
      forall a, b | 0 <= a < b < |q.free| ensures q.free[a] != q.free[b] {
        if b == |p.free| { assert q.free[a] in p.free; }
      }
    }
  }

  /** Any sequence of events keeps `Consistent`; one without crashes keeps `Inv`. */
  lemma {:induction false} RunPreserves(p: Pool, steps: seq<Step>)
    requires Consistent(p) && Executable(p, steps)
    ensures Consistent(Run(p, steps))
    ensures Inv(p) && NoCrash(steps) ==> Inv(Run(p, steps))
    decreases |steps|
  {
    if |steps| > 0 {
      var s := steps[0];
      match s {
        case Submit(t, cb) => RunTaskPreserves(p, t, cb);
        case Complete(w, r) => MessagePreserves(p, w, r);
        case Crash(w, e) => ErrorPreserves(p, w, e);
      }
      assert NoCrash(steps) ==> NoCrash(steps[1..]) by {
        if NoCrash(steps) {
          forall i | 0 <= i < |steps[1..]| ensures !steps[1..][i].Crash? {
            assert steps[1..][i] == steps[i + 1];
          }
        }
      }
      RunPreserves(Apply(p, s), steps[1..]);
    }
  }

  // ---------------------------------------------------------------------
  // Tasks in flight
  // ---------------------------------------------------------------------

  /**
   * At most `numThreads` tasks are in flight; along submissions and
   * completions the tasks in flight and the free workers add up to exactly
   * `numThreads`.
   */
  lemma InFlightBound(p: Pool)
    requires Consistent(p)
    ensures InFlight(p) <= Size(p.numThreads)
    ensures Inv(p) ==> InFlight(p) + |p.free| == Size(p.numThreads)
  {
    SplitCounts(p, p.workers);
    if Inv(p) {
      var idle := Idle(p, p.workers);
      assert Elems(p.free) == Elems(idle);
      DistinctCard(p.free);
      DistinctCard(idle);
    }
  }

  // ---------------------------------------------------------------------
  // What each event does
  // ---------------------------------------------------------------------

  /**
   * 'message' from a busy worker: its callback is invoked once, with
   * `(null, result)`, before anything is dispatched. If a task is waiting,
   * the listener finds the freed worker on top of the free stack, so the
   * front record goes to that same worker, which stays off the stack; else
   * the worker sits on top of the stack with an empty slot.
   */
  lemma CompletionDispatchesFront(p: Pool, w: WorkerId, result: ResultValue)
    requires HoldsTask(p, w)
    ensures var q := Message(p, w, result);
      var done := Invoked(p.taskInfo[w].value.callback, None, Some(result));
      && q.workers == p.workers
      && (|p.tasks| > 0 ==>
            && q.tasks == p.tasks[1..]
            && q.free == p.free
            && q.taskInfo == p.taskInfo[w := Some(TaskInfo(p.tasks[0].callback))]
            && q.effects == p.effects + [done, Posted(w, p.tasks[0].task)])
      && (|p.tasks| == 0 ==>
            && q.tasks == []
            && q.free == p.free + [w]
            && q.taskInfo == p.taskInfo[w := None]
            && q.effects == p.effects + [done])
  {
    var info := p.taskInfo[w].value;
    var q := p.(effects := p.effects + [info.Done(None, Some(result))],
                taskInfo := p.taskInfo[w := None],
                free := p.free + [w]);
    assert q.free[..|q.free| - 1] == p.free;
  }

  /**
   * 'error' from a listed worker: exactly one report (its callback gets
   * `(err, null)` if it holds a task, else the pool emits 'error'); the
   * worker leaves `workers`, one fresh worker is appended to `workers` and
   * to `freeWorkers`, so `workers` keeps its length; the queue is not
   * touched, nothing is dispatched, and the failed worker's slot is kept.
   */
  lemma CrashReplacesOneForOne(p: Pool, w: WorkerId, err: ErrorValue)
    requires WellFormed(p) && w in p.workers
    ensures var q := Error(p, w, err);
      var n := p.nextId;
      && q.effects == p.effects + [if HoldsTask(p, w)
                                   then Invoked(p.taskInfo[w].value.callback, Some(err), None)
                                   else PoolError(err)]
      && n !in p.workers && n !in p.free && n !in p.taskInfo
      && |q.workers| == |p.workers|
      && q.workers[|q.workers| - 1] == n
      && (forall v :: v in q.workers <==> (v in p.workers && v != w) || v == n)
      && q.free == p.free + [n]
      && q.tasks == p.tasks
      && q.taskInfo == p.taskInfo[n := None]
  {
    RemoveAt(p.workers, IndexOf(p.workers, w));
  }

  /**
   * `close` posts one termination per listed worker, in order, and changes
   * no bookkeeping, so it keeps both invariants.
   */
  lemma CloseTerminatesEvery(p: Pool)
    ensures var q := Close(p);
      && q.workers == p.workers && q.free == p.free
      && q.tasks == p.tasks && q.taskInfo == p.taskInfo
      && q.effects[..|p.effects|] == p.effects
      && |q.effects| == |p.effects| + |p.workers|
      && (forall i :: 0 <= i < |p.workers| ==> q.effects[|p.effects| + i] == Terminated(p.workers[i]))
      && (forall w :: w in p.workers <==> Terminated(w) in q.effects[|p.effects|..])
      && (Consistent(p) ==> Consistent(q))
      && (Inv(p) ==> Inv(q))
  {
    var q := Close(p);
    var added := q.effects[|p.effects|..];
    assert added == Terminations(p.workers);
    forall w ensures w in p.workers <==> Terminated(w) in added {
      if w in p.workers {
        var i :| 0 <= i < |p.workers| && p.workers[i] == w;
        assert added[i] == Terminated(w);
      }
      if Terminated(w) in added {
        var i :| 0 <= i < |added| && added[i] == Terminated(w);
        assert p.workers[i] == w;
      }
    }
  }

  // ---------------------------------------------------------------------
  // The pending queue is FIFO
  // ---------------------------------------------------------------------

  /** The record one event appends to the back of the queue: a submission that finds no free worker. */
  function EnqueuedBy(p: Pool, s: Step): seq<TaskRec> {
    if s.Submit? && |p.free| == 0 then [TaskRec(s.task, s.callback)] else []
  }

  /** The record one event shifts off the front of the queue: a completion that finds one waiting. */
  function DequeuedBy(p: Pool, s: Step): seq<TaskRec> {
    if s.Complete? && |p.tasks| > 0 then [p.tasks[0]] else []
  }

  /** The records `steps` append to the back of the queue, in order. */
  function Enqueued(p: Pool, steps: seq<Step>): seq<TaskRec>
    requires Executable(p, steps)
    decreases |steps|
  {
    if |steps| == 0 then [] else EnqueuedBy(p, steps[0]) + Enqueued(Apply(p, steps[0]), steps[1..])
  }

  /** The records `steps` shift off the front of the queue and dispatch, in order. */
  function Dequeued(p: Pool, steps: seq<Step>): seq<TaskRec>
    requires Executable(p, steps)
    decreases |steps|
  {
    if |steps| == 0 then [] else DequeuedBy(p, steps[0]) + Dequeued(Apply(p, steps[0]), steps[1..])
  }

  /** One event appends at the back of the queue or shifts its front, never both, and nothing else. */
  lemma StepQueue(p: Pool, s: Step)
    requires Enabled(p, s)
    ensures p.tasks + EnqueuedBy(p, s) == DequeuedBy(p, s) + Apply(p, s).tasks
  {
    if s.Complete? {
      CompletionDispatchesFront(p, s.worker, s.result);
    }
  }

  lemma Rebracket(a: seq<TaskRec>, e: seq<TaskRec>, d: seq<TaskRec>, b: seq<TaskRec>,
                  l: seq<TaskRec>, t: seq<TaskRec>, r: seq<TaskRec>)
    requires a + e == d + b && b + l == t + r
    ensures a + (e + l) == d + (t + r)
  {
    calc {
      a + (e + l);
      (a + e) + l;
      (d + b) + l;
      d + (b + l);
    }
  }

  /**
   * Over any events, crashes included, records leave the queue in the order
   * they entered it: what was waiting followed by what was enqueued equals
   * what was dispatched followed by what still waits.
   */
  lemma {:induction false} QueueIsFifo(p: Pool, steps: seq<Step>)
    requires Executable(p, steps)
    ensures p.tasks + Enqueued(p, steps) == Dequeued(p, steps) + Run(p, steps).tasks
    decreases |steps|
  {
    if |steps| > 0 {
      var s := steps[0];
      var q := Apply(p, s);
      var rest := steps[1..];
      StepQueue(p, s);
      QueueIsFifo(q, rest);
      var enq, deq := EnqueuedBy(p, s), DequeuedBy(p, s);
      var later, taken := Enqueued(q, rest), Dequeued(q, rest);
      var left := Run(q, rest).tasks;
      assert Enqueued(p, steps) == enq + later;
      assert Dequeued(p, steps) == deq + taken;
      assert Run(p, steps).tasks == left;
      Rebracket(p.tasks, enq, deq, q.tasks, later, taken, left);
    }
  }

  // ---------------------------------------------------------------------
  // No callback is lost or invoked twice
  // ---------------------------------------------------------------------

  /** The callback in a slot, if any, as a multiset of at most one. */
  function SlotCallback(slot: Option<TaskInfo>): multiset<CallbackId> {
    if slot.Some? then multiset{slot.value.callback} else multiset{}
  }

  /** The callbacks held in the slots of the workers `ws`. */
  function HeldCallbacks(info: map<WorkerId, Option<TaskInfo>>, ws: seq<WorkerId>): multiset<CallbackId> {
    if |ws| == 0 then multiset{}
    else (if ws[0] in info then SlotCallback(info[ws[0]]) else multiset{}) + HeldCallbacks(info, ws[1..])
  }

  /** The callbacks of the records in a queue. */
  function QueuedCallbacks(ts: seq<TaskRec>): multiset<CallbackId> {
    if |ts| == 0 then multiset{} else multiset{ts[0].callback} + QueuedCallbacks(ts[1..])
  }

  /** One entry per invocation of a callback in the log. */
  function InvokedCallbacks(es: seq<Effect>): multiset<CallbackId> {
    if |es| == 0 then multiset{}
    else (if es[0].Invoked? then multiset{es[0].callback} else multiset{}) + InvokedCallbacks(es[1..])
  }

  /**
   * Every callback the pool has been given, each as often as it was given:
   * waiting in the queue, held by a listed worker, or already invoked.
   */
  function Ledger(p: Pool): multiset<CallbackId> {
    QueuedCallbacks(p.tasks) + HeldCallbacks(p.taskInfo, p.workers) + InvokedCallbacks(p.effects)
  }

  /** The callbacks passed to `runTask` by `steps`. */
  function Submitted(steps: seq<Step>): multiset<CallbackId> {
    if |steps| == 0 then multiset{}
    else (if steps[0].Submit? then multiset{steps[0].callback} else multiset{}) + Submitted(steps[1..])
  }

  lemma {:induction false} QueuedConcat(a: seq<TaskRec>, b: seq<TaskRec>)
    ensures QueuedCallbacks(a + b) == QueuedCallbacks(a) + QueuedCallbacks(b)
  {
    if |a| == 0 {
      assert a + b == b;
    } else {
      assert (a + b)[1..] == a[1..] + b;
      QueuedConcat(a[1..], b);
    }
  }

  lemma {:induction false} InvokedConcat(a: seq<Effect>, b: seq<Effect>)
    ensures InvokedCallbacks(a + b) == InvokedCallbacks(a) + InvokedCallbacks(b)
  {
    if |a| == 0 {
      assert a + b == b;
    } else {
      assert (a + b)[1..] == a[1..] + b;
      InvokedConcat(a[1..], b);
    }
  }

  lemma {:induction false} HeldConcat(info: map<WorkerId, Option<TaskInfo>>, a: seq<WorkerId>, b: seq<WorkerId>)
    ensures HeldCallbacks(info, a + b) == HeldCallbacks(info, a) + HeldCallbacks(info, b)
  {
    if |a| == 0 {
      assert a + b == b;
    } else {
      assert (a + b)[1..] == a[1..] + b;
      HeldConcat(info, a[1..], b);
    }
  }

  /** Changing the slot of a worker not in `ws` leaves what `ws` hold alone. */
  lemma {:induction false} HeldElsewhere(info: map<WorkerId, Option<TaskInfo>>, ws: seq<WorkerId>,
                                         w: WorkerId, slot: Option<TaskInfo>)
    requires w !in ws
    ensures HeldCallbacks(info[w := slot], ws) == HeldCallbacks(info, ws)
  {
    if |ws| > 0 {
      HeldElsewhere(info, ws[1..], w, slot);
    }
  }

  /** Changing the slot of a worker listed once in `ws` trades its old callback for the new one. */
  lemma {:induction false} HeldAt(info: map<WorkerId, Option<TaskInfo>>, ws: seq<WorkerId>, w: WorkerId, slot: Option<TaskInfo>)
    requires Distinct(ws) && w in ws && w in info
    ensures HeldCallbacks(info[w := slot], ws) + SlotCallback(info[w])
         == HeldCallbacks(info, ws) + SlotCallback(slot)
  {
    DistinctTail(ws);
    if ws[0] == w {
      HeldAtHead(info, ws, w, slot);
    } else {
      assert w in ws[1..] by {
        var k :| 0 <= k < |ws| && ws[k] == w;
        assert ws[1..][k - 1] == w;
      }
      HeldAt(info, ws[1..], w, slot);
      HeldAtStep(info, ws, w, slot);
    }
  }

  /** `HeldAt` when the worker heads the list. */
  lemma HeldAtHead(info: map<WorkerId, Option<TaskInfo>>, ws: seq<WorkerId>, w: WorkerId, slot: Option<TaskInfo>)
    requires |ws| > 0 && ws[0] == w && w !in ws[1..] && w in info
    ensures HeldCallbacks(info[w := slot], ws) + SlotCallback(info[w])
         == HeldCallbacks(info, ws) + SlotCallback(slot)
  {
    HeldElsewhere(info, ws[1..], w, slot);
    var rest := HeldCallbacks(info, ws[1..]);
    assert HeldCallbacks(info[w := slot], ws) == SlotCallback(slot) + rest;
    assert HeldCallbacks(info, ws) == SlotCallback(info[w]) + rest;
  }

  /** `HeldAt` carried from the tail of the list to the whole list, past a head other than the worker. */
  lemma HeldAtStep(info: map<WorkerId, Option<TaskInfo>>, ws: seq<WorkerId>, w: WorkerId, slot: Option<TaskInfo>)
    requires |ws| > 0 && ws[0] != w && w in info
    requires HeldCallbacks(info[w := slot], ws[1..]) + SlotCallback(info[w])
          == HeldCallbacks(info, ws[1..]) + SlotCallback(slot)
    ensures HeldCallbacks(info[w := slot], ws) + SlotCallback(info[w])
         == HeldCallbacks(info, ws) + SlotCallback(slot)
  {
    var info', x := info[w := slot], ws[0];
    var rest, rest' := HeldCallbacks(info, ws[1..]), HeldCallbacks(info', ws[1..]);
    var old', new' := SlotCallback(info[w]), SlotCallback(slot);
    assert (x in info') == (x in info) && (x in info ==> info'[x] == info[x]);
    var head := if x in info then SlotCallback(info[x]) else multiset{};
    assert HeldCallbacks(info', ws) == head + rest';
    assert HeldCallbacks(info, ws) == head + rest;
    UnionFront(head, rest', old', rest, new');
  }

  /** The same multiset added in front of both sides of an equation keeps it. */
  lemma UnionFront(h: multiset<CallbackId>, a: multiset<CallbackId>, c: multiset<CallbackId>,
                   b: multiset<CallbackId>, d: multiset<CallbackId>)
    requires a + c == b + d
    ensures (h + a) + c == (h + b) + d
  {
    forall x ensures ((h + a) + c)[x] == ((h + b) + d)[x] {
      assert (a + c)[x] == (b + d)[x];
    }
  }

  /** A submission adds its callback to the ledger, once. */
  lemma RunTaskLedger(p: Pool, task: Payload, callback: CallbackId)
    requires Consistent(p) && (forall w :: w in p.free ==> w in p.workers)
    ensures Ledger(RunTask(p, task, callback)) == Ledger(p) + multiset{callback}
  {
    if |p.free| == 0 {
      QueuedConcat(p.tasks, [TaskRec(task, callback)]);
      assert QueuedCallbacks([TaskRec(task, callback)]) == multiset{callback} by {
        assert [TaskRec(task, callback)][1..] == [];
      }
    } else {
      PostLedger(p, task, callback);
    }
  }

  /** Posting a task to the top free worker moves its callback into that worker's slot. */
  lemma PostLedger(p: Pool, task: Payload, callback: CallbackId)
    requires Consistent(p) && |p.free| > 0 && p.free[|p.free| - 1] in p.workers
    ensures Ledger(RunTask(p, task, callback)) == Ledger(p) + multiset{callback}
  {
    var w := p.free[|p.free| - 1];
    var info' := p.taskInfo[w := Some(TaskInfo(callback))];
    assert w in p.free;
    assert !HoldsTask(p, w);
    assert SlotCallback(p.taskInfo[w]) == multiset{};
    HeldAt(p.taskInfo, p.workers, w, Some(TaskInfo(callback)));
    var queued, held, invoked := QueuedCallbacks(p.tasks), HeldCallbacks(p.taskInfo, p.workers), InvokedCallbacks(p.effects);
    assert HeldCallbacks(info', p.workers) == held + multiset{callback};
    InvokedConcat(p.effects, [Posted(w, task)]);
    assert InvokedCallbacks([Posted(w, task)]) == multiset{} by {
      assert [Posted(w, task)][1..] == [];
    }
    var q := RunTask(p, task, callback);
    assert q.tasks == p.tasks && q.workers == p.workers && q.taskInfo == info';
    assert q.effects == p.effects + [Posted(w, task)];
    calc {
      Ledger(q);
      queued + HeldCallbacks(info', p.workers) + InvokedCallbacks(q.effects);
      queued + (held + multiset{callback}) + invoked;
      Ledger(p) + multiset{callback};
    }
  }

  /** The ledger of a state that differs from `p` by the completion of `w` when a task was waiting. */
  lemma LedgerAfterHandOff(p: Pool, q: Pool, w: WorkerId, result: ResultValue)
    requires Distinct(p.workers) && w in p.workers && HoldsTask(p, w) && |p.tasks| > 0
    requires q.workers == p.workers && q.tasks == p.tasks[1..]
    requires q.taskInfo == p.taskInfo[w := Some(TaskInfo(p.tasks[0].callback))]
    requires q.effects == p.effects + [Invoked(p.taskInfo[w].value.callback, None, Some(result)),
                                       Posted(w, p.tasks[0].task)]
    ensures Ledger(q) == Ledger(p)
  {
    var cb, front := p.taskInfo[w].value.callback, p.tasks[0];
    var done, posted := Invoked(cb, None, Some(result)), Posted(w, front.task);
    var held := HeldCallbacks(p.taskInfo, p.workers);
    assert InvokedCallbacks([posted]) == multiset{} by {
      assert [posted][1..] == [];
    }
    assert InvokedCallbacks([done, posted]) == multiset{cb} by {
      assert [done, posted][1..] == [posted];
    }
    InvokedConcat(p.effects, [done, posted]);
    assert InvokedCallbacks(q.effects) == InvokedCallbacks(p.effects) + multiset{cb};
    HeldAt(p.taskInfo, p.workers, w, Some(TaskInfo(front.callback)));
    assert SlotCallback(p.taskInfo[w]) == multiset{cb};
    assert HeldCallbacks(q.taskInfo, q.workers) + multiset{cb} == held + multiset{front.callback};
    assert p.tasks == [front] + q.tasks;
    assert QueuedCallbacks(p.tasks) == multiset{front.callback} + QueuedCallbacks(q.tasks);
    var queued', held' := QueuedCallbacks(q.tasks), HeldCallbacks(q.taskInfo, q.workers);
    calc {
      Ledger(q);
      queued' + held' + (InvokedCallbacks(p.effects) + multiset{cb});
      queued' + (held' + multiset{cb}) + InvokedCallbacks(p.effects);
      queued' + (held + multiset{front.callback}) + InvokedCallbacks(p.effects);
      (multiset{front.callback} + queued') + held + InvokedCallbacks(p.effects);
      Ledger(p);
    }
  }

  /** The ledger of a state that differs from `p` by the completion of `w` when no task was waiting. */
  lemma LedgerAfterRelease(p: Pool, q: Pool, w: WorkerId, result: ResultValue)
    requires Distinct(p.workers) && w in p.workers && HoldsTask(p, w)
    requires q.workers == p.workers && q.tasks == p.tasks
    requires q.taskInfo == p.taskInfo[w := None]
    requires q.effects == p.effects + [Invoked(p.taskInfo[w].value.callback, None, Some(result))]
    ensures Ledger(q) == Ledger(p)
  {
    var cb := p.taskInfo[w].value.callback;
    var done := Invoked(cb, None, Some(result));
    assert InvokedCallbacks([done]) == multiset{cb} by {
      assert [done][1..] == [];
    }
    InvokedConcat(p.effects, [done]);
    assert InvokedCallbacks(q.effects) == InvokedCallbacks(p.effects) + multiset{cb};
    HeldAt(p.taskInfo, p.workers, w, None);
    assert SlotCallback(p.taskInfo[w]) == multiset{cb};
    assert HeldCallbacks(q.taskInfo, q.workers) + multiset{cb} == HeldCallbacks(p.taskInfo, p.workers);
  }

  /** A completion moves the worker's callback from held to invoked and, if one waits, the front record from the queue to held. */
  lemma MessageLedger(p: Pool, w: WorkerId, result: ResultValue)
    requires Consistent(p) && w in p.workers && HoldsTask(p, w)
    ensures Ledger(Message(p, w, result)) == Ledger(p)
  {
    CompletionDispatchesFront(p, w, result);
    if |p.tasks| > 0 {
      LedgerAfterHandOff(p, Message(p, w, result), w, result);
    } else {
      LedgerAfterRelease(p, Message(p, w, result), w, result);
    }
  }

  /**
   * Along submissions and completions every callback passed to `runTask` is
   * waiting in the queue, held by a listed worker or invoked, exactly as
   * often as it was passed: none is lost and none is invoked twice.
   */
  lemma {:induction false} NoCallbackLost(p: Pool, steps: seq<Step>)
    requires Inv(p) && Executable(p, steps) && NoCrash(steps)
    ensures Ledger(Run(p, steps)) == Ledger(p) + Submitted(steps)
    decreases |steps|
  {
    if |steps| > 0 {
      var s := steps[0];
      assert !s.Crash?;
      match s {
        case Submit(t, cb) => RunTaskLedger(p, t, cb); RunTaskPreserves(p, t, cb);
        case Complete(w, r) => MessageLedger(p, w, r); MessagePreserves(p, w, r);
      }
      assert NoCrash(steps[1..]) by {
        forall i | 0 <= i < |steps[1..]| ensures !steps[1..][i].Crash? {
          assert steps[1..][i] == steps[i + 1];
        }
      }
      NoCallbackLost(Apply(p, s), steps[1..]);
    }
  }
}
