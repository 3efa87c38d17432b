/**
 * The render command queue: a FIFO of deferred closures plus a permanent
 * shutdown flag. Every public call is one atomic step; the lock and the
 * condition variable only serve to make them so.
 */
module RenderCommandQueue {

  /** ERenderCommandType: a diagnostic tag, never used for dispatch. */
  datatype CommandType =
    | Draw | UpdateUniforms | UpdateViewport | UpdateCamera
    | CreateResource | DestroyResource | Custom

  /**
   * What invoking a command's closure does, as far as the queue can see:
   * it returns normally or throws a std::exception, in both cases after
   * enqueueing `enqueues` (in order); or the std::function is empty.
   */
  datatype Behaviour =
    | Returns(enqueues: seq<Command>)
    | Throws(enqueues: seq<Command>)
    | NoFunction

  /** An FRenderCommand; `id` names it in execution traces. */
  datatype Command = Command(id: nat, kind: CommandType, behaviour: Behaviour)

  /** What the executor observed for one drained command. */
  datatype Event =
    | Ran(id: nat)      // the closure returned
    | Caught(id: nat)   // the closure threw; the exception was logged
    | Skipped(id: nat)  // empty std::function, not invoked

  datatype Queue = Queue(pending: seq<Command>, shutdown: bool)

  /** The freshly constructed singleton. */
  const Initial: Queue := Queue([], false)

  /** A shut-down queue never holds commands. */
  ghost predicate Valid(q: Queue) {
    q.shutdown ==> q.pending == []
  }

  /** The commands a closure enqueues while it runs. */
  function Effects(c: Command): seq<Command> {
    match c.behaviour
    case Returns(e) => e
    case Throws(e) => e
    case NoFunction => []
  }

  /** The trace event the executor produces for `c`. */
  function EventFor(c: Command): (e: Event)
    ensures e.Skipped? <==> c.behaviour.NoFunction?
    ensures e.Caught? <==> c.behaviour.Throws?
  {
    match c.behaviour
    case Returns(_) => Ran(c.id)
    case Throws(_) => Caught(c.id)
    case NoFunction => Skipped(c.id)
  }

  function IdOf(e: Event): nat {
    match e
    case Ran(i) => i
    case Caught(i) => i
    case Skipped(i) => i
  }

  /** The FIFO trace of running `cs` in order. */
  function Events(cs: seq<Command>): (r: seq<Event>)
    ensures |r| == |cs|
    ensures forall i :: 0 <= i < |cs| ==> r[i] == EventFor(cs[i])
    decreases |cs|
  {
    if |cs| == 0 then [] else [EventFor(cs[0])] + Events(cs[1..])
  }

  lemma {:induction false} EventsAppend(a: seq<Command>, b: seq<Command>)
    ensures Events(a + b) == Events(a) + Events(b)
    decreases |a|
  {
    if |a| > 0 {
      assert (a + b)[1..] == a[1..] + b;
      EventsAppend(a[1..], b);
    } else {
      assert a + b == b;
    }
  }

  /** True when no command of `cs` enqueues anything while it runs. */
  predicate NoReentry(cs: seq<Command>) {
    forall i :: 0 <= i < |cs| ==> Effects(cs[i]) == []
  }

  /** Enqueue: after shutdown a logged no-op, otherwise a push at the tail. */
  function Enqueue(q: Queue, c: Command): (r: Queue)
    ensures r.shutdown == q.shutdown
    ensures q.shutdown ==> r == q
    ensures !q.shutdown ==> r.pending == q.pending + [c]
    ensures Valid(q) ==> Valid(r)
  {
    if q.shutdown then q else q.(pending := q.pending + [c])
  }

  /** EnqueueBatch: the whole batch after every earlier command, in batch order. */
  function EnqueueBatch(q: Queue, batch: seq<Command>): (r: Queue)
    ensures r.shutdown == q.shutdown
    ensures q.shutdown ==> r == q
    ensures !q.shutdown ==> r.pending == q.pending + batch
    ensures Valid(q) ==> Valid(r)
  {
    if q.shutdown then q else q.(pending := q.pending + batch)
  }

  /** Enqueue called once per command, as a closure does it. */
  function EnqueueEach(q: Queue, cs: seq<Command>): Queue
    decreases |cs|
  {
    if |cs| == 0 then q else EnqueueEach(Enqueue(q, cs[0]), cs[1..])
  }

  /** A batch has the same effect as enqueueing its commands one by one. */
  lemma {:induction false} EnqueueEachIsBatch(q: Queue, cs: seq<Command>)
    ensures EnqueueEach(q, cs) == EnqueueBatch(q, cs)
    decreases |cs|
  {
    if |cs| > 0 {
      EnqueueEachIsBatch(Enqueue(q, cs[0]), cs[1..]);
      if !q.shutdown {
        assert q.pending + [cs[0]] + cs[1..] == q.pending + cs;
      }
    }
  }

  /** Everything the closures of `batch` enqueue, in execution order. */
  function Spawned(batch: seq<Command>): seq<Command>
    decreases |batch|
  {
    if |batch| == 0 then [] else Effects(batch[0]) + Spawned(batch[1..])
  }

  lemma {:induction false} NoReentryNoSpawn(batch: seq<Command>)
    requires NoReentry(batch)
    ensures Spawned(batch) == []
    decreases |batch|
  {
    if |batch| > 0 {
      NoReentryNoSpawn(batch[1..]);
    }
  }

  /** Run one drained command; a std::exception is caught and logged. */
  function RunOne(q: Queue, c: Command): (r: (Queue, Event))
    ensures r.1 == EventFor(c)
    ensures r.0 == EnqueueBatch(q, Effects(c))
  {
    EnqueueEachIsBatch(q, Effects(c));
    (EnqueueEach(q, Effects(c)), EventFor(c))
  }

  /** The execution half of ExecuteAll: run `batch` front to back. */
  function Drain(q: Queue, batch: seq<Command>): (r: (Queue, seq<Event>))
    ensures r.0.shutdown == q.shutdown
    ensures r.1 == Events(batch)
    ensures r.0.pending == if q.shutdown then q.pending else q.pending + Spawned(batch)
    decreases |batch|
  {
    if |batch| == 0 then (q, [])
    else
      var one := RunOne(q, batch[0]);
      var rest := Drain(one.0, batch[1..]);
      SpawnedCons(q.pending, batch);
      (rest.0, [one.1] + rest.1)
  }

  /** Unfolding `Spawned` once, with the queue's prefix in front. */
  lemma SpawnedCons(prefix: seq<Command>, batch: seq<Command>)
    requires |batch| > 0
    ensures prefix + Effects(batch[0]) + Spawned(batch[1..]) == prefix + Spawned(batch)
  {
  }

  /**
   * ExecuteAll: move every pending command out, then run each one exactly
   * once in FIFO order. A throwing command is logged and the rest still run;
   * an empty function is skipped. What the closures enqueue stays pending.
   */
  function ExecuteAll(q: Queue): (r: (Queue, seq<Event>))
    ensures r.0.shutdown == q.shutdown
    ensures |r.1| == |q.pending|
    ensures forall i :: 0 <= i < |q.pending| ==> r.1[i] == EventFor(q.pending[i])
    ensures r.0.pending == if q.shutdown then [] else Spawned(q.pending)
    ensures NoReentry(q.pending) ==> r.0.pending == []
    ensures Valid(r.0)
  {
    assert NoReentry(q.pending) ==> Spawned(q.pending) == [] by {
      if NoReentry(q.pending) {
        NoReentryNoSpawn(q.pending);
      }
    }
    Drain(q.(pending := []), q.pending)
  }

  /** Clear: discard every pending command without running any. */
  function Clear(q: Queue): (r: Queue)
    ensures r.pending == [] && r.shutdown == q.shutdown
  {
    q.(pending := [])
  }

  function Size(q: Queue): nat {
    |q.pending|
  }

  function IsEmpty(q: Queue): bool {
    |q.pending| == 0
  }

  /** IsEmpty and Size agree, and both describe the pending sequence. */
  lemma IsEmptyIffSizeZero(q: Queue)
    ensures IsEmpty(q) <==> Size(q) == 0
    ensures IsEmpty(q) <==> q.pending == []
  {
  }

  /** Shutdown: set the flag for good, wake the waiters, clear the queue. */
  function Shutdown(q: Queue): (r: Queue)
    ensures r.shutdown && r.pending == []
    ensures Valid(r)
  {
    Clear(q.(shutdown := true))
  }

  /** The operations of the queue, for traces of calls. */
  datatype Op =
    | EnqueueOp(c: Command)
    | EnqueueBatchOp(batch: seq<Command>)
    | ExecuteAllOp
    | ClearOp
    | ShutdownOp

  function Apply(q: Queue, op: Op): Queue {
    match op
    case EnqueueOp(c) => Enqueue(q, c)
    case EnqueueBatchOp(b) => EnqueueBatch(q, b)
    case ExecuteAllOp => ExecuteAll(q).0
    case ClearOp => Clear(q)
    case ShutdownOp => Shutdown(q)
  }

  function ApplyAll(q: Queue, ops: seq<Op>): Queue
    decreases |ops|
  {
    if |ops| == 0 then q else ApplyAll(Apply(q, ops[0]), ops[1..])
  }

  /**
   * Nothing resets the shutdown flag: after a shutdown, any sequence of
   * calls leaves the queue shut and empty, so no later enqueue is kept.
   */
  lemma {:induction false} ShutdownIsPermanent(q: Queue, ops: seq<Op>)
    requires q.shutdown && Valid(q)
    ensures ApplyAll(q, ops).shutdown
    ensures ApplyAll(q, ops).pending == []
    decreases |ops|
  {
    if |ops| > 0 {
      ShutdownIsPermanent(Apply(q, ops[0]), ops[1..]);
    }
  }

  /** Every call keeps a valid queue valid. */
  lemma {:induction false} OpsPreserveValid(q: Queue, ops: seq<Op>)
    requires Valid(q)
    ensures Valid(ApplyAll(q, ops))
    decreases |ops|
  {
    if |ops| > 0 {
      OpsPreserveValid(Apply(q, ops[0]), ops[1..]);
    }
  }

  /**
   * FIFO across drains: enqueue `a`, drain, enqueue `b`, drain. The two
   * traces together are exactly `a` then `b`, each command once, in order.
   */
  lemma FifoAcrossDrains(q: Queue, a: seq<Command>, b: seq<Command>)
    requires q.pending == [] && !q.shutdown
    requires NoReentry(a) && NoReentry(b)
    ensures var r1 := ExecuteAll(EnqueueBatch(q, a));
            var r2 := ExecuteAll(EnqueueBatch(r1.0, b));
            r1.1 + r2.1 == Events(a + b) && r2.0.pending == [] && !r2.0.shutdown
  {
    var qa := EnqueueBatch(q, a);
    assert qa.pending == a;
    var r1 := ExecuteAll(qa);
    assert r1.1 == Events(a) && r1.0.pending == [] && !r1.0.shutdown;
    var qb := EnqueueBatch(r1.0, b);
    assert qb.pending == b;
    var r2 := ExecuteAll(qb);
    assert r2.1 == Events(b);
    EventsAppend(a, b);
  }

  // ---- Termination of ExecuteUntilEmpty --------------------------------

  /** The number of executions `c` causes: itself plus what it enqueues, transitively. */
  function Weight(c: Command): nat
    decreases c
  {
    match c.behaviour
    case Returns(e) => 1 + TotalWeight(e)
    case Throws(e) => 1 + TotalWeight(e)
    case NoFunction => 1
  }

  function TotalWeight(cs: seq<Command>): nat
    decreases cs
  {
    if |cs| == 0 then 0 else Weight(cs[0]) + TotalWeight(cs[1..])
  }

  lemma {:induction false} TotalWeightAppend(a: seq<Command>, b: seq<Command>)
    ensures TotalWeight(a + b) == TotalWeight(a) + TotalWeight(b)
    decreases |a|
  {
    if |a| == 0 {
      assert a + b == b;
    } else {
      assert (a + b)[1..] == a[1..] + b;
      TotalWeightAppend(a[1..], b);
    }
  }

  lemma WeightSplit(c: Command)
    ensures Weight(c) == 1 + TotalWeight(Effects(c))
  {
  }

  /** Draining a batch leaves behind commands of total weight |batch| less. */
  lemma {:induction false} SpawnedWeight(batch: seq<Command>)
    ensures TotalWeight(batch) == |batch| + TotalWeight(Spawned(batch))
    decreases |batch|
  {
    if |batch| > 0 {
      SpawnedWeight(batch[1..]);
      WeightSplit(batch[0]);
      TotalWeightAppend(Effects(batch[0]), Spawned(batch[1..]));
    }
  }

  /**
   * ExecuteUntilEmpty: call ExecuteAll until the queue is empty. The first
   * events are the originally pending commands in FIFO order, and every
   * command ever enqueued by the drained closures runs exactly once.
   */
  method ExecuteUntilEmpty(q: Queue) returns (r: Queue, trace: seq<Event>)
    requires Valid(q)
    ensures r.pending == [] && r.shutdown == q.shutdown
    ensures |trace| == TotalWeight(q.pending) && |q.pending| <= |trace|
    ensures forall i :: 0 <= i < |q.pending| ==> trace[i] == EventFor(q.pending[i])
    ensures NoReentry(q.pending) ==> trace == Events(q.pending)
  {
    r := q;
    trace := [];
    var rounds := 0;
    while !IsEmpty(r)
      invariant Valid(r) && r.shutdown == q.shutdown
      invariant |trace| + TotalWeight(r.pending) == TotalWeight(q.pending)
      invariant rounds == 0 ==> r == q && trace == []
      invariant rounds > 0 ==> |trace| >= |q.pending|
      invariant rounds > 0 ==> forall i :: 0 <= i < |q.pending| ==> trace[i] == EventFor(q.pending[i])
      invariant rounds > 0 && NoReentry(q.pending) ==> r.pending == [] && trace == Events(q.pending)
      decreases TotalWeight(r.pending)
    {
      SpawnedWeight(r.pending);
      var (r', t) := ExecuteAll(r);
      trace := trace + t;
      r := r';
      rounds := rounds + 1;
    }
  }
}
