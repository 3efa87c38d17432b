/**
 * The thread manager's lifecycle flags, loop guards, delta clamp and
 * thread dispatch, with the threads themselves abstracted away: the
 * calling thread is a parameter, and one loop iteration is one step.
 */
module ThreadManager {
  import opened Optional
  import Q = RenderCommandQueue

  /** A std::thread::id of a running thread. */
  type ThreadId = nat

  datatype Manager = Manager(
    initialized: bool,
    shuttingDown: bool,
    gameRunning: bool,
    renderRunning: bool,
    mainThread: Option<ThreadId>,
    gameThread: Option<ThreadId>,     // None: the default id, equal to no thread
    renderThread: Option<ThreadId>,
    hasGameTick: bool,                // a tick callback has been set
    hasRenderTick: bool,
    targetGameFps: real,
    targetRenderFps: real,
    queue: Q.Queue)                   // the process-wide render command queue

  /** The singleton before Initialize; both targets default to 60 FPS. */
  const Initial: Manager :=
    Manager(false, false, false, false, None, None, None, false, false, 60.0, 60.0, Q.Initial)

  /** Largest delta handed to a tick callback, in seconds. */
  const MaxDelta: real := 0.1

  /**
   * Initialize: a warned no-op when already initialized; otherwise record
   * the caller as main thread, clear shutting-down, start both loops and
   * record their ids (each after its readiness signal), then set initialized.
   */
  function Initialize(m: Manager, caller: ThreadId, game: ThreadId, render: ThreadId): (r: Manager)
    ensures m.initialized ==> r == m
    ensures !m.initialized ==> r.initialized && !r.shuttingDown && r.gameRunning && r.renderRunning
    ensures !m.initialized ==> r.gameThread == Some(game) && r.renderThread == Some(render)
    ensures r.queue == m.queue
  {
    if m.initialized then m
    else m.(mainThread := Some(caller), shuttingDown := false,
            gameRunning := true, gameThread := Some(game),
            renderRunning := true, renderThread := Some(render),
            initialized := true)
  }

  /**
   * Shutdown: returns at once unless initialized and not already shutting
   * down. Otherwise it sets shutting-down, shuts the command queue down,
   * joins both threads (each loop ends and clears its running flag) and
   * clears initialized.
   */
  function Shutdown(m: Manager): (r: Manager)
    ensures !m.initialized || m.shuttingDown ==> r == m
    ensures m.initialized && !m.shuttingDown ==>
              r.shuttingDown && !r.initialized && r.queue == Q.Shutdown(m.queue)
              && !r.gameRunning && !r.renderRunning
  {
    if !m.initialized || m.shuttingDown then m
    else m.(shuttingDown := true, queue := Q.Shutdown(m.queue),
            gameRunning := false, renderRunning := false,
            initialized := false)
  }

  /** A second Shutdown changes nothing. */
  lemma ShutdownIdempotent(m: Manager)
    ensures Shutdown(Shutdown(m)) == Shutdown(m)
  {
  }

  /** Initialize on an initialized manager changes nothing, and a completed one is observable. */
  lemma InitializeThenQueries(m: Manager, caller: ThreadId, game: ThreadId, render: ThreadId)
    requires !m.initialized
    ensures var r := Initialize(m, caller, game, render);
            Initialize(r, caller, game, render) == r
            && IsInGameThread(r, game) && IsInRenderThread(r, render)
            && LoopContinues(r.gameRunning, r.shuttingDown)
            && LoopContinues(r.renderRunning, r.shuttingDown)
  {
  }

  /** After a completed Shutdown neither loop runs another iteration. */
  lemma ShutdownStopsLoops(m: Manager)
    requires m.initialized && !m.shuttingDown
    ensures !LoopContinues(Shutdown(m).gameRunning, Shutdown(m).shuttingDown)
    ensures !LoopContinues(Shutdown(m).renderRunning, Shutdown(m).shuttingDown)
  {
  }

  /**
   * The command queue's shutdown is permanent while the manager's is not:
   * Initialize after Shutdown starts the loops again, but the queue stays
   * shut, so work dispatched to the render thread from elsewhere is dropped.
   */
  lemma ReinitializeKeepsQueueShut(m: Manager, caller: ThreadId, game: ThreadId, render: ThreadId,
                                   other: ThreadId, c: Q.Command)
    requires m.initialized && !m.shuttingDown
    requires other != render
    ensures var m2 := Initialize(Shutdown(m), caller, game, render);
            m2.initialized && m2.queue.shutdown
            && ExecuteInRenderThread(m2, other, c).0.queue.pending == []
  {
  }

  function IsInGameThread(m: Manager, current: ThreadId): bool {
    m.gameThread == Some(current)
  }

  function IsInRenderThread(m: Manager, current: ThreadId): bool {
    m.renderThread == Some(current)
  }

  /** Both loops continue only while running and not shutting down. */
  function LoopContinues(running: bool, shuttingDown: bool): (r: bool)
    ensures r ==> running
    ensures shuttingDown ==> !r
  {
    running && !shuttingDown
  }

  /** The spike clamp applied to every measured delta. */
  function ClampDelta(delta: real): (r: real)
    ensures r <= MaxDelta
    ensures delta <= MaxDelta ==> r == delta
    ensures delta > MaxDelta ==> r == MaxDelta
  {
    if delta > MaxDelta then MaxDelta else delta
  }

  /** What one loop iteration does, in order. */
  datatype LoopEvent =
    | Ticked(delta: real)                 // the tick callback was called
    | Drained(events: seq<Q.Event>)       // RenderCommandQueue::ExecuteAll ran

  /**
   * One render-loop iteration: the tick (if set) with the clamped delta,
   * then one drain; only the queue changes. Which drain runs is stated by
   * RenderIterationDrains.
   */
  function RenderIteration(m: Manager, delta: real, produced: seq<Q.Command>): (r: (Manager, seq<LoopEvent>))
    ensures m.hasRenderTick <==> |r.1| == 2
    ensures m.hasRenderTick ==> r.1[0] == Ticked(ClampDelta(delta))
    ensures IterationShape(r.1, m.hasRenderTick)
    ensures r.0 == m.(queue := r.0.queue)
  {
    var drained := Q.ExecuteAll(AfterRenderTick(m, produced));
    var events := if m.hasRenderTick then [Ticked(ClampDelta(delta)), Drained(drained.1)] else [Drained(drained.1)];
    (m.(queue := drained.0), events)
  }

  /**
   * The tick may enqueue `produced`, and since the drain follows it, that
   * work runs in the same iteration: the last event is the drain of the
   * pending commands followed by what the tick enqueued, and the queue is
   * what that drain leaves. Without a callback nothing is enqueued.
   */
  lemma RenderIterationDrains(m: Manager, delta: real, produced: seq<Q.Command>)
    ensures var r := RenderIteration(m, delta, produced);
            && r.1[|r.1| - 1] == Drained(Q.ExecuteAll(AfterRenderTick(m, produced)).1)
            && r.0.queue == Q.ExecuteAll(AfterRenderTick(m, produced)).0
  {
  }

  /** The queue the drain sees: with a render tick, what it enqueued follows the pending commands. */
  function AfterRenderTick(m: Manager, produced: seq<Q.Command>): Q.Queue {
    if m.hasRenderTick then Q.EnqueueBatch(m.queue, produced) else m.queue
  }

  /**
   * What the render tick enqueues is executed by the drain of the same
   * iteration, in order, and leaves nothing behind (from an empty queue,
   * when nothing re-enqueues).
   */
  lemma RenderTickWorkDrainedSameIteration(m: Manager, delta: real, produced: seq<Q.Command>)
    requires m.hasRenderTick && !m.queue.shutdown && m.queue.pending == []
    requires Q.NoReentry(produced)
    ensures var (m1, it) := RenderIteration(m, delta, produced);
            it == [Ticked(ClampDelta(delta)), Drained(Q.Events(produced))] && m1.queue.pending == []
  {
    RenderIterationDrains(m, delta, produced);
    assert AfterRenderTick(m, produced).pending == produced;
  }

  /** The inputs of one render iteration: the measured delta and what the tick enqueues. */
  datatype RenderFrame = RenderFrame(delta: real, produced: seq<Q.Command>)

  /**
   * One game-loop iteration: the tick (if set) with the clamped delta. The
   * tick is where game code hands work to the render thread, so it may
   * enqueue `produced`; without a callback nothing happens.
   */
  function GameIteration(m: Manager, delta: real, produced: seq<Q.Command>): (r: (Manager, seq<LoopEvent>))
    ensures m.hasGameTick ==> r.1 == [Ticked(ClampDelta(delta))] && r.0.queue == Q.EnqueueBatch(m.queue, produced)
    ensures !m.hasGameTick ==> r == (m, [])
  {
    if m.hasGameTick then
      Q.EnqueueEachIsBatch(m.queue, produced);
      (m.(queue := Q.EnqueueEach(m.queue, produced)), [Ticked(ClampDelta(delta))])
    else (m, [])
  }

  /**
   * The render loop over a sequence of frames: one iteration per frame
   * while the guard holds. Nothing inside the loop changes the guard, so
   * either every frame yields an iteration or none does.
   */
  function RenderLoop(m: Manager, frames: seq<RenderFrame>): (r: (Manager, seq<seq<LoopEvent>>))
    ensures LoopContinues(m.renderRunning, m.shuttingDown) ==> |r.1| == |frames|
    ensures !LoopContinues(m.renderRunning, m.shuttingDown) ==> r == (m, [])
    ensures r.0 == m.(queue := r.0.queue)
    ensures AllShaped(r.1, m.hasRenderTick)
    decreases |frames|
  {
    if |frames| == 0 || !LoopContinues(m.renderRunning, m.shuttingDown) then (m, [])
    else
      var step := RenderIteration(m, frames[0].delta, frames[0].produced);
      var rest := RenderLoop(step.0, frames[1..]);
      assert ([step.1] + rest.1)[1..] == rest.1;
      (rest.0, [step.1] + rest.1)
  }

  /** Every iteration of a trace has IterationShape. */
  predicate AllShaped(its: seq<seq<LoopEvent>>, hasTick: bool)
    decreases |its|
  {
    |its| == 0 || (IterationShape(its[0], hasTick) && AllShaped(its[1..], hasTick))
  }

  /** AllShaped read index by index. */
  lemma {:induction false} AllShapedAt(its: seq<seq<LoopEvent>>, hasTick: bool, i: nat)
    requires AllShaped(its, hasTick) && i < |its|
    ensures IterationShape(its[i], hasTick)
    decreases i
  {
    if i > 0 {
      AllShapedAt(its[1..], hasTick, i - 1);
    }
  }

  /** Every iteration of the loop is a tick of at most 0.1 (when set), then exactly one drain. */
  lemma RenderLoopShape(m: Manager, frames: seq<RenderFrame>)
    ensures forall i :: 0 <= i < |RenderLoop(m, frames).1| ==> IterationShape(RenderLoop(m, frames).1[i], m.hasRenderTick)
  {
    var its := RenderLoop(m, frames).1;
    forall i | 0 <= i < |its|
      ensures IterationShape(its[i], m.hasRenderTick)
    {
      AllShapedAt(its, m.hasRenderTick, i);
    }
  }

  /** An iteration is a tick with a delta of at most 0.1 (when set), then exactly one drain. */
  predicate IterationShape(it: seq<LoopEvent>, hasTick: bool) {
    && (hasTick ==> |it| == 2 && it[0].Ticked? && it[0].delta <= MaxDelta && it[1].Drained?)
    && (!hasTick ==> |it| == 1 && it[0].Drained?)
  }

  /**
   * The hand-off: commands the game tick enqueues are all executed, in
   * order, by the next render iteration (when the queue was empty before
   * and nothing re-enqueues).
   */
  lemma GameToRenderHandOff(m: Manager, d1: real, d2: real, produced: seq<Q.Command>)
    requires m.hasGameTick && !m.queue.shutdown && m.queue.pending == []
    requires Q.NoReentry(produced)
    ensures var (m1, _) := GameIteration(m, d1, produced);
            var (m2, it) := RenderIteration(m1, d2, []);
            it[|it| - 1] == Drained(Q.Events(produced)) && m2.queue.pending == []
  {
    var (m1, _) := GameIteration(m, d1, produced);
    assert m1.queue.pending == produced;
    RenderIterationDrains(m1, d2, []);
    assert AfterRenderTick(m1, []).pending == produced;
  }

  /** How an inline call ended for its caller: inline calls catch nothing. */
  datatype InlineOutcome = Returned | Raised

  datatype Dispatch =
    | RanInline(outcome: InlineOutcome)
    | Deferred

  /**
   * Invoke a closure directly on the calling thread. A std::exception
   * escapes to the caller, and so does std::bad_function_call from an
   * empty function; what the closure enqueued stays enqueued.
   */
  function RunInline(q: Q.Queue, c: Q.Command): (r: (Q.Queue, InlineOutcome))
    ensures r.0 == Q.EnqueueBatch(q, Q.Effects(c))
    ensures r.1 == Returned <==> c.behaviour.Returns?
  {
    Q.EnqueueEachIsBatch(q, Q.Effects(c));
    var q' := Q.EnqueueEach(q, Q.Effects(c));
    match c.behaviour
    case Returns(_) => (q', Returned)
    case Throws(_) => (q', Raised)
    case NoFunction => (q', Raised)
  }

  /**
   * ExecuteInRenderThread: inline on the render thread; from any other
   * thread the closure is enqueued as a Custom command for the next drain.
   */
  function ExecuteInRenderThread(m: Manager, current: ThreadId, c: Q.Command): (r: (Manager, Dispatch))
    ensures IsInRenderThread(m, current) ==> r.1.RanInline?
    ensures !IsInRenderThread(m, current) ==>
              r == (m.(queue := Q.Enqueue(m.queue, c.(kind := Q.Custom))), Deferred)
  {
    if IsInRenderThread(m, current) then
      var (q, o) := RunInline(m.queue, c);
      (m.(queue := q), RanInline(o))
    else
      (m.(queue := Q.Enqueue(m.queue, c.(kind := Q.Custom))), Deferred)
  }

  /**
   * ExecuteInGameThread: both branches call the closure inline; there is
   * no game-thread queue, so the calling thread makes no difference.
   */
  function ExecuteInGameThread(m: Manager, current: ThreadId, c: Q.Command): (r: (Manager, Dispatch))
    ensures r.1.RanInline?
  {
    if IsInGameThread(m, current) then
      var (q, o) := RunInline(m.queue, c);
      (m.(queue := q), RanInline(o))
    else
      var (q, o) := RunInline(m.queue, c);
      (m.(queue := q), RanInline(o))
  }

  /** The dispatch asymmetry: game dispatch ignores the caller, render dispatch does not. */
  lemma DispatchAsymmetry(m: Manager, t1: ThreadId, t2: ThreadId, c: Q.Command)
    requires m.renderThread == Some(t1) && t2 != t1 && !m.queue.shutdown
    ensures ExecuteInGameThread(m, t1, c) == ExecuteInGameThread(m, t2, c)
    ensures ExecuteInRenderThread(m, t1, c).1.RanInline?
    ensures ExecuteInRenderThread(m, t2, c).1 == Deferred
    ensures ExecuteInRenderThread(m, t2, c).0.queue.pending == m.queue.pending + [c.(kind := Q.Custom)]
  {
  }

  function SetGameThreadTickFunction(m: Manager, present: bool): Manager {
    m.(hasGameTick := present)
  }

  function SetRenderThreadTickFunction(m: Manager, present: bool): Manager {
    m.(hasRenderTick := present)
  }
}
