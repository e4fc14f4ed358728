// src/thread_pool.c: how long tp_destroy has to wait for workers that leave when
// they are told to.
module ThreadPoolDrain {
  import opened TaskRing
  import opened ThreadPool

  predicate WorkerStep(step: Step) {
    step.TakeTask? || step.BeginTask? || step.EndTask? || step.Exit?
  }

  // A worker told to exit takes another task only if it does not find its slot.
  predicate FindsSlot(p: Pool, step: Step) {
    step.TakeTask? ==> p.exit <= 0
  }

  predicate AllFindSlots(p: Pool, steps: seq<Step>)
    requires Runs(p, steps)
    decreases |steps|
  {
    steps == [] || (FindsSlot(p, steps[0]) && AllFindSlots(Next(p, steps[0]), steps[1..]))
  }

  function WorkerSteps(steps: seq<Step>): nat {
    if steps == [] then 0 else (if WorkerStep(steps[0]) then 1 else 0) + WorkerSteps(steps[1..])
  }

  // What the workers from slot i on have left to do: finish the task in hand, and leave.
  function Left(enabled: seq<bool>, workers: seq<Worker>, i: nat): nat
    requires i <= |enabled| == |workers|
    decreases |enabled| - i
  {
    if i == |enabled| then 0 else LeftOf(enabled[i], workers[i]) + Left(enabled, workers, i + 1)
  }

  function LeftOf(enabled: bool, w: Worker): nat {
    (if enabled then 1 else 0) + (if w.Holding? then 2 else if w.Busy? then 1 else 0)
  }

  lemma {:induction false} LeftChanged(enabled: seq<bool>, workers: seq<Worker>, i: nat, k: nat, e: bool, w: Worker)
    requires i <= |enabled| == |workers| && k < |workers|
    ensures Left(enabled[k := e], workers[k := w], i)
            == Left(enabled, workers, i) + (if i <= k then LeftOf(e, w) - LeftOf(enabled[k], workers[k]) else 0)
    decreases |workers| - i
  {
    hide LeftOf;
    if i < |workers| { LeftChanged(enabled, workers, i + 1, k, e, w); }
  }

  // Steps of the workers use up what is left; no other step adds to it.
  lemma LeftUsed(p: Pool, step: Step, l: Loss)
    requires CodeInv(p, l) && p.destroyer.Draining? && Can(p, step) && FindsSlot(p, step)
    ensures Shape(Next(p, step)) && (Next(p, step).destroyer.Draining? || Next(p, step).destroyer.Gone?)
    ensures Left(Next(p, step).enabled, Next(p, step).workers, 0)
            == Left(p.enabled, p.workers, 0) - if WorkerStep(step) then 1 else 0
  {
    hide QueueInv, Count, Left;
    var q := Next(p, step);
    if WorkerStep(step) {
      var k := step.w;
      if step.TakeTask? { LiveWhenEnabled(p.enabled, k, 0); }
      LeftChanged(p.enabled, p.workers, 0, k, q.enabled[k], q.workers[k]);
      assert q.enabled == p.enabled[k := q.enabled[k]] && q.workers == p.workers[k := q.workers[k]];
    }
  }

  // However it is scheduled, a pool being drained takes at most this many steps
  // of its workers.
  lemma {:induction false} DrainBounded(p: Pool, steps: seq<Step>, l: Loss)
    requires CodeInv(p, l) && (p.destroyer.Draining? || p.destroyer.Gone?)
    requires Runs(p, steps) && AllFindSlots(p, steps)
    ensures WorkerSteps(steps) <= Left(p.enabled, p.workers, 0)
    decreases |steps|
  {
    if steps != [] {
      Undestroyed(p, steps[0]);
      LeftUsed(p, steps[0], l);
      StepKeeps(p, steps[0], l);
      hide CodeInv, Can, Next, Left, FindsSlot, WorkerStep;
      DrainBounded(Next(p, steps[0]), steps[1..], Losing(p, steps[0], l));
    }
  }

  lemma Undestroyed(p: Pool, step: Step)
    requires Can(p, step)
    ensures p.destroyer != Gone
  {
  }

  predicate Resting(p: Pool) {
    forall w :: 0 <= w < |p.workers| ==>
      !Can(p, Exit(w)) && !Can(p, BeginTask(w)) && !Can(p, EndTask(w))
  }

  // A run that has come to rest, no worker having anything left to do, has let
  // tp_destroy go on.
  lemma DrainEnds(p: Pool, steps: seq<Step>)
    requires Inv(p) && p.destroyer == Draining(false) && p.live > 0
    requires Runs(p, steps) && Resting(After(p, steps))
    ensures After(p, steps).destroyer == Draining(true) || After(p, steps).destroyer == Gone
  {
    RunWaits(p, steps);
    var q := After(p, steps);
    if q.destroyer == Draining(false) { NotResting(q); }
  }

  lemma NotResting(p: Pool)
    requires Inv(p) && p.destroyer == Draining(false) && p.live > 0
    ensures !Resting(p)
  {
    hide QueueInv, Count;
    var w := SomeEnabled(p.enabled, 0);
    QueueOk(p);
    assert Can(p, Exit(w)) || Can(p, BeginTask(w)) || Can(p, EndTask(w));
  }

  // While tp_destroy waits for the signal a worker is alive.
  lemma {:induction false} RunWaits(p: Pool, steps: seq<Step>)
    requires Inv(p) && Waits(p) && Runs(p, steps)
    ensures Inv(After(p, steps)) && Waits(After(p, steps))
    decreases |steps|
  {
    if steps != [] {
      StepKeeps(p, steps[0], Loss(0, 0));
      StepWaits(p, steps[0]);
      hide Inv, CodeInv, Can, Next, Waits;
      RunWaits(Next(p, steps[0]), steps[1..]);
    }
  }

  predicate Waits(p: Pool) {
    || p.destroyer == Gone
    || (p.destroyer.Draining? && (p.destroyer == Draining(false) ==> p.live > 0))
  }

  lemma StepWaits(p: Pool, step: Step)
    requires Inv(p) && Can(p, step) && Waits(p)
    ensures Waits(Next(p, step)) && !Next(p, step).manager.Adding?
    ensures Losing(p, step, Loss(0, 0)) == Loss(0, 0)
  {
    hide QueueInv, RingOk, Count;
  }

  // ---- Nobody is held up.

  // As long as the pool is there a worker in its slot can leave when told to, take
  // a task when one waits, start the one in hand and finish the one it is in.
  lemma WorkerGoesOn(p: Pool, w: nat)
    requires RingOk(p.ring) && p.destroyer != Gone && w < |p.workers| == |p.enabled| && p.enabled[w]
    ensures match p.workers[w]
            case Idle => (p.exit > 0 ==> Can(p, Exit(w))) && (p.ring.size > 0 ==> Can(p, TakeTask(w)))
            case Holding(_) => Can(p, BeginTask(w))
            case Busy(_) => Can(p, EndTask(w))
  {
    hide RingOk;
  }

  // The manager has a step of its own in every state but the last, and as soon as
  // the shutdown flag is set it stops at its next test.
  lemma ManagerGoesOn(p: Pool)
    requires RingOk(p.ring) && p.destroyer != Gone && !p.manager.Absent? && !p.manager.Stopped?
    ensures exists step :: ManagerStep(step) && Can(p, step) && (p.manager.Top? && p.destroyer != NotCalled ==> step == Stop)
  {
    hide RingOk;
    var step :=
      match p.manager
      case Top => if p.destroyer.NotCalled? then Test else Stop
      case Locking => Snapshot
      case Snapped(size, live) =>
        if WantsGrowth(p, size, live) then ReadLive else if WantsShrink(p, live) then DecideShrink else Skip
      case Adding(_, _) => WriteLive
      case Scanning(_, _, _) => Scan
      case Shrinking(_) => SetExit
      case _ => Wake;
    assert ManagerStep(step) && Can(p, step);
  }

  predicate ManagerStep(step: Step) {
    step in {Test, Snapshot, ReadLive, WriteLive, Scan, DecideShrink, SetExit, Skip, Wake, Stop}
  }

  // Callers can add at any time, and the destroyer goes on once the manager has
  // stopped and once it is signalled.
  lemma OthersGoOn(p: Pool, x: Task)
    requires RingOk(p.ring) && p.destroyer != Gone
    ensures Can(p, Add(x))
    ensures p.destroyer == NotCalled ==> Can(p, Shutdown)
    ensures p.destroyer == Joining && (p.manager.Absent? || p.manager.Stopped?) ==> Can(p, Join)
    ensures p.destroyer == Draining(true) ==> Can(p, Return)
  {
    hide RingOk;
  }
}
