// src/thread_pool.c: callers, workers, manager and destroyer as steps over one
// shared state. A step is a region under the mutex, or a single access outside
// it, so the manager may act on a snapshot that the workers have made stale.
module ThreadPool {
  import opened TaskRing

  const BatchLimit: int := 2

  datatype Worker = Idle | Holding(task: Task) | Busy(task: Task)

  datatype Manager =
    | Absent
    | Top                                  // at the test of the shutdown flag
    | Locking                              // past the test, before the lock
    | Snapped(size: int, live: int)        // the snapshot taken under the lock
    | Adding(read: int, increase: int)     // num_live read, not yet written back
    | Scanning(i: nat, count: int, increase: int)
    | Shrinking(live: int)                 // about to lock and set num_exit
    | Sleeping
    | Stopped

  datatype Destroyer = NotCalled | Joining | Draining(signalled: bool) | Gone

  datatype Pool = Pool(
    min: nat, max: nat,
    ring: Ring, accepted: seq<Task>, dequeued: seq<Task>, finished: seq<Task>,
    enabled: seq<bool>, workers: seq<Worker>,
    live: int, exit: int, busy: int,
    manager: Manager, destroyer: Destroyer,
    exitSeen: int)   // num_exit when the manager last took its snapshot

  datatype Step =
    | Add(task: Task)
    | TakeTask(w: nat) | BeginTask(w: nat) | EndTask(w: nat) | Exit(w: nat)
    | Test | Snapshot | ReadLive | WriteLive | Scan | DecideShrink | SetExit | Skip | Wake | Stop
    | Shutdown | Join | Return

  // tp_create, for a ring with these (blank) slots; None when minimum > maximum.
  function Create(min: nat, max: nat, slots: seq<Task>): (p: Pool)
    requires min <= max
  {
    Pool(min, max, Ring(slots, 0, 0, 0), [], [], [],
         seq(max, i => i < min), seq(max, _ => Idle), min, 0, 0,
         if min < max then Top else Absent, NotCalled, 0)
  }

  // ---- The steps.

  predicate WantsGrowth(p: Pool, size: int, live: int) {
    size > live && live < p.max
  }

  predicate WantsShrink(p: Pool, live: int) {
    p.busy * 2 < live && live > p.min
  }

  function Least(a: int, b: int): int {
    if b < a then b else a
  }

  function Increase(p: Pool, size: int, live: int): int {
    Least(Least(BatchLimit, size - live), p.max - live)
  }

  predicate Idling(p: Pool, w: nat) {
    w < |p.enabled| && w < |p.workers| && p.enabled[w] && p.workers[w].Idle?
  }

  predicate Can(p: Pool, step: Step) {
    RingOk(p.ring) && p.destroyer != Gone &&
    match step
    case Add(_) => true
    case TakeTask(w) => Idling(p, w) && p.ring.size > 0
    case BeginTask(w) => w < |p.workers| && p.workers[w].Holding?
    case EndTask(w) => w < |p.workers| && p.workers[w].Busy?
    case Exit(w) => Idling(p, w) && p.exit > 0
    case Test => p.manager.Top? && p.destroyer.NotCalled?
    case Snapshot => p.manager.Locking?
    case ReadLive => p.manager.Snapped? && WantsGrowth(p, p.manager.size, p.manager.live)
    case WriteLive => p.manager.Adding?
    case Scan => p.manager.Scanning?
    case DecideShrink => p.manager.Snapped? && !WantsGrowth(p, p.manager.size, p.manager.live) && WantsShrink(p, p.manager.live)
    case SetExit => p.manager.Shrinking?
    case Skip => p.manager.Snapped? && !WantsGrowth(p, p.manager.size, p.manager.live) && !WantsShrink(p, p.manager.live)
    case Wake => p.manager.Sleeping?
    case Stop => p.manager.Top? && !p.destroyer.NotCalled?
    case Shutdown => p.destroyer.NotCalled?
    case Join => p.destroyer.Joining? && (p.manager.Absent? || p.manager.Stopped?)
    case Return => p.destroyer == Draining(true)
  }

  // One slot of the manager's scan.
  function ScanOne(p: Pool): Pool
    requires p.manager.Scanning?
  {
    var m := p.manager;
    if m.i >= p.max || m.i >= |p.enabled| || m.i >= |p.workers| || m.count >= m.increase then p.(manager := Sleeping)
    else if p.enabled[m.i] then p.(manager := Scanning(m.i + 1, m.count, m.increase))
    else p.(enabled := p.enabled[m.i := true], workers := p.workers[m.i := Idle],
            manager := Scanning(m.i + 1, m.count + 1, m.increase))
  }

  function Next(p: Pool, step: Step): Pool
    requires Can(p, step)
  {
    match step
    case Add(x) =>
      if p.ring.size == |p.ring.slots| then p
      else p.(ring := Put(p.ring, x), accepted := p.accepted + [x])
    case TakeTask(w) =>
      var x := p.ring.slots[p.ring.front];
      p.(ring := Take(p.ring), dequeued := p.dequeued + [x], workers := p.workers[w := Holding(x)])
    case BeginTask(w) => p.(busy := p.busy + 1, workers := p.workers[w := Busy(p.workers[w].task)])
    case EndTask(w) =>
      p.(busy := p.busy - 1, workers := p.workers[w := Idle], finished := p.finished + [p.workers[w].task])
    case Exit(w) =>
      p.(enabled := p.enabled[w := false], exit := p.exit - 1, live := p.live - 1,
         destroyer := if p.live - 1 == 0 && p.destroyer.Draining? then Draining(true) else p.destroyer)
    case Test => p.(manager := Locking)
    case Snapshot => p.(manager := Snapped(p.ring.size, p.live), exitSeen := p.exit)
    case ReadLive => p.(manager := Adding(p.live, Increase(p, p.manager.size, p.manager.live)))
    case WriteLive => p.(live := p.manager.read + p.manager.increase, manager := Scanning(0, 0, p.manager.increase))
    case Scan => ScanOne(p)
    case DecideShrink => p.(manager := Shrinking(p.manager.live))
    case SetExit => p.(exit := Least(p.manager.live - p.min, BatchLimit), manager := Sleeping)
    case Skip => p.(manager := Sleeping)
    case Wake => p.(manager := Top)
    case Stop => p.(manager := Stopped)
    case Shutdown => p.(destroyer := Joining)
    case Join => p.(exit := p.live, destroyer := Draining(false))
    case Return => p.(destroyer := Gone)
  }

  // ---- Counting.

  function Count(b: seq<bool>, v: bool, i: nat): (n: nat)
    requires i <= |b|
    ensures n <= |b| - i
    decreases |b| - i
  {
    if i == |b| then 0 else (if b[i] == v then 1 else 0) + Count(b, v, i + 1)
  }

  lemma {:induction false} CountChanged(b: seq<bool>, v: bool, i: nat, k: nat, x: bool)
    requires i <= |b| && k < |b|
    ensures Count(b[k := x], v, i)
            == Count(b, v, i) + (if i <= k then (if x == v then 1 else 0) - (if b[k] == v then 1 else 0) else 0)
    decreases |b| - i
  {
    if i < |b| { CountChanged(b, v, i + 1, k, x); }
  }

  lemma {:induction false} CountSplits(b: seq<bool>, i: nat)
    requires i <= |b|
    ensures Count(b, true, i) + Count(b, false, i) == |b| - i
    decreases |b| - i
  {
    if i < |b| { CountSplits(b, i + 1); }
  }

  lemma {:induction false} CountFirst(max: nat, min: nat, i: nat)
    requires min <= max && i <= max
    ensures Count(seq(max, k => k < min), true, i) == if i < min then min - i else 0
    decreases max - i
  {
    if i < max { CountFirst(max, min, i + 1); }
  }

  // ---- The invariant.

  // Slots the manager has counted in num_live but not started yet.
  function Pending(m: Manager): int {
    if m.Scanning? then m.increase - m.count else 0
  }

  predicate Shape(p: Pool) {
    p.min <= p.max && |p.enabled| == |p.workers| == p.max
  }

  predicate QueueInv(p: Pool) {
    RingOk(p.ring) && p.dequeued + Waiting(p.ring) == p.accepted
  }

  // num_live counts the enabled slots and those still to be started, and the
  // slots not yet scanned hold enough free ones.
  predicate LiveInv(p: Pool) {
    Slots(p, Loss(0, 0)) && !p.manager.Adding?
  }

  // Exits that num_live does not show: those lost for good, and those since the
  // manager last read num_live in order to write it back.
  datatype Loss = Loss(lost: nat, since: nat)

  predicate Slots(p: Pool, l: Loss) {
    && Shape(p)
    && p.live == Count(p.enabled, true, 0) + Pending(p.manager) + l.lost
    && 0 <= p.live <= p.max
    && (if p.manager.Adding? then
          && p.manager.read == p.live + l.since
          && p.manager.increase >= 0 && p.manager.read + p.manager.increase <= p.max
        else l.since == 0)
    && (p.manager.Scanning? ==>
          && 0 <= p.manager.count <= p.manager.increase
          && p.manager.i <= p.max
          && Pending(p.manager) <= Count(p.enabled, false, p.manager.i))
  }

  // An exit between the read and the write is undone by the write.
  function Losing(p: Pool, step: Step, l: Loss): Loss {
    if step.Exit? && p.manager.Adding? then Loss(l.lost, l.since + 1)
    else if step == WriteLive then Loss(l.lost + l.since, 0)
    else l
  }

  // A snapshot is stale by exactly the exits since it was taken.
  predicate SnapshotInv(p: Pool) {
    && (p.manager.Snapped? ==>
          p.manager.live <= p.max && p.manager.live - p.live == p.exitSeen - p.exit)
    && (p.manager.Shrinking? ==>
          p.min < p.manager.live <= p.max && p.manager.live - p.live == p.exitSeen - p.exit)
    && (p.manager.Snapped? || p.manager.Shrinking? ==> 0 <= p.exit <= p.exitSeen <= BatchLimit)
  }

  // Before the destroyer drains the pool, exits never take it more than one
  // batch below the minimum.
  predicate ExitInv(p: Pool) {
    && p.exit >= 0
    && (p.destroyer.NotCalled? || p.destroyer.Joining? ==> p.exit <= BatchLimit && p.live - p.exit >= p.min - BatchLimit)
    && (p.destroyer.Draining? || p.destroyer.Gone? ==>
          && (p.manager.Absent? || p.manager.Stopped?)
          && p.exit == p.live)
    && (p.destroyer == Draining(true) || p.destroyer.Gone? ==> p.live == 0)
  }

  predicate Inv(p: Pool) {
    CodeInv(p, Loss(0, 0)) && !p.manager.Adding?
  }

  // The same with some exits not shown by num_live.
  predicate CodeInv(p: Pool, l: Loss) {
    QueueInv(p) && Slots(p, l) && SnapshotInv(p) && ExitInv(p)
  }

  lemma CreateInv(min: nat, max: nat, slots: seq<Task>)
    requires min <= max
    ensures Inv(Create(min, max, slots))
  {
    CountFirst(max, min, 0);
  }

  lemma QueueKept(p: Pool, step: Step)
    requires QueueInv(p) && Can(p, step)
    ensures QueueInv(Next(p, step))
  {
    hide RingOk, Waiting;
    match step
    case Add(x) =>
      if p.ring.size != |p.ring.slots| {
        RoomInRing(p.ring);
        PutAppends(p.ring, x);
      }
    case TakeTask(w) => TakeRemoves(p.ring);
    case _ =>
  }

  lemma RoomInRing(r: Ring)
    requires RingOk(r) && r.size != |r.slots|
    ensures r.size < |r.slots|
  {
  }

  lemma ExitKeepsSlots(p: Pool, w: nat, l: Loss)
    requires Slots(p, l) && Can(p, Exit(w))
    ensures Slots(Next(p, Exit(w)), Losing(p, Exit(w), l))
  {
    hide RingOk, Count;
    CountChanged(p.enabled, true, 0, w, false);
    LiveWhenEnabled(p.enabled, w, 0);
    if p.manager.Scanning? { CountChanged(p.enabled, false, p.manager.i, w, false); }
  }

  lemma ScanKeepsSlots(p: Pool, l: Loss)
    requires Slots(p, l) && Can(p, Scan)
    ensures Slots(Next(p, Scan), l)
  {
    hide RingOk;
    var m := p.manager;
    if m.i < p.max && m.count < m.increase && !p.enabled[m.i] {
      CountChanged(p.enabled, true, 0, m.i, true);
      CountChanged(p.enabled, false, m.i + 1, m.i, true);
    }
  }

  // Every step keeps the account of the slots, up to the exits lost.
  lemma SlotsKept(p: Pool, step: Step, l: Loss)
    requires Slots(p, l) && SnapshotInv(p) && Can(p, step)
    ensures Slots(Next(p, step), Losing(p, step, l))
  {
    if step.Exit? {
      ExitKeepsSlots(p, step.w, l);
    } else if step.Scan? {
      ScanKeepsSlots(p, l);
    } else {
      hide RingOk, Count;
      if step == WriteLive { CountSplits(p.enabled, 0); }
    }
  }

  // Writing num_live back makes the account right exactly when nobody has left
  // since it was read.
  lemma WriteExact(p: Pool, since: nat)
    requires Slots(p, Loss(0, since)) && Can(p, WriteLive)
    ensures LiveInv(Next(p, WriteLive)) <==> p.manager.read == p.live
    ensures p.manager.read == p.live <==> since == 0
  {
    hide RingOk, Count;
    CountSplits(p.enabled, 0);
  }

  // The scan never ends before it has started all it set out to start.
  lemma ScanCompletes(p: Pool, l: Loss)
    requires Slots(p, l) && Can(p, Scan) && (p.manager.i >= p.max || p.manager.count >= p.manager.increase)
    ensures p.manager.count == p.manager.increase
    ensures Next(p, Scan).manager == Sleeping && Next(p, Scan).live == Count(p.enabled, true, 0) + l.lost
  {
  }

  lemma {:induction false} LiveWhenEnabled(b: seq<bool>, w: nat, i: nat)
    requires i <= w < |b| && b[w]
    ensures Count(b, true, i) >= 1
    decreases w - i
  {
    if i < w { LiveWhenEnabled(b, w, i + 1); }
  }

  lemma SnapshotKept(p: Pool, step: Step, l: Loss)
    requires SnapshotInv(p) && Slots(p, l) && ExitInv(p) && Can(p, step)
    ensures SnapshotInv(Next(p, step))
  {
    hide RingOk, Count;
  }

  lemma ExitKept(p: Pool, step: Step, l: Loss)
    requires SnapshotInv(p) && Slots(p, l) && ExitInv(p) && Can(p, step)
    ensures ExitInv(Next(p, step))
  {
    hide RingOk, Count;
  }

  lemma StepKeeps(p: Pool, step: Step, l: Loss)
    requires CodeInv(p, l) && Can(p, step)
    ensures CodeInv(Next(p, step), Losing(p, step, l))
  {
    hide QueueInv, Slots, SnapshotInv, ExitInv, Next, Can, Losing;
    QueueKept(p, step);
    SlotsKept(p, step, l);
    SnapshotKept(p, step, l);
    ExitKept(p, step, l);
  }

  // ---- Runs.

  predicate Runs(p: Pool, steps: seq<Step>)
    decreases |steps|
  {
    steps == [] || (Can(p, steps[0]) && Runs(Next(p, steps[0]), steps[1..]))
  }

  function After(p: Pool, steps: seq<Step>): Pool
    requires Runs(p, steps)
    decreases |steps|
  {
    if steps == [] then p else After(Next(p, steps[0]), steps[1..])
  }

  function Losses(p: Pool, steps: seq<Step>, l: Loss): Loss
    requires Runs(p, steps)
    decreases |steps|
  {
    if steps == [] then l else Losses(Next(p, steps[0]), steps[1..], Losing(p, steps[0], l))
  }

  // Over any run.
  lemma {:induction false} RunKeeps(p: Pool, steps: seq<Step>, l: Loss)
    requires CodeInv(p, l) && Runs(p, steps)
    ensures CodeInv(After(p, steps), Losses(p, steps, l))
    decreases |steps|
  {
    hide CodeInv, Can, Next, Losing;
    if steps != [] {
      StepKeeps(p, steps[0], l);
      RunKeeps(Next(p, steps[0]), steps[1..], Losing(p, steps[0], l));
    }
  }

  lemma {:induction false} RunKeepsQueue(p: Pool, steps: seq<Step>)
    requires QueueInv(p) && Runs(p, steps)
    ensures QueueInv(After(p, steps))
    decreases |steps|
  {
    hide QueueInv, Can, Next;
    if steps != [] {
      QueueKept(p, steps[0]);
      RunKeepsQueue(Next(p, steps[0]), steps[1..]);
    }
  }

  // The exits of a run that come between a read of num_live and its write.
  function LostExits(p: Pool, steps: seq<Step>): nat
    requires Runs(p, steps)
    decreases |steps|
  {
    if steps == [] then 0
    else (if steps[0].Exit? && p.manager.Adding? then 1 else 0) + LostExits(Next(p, steps[0]), steps[1..])
  }

  lemma {:induction false} LossesCounted(p: Pool, steps: seq<Step>, l: Loss)
    requires Runs(p, steps)
    ensures var r := Losses(p, steps, l); r.lost + r.since == l.lost + l.since + LostExits(p, steps)
    decreases |steps|
  {
    hide Can, Next;
    if steps != [] { LossesCounted(Next(p, steps[0]), steps[1..], Losing(p, steps[0], l)); }
  }

  // The code as written: after any run num_live is too high by exactly the exits
  // that came between a read and its write, and the account of the slots is
  // right if and only if there was none.
  lemma RunAccounts(p: Pool, steps: seq<Step>)
    requires Inv(p) && Runs(p, steps) && !After(p, steps).manager.Adding?
    ensures var q := After(p, steps);
            && q.live == Count(q.enabled, true, 0) + Pending(q.manager) + LostExits(p, steps)
            && 0 <= q.live <= q.max
            && (LiveInv(q) <==> LostExits(p, steps) == 0)
  {
    hide Can, Next, QueueInv, SnapshotInv, ExitInv, Count;
    RunKeeps(p, steps, Loss(0, 0));
    LossesCounted(p, steps, Loss(0, 0));
  }

  // Every read of num_live is followed at once by its write.
  predicate Atomic(steps: seq<Step>) {
    forall k :: 0 <= k < |steps| - 1 && steps[k] == ReadLive ==> steps[k + 1] == WriteLive
  }

  // With atomic updates no exit is lost.
  lemma {:induction false} AtomicLosesNone(p: Pool, steps: seq<Step>)
    requires Runs(p, steps) && Atomic(steps) && (p.manager.Adding? ==> steps == [] || steps[0] == WriteLive)
    ensures LostExits(p, steps) == 0
    decreases |steps|
  {
    if steps != [] {
      var rest := steps[1..];
      assert forall k :: 0 <= k < |rest| ==> rest[k] == steps[k + 1];
      AddingAfterRead(p, steps[0]);
      hide Can, Next;
      AtomicLosesNone(Next(p, steps[0]), rest);
    }
  }

  lemma AddingAfterRead(p: Pool, step: Step)
    requires Can(p, step)
    ensures Next(p, step).manager.Adding? <==> step == ReadLive || (p.manager.Adding? && step != WriteLive)
  {
    hide RingOk;
  }

  // ---- What the manager decides.

  // With more tasks waiting than workers alive and room for more it grows; else
  // with less than half of the living busy and more than the minimum alive it
  // asks for exits; else it does neither.
  lemma ManagerDecides(p: Pool)
    requires RingOk(p.ring) && p.destroyer != Gone && p.manager.Snapped?
    ensures var size, live := p.manager.size, p.manager.live;
            var grow, shrink := size > live && live < p.max, 2 * p.busy < live && live > p.min;
            && (Can(p, ReadLive) <==> grow)
            && (Can(p, DecideShrink) <==> !grow && shrink)
            && (Can(p, Skip) <==> !grow && !shrink)
  {
    hide RingOk;
  }

  // It adds one or two workers, not more than there are tasks for nor than the
  // maximum allows, and as many as that leaves.
  lemma GrowsBy(p: Pool)
    requires Can(p, ReadLive)
    ensures var size, live, n := p.manager.size, p.manager.live, Next(p, ReadLive).manager.increase;
            && 1 <= n <= 2 && n <= size - live && n <= p.max - live
            && (n == 2 || n == size - live || n == p.max - live)
  {
    hide RingOk;
  }

  // It asks one or two to leave, never more than are above the minimum, and two
  // if there are two.
  lemma ShrinksBy(p: Pool)
    requires Can(p, DecideShrink)
    ensures var live, q := p.manager.live, Next(p, DecideShrink);
            && Can(q, SetExit)
            && 1 <= Next(q, SetExit).exit <= 2 && live - Next(q, SetExit).exit >= p.min
            && (Next(q, SetExit).exit == 1 <==> live == p.min + 1)
  {
    hide RingOk;
  }

  // ---- The minimum.

  // Even after all the exits asked for, the minimum is alive.
  predicate AboveMin(p: Pool) {
    p.live - p.exit >= p.min
  }

  // Exits are asked for on a snapshot that is still true, or with a batch to spare.
  predicate Timely(p: Pool, step: Step) {
    step == SetExit && p.manager.Shrinking? ==> p.manager.live == p.live || p.live >= p.min + BatchLimit
  }

  lemma MinKept(p: Pool, step: Step, l: Loss)
    requires CodeInv(p, l) && Can(p, step) && step != Join && AboveMin(p)
    ensures AboveMin(Next(p, step)) <==> Timely(p, step)
  {
    hide RingOk, Count, QueueInv;
  }

  predicate AlwaysAbove(p: Pool, steps: seq<Step>)
    requires Runs(p, steps)
    decreases |steps|
  {
    AboveMin(p) && (steps == [] || AlwaysAbove(Next(p, steps[0]), steps[1..]))
  }

  predicate AlwaysTimely(p: Pool, steps: seq<Step>)
    requires Runs(p, steps)
    decreases |steps|
  {
    steps == [] || (Timely(p, steps[0]) && AlwaysTimely(Next(p, steps[0]), steps[1..]))
  }

  // Until tp_destroy drains it, a pool stays at its minimum over a run if and
  // only if every request for exits in the run is timely.
  lemma {:induction false} RunStaysAbove(p: Pool, steps: seq<Step>, l: Loss)
    requires CodeInv(p, l) && AboveMin(p) && Runs(p, steps) && Join !in steps
    ensures AlwaysAbove(p, steps) <==> AlwaysTimely(p, steps)
    decreases |steps|
  {
    hide CodeInv, Can, Next, Losing, AboveMin, Timely;
    if steps != [] {
      StepKeeps(p, steps[0], l);
      MinKept(p, steps[0], l);
      if AboveMin(Next(p, steps[0])) {
        RunStaysAbove(Next(p, steps[0]), steps[1..], Losing(p, steps[0], l));
      } else {
        NotAbove(Next(p, steps[0]), steps[1..]);
      }
    }
  }

  lemma NotAbove(p: Pool, steps: seq<Step>)
    requires Runs(p, steps) && !AboveMin(p)
    ensures !AlwaysAbove(p, steps)
  {
  }

  lemma CreateAbove(min: nat, max: nat, slots: seq<Task>)
    requires min <= max
    ensures AboveMin(Create(min, max, slots))
  {
  }

  // ---- Tasks in the hands of workers.

  function Held(workers: seq<Worker>, i: nat): multiset<Task>
    requires i <= |workers|
    decreases |workers| - i
  {
    if i == |workers| then multiset{}
    else HeldBy(workers[i]) + Held(workers, i + 1)
  }

  function BusyCount(workers: seq<Worker>, i: nat): nat
    requires i <= |workers|
    decreases |workers| - i
  {
    if i == |workers| then 0 else (if workers[i].Busy? then 1 else 0) + BusyCount(workers, i + 1)
  }

  // Every dequeued task is finished or held by one worker; num_busy counts the
  // workers inside a task; only enabled slots hold tasks.
  ghost predicate WorkInv(p: Pool) {
    && Shape(p)
    && multiset(p.dequeued) == multiset(p.finished) + Held(p.workers, 0)
    && p.busy == BusyCount(p.workers, 0)
    && forall w :: 0 <= w < |p.workers| && !p.enabled[w] ==> p.workers[w].Idle?
  }

  function HeldBy(w: Worker): multiset<Task> {
    if w.Idle? then multiset{} else multiset{w.task}
  }

  lemma {:induction false} HeldChanged(workers: seq<Worker>, i: nat, k: nat, x: Worker)
    requires i <= |workers| && k < |workers|
    ensures i <= k ==> Held(workers[k := x], i) + HeldBy(workers[k]) == Held(workers, i) + HeldBy(x)
    ensures i > k ==> Held(workers[k := x], i) == Held(workers, i)
    decreases |workers| - i
  {
    hide HeldBy;
    if i < |workers| {
      HeldChanged(workers, i + 1, k, x);
      var rest, rest' := Held(workers, i + 1), Held(workers[k := x], i + 1);
      if i == k {
        assert rest' == rest;
      } else {
        if i < k { Together(HeldBy(workers[i]), rest', HeldBy(workers[k]), rest, HeldBy(x)); }
      }
    }
  }

  lemma Together(a: multiset<Task>, r: multiset<Task>, b: multiset<Task>, r': multiset<Task>, b': multiset<Task>)
    requires r + b == r' + b'
    ensures (a + r) + b == (a + r') + b'
  {
    assert (a + r) + b == a + (r + b);
    assert (a + r') + b' == a + (r' + b');
  }

  lemma {:induction false} BusyChanged(workers: seq<Worker>, i: nat, k: nat, x: Worker)
    requires i <= |workers| && k < |workers|
    ensures BusyCount(workers[k := x], i)
            == BusyCount(workers, i) + (if i <= k then (if x.Busy? then 1 else 0) - (if workers[k].Busy? then 1 else 0) else 0)
    decreases |workers| - i
  {
    if i < |workers| { BusyChanged(workers, i + 1, k, x); }
  }

  lemma {:induction false} NoneHeld(workers: seq<Worker>, i: nat)
    requires i <= |workers| && forall w :: i <= w < |workers| ==> workers[w].Idle?
    ensures Held(workers, i) == multiset{} && BusyCount(workers, i) == 0
    decreases |workers| - i
  {
    if i < |workers| { NoneHeld(workers, i + 1); }
  }

  lemma CreateWork(min: nat, max: nat, slots: seq<Task>)
    requires min <= max
    ensures WorkInv(Create(min, max, slots))
  {
    NoneHeld(Create(min, max, slots).workers, 0);
  }

  // Worker k goes from holding `before` to x, with `finished` and `dequeued` to match.
  lemma WorkerMoves(p: Pool, q: Pool, k: nat, x: Worker)
    requires WorkInv(p) && k < p.max && Shape(q) && q.max == p.max
    requires q.workers == p.workers[k := x]
    requires forall w :: 0 <= w < p.max && w != k ==> q.enabled[w] == p.enabled[w]
    requires q.enabled[k] || x.Idle?
    requires q.busy == p.busy + (if x.Busy? then 1 else 0) - (if p.workers[k].Busy? then 1 else 0)
    requires multiset(q.dequeued) + HeldBy(p.workers[k]) + multiset(p.finished)
          == multiset(p.dequeued) + HeldBy(x) + multiset(q.finished)
    ensures WorkInv(q)
  {
    hide Held, HeldBy;
    HeldChanged(p.workers, 0, k, x);
    BusyChanged(p.workers, 0, k, x);
    var d, d', f, f' := multiset(p.dequeued), multiset(q.dequeued), multiset(p.finished), multiset(q.finished);
    var h, h', b, b' := Held(p.workers, 0), Held(q.workers, 0), HeldBy(p.workers[k]), HeldBy(x);
    Balance(d, d', f, f', h, h', b, b');
  }

  lemma Balance(d: multiset<Task>, d': multiset<Task>, f: multiset<Task>, f': multiset<Task>,
                h: multiset<Task>, h': multiset<Task>, b: multiset<Task>, b': multiset<Task>)
    requires d == f + h && h' + b == h + b' && d' + b + f == d + b' + f'
    ensures d' == f' + h'
  {
    forall x: Task
      ensures d'[x] == (f' + h')[x]
    {
      assert d[x] == (f + h)[x];
      assert (h' + b)[x] == (h + b')[x];
      assert (d' + b + f)[x] == (d + b' + f')[x];
    }
  }

  lemma TakeKeepsWork(p: Pool, w: nat)
    requires WorkInv(p) && Can(p, TakeTask(w))
    ensures WorkInv(Next(p, TakeTask(w)))
  {
    hide Held, BusyCount, Put, Take, Waiting;
    var q, x := Next(p, TakeTask(w)), p.ring.slots[p.ring.front];
    assert multiset(p.dequeued + [x]) == multiset(p.dequeued) + multiset{x};
    WorkerMoves(p, q, w, Holding(x));
  }

  lemma BeginKeepsWork(p: Pool, w: nat)
    requires WorkInv(p) && Can(p, BeginTask(w))
    ensures WorkInv(Next(p, BeginTask(w)))
  {
    hide Held, BusyCount, RingOk;
    WorkerMoves(p, Next(p, BeginTask(w)), w, Busy(p.workers[w].task));
  }

  lemma EndKeepsWork(p: Pool, w: nat)
    requires WorkInv(p) && Can(p, EndTask(w))
    ensures WorkInv(Next(p, EndTask(w)))
  {
    hide Held, BusyCount, RingOk;
    var q, x := Next(p, EndTask(w)), p.workers[w].task;
    assert multiset(p.finished + [x]) == multiset(p.finished) + multiset{x};
    WorkerMoves(p, q, w, Idle);
  }

  lemma ScanKeepsWork(p: Pool)
    requires WorkInv(p) && Can(p, Scan)
    ensures WorkInv(Next(p, Scan))
  {
    hide Held, BusyCount, RingOk;
    var m := p.manager;
    if m.i < p.max && m.count < m.increase && !p.enabled[m.i] {
      WorkerMoves(p, Next(p, Scan), m.i, Idle);
    }
  }

  lemma WorkKept(p: Pool, step: Step)
    requires WorkInv(p) && Can(p, step)
    ensures WorkInv(Next(p, step))
  {
    if step.TakeTask? {
      TakeKeepsWork(p, step.w);
    } else if step.BeginTask? {
      BeginKeepsWork(p, step.w);
    } else if step.EndTask? {
      EndKeepsWork(p, step.w);
    } else if step.Scan? {
      ScanKeepsWork(p);
    } else {
      hide Held, BusyCount, RingOk;
    }
  }

  lemma {:induction false} RunKeepsWork(p: Pool, steps: seq<Step>)
    requires WorkInv(p) && Runs(p, steps)
    ensures WorkInv(After(p, steps))
    decreases |steps|
  {
    hide WorkInv, Can, Next;
    if steps != [] {
      WorkKept(p, steps[0]);
      RunKeepsWork(Next(p, steps[0]), steps[1..]);
    }
  }

  // ---- tp_destroy.

  lemma {:induction false} NoneEnabled(b: seq<bool>, i: nat)
    requires i <= |b| && Count(b, true, i) == 0
    ensures forall w :: i <= w < |b| ==> !b[w]
    decreases |b| - i
  {
    if i < |b| { NoneEnabled(b, i + 1); }
  }

  // When tp_destroy frees the pool, nothing uses it any more: the manager has
  // stopped, no slot is enabled, and every task taken from the ring is finished.
  lemma FreedWhenQuiet(p: Pool, l: Loss)
    requires CodeInv(p, l) && WorkInv(p) && Can(p, Return)
    ensures p.manager.Absent? || p.manager.Stopped?
    ensures forall w :: 0 <= w < p.max ==> !p.enabled[w] && p.workers[w].Idle?
    ensures multiset(p.dequeued) == multiset(p.finished) && p.busy == 0
  {
    NoneEnabled(p.enabled, 0);
    NoneHeld(p.workers, 0);
  }

  // A destroyer that finds no worker alive has nobody to signal it; one that
  // finds exits lost waits for workers that have left. Both wait for ever.
  lemma {:induction false} DestroyStuck(p: Pool, steps: seq<Step>, l: Loss)
    requires CodeInv(p, l) && p.destroyer == Draining(false) && (p.live == 0 || l.lost > 0)
    requires Runs(p, steps)
    ensures After(p, steps).destroyer == Draining(false)
    decreases |steps|
  {
    if steps != [] {
      StepKeeps(p, steps[0], l);
      StaysStuck(p, steps[0], l);
      hide CodeInv, Can, Next;
      DestroyStuck(Next(p, steps[0]), steps[1..], Losing(p, steps[0], l));
    }
  }

  lemma StaysStuck(p: Pool, step: Step, l: Loss)
    requires CodeInv(p, l) && p.destroyer == Draining(false) && (p.live == 0 || l.lost > 0) && Can(p, step)
    ensures Next(p, step).destroyer == Draining(false)
    ensures Losing(p, step, l).lost == l.lost && (l.lost == 0 ==> Next(p, step).live == 0)
  {
    hide QueueInv, RingOk, Count;
    if step.Exit? { LiveWhenEnabled(p.enabled, step.w, 0); }
  }

  lemma {:induction false} SomeEnabled(b: seq<bool>, i: nat) returns (w: nat)
    requires i <= |b| && Count(b, true, i) > 0
    ensures i <= w < |b| && b[w]
    decreases |b| - i
  {
    if b[i] { w := i; } else { w := SomeEnabled(b, i + 1); }
  }

  // Otherwise, once the workers finish what they hold, it returns.
  lemma {:induction false} DestroyReturns(p: Pool) returns (steps: seq<Step>)
    requires Inv(p) && p.destroyer == Draining(false) && p.live > 0
    ensures Runs(p, steps) && After(p, steps).destroyer == Gone
    decreases p.live, 2
  {
    var w := SomeEnabled(p.enabled, 0);
    steps := RetireOne(p, w);
  }

  lemma {:induction false} RetireOne(p: Pool, w: nat) returns (steps: seq<Step>)
    requires Inv(p) && p.destroyer == Draining(false) && p.live > 0 && w < p.max && p.enabled[w]
    ensures Runs(p, steps) && After(p, steps).destroyer == Gone
    decreases p.live, if p.workers[w].Holding? then 1 else 0, if p.workers[w].Busy? then 1 else 0
  {
    hide QueueInv, SnapshotInv;
    QueueOk(p);
    var step, rest: seq<Step>;
    match p.workers[w] {
      case Holding(_) =>
        step := BeginTask(w);
        StepKeeps(p, step, Loss(0, 0));
        rest := RetireOne(Next(p, step), w);
      case Busy(_) =>
        step := EndTask(w);
        StepKeeps(p, step, Loss(0, 0));
        rest := RetireOne(Next(p, step), w);
      case Idle =>
        step := Exit(w);
        StepKeeps(p, step, Loss(0, 0));
        var q := Next(p, step);
        if p.live == 1 {
          rest := [Return];
          QueueOk(q);
          assert Runs(Next(q, Return), []);
        } else {
          rest := DestroyReturns(q);
        }
    }
    steps := [step] + rest;
    assert steps[1..] == rest;
  }

  lemma QueueOk(p: Pool)
    requires QueueInv(p)
    ensures RingOk(p.ring)
  {
  }

  // So a draining tp_destroy can return if and only if a worker was alive and
  // num_live had lost no exit.
  lemma DestroyReturnsWhen(p: Pool, l: Loss)
    requires CodeInv(p, l) && p.destroyer == Draining(false)
    ensures (exists steps :: Runs(p, steps) && After(p, steps).destroyer == Gone) <==> p.live > 0 && l.lost == 0
  {
    if p.live > 0 && l.lost == 0 {
      NotAdding(p, l);
      var steps := DestroyReturns(p);
    } else {
      forall steps | Runs(p, steps)
        ensures After(p, steps).destroyer != Gone
      {
        DestroyStuck(p, steps, l);
      }
    }
  }

  lemma NotAdding(p: Pool, l: Loss)
    requires CodeInv(p, l) && p.destroyer == Draining(false)
    ensures !p.manager.Adding? && l.since == 0
  {
    hide QueueInv, Count;
  }
}
