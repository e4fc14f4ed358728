// src/thread_pool.c: runs of the pool that go wrong, step by step.
module ThreadPoolRuns {
  import opened TaskRing
  import opened ThreadPool

  lemma {:induction false} RunOn(p: Pool, steps: seq<Step>, step: Step)
    requires Runs(p, steps) && Can(After(p, steps), step)
    ensures Runs(p, steps + [step]) && After(p, steps + [step]) == Next(After(p, steps), step)
    decreases |steps|
  {
    if steps == [] {
      assert [step][1..] == [];
    } else {
      assert (steps + [step])[1..] == steps[1..] + [step];
      RunOn(Next(p, steps[0]), steps[1..], step);
    }
  }

  const X: Task := Task(0, 0)

  // A pool of 1 to 4 workers with n tasks waiting and none taken.
  function Example(n: nat, manager: Manager, enabled: seq<bool>, live: int, exit: int, exitSeen: int): Pool
    requires n <= 4
  {
    Pool(1, 4, Ring([X, X, X, X], n, 0, if n == 4 then 0 else n), seq(n, _ => X), [], [],
         enabled, [Idle, Idle, Idle, Idle], live, exit, 0, manager, NotCalled, exitSeen)
  }

  ghost predicate Reaches(p: Pool, steps: seq<Step>, q: Pool) {
    Runs(p, steps) && After(p, steps) == q
  }

  lemma Then(p: Pool, steps: seq<Step>, q: Pool, step: Step, r: Pool) returns (longer: seq<Step>)
    requires Reaches(p, steps, q) && Can(q, step) && Next(q, step) == r
    ensures longer == steps + [step] && Reaches(p, longer, r)
  {
    RunOn(p, steps, step);
    longer := steps + [step];
  }

  // Three tasks arrive,
  lemma Filled() returns (steps: seq<Step>)
    ensures Reaches(Create(1, 4, [X, X, X, X]), steps, Example(3, Top, [true, false, false, false], 1, 0, 0))
  {
    hide Reaches;
    var p := Create(1, 4, [X, X, X, X]);
    var q := Example(0, Top, [true, false, false, false], 1, 0, 0);
    assert p == q;
    assert Reaches(p, [], p) by { Start(p); }
    steps := [];
    steps := Then(p, steps, q, Add(X), Example(1, Top, [true, false, false, false], 1, 0, 0));
    q := Example(1, Top, [true, false, false, false], 1, 0, 0);
    steps := Then(p, steps, q, Add(X), Example(2, Top, [true, false, false, false], 1, 0, 0));
    q := Example(2, Top, [true, false, false, false], 1, 0, 0);
    steps := Then(p, steps, q, Add(X), Example(3, Top, [true, false, false, false], 1, 0, 0));
    q := Example(3, Top, [true, false, false, false], 1, 0, 0);
  }

  lemma Start(p: Pool)
    ensures Reaches(p, [], p)
  {
  }

  // the manager decides to start two workers,
  lemma Decided() returns (steps: seq<Step>)
    ensures Reaches(Create(1, 4, [X, X, X, X]), steps, Example(3, Scanning(0, 0, 2), [true, false, false, false], 3, 0, 0))
  {
    hide Reaches;
    var p := Create(1, 4, [X, X, X, X]);
    var q := Example(3, Top, [true, false, false, false], 1, 0, 0);
    steps := Filled();
    steps := Then(p, steps, q, Test, Example(3, Locking, [true, false, false, false], 1, 0, 0));
    q := Example(3, Locking, [true, false, false, false], 1, 0, 0);
    steps := Then(p, steps, q, Snapshot, Example(3, Snapped(3, 1), [true, false, false, false], 1, 0, 0));
    q := Example(3, Snapped(3, 1), [true, false, false, false], 1, 0, 0);
    steps := Then(p, steps, q, ReadLive, Example(3, Adding(1, 2), [true, false, false, false], 1, 0, 0));
    q := Example(3, Adding(1, 2), [true, false, false, false], 1, 0, 0);
    steps := Then(p, steps, q, WriteLive, Example(3, Scanning(0, 0, 2), [true, false, false, false], 3, 0, 0));
    q := Example(3, Scanning(0, 0, 2), [true, false, false, false], 3, 0, 0);
  }

  // finds two free slots for them,
  lemma Scanned() returns (steps: seq<Step>)
    ensures Reaches(Create(1, 4, [X, X, X, X]), steps, Example(3, Scanning(3, 2, 2), [true, true, true, false], 3, 0, 0))
  {
    hide Reaches;
    var p := Create(1, 4, [X, X, X, X]);
    var q := Example(3, Scanning(0, 0, 2), [true, false, false, false], 3, 0, 0);
    steps := Decided();
    steps := Then(p, steps, q, Scan, Example(3, Scanning(1, 0, 2), [true, false, false, false], 3, 0, 0));
    q := Example(3, Scanning(1, 0, 2), [true, false, false, false], 3, 0, 0);
    steps := Then(p, steps, q, Scan, Example(3, Scanning(2, 1, 2), [true, true, false, false], 3, 0, 0));
    q := Example(3, Scanning(2, 1, 2), [true, true, false, false], 3, 0, 0);
    steps := Then(p, steps, q, Scan, Example(3, Scanning(3, 2, 2), [true, true, true, false], 3, 0, 0));
    q := Example(3, Scanning(3, 2, 2), [true, true, true, false], 3, 0, 0);
  }

  lemma Grown() returns (steps: seq<Step>)
    ensures Reaches(Create(1, 4, [X, X, X, X]), steps, Example(3, Locking, [true, true, true, false], 3, 0, 0))
  {
    hide Reaches;
    var p := Create(1, 4, [X, X, X, X]);
    var q := Example(3, Scanning(3, 2, 2), [true, true, true, false], 3, 0, 0);
    steps := Scanned();
    steps := Then(p, steps, q, Scan, Example(3, Sleeping, [true, true, true, false], 3, 0, 0));
    q := Example(3, Sleeping, [true, true, true, false], 3, 0, 0);
    steps := Then(p, steps, q, Wake, Example(3, Top, [true, true, true, false], 3, 0, 0));
    q := Example(3, Top, [true, true, true, false], 3, 0, 0);
    steps := Then(p, steps, q, Test, Example(3, Locking, [true, true, true, false], 3, 0, 0));
    q := Example(3, Locking, [true, true, true, false], 3, 0, 0);
  }

  // and, none of the three being busy, tells two of them to exit.
  lemma Thinned() returns (steps: seq<Step>)
    ensures Reaches(Create(1, 4, [X, X, X, X]), steps, Example(3, Top, [true, true, true, false], 3, 2, 0))
  {
    hide Reaches;
    var p := Create(1, 4, [X, X, X, X]);
    var q := Example(3, Locking, [true, true, true, false], 3, 0, 0);
    steps := Grown();
    steps := Then(p, steps, q, Snapshot, Example(3, Snapped(3, 3), [true, true, true, false], 3, 0, 0));
    q := Example(3, Snapped(3, 3), [true, true, true, false], 3, 0, 0);
    steps := Then(p, steps, q, DecideShrink, Example(3, Shrinking(3), [true, true, true, false], 3, 0, 0));
    q := Example(3, Shrinking(3), [true, true, true, false], 3, 0, 0);
    steps := Then(p, steps, q, SetExit, Example(3, Sleeping, [true, true, true, false], 3, 2, 0));
    q := Example(3, Sleeping, [true, true, true, false], 3, 2, 0);
    steps := Then(p, steps, q, Wake, Example(3, Top, [true, true, true, false], 3, 2, 0));
    q := Example(3, Top, [true, true, true, false], 3, 2, 0);
  }

  // A snapshot is taken before those two exit,
  lemma Stale() returns (steps: seq<Step>)
    ensures Reaches(Create(1, 4, [X, X, X, X]), steps, Example(3, Shrinking(3), [true, true, true, false], 3, 2, 2))
  {
    hide Reaches;
    var p := Create(1, 4, [X, X, X, X]);
    var q := Example(3, Top, [true, true, true, false], 3, 2, 0);
    steps := Thinned();
    steps := Then(p, steps, q, Test, Example(3, Locking, [true, true, true, false], 3, 2, 0));
    q := Example(3, Locking, [true, true, true, false], 3, 2, 0);
    steps := Then(p, steps, q, Snapshot, Example(3, Snapped(3, 3), [true, true, true, false], 3, 2, 2));
    q := Example(3, Snapped(3, 3), [true, true, true, false], 3, 2, 2);
    steps := Then(p, steps, q, DecideShrink, Example(3, Shrinking(3), [true, true, true, false], 3, 2, 2));
    q := Example(3, Shrinking(3), [true, true, true, false], 3, 2, 2);
  }

  // so the manager asks for two more: the pool, whose minimum is one worker, is
  // left with none.
  lemma BelowMinimum() returns (steps: seq<Step>)
    ensures Reaches(Create(1, 4, [X, X, X, X]), steps, Example(3, Sleeping, [false, false, false, false], 0, 1, 2))
  {
    hide Reaches;
    var p := Create(1, 4, [X, X, X, X]);
    var q := Example(3, Shrinking(3), [true, true, true, false], 3, 2, 2);
    steps := Stale();
    steps := Then(p, steps, q, Exit(0), Example(3, Shrinking(3), [false, true, true, false], 2, 1, 2));
    q := Example(3, Shrinking(3), [false, true, true, false], 2, 1, 2);
    steps := Then(p, steps, q, Exit(1), Example(3, Shrinking(3), [false, false, true, false], 1, 0, 2));
    q := Example(3, Shrinking(3), [false, false, true, false], 1, 0, 2);
    steps := Then(p, steps, q, SetExit, Example(3, Sleeping, [false, false, true, false], 1, 2, 2));
    q := Example(3, Sleeping, [false, false, true, false], 1, 2, 2);
    steps := Then(p, steps, q, Exit(2), Example(3, Sleeping, [false, false, false, false], 0, 1, 2));
    q := Example(3, Sleeping, [false, false, false, false], 0, 1, 2);
  }

  // A fourth task makes the manager add a worker: it has read num_live,
  lemma HalfAdded() returns (steps: seq<Step>)
    ensures Reaches(Create(1, 4, [X, X, X, X]), steps, Example(4, Adding(3, 1), [true, true, true, false], 3, 2, 2))
  {
    hide Reaches;
    var p := Create(1, 4, [X, X, X, X]);
    var q := Example(3, Top, [true, true, true, false], 3, 2, 0);
    steps := Thinned();
    steps := Then(p, steps, q, Add(X), Example(4, Top, [true, true, true, false], 3, 2, 0));
    q := Example(4, Top, [true, true, true, false], 3, 2, 0);
    steps := Then(p, steps, q, Test, Example(4, Locking, [true, true, true, false], 3, 2, 0));
    q := Example(4, Locking, [true, true, true, false], 3, 2, 0);
    steps := Then(p, steps, q, Snapshot, Example(4, Snapped(4, 3), [true, true, true, false], 3, 2, 2));
    q := Example(4, Snapped(4, 3), [true, true, true, false], 3, 2, 2);
    steps := Then(p, steps, q, ReadLive, Example(4, Adding(3, 1), [true, true, true, false], 3, 2, 2));
    q := Example(4, Adding(3, 1), [true, true, true, false], 3, 2, 2);
  }

  // and an exit before it writes num_live back is lost: num_live says four,
  // three slots are enabled, and nothing is left to be started.
  lemma LostUpdate() returns (steps: seq<Step>)
    ensures Reaches(Create(1, 4, [X, X, X, X]), steps, Example(4, Sleeping, [true, true, true, false], 4, 1, 2))
  {
    hide Reaches;
    var p := Create(1, 4, [X, X, X, X]);
    var q := Example(4, Adding(3, 1), [true, true, true, false], 3, 2, 2);
    steps := HalfAdded();
    steps := Then(p, steps, q, Exit(0), Example(4, Adding(3, 1), [false, true, true, false], 2, 1, 2));
    q := Example(4, Adding(3, 1), [false, true, true, false], 2, 1, 2);
    steps := Then(p, steps, q, WriteLive, Example(4, Scanning(0, 0, 1), [false, true, true, false], 4, 1, 2));
    q := Example(4, Scanning(0, 0, 1), [false, true, true, false], 4, 1, 2);
    steps := Then(p, steps, q, Scan, Example(4, Scanning(1, 1, 1), [true, true, true, false], 4, 1, 2));
    q := Example(4, Scanning(1, 1, 1), [true, true, true, false], 4, 1, 2);
    steps := Then(p, steps, q, Scan, Example(4, Sleeping, [true, true, true, false], 4, 1, 2));
    q := Example(4, Sleeping, [true, true, true, false], 4, 1, 2);
  }

  // A pool of at most one worker, with none started yet.
  function Empty(manager: Manager, destroyer: Destroyer): Pool {
    Pool(0, 1, Ring([X], 0, 0, 0), [], [], [], [false], [Idle], 0, 0, 0, manager, destroyer, 0)
  }

  // Created and destroyed before its manager has looked at it, the pool has
  // nobody to wake tp_destroy, which waits for ever (DestroyStuck).
  lemma StuckFromCreation() returns (steps: seq<Step>)
    ensures Reaches(Create(0, 1, [X]), steps, Empty(Stopped, Draining(false)))
    ensures Inv(Empty(Stopped, Draining(false))) && Empty(Stopped, Draining(false)).live == 0
  {
    EmptyInv();
    hide Reaches, Inv, Create;
    var p := Create(0, 1, [X]);
    assert p == Empty(Top, NotCalled) by { EmptyCreated(); }
    assert Reaches(p, [], p) by { Start(p); }
    steps := Then(p, [], p, Shutdown, Empty(Top, Joining));
    steps := Then(p, steps, Empty(Top, Joining), Stop, Empty(Stopped, Joining));
    steps := Then(p, steps, Empty(Stopped, Joining), Join, Empty(Stopped, Draining(false)));
  }

  lemma EmptyCreated()
    ensures Create(0, 1, [X]) == Empty(Top, NotCalled)
  {
  }

  lemma EmptyInv()
    ensures Inv(Empty(Stopped, Draining(false)))
  {
    assert Count([false], true, 1) == 0;
  }
}
