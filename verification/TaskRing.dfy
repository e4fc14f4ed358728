// src/thread_pool.c: the ring buffer of tasks, as a value and in place.
module TaskRing {

  datatype Task = Task(func: int, arg: int)

  datatype Ring = Ring(slots: seq<Task>, size: nat, front: nat, rear: nat)

  function Mod(k: nat, n: nat): (r: nat)
    ensures n > 0 ==> r < n
  {
    if n == 0 then 0 else k % n
  }

  // Positions stay inside the buffer and rear is size places after front.
  predicate RingOk(r: Ring) {
    && r.size <= |r.slots|
    && (if |r.slots| == 0 then r.front == 0 else r.front < |r.slots|)
    && r.rear == Mod(r.front + r.size, |r.slots|)
  }

  // The tasks waiting, oldest first.
  function Waiting(r: Ring): (q: seq<Task>)
    requires RingOk(r)
    ensures |q| == r.size
  {
    seq(r.size, k requires 0 <= k < r.size => r.slots[Mod(r.front + k, |r.slots|)])
  }

  // tp_add_task, when there is room.
  function Put(r: Ring, x: Task): Ring
    requires RingOk(r) && r.size < |r.slots|
  {
    Ring(r.slots[r.rear := x], r.size + 1, r.front, if r.rear >= |r.slots| - 1 then 0 else r.rear + 1)
  }

  // What a worker does to the ring, when there is a task.
  function Take(r: Ring): Ring
    requires RingOk(r) && r.size > 0
  {
    Ring(r.slots, r.size - 1, if r.front + 1 >= |r.slots| then 0 else r.front + 1, r.rear)
  }

  lemma Wrap(k: nat, n: nat)
    requires 0 < n && k < 2 * n
    ensures Mod(k, n) == if k < n then k else k - n
  {
    if k >= n { assert k == 1 * n + (k - n); }
  }

  lemma PutAppends(r: Ring, x: Task)
    requires RingOk(r) && r.size < |r.slots|
    ensures RingOk(Put(r, x)) && Waiting(Put(r, x)) == Waiting(r) + [x]
  {
    hide Mod;
    var n, p := |r.slots|, Put(r, x);
    Wrap(r.front + r.size, n);
    Wrap(r.front + p.size, n);
    forall k | 0 <= k < p.size
      ensures Waiting(p)[k] == (Waiting(r) + [x])[k]
    {
      Wrap(r.front + k, n);
    }
  }

  lemma TakeRemoves(r: Ring)
    requires RingOk(r) && r.size > 0
    ensures RingOk(Take(r)) && Waiting(r) == [r.slots[r.front]] + Waiting(Take(r))
  {
    hide Mod;
    var n, t := |r.slots|, Take(r);
    Wrap(r.front + r.size, n);
    Wrap(t.front + t.size, n);
    Wrap(r.front, n);
    forall k | 0 <= k < r.size
      ensures Waiting(r)[k] == ([r.slots[r.front]] + Waiting(t))[k]
    {
      Wrap(r.front + k, n);
      if k > 0 { Wrap(t.front + (k - 1), n); }
    }
  }

  class TaskQueue {
    const tasks: array<Task>
    const capacity: nat
    var size: nat
    var front: nat
    var rear: nat
    ghost var accepted: seq<Task>
    ghost var dequeued: seq<Task>

    ghost function View(): Ring
      reads this, tasks
    {
      Ring(tasks[..], size, front, rear)
    }

    // Every accepted task is in the ring or has been dequeued, in order.
    ghost predicate Valid()
      reads this, tasks
    {
      && tasks.Length == capacity
      && RingOk(View())
      && dequeued + Waiting(View()) == accepted
    }

    constructor (capacity: nat, blank: Task)
      ensures Valid() && fresh(tasks) && this.capacity == capacity
      ensures accepted == dequeued == []
    {
      this.capacity := capacity;
      tasks := new Task[capacity](_ => blank);
      size, front, rear := 0, 0, 0;
      accepted, dequeued := [], [];
    }

    method AddTask(x: Task) returns (result: int)
      requires Valid()
      modifies this, tasks
      ensures Valid()
      ensures result == if |old(Waiting(View()))| == capacity then 0 else 1
      ensures result == 0 ==> View() == old(View()) && accepted == old(accepted)
      ensures result == 1 ==> View() == Put(old(View()), x) && accepted == old(accepted) + [x]
      ensures dequeued == old(dequeued)
    {
      if size == capacity {
        return 0;
      }
      PutAppends(View(), x);
      ghost var before := View();
      tasks[rear] := x;
      if rear >= capacity - 1 {
        rear := 0;
      } else {
        rear := rear + 1;
      }
      size := size + 1;
      assert View() == Put(before, x);
      accepted := accepted + [x];
      return 1;
    }

    method TakeTask() returns (x: Task)
      requires Valid() && |Waiting(View())| > 0
      modifies this
      ensures Valid()
      ensures [x] + Waiting(View()) == old(Waiting(View())) && View() == Take(old(View()))
      ensures dequeued == old(dequeued) + [x] && accepted == old(accepted)
    {
      TakeRemoves(View());
      ghost var before := View();
      x := tasks[front];
      if front + 1 >= capacity {
        front := 0;
      } else {
        front := front + 1;
      }
      size := size - 1;
      assert View() == Take(before);
      dequeued := dequeued + [x];
      assert [x] + Waiting(View()) == Waiting(before);
    }
  }
}
