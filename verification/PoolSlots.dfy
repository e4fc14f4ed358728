// src/thread_pool.c: the two loops over the worker slots, in place: the
// manager's search for free slots and a worker's search for its own.
module PoolSlots {
  import opened ThreadPool

  class Slots {
    const min: int
    const max: nat
    const enable: array<bool>
    const tid: array<int>
    var live: int
    var exit: int

    ghost predicate Valid()
      reads this, enable
    {
      && enable.Length == tid.Length == max
      && live == Count(enable[..], true, 0) && live <= max
    }

    // tp_create: the first `minimum` slots are started.
    constructor (minimum: nat, maximum: nat, threads: seq<int>)
      requires minimum <= maximum == |threads|
      ensures Valid() && fresh(enable) && fresh(tid)
      ensures min == minimum && max == maximum && live == minimum && exit == 0
      ensures forall i :: 0 <= i < maximum ==> enable[i] == (i < minimum)
    {
      min, max := minimum, maximum;
      enable := new bool[maximum](i => i < minimum);
      tid := new int[maximum](i requires 0 <= i < |threads| => threads[i]);
      live, exit := minimum, 0;
      new;
      CountFirst(maximum, minimum, 0);
      assert enable[..] == seq(maximum, i => i < minimum);
    }

    // The growing branch of the manager, nobody else being at work: it starts as
    // many workers as it adds to num_live, never more than a batch or the maximum.
    method Grow(size: int, threads: seq<int>) returns (started: nat)
      requires Valid() && |threads| == max
      requires size > live && live < max
      modifies this, enable, tid
      ensures Valid()
      ensures 1 <= started <= BatchLimit && started <= size - old(live)
      ensures started == BatchLimit || started == size - old(live) || started == max - old(live)
      ensures live == old(live) + started && exit == old(exit)
      ensures forall i :: 0 <= i < max && old(enable[i]) ==> enable[i] && tid[i] == old(tid[i])
      ensures forall i :: 0 <= i < max && !old(enable[i]) && enable[i] ==> tid[i] == threads[i]
    {
      var increase: int := BatchLimit;
      if increase > size - live {
        increase := size - live;
      }
      if increase > max - live {
        increase := max - live;
      }
      CountSplits(enable[..], 0);
      ghost var before := live;
      live := live + increase;
      var i, count := 0, 0;
      while i < max && count < increase
        invariant 0 <= i <= max && 0 <= count <= increase
        invariant live == before + increase && exit == old(exit)
        invariant before + count == Count(enable[..], true, 0)
        invariant increase - count <= Count(enable[..], false, i)
        invariant forall k :: i <= k < max ==> enable[k] == old(enable[k]) && tid[k] == old(tid[k])
        invariant forall k :: 0 <= k < max && old(enable[k]) ==> enable[k] && tid[k] == old(tid[k])
        invariant forall k :: 0 <= k < max && !old(enable[k]) && enable[k] ==> tid[k] == threads[k]
      {
        if !enable[i] {
          CountChanged(enable[..], true, 0, i, true);
          CountChanged(enable[..], false, i + 1, i, true);
          ghost var was := enable[..];
          enable[i] := true;
          assert enable[..] == was[i := true];
          tid[i] := threads[i];
          count := count + 1;
        }
        i := i + 1;
      }
      started := count;
    }

    // A worker told that num_exit is positive looks for its own enabled slot;
    // without one it stays.
    method Leave(self: int) returns (left: bool)
      requires Valid() && exit > 0
      modifies this, enable
      ensures Valid()
      ensures left <==> exists i :: 0 <= i < max && old(enable[i]) && tid[i] == self
      ensures left ==> live == old(live) - 1 && exit == old(exit) - 1
      ensures left ==> exists i :: 0 <= i < max && old(enable[i]) && tid[i] == self && enable[..] == old(enable[..])[i := false]
      ensures !left ==> live == old(live) && exit == old(exit) && enable[..] == old(enable[..])
    {
      var i := 0;
      while i < max
        invariant 0 <= i <= max
        invariant forall k :: 0 <= k < i ==> !(enable[k] && tid[k] == self)
      {
        if enable[i] && tid[i] == self {
          CountChanged(enable[..], true, 0, i, false);
          ghost var was := enable[..];
          enable[i] := false;
          assert enable[..] == was[i := false];
          exit := exit - 1;
          live := live - 1;
          return true;
        }
        i := i + 1;
      }
      return false;
    }

    // The shrinking branch, with the snapshot it was decided on.
    method Thin(snapshot: int)
      requires snapshot > min
      modifies this`exit
      ensures 1 <= exit <= BatchLimit && exit <= snapshot - min
      ensures exit == BatchLimit || exit == snapshot - min
    {
      exit := snapshot - min;
      if exit > BatchLimit {
        exit := BatchLimit;
      }
    }
  }
}
