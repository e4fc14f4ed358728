/** Whole runs of the map operations, and the comparators the maps are created with. */
module MapRuns {
  import opened RbModel
  import opened RbTree
  import opened OrderedMap

  datatype Option<+T> = None | Some(value: T)

  datatype Op<K, V> = Put(key: K, val: V) | Remove(key: K) | Get(key: K)

  ghost function Step<K, V>(m: map<K, V>, op: Op<K, V>): map<K, V> {
    match op
    case Put(k, v) => m[k := v]
    case Remove(k) => m - {k}
    case Get(_) => m
  }

  /** The finite map a run of operations leaves behind. */
  ghost function Replay<K, V>(m: map<K, V>, ops: seq<Op<K, V>>): map<K, V> {
    if ops == [] then m else Step(Replay(m, ops[..|ops| - 1]), ops[|ops| - 1])
  }

  /** Every iterator but that of a removed key is still the same object on the same node. */
  ghost predicate Sparing<K, V>(before: map<RbNode, MapIterator<K, V>>, now: map<RbNode, MapIterator<K, V>>, op: Op<K, V>) {
    forall n :: n in before && !(op.Remove? && before[n].key == op.key) ==> n in now && now[n] == before[n]
  }

  method Apply<K(==, !new), V>(m: Map<K, V>, op: Op<K, V>) returns (answer: Option<V>)
    requires m.Valid()
    modifies m, m.root, m.root.Nodes(), m.Iterators()
    ensures m.Valid() && m.contents == Step(old(m.contents), op)
    ensures forall n :: n in m.root.Nodes() ==> n in old(m.root.Nodes()) || fresh(n)
    ensures forall n :: n in m.Iterators() ==> n in old(m.Iterators()) || fresh(n)
    ensures op.Get? ==> answer == if op.key in m.contents then Some(m.contents[op.key]) else None
    ensures Sparing(old(m.entry), m.entry, op)
  {
    hide Map.Valid;
    answer := None;
    match op {
      case Put(k, v) =>
        var iter := m.Insert(k, v);
      case Remove(k) =>
        Drop(m, k);
      case Get(k) =>
        answer := Look(m, k);
    }
  }

  /** Erasing what is found under a key. */
  method Drop<K(==, !new), V>(m: Map<K, V>, key: K)
    requires m.Valid()
    modifies m`entry, m`contents, m.root, m.root.Nodes()
    ensures m.Valid() && m.contents == old(m.contents) - {key}
    ensures m.root.Nodes() <= old(m.root.Nodes()) && m.Iterators() <= old(m.Iterators())
    ensures forall n :: n in old(m.entry) && old(m.entry)[n].key != key ==> n in m.entry && m.entry[n] == old(m.entry)[n]
  {
    hide RbRoot.Valid;
    hide SortedKeys;
    hide Table;
    var iter, _ := m.Find(key);
    if iter != null {
      m.Erase(iter);
    }
  }

  method Look<K(==, !new), V>(m: Map<K, V>, key: K) returns (answer: Option<V>)
    requires m.Valid()
    ensures m.Valid() && answer == if key in m.contents then Some(m.contents[key]) else None
  {
    hide RbRoot.Valid;
    hide SortedKeys;
    hide Table;
    var iter, _ := m.Find(key);
    answer := if iter != null then Some(iter.val) else None;
  }

  lemma ReplayNext<K, V>(m: map<K, V>, ops: seq<Op<K, V>>, k: nat)
    requires k < |ops|
    ensures Replay(m, ops[..k + 1]) == Step(Replay(m, ops[..k]), ops[k])
  {
    assert ops[..k + 1][..k] == ops[..k] && ops[..k + 1][k] == ops[k];
  }

  /** What a run answers: each Get sees the map the operations before it have left. */
  ghost function Answer<K(!new), V>(m: map<K, V>, ops: seq<Op<K, V>>, i: nat): Option<V>
    requires i < |ops| && ops[i].Get?
  {
    var now := Replay(m, ops[..i]);
    if ops[i].key in now then Some(now[ops[i].key]) else None
  }

  /** The operations never remove the key. */
  ghost predicate Spared<K, V>(ops: seq<Op<K, V>>, key: K) {
    forall i :: 0 <= i < |ops| ==> !(ops[i].Remove? && ops[i].key == key)
  }

  /** The value of the last Put of the key, or the one it had before. */
  ghost function LastPut<K, V>(ops: seq<Op<K, V>>, key: K, before: V): V {
    if ops == [] then before
    else
      var op := ops[|ops| - 1];
      if op.Put? && op.key == key then op.val else LastPut(ops[..|ops| - 1], key, before)
  }

  /** The operations so far are answered as the finite map would. */
  ghost predicate Answered<K(!new), V>(m: map<K, V>, ops: seq<Op<K, V>>, answers: seq<Option<V>>) {
    |answers| <= |ops| && forall i :: 0 <= i < |answers| && ops[i].Get? ==> answers[i] == Answer(m, ops, i)
  }

  lemma AnsweredNone<K(!new), V>(m: map<K, V>, ops: seq<Op<K, V>>)
    ensures Answered(m, ops, [])
  {}

  lemma AnsweredNext<K(!new), V>(m: map<K, V>, ops: seq<Op<K, V>>, answers: seq<Option<V>>, answer: Option<V>)
    requires Answered(m, ops, answers) && |answers| < |ops|
    requires ops[|answers|].Get? ==> answer == Answer(m, ops, |answers|)
    ensures Answered(m, ops, answers + [answer])
  {}

  /** A key that is spared stays bound, to the value last put. */
  lemma {:induction false} SparedBound<K, V>(m: map<K, V>, ops: seq<Op<K, V>>, key: K)
    requires key in m && Spared(ops, key)
    ensures key in Replay(m, ops) && Replay(m, ops)[key] == LastPut(ops, key, m[key])
    decreases |ops|
  {
    if ops != [] {
      var front := ops[..|ops| - 1];
      assert forall i :: 0 <= i < |front| ==> front[i] == ops[i];
      SparedBound(m, front, key);
    }
  }

  /** What a run leaves under a key is what the last operation on it says: the value put there,
      or nothing once removed; a key no operation changes stays as it was. */
  lemma {:induction false} LastDecides<K, V>(m: map<K, V>, ops: seq<Op<K, V>>, key: K, k: int)
    requires -1 <= k < |ops|
    requires forall i :: k < i < |ops| && ops[i].key == key ==> ops[i].Get?
    requires k >= 0 ==> ops[k].key == key && !ops[k].Get?
    ensures var now := Replay(m, ops);
            if k < 0 then (key in now <==> key in m) && (key in m ==> now[key] == m[key])
            else if ops[k].Put? then key in now && now[key] == ops[k].val
            else key !in now
    decreases |ops|
  {
    if ops != [] {
      var front := ops[..|ops| - 1];
      assert forall i :: 0 <= i < |front| ==> front[i] == ops[i];
      if k < |front| { LastDecides(m, front, key, k); }
    }
  }

  /** Operation k of a run. */
  method Turn<K(==, !new), V>(m: Map<K, V>, ops: seq<Op<K, V>>, k: nat, ghost start: map<K, V>, ghost entry: map<RbNode, MapIterator<K, V>>)
    returns (answer: Option<V>)
    requires m.Valid() && k < |ops| && m.contents == Replay(start, ops[..k]) && Surviving(entry, m.entry, ops[..k])
    modifies m, m.root, m.root.Nodes(), m.Iterators()
    ensures m.Valid() && m.contents == Replay(start, ops[..k + 1])
    ensures forall n :: n in m.root.Nodes() ==> n in old(m.root.Nodes()) || fresh(n)
    ensures forall n :: n in m.Iterators() ==> n in old(m.Iterators()) || fresh(n)
    ensures ops[k].Get? ==> answer == Answer(start, ops, k)
    ensures Surviving(entry, m.entry, ops[..k + 1])
  {
    hide Map.Linked;
    hide Map.Tabulates;
    hide Replay;
    hide Sparing;
    hide Surviving;
    ghost var before := m.entry;
    ReplayNext(start, ops, k);
    answer := Apply(m, ops[k]);
    SurvivingStep(entry, before, m.entry, ops, k);
  }

  /** Over any run of operations, in any order, the map is the finite map the run describes, and
      an iterator whose key the run never removes is still there, the same object on the same
      node, with the value last put under its key. */
  method Run<K(==, !new), V>(m: Map<K, V>, ops: seq<Op<K, V>>) returns (answers: seq<Option<V>>)
    requires m.Valid()
    modifies m, m.root, m.root.Nodes(), m.Iterators()
    ensures m.Valid() && m.contents == Replay(old(m.contents), ops)
    ensures |answers| == |ops| && Answered(old(m.contents), ops, answers)
    ensures forall n :: n in old(m.entry) && Spared(ops, old(m.entry)[n].key) ==>
      n in m.entry && m.entry[n] == old(m.entry)[n]
      && m.entry[n].val == LastPut(ops, m.entry[n].key, old(m.entry[n].val))
  {
    hide Map.Linked;
    hide Map.Tabulates;
    hide Replay;
    hide Step;
    hide Answered;
    hide Sparing;
    hide Surviving;
    hide Spared;
    hide LastPut;
    answers := [];
    ghost var start, nodes, iters, entry := m.contents, m.root.Nodes(), m.Iterators(), m.entry;
    ghost var vals := m.Values();
    EntryValues(m);
    ReplayNone(start, ops);
    AnsweredNone(start, ops);
    assert Surviving(entry, m.entry, ops[..0]) by { AllSurvive(entry, ops[..0]); }
    while |answers| < |ops|
      invariant |answers| <= |ops| && m.Valid() && m.contents == Replay(start, ops[..|answers|])
      invariant forall n :: n in m.root.Nodes() ==> n in nodes || fresh(n)
      invariant forall n :: n in m.Iterators() ==> n in iters || fresh(n)
      invariant Answered(start, ops, answers)
      invariant Surviving(entry, m.entry, ops[..|answers|])
    {
      var answer := Turn(m, ops, |answers|, start, entry);
      AnsweredNext(start, ops, answers, answer);
      answers := answers + [answer];
    }
    assert ops[..|ops|] == ops;
    Survivors(m, start, entry, vals, ops);
  }

  /** The iterators whose keys the operations spare are still where they were. */
  ghost predicate Surviving<K, V>(entry: map<RbNode, MapIterator<K, V>>, now: map<RbNode, MapIterator<K, V>>, ops: seq<Op<K, V>>) {
    forall n :: n in entry && Spared(ops, entry[n].key) ==> n in now && now[n] == entry[n]
  }

  lemma AllSurvive<K, V>(entry: map<RbNode, MapIterator<K, V>>, ops: seq<Op<K, V>>)
    ensures Surviving(entry, entry, ops)
  {}

  lemma SurvivingStep<K, V>(entry: map<RbNode, MapIterator<K, V>>, before: map<RbNode, MapIterator<K, V>>,
                            now: map<RbNode, MapIterator<K, V>>, ops: seq<Op<K, V>>, k: nat)
    requires k < |ops| && Surviving(entry, before, ops[..k])
    requires Sparing(before, now, ops[k])
    ensures Surviving(entry, now, ops[..k + 1])
  {
    SparedBefore(ops, k);
  }

  lemma Survivors<K(!new), V>(m: Map<K, V>, start: map<K, V>, entry: map<RbNode, MapIterator<K, V>>,
                              vals: map<RbNode, V>, ops: seq<Op<K, V>>)
    requires m.Valid() && m.contents == Replay(start, ops) && Surviving(entry, m.entry, ops)
    requires vals.Keys == entry.Keys
    requires forall n :: n in entry ==> entry[n].key in start && vals[n] == start[entry[n].key]
    ensures forall n :: n in entry && Spared(ops, entry[n].key) ==>
      n in m.entry && m.entry[n] == entry[n] && m.entry[n].val == LastPut(ops, entry[n].key, vals[n])
  {
    EntryValues(m);
    hide Map.Linked;
    hide Map.Tabulates;
    forall n | n in entry && Spared(ops, entry[n].key)
      ensures n in m.entry && m.entry[n] == entry[n] && m.entry[n].val == LastPut(ops, entry[n].key, vals[n])
    {
      SparedBound(start, ops, entry[n].key);
    }
  }

  lemma SparedBefore<K, V>(ops: seq<Op<K, V>>, k: nat)
    requires k < |ops|
    ensures forall key :: Spared(ops[..k + 1], key) ==> Spared(ops[..k], key) && !(ops[k].Remove? && ops[k].key == key)
  {
    var longer := ops[..k + 1];
    assert longer[k] == ops[k] && forall i :: 0 <= i < k ==> longer[i] == ops[..k][i];
  }

  /** Every iterator holds the value its key is bound to. */
  lemma EntryValues<K(!new), V>(m: Map<K, V>)
    requires m.Valid()
    ensures forall n :: n in m.entry ==> m.entry[n].key in m.contents && m.entry[n].val == m.contents[m.entry[n].key]
  {
    hide RbRoot.Valid;
    hide SortedKeys;
    forall n | n in m.entry
      ensures m.entry[n].key in m.contents && m.entry[n].val == m.contents[m.entry[n].key]
    {
      assert n in m.Keying() && m.Keying()[n] == m.entry[n].key && m.Values()[n] == m.entry[n].val;
    }
  }

  lemma ReplayNone<K, V>(m: map<K, V>, ops: seq<Op<K, V>>)
    ensures Replay(m, ops[..0]) == m
  {}

  // Comparators.

  /** `_MAP_COMPARE_STRING`, `keycomp_str`: strcmp on the characters before the terminator. */
  function StrCmp(a: string, b: string): int {
    if a == [] then (if b == [] then 0 else -1)
    else if b == [] then 1
    else if a[0] != b[0] then a[0] as int - b[0] as int
    else StrCmp(a[1..], b[1..])
  }

  lemma {:induction false} StrCmpEqual(a: string, b: string)
    ensures StrCmp(a, b) == 0 <==> a == b
    decreases |a|
  {
    if a != [] && b != [] && a[0] == b[0] {
      StrCmpEqual(a[1..], b[1..]);
      assert a == [a[0]] + a[1..] && b == [b[0]] + b[1..];
    }
  }

  lemma {:induction false} StrCmpOpposite(a: string, b: string)
    ensures StrCmp(a, b) < 0 <==> StrCmp(b, a) > 0
    decreases |a|
  {
    if a != [] && b != [] && a[0] == b[0] {
      StrCmpOpposite(a[1..], b[1..]);
    }
  }

  lemma {:induction false} StrCmpTransitive(a: string, b: string, c: string)
    requires StrCmp(a, b) < 0 && StrCmp(b, c) < 0
    ensures StrCmp(a, c) < 0
    decreases |a|
  {
    if a != [] && b != [] && c != [] && a[0] == b[0] == c[0] {
      StrCmpTransitive(a[1..], b[1..], c[1..]);
    }
  }

  lemma StrCmpOrder()
    ensures TotalOrder(StrCmp)
  {
    hide StrCmp;
    forall a, b
      ensures StrCmp(a, b) == 0 <==> a == b
      ensures StrCmp(a, b) < 0 <==> StrCmp(b, a) > 0
    {
      StrCmpEqual(a, b);
      StrCmpOpposite(a, b);
    }
    forall a, b, c | StrCmp(a, b) < 0 && StrCmp(b, c) < 0
      ensures StrCmp(a, c) < 0
    {
      StrCmpTransitive(a, b, c);
    }
  }

  /** A negative result is a smaller character at the first difference, or a proper prefix. */
  lemma {:induction false} StrCmpMeans(a: string, b: string)
    ensures StrCmp(a, b) < 0 <==> exists k: nat :: Precedes(a, b, k)
    decreases |a|
  {
    if a != [] && b != [] && a[0] == b[0] {
      StrCmpMeans(a[1..], b[1..]);
      if k: nat :| Precedes(a[1..], b[1..], k) { PrecedesLater(a, b, k + 1); }
      if k: nat :| Precedes(a, b, k) { PrecedesLater(a, b, k); }
    } else if b != [] && (a == [] || a[0] < b[0]) {
      assert Precedes(a, b, 0);
    }
  }

  ghost predicate Precedes(a: string, b: string, k: nat) {
    k <= |a| && k < |b| && a[..k] == b[..k] && (k == |a| || a[k] < b[k])
  }

  lemma PrecedesLater(a: string, b: string, k: nat)
    requires a != [] && b != [] && a[0] == b[0]
    ensures Precedes(a, b, k) <==> k > 0 && Precedes(a[1..], b[1..], k - 1)
  {
    if k > 0 {
      if k <= |a| && k <= |b| {
        assert a[..k] == [a[0]] + a[1..][..k - 1] && b[..k] == [b[0]] + b[1..][..k - 1];
        if a[..k] == b[..k] { assert a[..k][1..] == b[..k][1..]; }
      }
    }
  }

  newtype int32 = i: int | -0x8000_0000 <= i < 0x8000_0000

  /** `_MAP_COMPARE_ARITHMATIC` on int keys: the difference, as an int holds it. */
  function Difference(k1: int32, k2: int32): int {
    (k1 as int - k2 as int + 0x8000_0000) % 0x1_0000_0000 - 0x8000_0000
  }

  function Sign(i: int): int { if i < 0 then -1 else if i > 0 then 1 else 0 }

  /** The difference orders two keys as they stand exactly when it does not overflow. */
  lemma DifferenceOrders(k1: int32, k2: int32)
    ensures Sign(Difference(k1, k2)) == Sign(k1 as int - k2 as int)
      <==> -0x8000_0000 <= k1 as int - k2 as int < 0x8000_0000
  {}

  /** Three keys that the overflowing difference puts in a circle: no map order at all. */
  lemma DifferenceCycles()
    ensures exists a: int32, b: int32, c: int32 ::
      Difference(a, b) < 0 && Difference(b, c) < 0 && Difference(c, a) < 0
  {
    var a: int32, b: int32, c: int32 := -0x8000_0000, -0x2000_0000, 0x4000_0000;
    assert Difference(a, b) < 0 && Difference(b, c) < 0 && Difference(c, a) < 0;
  }

  /** So it is not a comparator for all int keys; */
  lemma DifferenceNoOrder()
    ensures !TotalOrder(Difference)
  {
    DifferenceCycles();
  }

  newtype key31 = i: int | 0 <= i < 0x8000_0000

  /** it is one for the keys from 0 on, and so are the differences of any keys less than 2^31
      apart. */
  lemma DifferenceOrder(lo: int32)
    requires lo <= 0
    ensures TotalOrder((a: key31, b: key31) => Difference(lo + (a as int32), lo + (b as int32)))
  {
    hide TotalOrder;
    var cmp := (a: key31, b: key31) => Difference(lo + (a as int32), lo + (b as int32));
    forall a: key31, b: key31
      ensures cmp(a, b) == a as int - b as int
    {
      var k1, k2 := lo + (a as int32), lo + (b as int32);
      assert k1 as int == lo as int + a as int && k2 as int == lo as int + b as int;
      assert cmp(a, b) == Difference(k1, k2);
    }
    SubtractionOrder(cmp);
  }

  lemma SubtractionOrder(cmp: (key31, key31) -> int)
    requires forall a: key31, b: key31 :: cmp(a, b) == a as int - b as int
    ensures TotalOrder(cmp)
  {}
}
