// src/deque.h: the linked queue behind the pending messages, forward operations.
module MqttQueue {

  datatype Message = Message(topic: string, payload: string, ctx: int)

  class Node {
    const val: Message
    var prev: Node?
    var next: Node?

    constructor (val: Message)
      ensures this.val == val && prev == null && next == null
    {
      this.val := val;
      prev, next := null, null;
    }
  }

  function At(nodes: seq<Node>, k: nat): Node? {
    if k < |nodes| then nodes[k] else null
  }

  function Follower(nodes: seq<Node>, i: nat): Node? {
    At(nodes, i + 1)
  }

  ghost predicate Chained(nodes: seq<Node>)
    reads nodes
  {
    forall i {:trigger Follower(nodes, i)} :: 0 <= i < |nodes| ==> nodes[i].next == Follower(nodes, i)
  }

  ghost predicate NoneTwice(nodes: seq<Node>) {
    forall i, j :: 0 <= i < j < |nodes| ==> nodes[i] != nodes[j]
  }

  lemma OnlyAt(nodes: seq<Node>, k: nat)
    requires NoneTwice(nodes) && k < |nodes|
    ensures forall i :: 0 <= i < |nodes| && i != k ==> nodes[i] != nodes[k]
  {
  }

  lemma TailNotTwice(nodes: seq<Node>)
    requires NoneTwice(nodes) && nodes != []
    ensures NoneTwice(nodes[1..])
  {
  }

  lemma OneMore(nodes: seq<Node>, node: Node)
    requires NoneTwice(nodes) && node !in nodes
    ensures NoneTwice(nodes + [node])
  {
  }

  function Values(nodes: seq<Node>): (v: seq<Message>)
    ensures |v| == |nodes|
  {
    seq(|nodes|, i requires 0 <= i < |nodes| => nodes[i].val)
  }

  class Queue {
    var head: Node?
    var tail: Node?
    ghost var nodes: seq<Node>

    ghost predicate Valid()
      reads this, nodes
    {
      && head == At(nodes, 0)
      && (if nodes == [] then tail == null else tail == nodes[|nodes| - 1])
      && Chained(nodes)
      && NoneTwice(nodes)
    }

    // The messages, oldest first.
    ghost function Contents(): (v: seq<Message>)
      reads this
    {
      Values(nodes)
    }

    constructor ()
      ensures Valid() && Contents() == [] && nodes == []
    {
      head, tail := null, null;
      nodes := [];
    }

    method Empty() returns (r: bool)
      requires Valid()
      ensures r <==> Contents() == []
    {
      r := head == null;
    }

    method Front() returns (r: Node?)
      requires Valid()
      ensures if Contents() == [] then r == null else r != null && r.val == Contents()[0]
    {
      r := head;
    }

    method EmplaceBack(val: Message)
      requires Valid()
      modifies this, nodes
      ensures Valid() && Contents() == old(Contents()) + [val]
      ensures fresh(nodes[|old(nodes)|]) && nodes[..|old(nodes)|] == old(nodes)
    {
      hide NoneTwice;
      ghost var was := nodes;
      if nodes != [] { OnlyAt(nodes, |nodes| - 1); }
      var iter := new Node(val);
      OneMore(nodes, iter);
      iter.prev := tail;
      if tail != null {
        tail.next := iter;
      } else {
        head := iter;
      }
      tail := iter;
      ghost var longer := was + [iter];
      nodes := longer;
      forall i | 0 <= i < |longer|
        ensures longer[i].next == Follower(longer, i)
      {
        if i < |was| {
          assert longer[i] == was[i] && Follower(was, i) == old(was[i].next);
        }
      }
      assert Contents() == Values(was) + [val];
    }

    method PopFront()
      requires Valid()
      modifies this
      ensures Valid()
      ensures Contents() == if old(Contents()) == [] then [] else old(Contents())[1..]
      ensures old(nodes) == [] || nodes == old(nodes)[1..]
    {
      hide NoneTwice;
      if head == null {
        return;
      }
      TailNotTwice(nodes);
      ghost var was := nodes;
      assert was[0].next == Follower(was, 0);
      var iter := head;
      head := iter.next;
      if head == null {
        tail := null;
      }
      ghost var rest := was[1..];
      nodes := rest;
      forall i | 0 <= i < |rest|
        ensures rest[i].next == Follower(rest, i)
      {
        assert rest[i] == was[i + 1] && was[i + 1].next == Follower(was, i + 1);
      }
      assert Contents() == Values(was)[1..];
    }
  }
}
