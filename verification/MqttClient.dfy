// src/mqtt.c: the client's functions on its own fields, its linked queue and
// its linked list, each carrying out steps of the state machine in Mqtt.
module MqttClient {
  import opened MqttQueue
  import opened MqttList
  import opened Mqtt

  function Messages(s: seq<Pub>): (m: seq<Message>)
    ensures |m| == |s|
  {
    seq(|s|, i requires 0 <= i < |s| => s[i].msg)
  }

  class MqttInstance {
    var running: bool
    var connecting: bool
    var connected: bool
    var waitTime: int
    var connectCallback: Callback
    const topics: TopicList
    const pendingMessages: Queue
    ghost var state: Client

    // The fields, the queue and the list are those of s.
    ghost predicate Shows(s: Client)
      reads this, topics, topics.items, pendingMessages, pendingMessages.nodes
    {
      && topics.Valid() && pendingMessages.Valid()
      && running == s.running && connecting == s.connecting && connected == s.connected
      && waitTime == s.wait && connectCallback == s.callback
      && topics.View() == s.topics
      && pendingMessages.Contents() == Messages(s.pending)
    }

    ghost predicate Valid()
      reads this, topics, topics.items, pendingMessages, pendingMessages.nodes
    {
      Shows(state)
    }

    constructor ()
      ensures Valid() && state == NewClient() && fresh(topics) && fresh(pendingMessages)
    {
      running, connecting, connected := false, false, false;
      waitTime := 0;
      connectCallback := NoCallback;
      topics := new TopicList();
      pendingMessages := new Queue();
      state := NewClient();
    }

    // increase_delay_time
    method IncreaseDelay()
      modifies this`waitTime
      ensures waitTime == Increased(old(waitTime))
    {
      if waitTime < |Delays| - 1 {
        waitTime := waitTime + 1;
      }
    }

    // do_mqtt_start and the timer set when it fails; s is the state to go on from.
    method Connect(connectOk: bool, ghost s: Client)
      requires Shows(s)
      modifies this`connecting, this`waitTime, this`state
      ensures Valid() && state == Connecting(s, connectOk)
    {
      hide TopicList.Valid, Queue.Valid, Messages;
      if running {
        if connectOk {
          connecting := true;
        } else {
          IncreaseDelay();
        }
      }
      state := Connecting(s, connectOk);
    }

    method Start(cb: Callback, connectOk: bool)
      requires Valid()
      modifies this
      ensures Valid() && state == Next(old(state), Step.Start(cb, connectOk))
    {
      hide TopicList.Valid, Queue.Valid, Messages, Connecting;
      running := true;
      connectCallback := cb;
      Connect(connectOk, state.(running := true, callback := cb));
    }

    method Stop(disconnectOk: bool)
      requires Valid()
      modifies this
      ensures Valid() && state == Next(old(state), Step.Stop(disconnectOk))
    {
      hide TopicList.Valid, Queue.Valid, Messages;
      running := false;
      state := Next(state, Step.Stop(disconnectOk));
    }

    method OnConnectFailure()
      requires Valid() && state.attempts > 0
      modifies this
      ensures Valid() && state == Next(old(state), ConnectFailed)
    {
      hide TopicList.Valid, Queue.Valid, Messages;
      if running {
        IncreaseDelay();
        connecting := false;
      } else {
        connecting := false;
      }
      state := Next(state, ConnectFailed);
    }

    method ConnLost(connectOk: bool)
      requires Valid()
      modifies this, topics
      ensures Valid() && state == Next(old(state), ConnectionLost(connectOk))
    {
      hide TopicList.Valid, Queue.Valid, Messages, Connecting;
      connected := false;
      topics.Clear();
      Connect(connectOk, state.(connected := false, topics := []));
    }

    method RetryStart(connectOk: bool)
      requires Valid() && state.timers > 0
      modifies this
      ensures Valid() && state == Next(old(state), RetryFires(connectOk))
    {
      hide TopicList.Valid, Queue.Valid, Messages, Connecting;
      Connect(connectOk, state.(timers := state.timers - 1));
    }

    // The part of mqtt_subscribe_ex after the library has accepted.
    method SubscribeTopic(topic: string, cb: Callback, context: int)
      requires Valid() && !state.draining
      modifies this`state, topics, topics.items
      ensures Valid() && state == Next(old(state), Step.Subscribe(topic, cb, context))
    {
      hide TopicList.Valid, Queue.Valid, Messages, Subscribed;
      ghost var list := Subscribed(topics.View(), topic, cb, context);
      topics.Subscribe(topic, cb, context);
      state := state.(topics := list);
    }

    // mqtt_publish_ex, run without interruption: rc is the library's answer. It
    // returns 0 for a message the library took, 1 for one queued or dropped with
    // the connection gone, and else the library's code made positive.
    method Publish(msg: Message, rc: int, connectOk: bool) returns (r: int)
      requires Valid() && !state.draining
      modifies this, pendingMessages, pendingMessages.nodes
      ensures Valid()
      ensures var first := Next(old(state), Step.Publish(msg));
              state == if old(connected) then Answered(first, |old(state).sending|, rc, connectOk) else first
      ensures old(state).next in state.returned && r == state.returned[old(state).next]
      ensures r == if !old(connected) || rc == Disconnected then 1 else if rc == 0 then 0 else 2000 - rc
      ensures pendingMessages.Contents()
              == old(pendingMessages.Contents()) + if !old(connected) || (rc == Disconnected && old(running)) then [msg] else []
    {
      hide TopicList.Valid, Queue.Valid, Messages, Connecting;
      ghost var id, k, j := state.next, |state.sending|, |state.dropped|;
      var past := PublishQueued(msg);
      NoneMore(old(pendingMessages.Contents()));
      if !past {
        return 1;
      }
      r := SendAnswered(k, rc);
      if rc == Disconnected {
        var again := RecheckRunning(msg, j);
        if again {
          RestartReturns(state, connectOk);
          Restart(connectOk);
        }
        r := 1;
      }
    }

    // Its part under the mutex: without a connection, that is all.
    method PublishQueued(msg: Message) returns (past: bool)
      requires Valid() && !state.draining
      modifies this`state, pendingMessages, pendingMessages.nodes
      ensures Valid() && state == Next(old(state), Step.Publish(msg)) && past == connected == old(connected)
      ensures past ==> unchanged(pendingMessages)
      ensures !past ==> pendingMessages.Contents() == old(pendingMessages.Contents()) + [msg]
    {
      hide TopicList.Valid, Queue.Valid, Messages;
      past := connected;
      if !past {
        Enqueue(msg);
      }
      state := Next(state, Step.Publish(msg));
    }

    // Its part after MQTTAsync_sendMessage.
    method SendAnswered(ghost k: nat, rc: int) returns (r: int)
      requires Valid() && k < |state.sending|
      modifies this`connected, this`state
      ensures Valid() && state == Next(old(state), Send(k, rc))
      ensures rc != Disconnected ==> var id := old(state).sending[k].id; id in state.returned && r == state.returned[id]
    {
      hide TopicList.Valid, Queue.Valid, Messages, Removed;
      if rc == Disconnected {
        connected := false;
      }
      r := if rc != 0 then Wrapped(rc) else 0;
      state := Next(state, Send(k, rc));
    }

    // Its look at `running` when the connection is lost.
    method RecheckRunning(msg: Message, ghost k: nat) returns (again: bool)
      requires Valid() && k < |state.dropped| && state.dropped[k].msg == msg
      modifies this`state, pendingMessages, pendingMessages.nodes
      ensures Valid() && state == Next(old(state), Recheck(k)) && again == running
      ensures pendingMessages.Contents() == old(pendingMessages.Contents()) + if again then [msg] else []
    {
      hide TopicList.Valid, Queue.Valid, Messages, Removed;
      NoneMore(pendingMessages.Contents());
      again := running;
      if again {
        Enqueue(msg);
      }
      state := Next(state, Recheck(k));
    }

    // Its call of mqtt_start.
    method Restart(connectOk: bool)
      requires Valid() && state.restarts > 0
      modifies this
      ensures Valid() && state == Next(old(state), Step.Restart(connectOk))
    {
      hide TopicList.Valid, Queue.Valid, Messages, Connecting;
      state := state.(restarts := state.restarts - 1);
      Start(NoCallback, connectOk);
    }

    method Enqueue(msg: Message)
      requires topics.Valid() && pendingMessages.Valid()
      modifies pendingMessages, pendingMessages.nodes
      ensures topics.Valid() && topics.View() == old(topics.View()) && pendingMessages.Valid()
      ensures pendingMessages.Contents() == old(pendingMessages.Contents()) + [msg]
      ensures forall pubs: seq<Pub>, p: Pub :: p.msg == msg && old(pendingMessages.Contents()) == Messages(pubs) ==>
        pendingMessages.Contents() == Messages(pubs + [p])
    {
      hide TopicList.Valid, Queue.Valid;
      pendingMessages.EmplaceBack(msg);
    }

    // onConnect, run without interruption: the flags and the caller's callback,
    // then every pending message given to the library, oldest first; answers[i]
    // tells whether it took the i-th.
    method OnConnect(answers: seq<bool>) returns (given: seq<Message>)
      requires Valid() && state.attempts > 0 && !state.draining && |answers| == |state.pending|
      modifies this, pendingMessages
      ensures Valid()
      ensures state == Drained(Next(Next(old(state), ConnectSucceeded), BeginDrain), answers, 0).(draining := false)
      ensures given == Messages(old(state).pending)
    {
      hide Shows, Drained, Messages;
      Connected();
      given := DrainPending(answers);
    }

    // Its part before the mutex.
    method Connected()
      requires Valid() && state.attempts > 0
      modifies this
      ensures Valid() && state == Next(old(state), ConnectSucceeded)
    {
      hide TopicList.Valid, Queue.Valid, Messages;
      connected := true;
      connecting := false;
      waitTime := 0;
      state := Next(state, ConnectSucceeded);
    }

    // Its part under the mutex, with whatever has been queued by then.
    method DrainPending(answers: seq<bool>) returns (given: seq<Message>)
      requires Valid() && state.entering > 0 && !state.draining && |answers| == |state.pending|
      modifies this`state, pendingMessages
      ensures Valid()
      ensures state == Drained(Next(old(state), BeginDrain), answers, 0).(draining := false)
      ensures given == Messages(old(state).pending)
    {
      hide TopicList.Valid, Queue.Valid, Messages, Drained;
      state := Next(state, BeginDrain);
      given := Drain(answers);
      state := state.(draining := false);
    }

    method Drain(answers: seq<bool>) returns (given: seq<Message>)
      requires Valid() && state.draining && |answers| == |state.pending|
      modifies this`state, pendingMessages
      ensures Valid() && state == Drained(old(state), answers, 0) && given == Messages(old(state).pending)
    {
      hide TopicList.Valid, Queue.Valid, Messages, Drained, Shows;
      ghost var start := state;
      ghost var i := 0;
      given := [];
      var empty := NothingPending();
      while !empty
        invariant Valid() && state.draining && 0 <= i <= |answers| && |state.pending| == |answers| - i
        invariant empty <==> state.pending == []
        invariant Drained(start, answers, 0) == Drained(state, answers, i)
        invariant given + Messages(state.pending) == Messages(start.pending)
        decreases |answers| - i
      {
        DrainedStep(state, answers, i);
        FrontMessage(given, state.pending);
        var front := DrainFront(answers[i]);
        given := given + [front];
        i := i + 1;
        empty := NothingPending();
      }
      DrainedStart(state, answers);
      NoMessages(given);
    }

    method NothingPending() returns (empty: bool)
      requires Valid()
      ensures empty <==> state.pending == []
    {
      hide TopicList.Valid, Queue.Valid;
      empty := pendingMessages.Empty();
    }

    // One turn of the loop in onConnect: the message given to the library.
    method DrainFront(ghost sendOk: bool) returns (given: Message)
      requires Valid() && state.draining && state.pending != []
      modifies this`state, pendingMessages
      ensures Valid() && state == Next(old(state), DrainOne(sendOk)) && given == old(state).pending[0].msg
    {
      hide TopicList.Valid, Queue.Valid;
      var iter := pendingMessages.Front();
      given := iter.val;
      ghost var s := Next(state, DrainOne(sendOk));
      assert Messages(s.pending) == Messages(state.pending)[1..];
      pendingMessages.PopFront();
      state := s;
    }
  }

  lemma NoneMore(s: seq<Message>)
    ensures s + [] == s
  {
  }

  lemma RestartReturns(c: Client, connectOk: bool)
    requires c.restarts > 0
    ensures Next(c, Step.Restart(connectOk)).returned == c.returned
  {
  }

  // The steps of a publish call after its send, one after the other.
  function Answered(c: Client, k: nat, rc: int, connectOk: bool): Client
    requires Can(c, Send(k, rc))
  {
    var d := Next(c, Send(k, rc));
    if rc != Disconnected then d
    else
      var e := Next(d, Recheck(|c.dropped|));
      if c.running then Next(e, Step.Restart(connectOk)) else e
  }

  // The steps of the draining loop, one for each pending message.
  function Drained(c: Client, answers: seq<bool>, i: nat): Client
    requires i <= |answers|
    decreases |answers| - i
  {
    if i == |answers| || !Can(c, DrainOne(answers[i])) then c
    else Drained(Next(c, DrainOne(answers[i])), answers, i + 1)
  }

  lemma FrontMessage(given: seq<Message>, pending: seq<Pub>)
    requires pending != []
    ensures (given + [pending[0].msg]) + Messages(pending[1..]) == given + Messages(pending)
  {
    assert Messages(pending) == [pending[0].msg] + Messages(pending[1..]);
  }

  lemma NoMessages(given: seq<Message>)
    ensures given + Messages([]) == given
  {
  }

  lemma DrainedStep(c: Client, answers: seq<bool>, i: nat)
    requires i < |answers| && c.draining && c.pending != []
    ensures Drained(c, answers, i) == Drained(Next(c, DrainOne(answers[i])), answers, i + 1)
  {
  }

  lemma DrainedStart(c: Client, answers: seq<bool>)
    ensures c.pending == [] ==> forall i :: 0 <= i <= |answers| ==> Drained(c, answers, i) == c
  {
  }

  // With an answer for every message, draining leaves none and takes them in order;
  lemma {:induction false} DrainedInOrder(c: Client, answers: seq<bool>, i: nat)
    requires i <= |answers| && c.draining && |c.pending| == |answers| - i
    ensures Drained(c, answers, i).pending == []
    ensures Drained(c, answers, i).drained == c.drained + c.pending
    ensures Drained(c, answers, i).enqueued == c.enqueued
    decreases |answers| - i
  {
    hide Drained, Next, Can;
    if i == |answers| {
      DrainedStart(c, answers);
      assert c.drained + [] == c.drained;
    } else {
      DrainedStep(c, answers, i);
      CanDrain(c, answers[i]);
      var d := Next(c, DrainOne(answers[i]));
      DrainOneFields(c, answers[i]);
      DrainedInOrder(d, answers, i + 1);
      Shifted(c.drained, c.pending);
    }
  }

  lemma CanDrain(c: Client, ok: bool)
    requires c.draining && c.pending != []
    ensures Can(c, DrainOne(ok))
  {
  }

  lemma Shifted(a: seq<Pub>, b: seq<Pub>)
    requires b != []
    ensures (a + [b[0]]) + b[1..] == a + b
  {
  }

  // a message the library does not take is lost,
  lemma {:induction false} DrainedOrLost(c: Client, answers: seq<bool>, i: nat)
    requires i <= |answers| && c.draining && |c.pending| == |answers| - i
    ensures Drained(c, answers, i).lost == c.lost + Refusals(c.pending, answers[i..])
    decreases |answers| - i
  {
    hide Drained, Next, Can;
    if i == |answers| {
      DrainedStart(c, answers);
    } else {
      DrainedStep(c, answers, i);
      CanDrain(c, answers[i]);
      DrainOneFields(c, answers[i]);
      DrainedOrLost(Next(c, DrainOne(answers[i])), answers, i + 1);
      assert answers[i..][1..] == answers[i + 1..];
    }
  }

  // and only such a message.
  function Refusals(pubs: seq<Pub>, answers: seq<bool>): seq<Pub>
    requires |pubs| == |answers|
  {
    if pubs == [] then [] else (if answers[0] then [] else [pubs[0]]) + Refusals(pubs[1..], answers[1..])
  }

  lemma DrainOneFields(c: Client, ok: bool)
    requires c.draining && c.pending != []
    ensures var d, p := Next(c, DrainOne(ok)), c.pending[0];
            && d.draining && d.pending == c.pending[1..] && d.drained == c.drained + [p] && d.enqueued == c.enqueued
            && d.sent == (if ok then c.sent + [p] else c.sent) && d.lost == (if ok then c.lost else c.lost + [p])
  {
  }
}
