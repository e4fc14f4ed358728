// src/mqtt.c: the client as one state under the steps of its callers, of the
// library's callbacks and of the retry timer. What the library answers is
// part of the step.
module Mqtt {
  import opened MqttQueue
  import opened MqttList

  const Disconnected: int := -3

  // A call of mqtt_publish_ex.
  datatype Pub = Pub(id: nat, msg: Message)

  datatype Client = Client(
    running: bool, connecting: bool, connected: bool,
    wait: int,                  // index into the table of delays
    callback: Callback,         // connectCallback
    topics: seq<Entry>,
    pending: seq<Pub>,          // pendingMessages
    entering: nat,              // onConnect calls that have set the flags and not the mutex
    draining: bool,             // onConnect holds the mutex
    timers: nat,                // retries scheduled
    attempts: nat,              // connects whose outcome is still to come
    closing: nat,               // disconnects whose outcome is still to come
    sending: seq<Pub>,          // publish calls past the mutex, with their answer still to come
    dropped: seq<Pub>,          // publish calls told that the connection is lost
    restarts: nat,              // publish calls about to call mqtt_start
    // histories
    enqueued: seq<Pub>, drained: seq<Pub>, sent: seq<Pub>, lost: seq<Pub>,
    handed: seq<nat>, refused: seq<nat>, returned: map<nat, int>, next: nat)

  datatype Step =
    | Publish(msg: Message)
    | Send(k: nat, rc: int) | Recheck(k: nat) | Restart(connectOk: bool)
    | Start(cb: Callback, connectOk: bool) | Stop(disconnectOk: bool)
    | Subscribe(topic: string, cb: Callback, context: int)
    | ConnectSucceeded | BeginDrain | DrainOne(sendOk: bool) | DrainEnd
    | ConnectFailed | ConnectionLost(connectOk: bool) | RetryFires(connectOk: bool)
    | DisconnectDone

  function NewClient(): Client {
    Client(false, false, false, 0, NoCallback, [], [], 0, false, 0, 0, 0, [], [], 0, [], [], [], [], [], [], map[], 0)
  }

  // ---- Back-off.

  const Delays: seq<int> := [0, 1, 2, 5, 10, 20, 30, 60, 120, 180, 300, 600]

  function Increased(wait: int): int {
    if wait < |Delays| - 1 then wait + 1 else wait
  }

  // ---- Reconnecting: do_mqtt_start, then a timer if that fails.

  function Connecting(c: Client, connectOk: bool): Client {
    if !c.running then c
    else if connectOk then c.(connecting := true, attempts := c.attempts + 1)
    else c.(wait := Increased(c.wait), timers := c.timers + 1)
  }

  function Started(c: Client, cb: Callback, connectOk: bool): Client {
    Connecting(c.(running := true, callback := cb), connectOk)
  }

  // ---- Publishing.

  function Wrapped(rc: int): int {
    2000 - rc
  }

  // After MQTTAsync_sendMessage has answered rc. `returned` gets what a call
  // returns as soon as that is settled.
  function SendResult(c: Client, p: Pub, rc: int): Client {
    if rc == Disconnected then c.(connected := false, dropped := c.dropped + [p])
    else if rc != 0 then c.(refused := c.refused + [p.id], returned := c.returned[p.id := Wrapped(rc)])
    else c.(handed := c.handed + [p.id], returned := c.returned[p.id := 0])
  }

  // The connection is lost: a client still running keeps the message and is
  // about to be started again.
  function RecheckResult(c: Client, p: Pub): Client {
    if !c.running then c.(refused := c.refused + [p.id], returned := c.returned[p.id := 1])
    else
      c.(pending := c.pending + [p], enqueued := c.enqueued + [p], returned := c.returned[p.id := 1],
         restarts := c.restarts + 1)
  }

  function Removed(s: seq<Pub>, k: nat): (r: seq<Pub>)
    requires k < |s|
  {
    s[..k] + s[k + 1..]
  }

  // ---- Steps.

  predicate Can(c: Client, step: Step) {
    match step
    case Publish(_) => !c.draining
    case Send(k, _) => k < |c.sending|
    case Recheck(k) => k < |c.dropped|
    case Restart(_) => c.restarts > 0
    case Start(_, _) => true
    case Stop(_) => true
    case Subscribe(_, _, _) => !c.draining
    case ConnectSucceeded => c.attempts > 0
    case BeginDrain => c.entering > 0 && !c.draining
    case DrainOne(_) => c.draining && c.pending != []
    case DrainEnd => c.draining && c.pending == []
    case ConnectFailed => c.attempts > 0
    case ConnectionLost(_) => true
    case RetryFires(_) => c.timers > 0
    case DisconnectDone => c.closing > 0
  }

  function Next(c: Client, step: Step): Client
    requires Can(c, step)
  {
    match step
    case Publish(msg) =>
      var p := Pub(c.next, msg);
      if !c.connected then
        c.(next := c.next + 1, pending := c.pending + [p], enqueued := c.enqueued + [p], returned := c.returned[p.id := 1])
      else c.(next := c.next + 1, sending := c.sending + [p])
    case Send(k, rc) => SendResult(c.(sending := Removed(c.sending, k)), c.sending[k], rc)
    case Recheck(k) => RecheckResult(c.(dropped := Removed(c.dropped, k)), c.dropped[k])
    case Restart(connectOk) => Started(c.(restarts := c.restarts - 1), NoCallback, connectOk)
    case Start(cb, connectOk) => Started(c, cb, connectOk)
    case Stop(ok) => c.(running := false, closing := if c.connected && ok then c.closing + 1 else c.closing)
    case Subscribe(topic, cb, context) => c.(topics := Subscribed(c.topics, topic, cb, context))
    case ConnectSucceeded =>
      c.(connected := true, connecting := false, wait := 0, attempts := c.attempts - 1, entering := c.entering + 1)
    case BeginDrain => c.(entering := c.entering - 1, draining := true)
    case DrainOne(ok) =>
      var p := c.pending[0];
      c.(pending := c.pending[1..], drained := c.drained + [p],
         sent := if ok then c.sent + [p] else c.sent, lost := if ok then c.lost else c.lost + [p])
    case DrainEnd => c.(draining := false)
    case ConnectFailed =>
      var d := c.(attempts := c.attempts - 1, connecting := false);
      if c.running then d.(wait := Increased(c.wait), timers := c.timers + 1) else d
    case ConnectionLost(connectOk) => Connecting(c.(connected := false, topics := []), connectOk)
    case RetryFires(connectOk) => Connecting(c.(timers := c.timers - 1), connectOk)
    case DisconnectDone => c.(closing := c.closing - 1, connected := false)
  }

  // ---- The queue: what was drained, then what is pending, is what was enqueued.

  predicate QueueInv(c: Client) {
    && c.drained + c.pending == c.enqueued
    && multiset(c.sent) + multiset(c.lost) == multiset(c.drained)
  }

  lemma QueueKept(c: Client, step: Step)
    requires QueueInv(c) && Can(c, step)
    ensures QueueInv(Next(c, step))
  {
    if step.DrainOne? {
      DrainKeepsQueue(c, step.sendOk);
    } else if step.Publish? {
      Appended(c.drained, c.pending, c.enqueued, Pub(c.next, step.msg));
    } else if step.Recheck? {
      RecheckFields(c, step.k);
      Appended(c.drained, c.pending, c.enqueued, c.dropped[step.k]);
      hide Next, Can;
    } else if step.Send? {
      SendFields(c, step.k, step.rc);
      hide Next, Can;
    } else {
      HistoryKept(c, step);
      hide Next, Can;
    }
  }

  predicate SameHistory(c: Client, d: Client) {
    && d.pending == c.pending && d.enqueued == c.enqueued && d.drained == c.drained && d.sent == c.sent && d.lost == c.lost
    && d.sending == c.sending && d.dropped == c.dropped && d.handed == c.handed && d.refused == c.refused && d.next == c.next
    && d.returned == c.returned
  }

  // The other steps leave the queue and the histories alone.
  lemma HistoryKept(c: Client, step: Step)
    requires Can(c, step) && !step.Publish? && !step.Send? && !step.Recheck? && !step.DrainOne?
    ensures SameHistory(c, Next(c, step))
  {
    hide Connecting, Subscribed, Increased;
    match step
    case Start(cb, ok) => ConnectingFields(c.(running := true, callback := cb), ok);
    case Restart(ok) => ConnectingFields(c.(restarts := c.restarts - 1, running := true, callback := NoCallback), ok);
    case ConnectionLost(ok) => ConnectingFields(c.(connected := false, topics := []), ok);
    case RetryFires(ok) => ConnectingFields(c.(timers := c.timers - 1), ok);
    case _ =>
  }

  lemma ConnectingFields(c: Client, connectOk: bool)
    ensures SameHistory(c, Connecting(c, connectOk))
  {
  }

  lemma PublishFields(c: Client, msg: Message)
    requires Can(c, Publish(msg))
    ensures var d, p := Next(c, Publish(msg)), Pub(c.next, msg);
            && d.next == c.next + 1 && d.handed == c.handed && d.refused == c.refused && d.dropped == c.dropped
            && d.enqueued == (if c.connected then c.enqueued else c.enqueued + [p])
            && d.sending == (if c.connected then c.sending + [p] else c.sending)
  {
  }

  // What the two answers to a publish call do to the queue and the histories.
  lemma SendFields(c: Client, k: nat, rc: int)
    requires Can(c, Send(k, rc))
    ensures k < |c.sending|
    ensures var d, p := Next(c, Send(k, rc)), c.sending[k];
            && d.handed == (if rc == 0 then c.handed + [p.id] else c.handed)
            && d.refused == (if rc != 0 && rc != Disconnected then c.refused + [p.id] else c.refused)
            && d.dropped == (if rc == Disconnected then c.dropped + [p] else c.dropped)
            && d.sending == Removed(c.sending, k) && d.next == c.next && d.enqueued == c.enqueued
            && d.pending == c.pending && d.drained == c.drained && d.sent == c.sent && d.lost == c.lost
  {
    hide Removed;
  }

  lemma RecheckFields(c: Client, k: nat)
    requires Can(c, Recheck(k))
    ensures k < |c.dropped|
    ensures var d, p := Next(c, Recheck(k)), c.dropped[k];
            && d.enqueued == (if c.running then c.enqueued + [p] else c.enqueued)
            && d.pending == (if c.running then c.pending + [p] else c.pending)
            && d.refused == (if c.running then c.refused else c.refused + [p.id])
            && d.dropped == Removed(c.dropped, k) && d.sending == c.sending && d.handed == c.handed && d.next == c.next
            && d.drained == c.drained && d.sent == c.sent && d.lost == c.lost
  {
    hide Removed;
  }

  lemma Appended(drained: seq<Pub>, pending: seq<Pub>, enqueued: seq<Pub>, p: Pub)
    requires drained + pending == enqueued
    ensures drained + (pending + [p]) == enqueued + [p]
  {
  }

  lemma DrainKeepsQueue(c: Client, ok: bool)
    requires QueueInv(c) && Can(c, DrainOne(ok))
    ensures QueueInv(Next(c, DrainOne(ok)))
  {
    var p := c.pending[0];
    assert c.drained + c.pending == (c.drained + [p]) + c.pending[1..];
    assert multiset(c.drained + [p]) == multiset(c.drained) + multiset{p};
    assert multiset(c.sent + [p]) == multiset(c.sent) + multiset{p};
    assert multiset(c.lost + [p]) == multiset(c.lost) + multiset{p};
  }

  // ---- Every publish call ends in exactly one way.

  function Ids(s: seq<Pub>): (ids: multiset<nat>)
  {
    if s == [] then multiset{} else multiset{s[0].id} + Ids(s[1..])
  }

  function Upto(n: nat): multiset<nat> {
    if n == 0 then multiset{} else Upto(n - 1) + multiset{n - 1}
  }

  // Each call so far is being sent, was told of a lost connection, was handed to
  // the library, was enqueued or was refused: one of these, once.
  predicate PublishInv(c: Client) {
    multiset(c.handed) + multiset(c.refused) + Ids(c.enqueued) + (Ids(c.sending) + Ids(c.dropped)) == Upto(c.next)
  }

  lemma {:induction false} IdsAppend(s: seq<Pub>, p: Pub)
    ensures Ids(s + [p]) == Ids(s) + multiset{p.id}
    decreases |s|
  {
    if s == [] {
      assert s + [p] == [p];
      assert [p][1..] == [];
    } else {
      assert (s + [p])[1..] == s[1..] + [p];
      IdsAppend(s[1..], p);
    }
  }

  lemma {:induction false} IdsRemoved(s: seq<Pub>, k: nat)
    requires k < |s|
    ensures Ids(s) == Ids(Removed(s, k)) + multiset{s[k].id}
    decreases |s|
  {
    if k == 0 {
      assert Removed(s, 0) == s[1..];
    } else {
      assert Removed(s, k)[1..] == Removed(s[1..], k - 1);
      assert Removed(s, k)[0] == s[0];
      IdsRemoved(s[1..], k - 1);
    }
  }

  lemma PublishKept(c: Client, step: Step)
    requires PublishInv(c) && Can(c, step)
    ensures PublishInv(Next(c, step))
  {
    hide Ids, Upto, Removed, Subscribed, Connecting;
    if step.Publish? {
      PublishStarts(c, step.msg);
    } else if step.Send? {
      SendEnds(c, step.k, step.rc);
    } else if step.Recheck? {
      RecheckEnds(c, step.k);
    } else if !step.DrainOne? {
      HistoryKept(c, step);
      hide Next, Can;
    }
  }

  lemma PublishStarts(c: Client, msg: Message)
    requires PublishInv(c) && Can(c, Publish(msg))
    ensures PublishInv(Next(c, Publish(msg)))
  {
    hide Ids, Removed, Next, Can;
    PublishFields(c, msg);
    var p := Pub(c.next, msg);
    IdsAppend(c.enqueued, p);
    IdsAppend(c.sending, p);
    Moved(multiset(c.handed), multiset(c.refused), Ids(c.enqueued), Ids(c.sending), Ids(c.dropped), multiset{c.next});
  }

  lemma SendEnds(c: Client, k: nat, rc: int)
    requires PublishInv(c) && Can(c, Send(k, rc))
    ensures PublishInv(Next(c, Send(k, rc)))
  {
    hide Ids, Upto, Removed, Next, Can;
    SendFields(c, k, rc);
    var p := c.sending[k];
    IdsRemoved(c.sending, k);
    IdsAppend(c.dropped, p);
    assert multiset(c.handed + [p.id]) == multiset(c.handed) + multiset{p.id};
    assert multiset(c.refused + [p.id]) == multiset(c.refused) + multiset{p.id};
    Moves(multiset(c.handed), multiset(c.refused), Ids(c.enqueued), Ids(Removed(c.sending, k)), Ids(c.dropped), multiset{p.id});
  }

  lemma RecheckEnds(c: Client, k: nat)
    requires PublishInv(c) && Can(c, Recheck(k))
    ensures PublishInv(Next(c, Recheck(k)))
  {
    hide Ids, Upto, Removed, Next, Can;
    RecheckFields(c, k);
    var p := c.dropped[k];
    IdsRemoved(c.dropped, k);
    IdsAppend(c.enqueued, p);
    assert multiset(c.refused + [p.id]) == multiset(c.refused) + multiset{p.id};
    Moved(multiset(c.handed), multiset(c.refused), Ids(c.enqueued), Ids(c.sending), Ids(Removed(c.dropped, k)), multiset{p.id});
  }

  lemma Moves(h: multiset<nat>, r: multiset<nat>, e: multiset<nat>, s: multiset<nat>, d: multiset<nat>, one: multiset<nat>)
    ensures var all := h + r + e + ((s + one) + d);
            all == (h + one) + r + e + (s + d) == h + (r + one) + e + (s + d) == h + r + e + (s + (d + one))
  {
  }

  lemma Moved(h: multiset<nat>, r: multiset<nat>, e: multiset<nat>, s: multiset<nat>, d: multiset<nat>, one: multiset<nat>)
    ensures var all := h + r + e + (s + (d + one));
            all == h + (r + one) + e + (s + d) == h + r + (e + one) + (s + d)
  {
  }

  // ---- What a publish call returns.

  // The codes of the library are zero or negative. A call returns 0 exactly when
  // the library took its message; told of a lost connection it goes on to look
  // again.
  lemma SendReturns(c: Client, k: nat, rc: int)
    requires Can(c, Send(k, rc)) && rc <= 0
    ensures var d, p := Next(c, Send(k, rc)), c.sending[k];
            && d.returned == (if rc == Disconnected then c.returned else c.returned[p.id := if rc == 0 then 0 else 2000 - rc])
            && (d.handed == c.handed + [p.id] <==> rc == 0)
            && (d.refused == c.refused + [p.id] <==> rc != 0 && rc != Disconnected)
            && (d.dropped == c.dropped + [p] <==> rc == Disconnected)
            && d.enqueued == c.enqueued
  {
  }

  // Then it returns 1, without having enqueued its message exactly when the
  // client has been stopped by now.
  lemma RecheckReturns(c: Client, k: nat)
    requires Can(c, Recheck(k))
    ensures var d, p := Next(c, Recheck(k)), c.dropped[k];
            && d.returned == c.returned[p.id := 1]
            && (d.enqueued == c.enqueued <==> !c.running)
            && d.enqueued == (if c.running then c.enqueued + [p] else c.enqueued)
            && d.refused == (if c.running then c.refused else c.refused + [p.id])
  {
  }

  // ---- Back-off: the index stays inside the table of delays.

  predicate WaitInv(c: Client) {
    0 <= c.wait < |Delays|
  }

  lemma WaitKept(c: Client, step: Step)
    requires WaitInv(c) && Can(c, step)
    ensures WaitInv(Next(c, step))
    ensures Next(c, step).timers > c.timers ==> Next(c, step).wait == Increased(c.wait)
  {
    hide Removed, Subscribed;
  }

  // Delays never shrink from one retry to the next, until a connect succeeds.
  lemma DelaysGrow(wait: int)
    requires 0 <= wait < |Delays|
    ensures Delays[wait] <= Delays[Increased(wait)] <= 600
    ensures Delays[wait] < Delays[Increased(wait)] || wait == |Delays| - 1
  {
  }

  // ---- A running client does not give up.

  // Something will bring it a connection: it has one, is asking for one, has set
  // a timer to ask again, or a publish call has found the connection lost and is
  // on its way to start it again.
  predicate Hopeful(c: Client) {
    c.running ==> c.connected || c.attempts > 0 || c.timers > 0 || c.dropped != [] || c.restarts > 0
  }

  predicate ConnectInv(c: Client) {
    Hopeful(c) && (c.connecting ==> c.attempts > 0)
  }

  // The one step to break it: a disconnect asked for before the client was
  // started again is done only after the new connection is made.
  predicate LateDisconnect(c: Client, step: Step) {
    step == DisconnectDone && c.running && c.connected
    && c.attempts == 0 && c.timers == 0 && c.dropped == [] && c.restarts == 0
  }

  lemma ConnectKept(c: Client, step: Step)
    requires ConnectInv(c) && Can(c, step)
    ensures ConnectInv(Next(c, step)) <==> !LateDisconnect(c, step)
  {
    hide Removed, Subscribed;
  }

  // ---- Subscriptions.

  lemma TopicsKept(c: Client, step: Step)
    requires Distinct(c.topics) && Can(c, step)
    ensures Distinct(Next(c, step).topics)
  {
    if step.Subscribe? {
      SubscribedDistinct(c.topics, step.topic, step.cb, step.context);
    }
  }

  // ---- Runs.

  predicate Runs(c: Client, steps: seq<Step>)
    decreases |steps|
  {
    steps == [] || (Can(c, steps[0]) && Runs(Next(c, steps[0]), steps[1..]))
  }

  function After(c: Client, steps: seq<Step>): Client
    requires Runs(c, steps)
    decreases |steps|
  {
    if steps == [] then c else After(Next(c, steps[0]), steps[1..])
  }

  predicate Inv(c: Client) {
    QueueInv(c) && PublishInv(c) && WaitInv(c) && Distinct(c.topics)
  }

  lemma NewInv()
    ensures Inv(NewClient()) && ConnectInv(NewClient())
  {
  }

  // Over any run, with any answers of the library.
  lemma {:induction false} RunKeeps(c: Client, steps: seq<Step>)
    requires Inv(c) && Runs(c, steps)
    ensures Inv(After(c, steps))
    decreases |steps|
  {
    hide QueueInv, PublishInv, WaitInv, Distinct, Next, Can;
    if steps != [] {
      QueueKept(c, steps[0]);
      PublishKept(c, steps[0]);
      WaitKept(c, steps[0]);
      TopicsKept(c, steps[0]);
      RunKeeps(Next(c, steps[0]), steps[1..]);
    }
  }

  // Whenever a drain ends, every message ever enqueued has been drained, those
  // appended while it was under way included.
  lemma RunDrainsAll(steps: seq<Step>)
    requires Runs(NewClient(), steps) && Can(After(NewClient(), steps), DrainEnd)
    ensures var d := After(NewClient(), steps); d.drained == d.enqueued && multiset(d.sent) + multiset(d.lost) == multiset(d.enqueued)
  {
    NewInv();
    RunKeeps(NewClient(), steps);
    var d := After(NewClient(), steps);
    assert d.drained + [] == d.drained;
  }

  // ---- Not giving up, over runs.

  predicate AlwaysHopeful(c: Client, steps: seq<Step>)
    requires Runs(c, steps)
    decreases |steps|
  {
    ConnectInv(c) && (steps == [] || AlwaysHopeful(Next(c, steps[0]), steps[1..]))
  }

  // No step of the run is a late disconnect.
  predicate NeverLate(c: Client, steps: seq<Step>)
    requires Runs(c, steps)
    decreases |steps|
  {
    steps == [] || (!LateDisconnect(c, steps[0]) && NeverLate(Next(c, steps[0]), steps[1..]))
  }

  // A client keeps hoping over a run if and only if no disconnect of it is late.
  lemma {:induction false} RunStaysHopeful(c: Client, steps: seq<Step>)
    requires ConnectInv(c) && Runs(c, steps)
    ensures AlwaysHopeful(c, steps) <==> NeverLate(c, steps)
    decreases |steps|
  {
    hide Next, Can, LateDisconnect, ConnectInv;
    if steps != [] {
      ConnectKept(c, steps[0]);
      var d := Next(c, steps[0]);
      if ConnectInv(d) { RunStaysHopeful(d, steps[1..]); } else { NotHopeful(d, steps[1..]); }
    }
  }

  lemma NotHopeful(c: Client, steps: seq<Step>)
    requires Runs(c, steps) && !ConnectInv(c)
    ensures !AlwaysHopeful(c, steps)
  {
  }

  // The caller's side of it: mqtt_start is called only when every disconnect
  // asked for by mqtt_stop has been answered, and mqtt_stop only when no publish
  // call is about to start the client again.
  predicate Careful(c: Client, step: Step) {
    (step.Start? ==> c.closing == 0) && (step.Stop? ==> c.restarts == 0)
  }

  predicate AlwaysCareful(c: Client, steps: seq<Step>)
    requires Runs(c, steps)
    decreases |steps|
  {
    steps == [] || (Careful(c, steps[0]) && AlwaysCareful(Next(c, steps[0]), steps[1..]))
  }

  // No disconnect is under way while the client runs or is about to.
  predicate ClearInv(c: Client) {
    ConnectInv(c) && (c.closing > 0 ==> !c.running && c.restarts == 0)
  }

  lemma ClearKept(c: Client, step: Step)
    requires ClearInv(c) && Can(c, step) && Careful(c, step)
    ensures ClearInv(Next(c, step))
  {
    hide Removed, Subscribed;
  }

  // Such a caller's client never gives up.
  lemma {:induction false} NeverGivesUp(c: Client, steps: seq<Step>)
    requires ClearInv(c) && Runs(c, steps) && AlwaysCareful(c, steps)
    ensures AlwaysHopeful(c, steps) && Hopeful(After(c, steps))
    decreases |steps|
  {
    if steps != [] {
      ClearKept(c, steps[0]);
      hide Next, Can;
      NeverGivesUp(Next(c, steps[0]), steps[1..]);
    }
  }

  lemma NewClear()
    ensures ClearInv(NewClient())
  {
  }

  // Stopped and started again, the client may be left without a connection,
  // without an attempt and without a timer.
  function Restarted(running: bool, connecting: bool, connected: bool, entering: nat, draining: bool, attempts: nat, closing: nat): Client {
    Client(running, connecting, connected, 0, NoCallback, [], [], entering, draining, 0, attempts, closing,
           [], [], 0, [], [], [], [], [], [], map[], 0)
  }

  ghost predicate Reaches(c: Client, steps: seq<Step>, d: Client) {
    Runs(c, steps) && After(c, steps) == d
  }

  lemma {:induction false} RunOn(c: Client, steps: seq<Step>, step: Step)
    requires Runs(c, steps) && Can(After(c, steps), step)
    ensures Runs(c, steps + [step]) && After(c, steps + [step]) == Next(After(c, steps), step)
    decreases |steps|
  {
    hide Can, Next;
    if steps == [] {
      assert [step][1..] == [] && [] + [step] == [step];
    } else {
      assert (steps + [step])[1..] == steps[1..] + [step];
      RunOn(Next(c, steps[0]), steps[1..], step);
    }
  }

  lemma Then(c: Client, steps: seq<Step>, d: Client, step: Step, e: Client) returns (longer: seq<Step>)
    requires Reaches(c, steps, d) && Can(d, step) && Next(d, step) == e
    ensures Reaches(c, longer, e) && longer == steps + [step]
  {
    RunOn(c, steps, step);
    longer := steps + [step];
  }

  lemma Here(c: Client)
    ensures Reaches(c, [], c)
  {
  }

  predicate StartedOnce(steps: seq<Step>) {
    forall k :: 1 <= k < |steps| ==> !steps[k].Start?
  }

  lemma FirstLife() returns (steps: seq<Step>)
    ensures Reaches(NewClient(), steps, Restarted(true, false, true, 0, false, 0, 0)) && |steps| > 0 && StartedOnce(steps)
  {
    hide Reaches, Removed, Subscribed;
    var c := NewClient();
    var begun, flagged := Restarted(true, true, false, 0, false, 1, 0), Restarted(true, false, true, 1, false, 0, 0);
    var draining := Restarted(true, false, true, 0, true, 0, 0);
    Here(c);
    steps := Then(c, [], c, Start(NoCallback, true), begun);
    steps := Then(c, steps, begun, ConnectSucceeded, flagged);
    steps := Then(c, steps, flagged, BeginDrain, draining);
    steps := Then(c, steps, draining, DrainEnd, Restarted(true, false, true, 0, false, 0, 0));
  }

  lemma SecondLife() returns (steps: seq<Step>)
    ensures Reaches(NewClient(), steps, Restarted(true, false, true, 1, false, 0, 1))
  {
    hide Reaches, Removed, Subscribed;
    var c, up := NewClient(), Restarted(true, false, true, 0, false, 0, 0);
    var stopped, begun := Restarted(false, false, true, 0, false, 0, 1), Restarted(true, true, true, 0, false, 1, 1);
    steps := FirstLife();
    steps := Then(c, steps, up, Stop(true), stopped);
    steps := Then(c, steps, stopped, Start(NoCallback, true), begun);
    steps := Then(c, steps, begun, ConnectSucceeded, Restarted(true, false, true, 1, false, 0, 1));
  }

  lemma ThirdLife() returns (steps: seq<Step>)
    ensures Reaches(NewClient(), steps, Restarted(true, false, false, 0, false, 0, 0))
  {
    hide Reaches, Removed, Subscribed;
    var c, flagged := NewClient(), Restarted(true, false, true, 1, false, 0, 1);
    var draining, up := Restarted(true, false, true, 0, true, 0, 1), Restarted(true, false, true, 0, false, 0, 1);
    steps := SecondLife();
    steps := Then(c, steps, flagged, BeginDrain, draining);
    steps := Then(c, steps, draining, DrainEnd, up);
    steps := Then(c, steps, up, DisconnectDone, Restarted(true, false, false, 0, false, 0, 0));
  }

  lemma GivesUp() returns (steps: seq<Step>)
    ensures Runs(NewClient(), steps) && !Hopeful(After(NewClient(), steps))
  {
    hide Runs, After;
    steps := ThirdLife();
  }

  // ---- A client that is stopped stays stopped.

  predicate NoStart(steps: seq<Step>) {
    forall k :: 0 <= k < |steps| ==> !steps[k].Start?
  }

  // Until the caller starts it again, a stopped client stays stopped over every
  // run if and only if no publish call was about to start it when it was stopped.
  lemma StopHolds(c: Client)
    requires !c.running
    ensures (forall steps :: Runs(c, steps) && NoStart(steps) ==> !After(c, steps).running) <==> c.restarts == 0
  {
    if c.restarts == 0 {
      forall steps | Runs(c, steps) && NoStart(steps)
        ensures !After(c, steps).running
      {
        StaysStopped(c, steps);
      }
    } else {
      RestartUndoes(c);
    }
  }

  lemma RestartUndoes(c: Client)
    requires c.restarts > 0
    ensures exists steps :: Runs(c, steps) && NoStart(steps) && After(c, steps).running
  {
    var step := Restart(true);
    assert [step][1..] == [];
    assert Runs(Next(c, step), []) && After(Next(c, step), []).running;
    assert Runs(c, [step]) && NoStart([step]) && After(c, [step]).running;
  }

  lemma {:induction false} StaysStopped(c: Client, steps: seq<Step>)
    requires !c.running && c.restarts == 0 && Runs(c, steps) && NoStart(steps)
    ensures !After(c, steps).running
    decreases |steps|
  {
    if steps != [] {
      assert !steps[0].Start?;
      StepStopped(c, steps[0]);
      hide Next, Can;
      StaysStopped(Next(c, steps[0]), steps[1..]);
    }
  }

  lemma StepStopped(c: Client, step: Step)
    requires !c.running && c.restarts == 0 && Can(c, step) && !step.Start?
    ensures !Next(c, step).running && Next(c, step).restarts == 0
  {
    hide Removed, Subscribed, Increased;
  }

  // A client that its caller starts only once may give up too: a publish call
  // finds the connection lost, the library reconnects, the caller stops the
  // client, and the call starts it again before the disconnect is done.
  const Note: Pub := Pub(0, Message("t", "", 0))

  function Publishing(running: bool, connecting: bool, connected: bool, entering: nat, attempts: nat, closing: nat,
                      sending: seq<Pub>, dropped: seq<Pub>): Client {
    Client(running, connecting, connected, 0, NoCallback, [], [], entering, false, 0, attempts, closing,
           sending, dropped, 0, [], [], [], [], [], [], map[], 1)
  }

  // The same when the call has queued its message.
  function Requeued(running: bool, connecting: bool, connected: bool, entering: nat, attempts: nat, closing: nat,
                    restarts: nat): Client {
    Client(running, connecting, connected, 0, NoCallback, [], [Note], entering, false, 0, attempts, closing,
           [], [], restarts, [Note], [], [], [], [], [], map[0 := 1], 1)
  }

  lemma PublishDropped() returns (steps: seq<Step>)
    ensures Reaches(NewClient(), steps, Publishing(true, true, false, 0, 1, 0, [], [Note])) && |steps| > 0 && StartedOnce(steps)
  {
    hide Reaches, Subscribed;
    var c, up := NewClient(), Restarted(true, false, true, 0, false, 0, 0);
    var sending, dropped := Publishing(true, false, true, 0, 0, 0, [Note], []), Publishing(true, false, false, 0, 0, 0, [], [Note]);
    steps := FirstLife();
    steps := Then(c, steps, up, Publish(Note.msg), sending);
    steps := Then(c, steps, sending, Send(0, Disconnected), dropped);
    steps := Then(c, steps, dropped, ConnectionLost(true), Publishing(true, true, false, 0, 1, 0, [], [Note]));
  }

  lemma StopUndone() returns (steps: seq<Step>)
    ensures Reaches(NewClient(), steps, Requeued(false, false, true, 1, 0, 1, 1)) && |steps| > 0 && StartedOnce(steps)
  {
    hide Reaches, Subscribed;
    var c, asking := NewClient(), Publishing(true, true, false, 0, 1, 0, [], [Note]);
    var again, queued := Publishing(true, false, true, 1, 0, 0, [], [Note]), Requeued(true, false, true, 1, 0, 0, 1);
    steps := PublishDropped();
    steps := Then(c, steps, asking, ConnectSucceeded, again);
    steps := Then(c, steps, again, Recheck(0), queued);
    steps := Then(c, steps, queued, Stop(true), Requeued(false, false, true, 1, 0, 1, 1));
  }

  lemma RestartedLate() returns (steps: seq<Step>)
    ensures Reaches(NewClient(), steps, Requeued(true, false, false, 2, 0, 0, 0)) && |steps| > 0 && StartedOnce(steps)
  {
    hide Reaches, Subscribed;
    var c, stopped := NewClient(), Requeued(false, false, true, 1, 0, 1, 1);
    var again, up := Requeued(true, true, true, 1, 1, 1, 0), Requeued(true, false, true, 2, 0, 1, 0);
    steps := StopUndone();
    steps := Then(c, steps, stopped, Restart(true), again);
    steps := Then(c, steps, again, ConnectSucceeded, up);
    steps := Then(c, steps, up, DisconnectDone, Requeued(true, false, false, 2, 0, 0, 0));
  }

  lemma GivesUpStartedOnce() returns (steps: seq<Step>)
    ensures Runs(NewClient(), steps) && StartedOnce(steps) && !Hopeful(After(NewClient(), steps))
  {
    hide Runs, After;
    steps := RestartedLate();
  }
}
