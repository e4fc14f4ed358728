// src/mqtt.c: what the return codes, the subscriptions and the delays are over
// whole runs of the client, told by the steps alone.
module MqttHistory {
  import opened MqttQueue
  import opened MqttList
  import opened Mqtt

  // ---- Return codes.

  // The codes of the library are zero or negative.
  predicate Coded(step: Step) {
    step.Send? ==> step.rc <= 0
  }

  predicate AllCoded(steps: seq<Step>) {
    forall k :: 0 <= k < |steps| ==> Coded(steps[k])
  }

  // What has been settled is returned: 0 for a message handed over, 1 for one
  // enqueued, more than 0 for one refused.
  ghost predicate Settled(c: Client) {
    && (forall id :: id in c.returned <==> id in c.handed || id in c.refused || Ids(c.enqueued)[id] > 0)
    && (forall id :: id in c.handed ==> id in c.returned && c.returned[id] == 0)
    && (forall id :: id in c.refused ==> id in c.returned && c.returned[id] > 0)
    && (forall id :: Ids(c.enqueued)[id] > 0 ==> id in c.returned && c.returned[id] == 1)
  }

  lemma {:induction false} UptoOnce(n: nat, id: nat)
    ensures Upto(n)[id] == if id < n then 1 else 0
    decreases n
  {
    if n > 0 { UptoOnce(n - 1, id); }
  }

  lemma {:induction false} IdsOf(s: seq<Pub>, p: Pub)
    requires p in s
    ensures Ids(s)[p.id] > 0
  {
    if p != s[0] { IdsOf(s[1..], p); }
  }

  // A call still under way is none of the settled ones.
  lemma Unsettled(c: Client, p: Pub)
    requires PublishInv(c) && Settled(c) && (p in c.sending || p in c.dropped)
    ensures p.id !in c.handed && p.id !in c.refused && Ids(c.enqueued)[p.id] == 0 && p.id !in c.returned
  {
    hide Ids, Upto;
    UptoOnce(c.next, p.id);
    if p in c.sending { IdsOf(c.sending, p); } else { IdsOf(c.dropped, p); }
    Once(multiset(c.handed), multiset(c.refused), Ids(c.enqueued), Ids(c.sending) + Ids(c.dropped), Upto(c.next), p.id);
  }

  lemma Once(h: multiset<nat>, r: multiset<nat>, e: multiset<nat>, s: multiset<nat>, all: multiset<nat>, id: nat)
    requires h + r + e + s == all && all[id] <= 1
    ensures h[id] + r[id] + e[id] + s[id] == all[id]
  {
    assert all[id] == (h + r + e + s)[id];
  }

  lemma Fresh(c: Client)
    requires PublishInv(c) && Settled(c)
    ensures c.next !in c.handed && c.next !in c.refused && Ids(c.enqueued)[c.next] == 0 && c.next !in c.returned
  {
    hide Ids, Upto;
    UptoOnce(c.next, c.next);
    Once(multiset(c.handed), multiset(c.refused), Ids(c.enqueued), Ids(c.sending) + Ids(c.dropped), Upto(c.next), c.next);
  }

  lemma PublishSettles(c: Client, msg: Message)
    requires PublishInv(c) && Settled(c) && Can(c, Publish(msg))
    ensures Settled(Next(c, Publish(msg)))
  {
    hide Ids, Upto, PublishInv;
    Fresh(c);
    IdsAppend(c.enqueued, Pub(c.next, msg));
  }

  lemma SendSettles(c: Client, k: nat, rc: int)
    requires PublishInv(c) && Settled(c) && Can(c, Send(k, rc)) && rc <= 0
    ensures Settled(Next(c, Send(k, rc)))
  {
    hide Ids, Upto, PublishInv, Removed, Next;
    SendFields(c, k, rc);
    SendReturns(c, k, rc);
    Unsettled(c, c.sending[k]);
  }

  lemma RecheckSettles(c: Client, k: nat)
    requires PublishInv(c) && Settled(c) && Can(c, Recheck(k))
    ensures Settled(Next(c, Recheck(k)))
  {
    hide Ids, Upto, PublishInv, Removed, Next;
    RecheckFields(c, k);
    RecheckReturns(c, k);
    Unsettled(c, c.dropped[k]);
    IdsAppend(c.enqueued, c.dropped[k]);
  }

  lemma DrainSettles(c: Client, ok: bool)
    requires Settled(c) && Can(c, DrainOne(ok))
    ensures Settled(Next(c, DrainOne(ok)))
  {
    hide Ids;
  }

  lemma SettledKept(c: Client, step: Step)
    requires PublishInv(c) && Settled(c) && Can(c, step) && Coded(step)
    ensures Settled(Next(c, step))
  {
    if step.Publish? {
      PublishSettles(c, step.msg);
    } else if step.Send? {
      SendSettles(c, step.k, step.rc);
    } else if step.Recheck? {
      RecheckSettles(c, step.k);
    } else if step.DrainOne? {
      DrainSettles(c, step.sendOk);
    } else {
      hide Ids, Next, Can;
      HistoryKept(c, step);
    }
  }

  lemma {:induction false} RunSettles(c: Client, steps: seq<Step>)
    requires PublishInv(c) && Settled(c) && Runs(c, steps) && AllCoded(steps)
    ensures Settled(After(c, steps))
    decreases |steps|
  {
    hide PublishInv, Settled, Next, Can;
    if steps != [] {
      assert Coded(steps[0]);
      SettledKept(c, steps[0]);
      PublishKept(c, steps[0]);
      RunSettles(Next(c, steps[0]), steps[1..]);
    }
  }

  // Over every run of a new client: a call returns 0 if and only if its message
  // was handed to the library; every call that enqueued its message returns 1.
  lemma ReturnsMean(steps: seq<Step>)
    requires Runs(NewClient(), steps) && AllCoded(steps)
    ensures var d := After(NewClient(), steps);
            && (forall id :: id in d.returned && d.returned[id] == 0 <==> id in d.handed)
            && (forall p :: p in d.enqueued ==> p.id in d.returned && d.returned[p.id] == 1)
  {
    NewSettled();
    NewInv();
    hide After, Runs, Ids, Settled, PublishInv;
    RunSettles(NewClient(), steps);
    var d := After(NewClient(), steps);
    SettledMeans(d);
    forall p | p in d.enqueued
      ensures p.id in d.returned && d.returned[p.id] == 1
    {
      IdsOf(d.enqueued, p);
    }
  }

  lemma NewSettled()
    ensures Settled(NewClient())
  {
  }

  lemma SettledMeans(c: Client)
    requires Settled(c)
    ensures forall id :: id in c.returned && c.returned[id] == 0 <==> id in c.handed
    ensures forall id :: Ids(c.enqueued)[id] > 0 ==> id in c.returned && c.returned[id] == 1
  {
    hide Ids;
  }

  // ---- Messages.

  // The messages of the publish calls of a run, in order.
  function Published(steps: seq<Step>): seq<Message> {
    if steps == [] then [] else (if steps[0].Publish? then [steps[0].msg] else []) + Published(steps[1..])
  }

  // Call number id carries the id-th message published.
  ghost predicate Numbered(c: Client, msgs: seq<Message>) {
    c.next == |msgs| && forall p :: p in c.sending || p in c.dropped || p in c.enqueued ==> p.id < |msgs| && msgs[p.id] == p.msg
  }

  lemma NumberedKept(c: Client, step: Step, msgs: seq<Message>)
    requires Numbered(c, msgs) && Can(c, step)
    ensures Numbered(Next(c, step), if step.Publish? then msgs + [step.msg] else msgs)
  {
    if step.Publish? {
    } else if step.Send? {
      SendFields(c, step.k, step.rc);
      hide Next, Can;
    } else if step.Recheck? {
      RecheckFields(c, step.k);
      hide Next, Can;
    } else if !step.DrainOne? {
      HistoryKept(c, step);
      hide Next, Can;
    }
  }

  lemma {:induction false} RunNumbers(c: Client, steps: seq<Step>, msgs: seq<Message>)
    requires Numbered(c, msgs) && Runs(c, steps)
    ensures Numbered(After(c, steps), msgs + Published(steps))
    decreases |steps|
  {
    hide Numbered, Next, Can;
    if steps == [] {
      assert msgs + [] == msgs;
    } else {
      NumberedKept(c, steps[0], msgs);
      var more := if steps[0].Publish? then msgs + [steps[0].msg] else msgs;
      assert more + Published(steps[1..]) == msgs + Published(steps);
      RunNumbers(Next(c, steps[0]), steps[1..], more);
    }
  }

  // What a new client queues, drains and loses are the messages its callers
  // published, each under the number of its call.
  lemma QueuedAsPublished(steps: seq<Step>)
    requires Runs(NewClient(), steps)
    ensures var d, msgs := After(NewClient(), steps), Published(steps);
            d.next == |msgs| && forall p :: p in d.enqueued ==> p.id < |msgs| && msgs[p.id] == p.msg
  {
    hide Next, Can, After, Runs;
    RunNumbers(NewClient(), steps, []);
    assert [] + Published(steps) == Published(steps);
  }

  // ---- Subscriptions.

  // The list after a run: a lost connection empties it.
  function Subscriptions(topics: seq<Entry>, steps: seq<Step>): seq<Entry>
    decreases |steps|
  {
    if steps == [] then topics
    else
      var now := match steps[0]
        case Subscribe(topic, cb, context) => Subscribed(topics, topic, cb, context)
        case ConnectionLost(_) => []
        case _ => topics;
      Subscriptions(now, steps[1..])
  }

  lemma TopicsStep(c: Client, step: Step)
    requires Can(c, step)
    ensures step.ConnectionLost? ==> Next(c, step).topics == []
    ensures step.Subscribe? ==> Next(c, step).topics == Subscribed(c.topics, step.topic, step.cb, step.context)
    ensures !step.ConnectionLost? && !step.Subscribe? ==> Next(c, step).topics == c.topics
  {
    hide Removed, Subscribed, Increased;
  }

  lemma {:induction false} RunSubscribes(c: Client, steps: seq<Step>)
    requires Runs(c, steps)
    ensures After(c, steps).topics == Subscriptions(c.topics, steps)
    decreases |steps|
  {
    hide Next, Can, Subscribed;
    if steps != [] {
      TopicsStep(c, steps[0]);
      RunSubscribes(Next(c, steps[0]), steps[1..]);
    }
  }

  // After a lost connection there is no subscription until the caller makes one.
  lemma {:induction false} LostLeavesNone(c: Client, steps: seq<Step>, k: nat)
    requires Runs(c, steps) && k < |steps| && steps[k].ConnectionLost?
    requires forall i :: k < i < |steps| ==> !steps[i].Subscribe?
    ensures After(c, steps).topics == []
    decreases |steps|
  {
    hide Next, Can;
    TopicsStep(c, steps[0]);
    var d, rest := Next(c, steps[0]), steps[1..];
    if k > 0 { LostLeavesNone(d, rest, k - 1); } else { NoneStays(d, rest); }
  }

  lemma {:induction false} NoneStays(c: Client, steps: seq<Step>)
    requires Runs(c, steps) && c.topics == [] && forall i :: 0 <= i < |steps| ==> !steps[i].Subscribe?
    ensures After(c, steps).topics == []
    decreases |steps|
  {
    hide Next, Can;
    if steps != [] {
      TopicsStep(c, steps[0]);
      NoneStays(Next(c, steps[0]), steps[1..]);
    }
  }

  // ---- What is under way.

  // A running client has failed to ask for a connection, or has been refused one.
  predicate Schedules(c: Client, step: Step) {
    match step
    case Start(_, ok) => !ok
    case Restart(ok) => !ok
    case ConnectionLost(ok) => c.running && !ok
    case RetryFires(ok) => c.running && !ok
    case ConnectFailed => c.running
    case _ => false
  }

  // It has asked for one.
  predicate Asks(c: Client, step: Step) {
    match step
    case Start(_, ok) => ok
    case Restart(ok) => ok
    case ConnectionLost(ok) => c.running && ok
    case RetryFires(ok) => c.running && ok
    case _ => false
  }

  function One(b: bool): int {
    if b then 1 else 0
  }

  // Timers, attempts and disconnects: each is there from the step that begins it
  // to the one that ends it.
  lemma UnderWay(c: Client, step: Step)
    requires Can(c, step)
    ensures var d := Next(c, step);
            && d.timers == c.timers + One(Schedules(c, step)) - One(step.RetryFires?)
            && d.attempts == c.attempts + One(Asks(c, step)) - One(step.ConnectSucceeded? || step.ConnectFailed?)
            && d.closing == c.closing + One(step.Stop? && step.disconnectOk && c.connected) - One(step.DisconnectDone?)
            && d.entering == c.entering + One(step.ConnectSucceeded?) - One(step.BeginDrain?)
  {
    if step.Start? || step.Restart? || step.ConnectionLost? || step.RetryFires? {
      AskingCounts(c, step);
    } else if step.Stop? || step.ConnectSucceeded? || step.ConnectFailed? || step.DisconnectDone? || step.BeginDrain? {
      AnswerCounts(c, step);
    } else {
      CallCounts(c, step);
    }
    hide Next, Can;
  }

  lemma AskingCounts(c: Client, step: Step)
    requires Can(c, step) && (step.Start? || step.Restart? || step.ConnectionLost? || step.RetryFires?)
    ensures var d := Next(c, step);
            && d.timers == c.timers + One(Schedules(c, step)) - One(step.RetryFires?)
            && d.attempts == c.attempts + One(Asks(c, step))
            && d.closing == c.closing && d.entering == c.entering
  {
    hide Connecting;
    if step.Start? {
      ConnectingCounts(c.(running := true, callback := step.cb), step.connectOk);
    } else if step.Restart? {
      ConnectingCounts(c.(restarts := c.restarts - 1, running := true, callback := NoCallback), step.connectOk);
    } else if step.ConnectionLost? {
      ConnectingCounts(c.(connected := false, topics := []), step.connectOk);
    } else {
      ConnectingCounts(c.(timers := c.timers - 1), step.connectOk);
    }
  }

  lemma ConnectingCounts(c: Client, ok: bool)
    ensures var d := Connecting(c, ok);
            && d.timers == c.timers + One(c.running && !ok) && d.attempts == c.attempts + One(c.running && ok)
            && d.closing == c.closing && d.entering == c.entering
  {
  }

  lemma AnswerCounts(c: Client, step: Step)
    requires Can(c, step)
    requires step.Stop? || step.ConnectSucceeded? || step.ConnectFailed? || step.DisconnectDone? || step.BeginDrain?
    ensures var d := Next(c, step);
            && d.timers == c.timers + One(step.ConnectFailed? && c.running)
            && d.attempts == c.attempts - One(step.ConnectSucceeded? || step.ConnectFailed?)
            && d.closing == c.closing + One(step.Stop? && step.disconnectOk && c.connected) - One(step.DisconnectDone?)
            && d.entering == c.entering + One(step.ConnectSucceeded?) - One(step.BeginDrain?)
  {
    hide Increased;
  }

  lemma CallCounts(c: Client, step: Step)
    requires Can(c, step)
    requires step.Publish? || step.Send? || step.Recheck? || step.Subscribe? || step.DrainOne? || step.DrainEnd?
    ensures var d := Next(c, step);
            d.timers == c.timers && d.attempts == c.attempts && d.closing == c.closing && d.entering == c.entering
  {
    hide Removed, Subscribed;
  }

  // Whether the client runs, and whether it is connected, after a run.
  function Running(now: bool, steps: seq<Step>): bool
    decreases |steps|
  {
    if steps == [] then now
    else Running(if steps[0].Start? || steps[0].Restart? then true else if steps[0].Stop? then false else now, steps[1..])
  }

  function Online(now: bool, steps: seq<Step>): bool
    decreases |steps|
  {
    if steps == [] then now
    else
      var lost := steps[0].ConnectionLost? || steps[0].DisconnectDone? || (steps[0].Send? && steps[0].rc == -3);
      Online(if steps[0].ConnectSucceeded? then true else if lost then false else now, steps[1..])
  }

  lemma FlagsStep(c: Client, step: Step)
    requires Can(c, step)
    ensures Next(c, step).running == Running(c.running, [step])
    ensures Next(c, step).connected == Online(c.connected, [step])
  {
    hide Removed, Subscribed, Increased;
    assert [step][1..] == [];
  }

  // The last step that decides is what counts.
  lemma {:induction false} RunFlags(c: Client, steps: seq<Step>)
    requires Runs(c, steps)
    ensures After(c, steps).running == Running(c.running, steps)
    ensures After(c, steps).connected == Online(c.connected, steps)
    decreases |steps|
  {
    hide Next, Can;
    if steps != [] {
      FlagsStep(c, steps[0]);
      assert [steps[0]][1..] == [];
      RunFlags(Next(c, steps[0]), steps[1..]);
    }
  }

  // ---- Delays.

  // The retries scheduled since the last successful connect, n before the run.
  function Retries(c: Client, steps: seq<Step>, n: nat): nat
    requires Runs(c, steps)
    decreases |steps|
  {
    if steps == [] then n
    else
      var d := Next(c, steps[0]);
      var now := if steps[0].ConnectSucceeded? then 0 else if Schedules(c, steps[0]) then n + 1 else n;
      Retries(d, steps[1..], now)
  }

  function Capped(n: nat): nat {
    if n < 11 then n else 11
  }

  lemma WaitStep(c: Client, step: Step, n: nat)
    requires Can(c, step) && c.wait == Capped(n)
    ensures Next(c, step).wait
            == if step.ConnectSucceeded? then 0 else if Schedules(c, step) then Capped(n + 1) else Capped(n)
  {
    WaitChanges(c, step);
    hide Next, Can, Schedules;
  }

  lemma WaitChanges(c: Client, step: Step)
    requires Can(c, step)
    ensures Next(c, step).wait
            == if step.ConnectSucceeded? then 0 else if Schedules(c, step) then Increased(c.wait) else c.wait
  {
    hide Removed, Subscribed, Increased;
  }

  // Over any run of a new client, the n-th retry in a row waits as long as entry
  // n of the table says, the last entry being kept; a successful connect starts
  // again from the front.
  lemma {:induction false} RunWaits(c: Client, steps: seq<Step>, n: nat)
    requires c.wait == Capped(n) && Runs(c, steps)
    ensures After(c, steps).wait == Capped(Retries(c, steps, n))
    decreases |steps|
  {
    hide Next, Can, Schedules, Capped;
    if steps != [] {
      WaitStep(c, steps[0], n);
      CappedNone();
      var now := if steps[0].ConnectSucceeded? then 0 else if Schedules(c, steps[0]) then n + 1 else n;
      RunWaits(Next(c, steps[0]), steps[1..], now);
    }
  }

  lemma CappedNone()
    ensures Capped(0) == 0
  {
  }

  lemma NewWaits(steps: seq<Step>)
    requires Runs(NewClient(), steps)
    ensures After(NewClient(), steps).wait == Capped(Retries(NewClient(), steps, 0))
  {
    hide Next, Can, After, Runs, Retries;
    RunWaits(NewClient(), steps, 0);
  }

  // In a row, the retries wait 1, 2, 5, 10, 20 and 30 seconds, then 1, 2, 3, 5 and
  // from then on 10 minutes.
  lemma SecondsWaited(n: nat)
    ensures Delays[Capped(n)] ==
      if n <= 2 then n else if n <= 6 then (if n == 3 then 5 else 10 * (n - 3))
      else if n <= 9 then 60 * (n - 6) else if n == 10 then 300 else 600
  {
  }

  // ---- Nobody is held up.

  // With the mutex free, publish and subscribe calls and connect callbacks can go
  // on; the other steps need no mutex.
  lemma GoesOn(c: Client)
    ensures !c.draining ==> forall msg :: Can(c, Publish(msg))
    ensures !c.draining ==> forall topic, cb, context :: Can(c, Subscribe(topic, cb, context))
    ensures !c.draining && c.entering > 0 ==> Can(c, BeginDrain)
    ensures forall k: nat, rc :: k < |c.sending| ==> Can(c, Send(k, rc))
    ensures forall k: nat :: k < |c.dropped| ==> Can(c, Recheck(k))
    ensures c.restarts > 0 ==> forall ok :: Can(c, Restart(ok))
    ensures c.timers > 0 ==> forall ok :: Can(c, RetryFires(ok))
    ensures forall cb, ok :: Can(c, Start(cb, ok))
    ensures forall ok :: Can(c, Stop(ok))
    ensures forall ok :: Can(c, ConnectionLost(ok))
    ensures c.attempts > 0 ==> Can(c, ConnectSucceeded) && Can(c, ConnectFailed)
    ensures c.closing > 0 ==> Can(c, DisconnectDone)
  {
  }

  // And the mutex is freed: a drain under way can empty the queue and end, with
  // whatever answers of the library.
  lemma {:induction false} DrainCanEnd(c: Client, ok: bool) returns (steps: seq<Step>)
    requires c.draining
    ensures Runs(c, steps) && |steps| == |c.pending| + 1
    ensures !After(c, steps).draining && After(c, steps).pending == []
    decreases |c.pending|
  {
    if c.pending == [] {
      steps := [DrainEnd];
      assert steps[1..] == [];
    } else {
      var d := Next(c, DrainOne(ok));
      assert d.draining && d.pending == c.pending[1..];
      hide Next;
      var rest := DrainCanEnd(d, ok);
      steps := [DrainOne(ok)] + rest;
      assert steps[1..] == rest;
    }
  }
}
