// src/mqtt.c: the linked list of subscriptions, and the search for the
// callback of an arriving message.
module MqttList {
  import opened Paths
  import opened MqttTopics

  datatype Callback = NoCallback | Callback(id: int)

  datatype Entry = Entry(topic: string, cb: Callback, context: int)

  // ---- The list as a sequence.

  // What mqtt_subscribe_ex does to the list: an entry with that topic gets the
  // new callback, or goes when there is none; otherwise one is added at the end.
  function Subscribed(list: seq<Entry>, topic: string, cb: Callback, context: int): seq<Entry> {
    if list == [] then [Entry(topic, cb, context)]
    else if list[0].topic == topic then
      (if cb == NoCallback then list[1..] else [Entry(topic, cb, list[0].context)] + list[1..])
    else [list[0]] + Subscribed(list[1..], topic, cb, context)
  }

  predicate Distinct(list: seq<Entry>) {
    forall i, j :: 0 <= i < j < |list| ==> list[i].topic != list[j].topic
  }

  function Find(list: seq<Entry>, topic: string): (k: nat)
    ensures k <= |list|
    ensures k < |list| ==> list[k].topic == topic
    ensures forall i :: 0 <= i < k ==> list[i].topic != topic
  {
    if list == [] || list[0].topic == topic then 0
    else
      var k := Find(list[1..], topic);
      assert forall i :: 0 <= i < k ==> list[1..][i] == list[i + 1];
      1 + k
  }

  // The list with entry k, if any, replaced by e or taken out; without, e is added.
  function Placed(list: seq<Entry>, k: nat, topic: string, cb: Callback, context: int): seq<Entry>
    requires k <= |list|
  {
    if k == |list| then list + [Entry(topic, cb, context)]
    else if cb == NoCallback then list[..k] + list[k + 1..]
    else list[k := Entry(topic, cb, list[k].context)]
  }

  lemma PlacedBelow(list: seq<Entry>, k: nat, topic: string, cb: Callback, context: int)
    requires list != [] && k <= |list| - 1
    ensures Placed(list, k + 1, topic, cb, context) == [list[0]] + Placed(list[1..], k, topic, cb, context)
  {
  }

  lemma PlacedFirst(list: seq<Entry>, topic: string, cb: Callback, context: int)
    requires list == [] || list[0].topic == topic
    ensures Placed(list, 0, topic, cb, context) == Subscribed(list, topic, cb, context)
  {
  }

  lemma {:induction false} SubscribedIs(list: seq<Entry>, topic: string, cb: Callback, context: int)
    ensures Subscribed(list, topic, cb, context) == Placed(list, Find(list, topic), topic, cb, context)
  {
    hide Placed;
    if list == [] || list[0].topic == topic {
      PlacedFirst(list, topic, cb, context);
    } else {
      SubscribedIs(list[1..], topic, cb, context);
      PlacedBelow(list, Find(list[1..], topic), topic, cb, context);
    }
  }

  // No topic is listed twice, whatever is subscribed.
  lemma SubscribedDistinct(list: seq<Entry>, topic: string, cb: Callback, context: int)
    requires Distinct(list)
    ensures Distinct(Subscribed(list, topic, cb, context))
  {
    hide Subscribed, Find;
    SubscribedIs(list, topic, cb, context);
    var k, after := Find(list, topic), Subscribed(list, topic, cb, context);
    forall i, j | 0 <= i < j < |after|
      ensures after[i].topic != after[j].topic
    {
      if k < |list| && cb == NoCallback {
        assert after[i] == list[if i < k then i else i + 1] && after[j] == list[if j < k then j else j + 1];
      } else {
        assert i < |list| && after[i].topic == list[i].topic;
      }
    }
  }

  // Afterwards the topic is answered by the new callback, in the context given
  // when it was first listed;
  lemma SubscribedAnswers(list: seq<Entry>, topic: string, cb: Callback, context: int)
    requires Distinct(list)
    ensures var after := Subscribed(list, topic, cb, context);
            var k, n := Find(list, topic), Find(after, topic);
            if k == |list| then n < |after| && after[n] == Entry(topic, cb, context)
            else if cb == NoCallback then n == |after|
            else n < |after| && after[n] == Entry(topic, cb, list[k].context)
  {
    hide Subscribed;
    SubscribedIs(list, topic, cb, context);
    SubscribedDistinct(list, topic, cb, context);
    var after := Subscribed(list, topic, cb, context);
    var k := Find(list, topic);
    if k == |list| {
      assert after[|list|] == Entry(topic, cb, context);
    } else if cb != NoCallback {
      assert after[k] == Entry(topic, cb, list[k].context);
    }
  }

  // every other topic is answered as before.
  lemma SubscribedOthers(list: seq<Entry>, topic: string, cb: Callback, context: int, e: Entry)
    requires Distinct(list) && e.topic != topic
    ensures e in Subscribed(list, topic, cb, context) <==> e in list
  {
    hide Subscribed;
    SubscribedIs(list, topic, cb, context);
    var after, k := Subscribed(list, topic, cb, context), Find(list, topic);
    if e in list {
      var m :| 0 <= m < |list| && list[m] == e;
      assert m != k;
      var at := if k < |list| && cb == NoCallback && m > k then m - 1 else m;
      assert after[at] == e;
    }
  }

  // An entry without a callback appears exactly when a topic not listed is
  // unsubscribed; a message for it would call a null pointer.
  lemma NullCallback(list: seq<Entry>, topic: string, cb: Callback, context: int)
    requires Distinct(list) && forall i :: 0 <= i < |list| ==> list[i].cb != NoCallback
    ensures var after := Subscribed(list, topic, cb, context);
            (exists i :: 0 <= i < |after| && after[i].cb == NoCallback) <==> cb == NoCallback && Find(list, topic) == |list|
  {
    SubscribedIs(list, topic, cb, context);
    var after := Subscribed(list, topic, cb, context);
    if Find(list, topic) == |list| { assert after[|list|].cb == cb; }
  }

  // ---- The list as linked items.

  class TopicItem {
    const topic: string
    const sections: seq<Section>
    const context: int
    var cb: Callback
    var next: TopicItem?

    constructor (topic: string, cb: Callback, context: int)
      ensures this.topic == topic && this.cb == cb && this.context == context && next == null
      ensures Cuts(topic, sections, Levels(topic))
    {
      var cut := Split(topic, |topic|);
      assert topic[..|topic|] == topic;
      this.topic := topic;
      this.sections := cut[..];
      this.cb := cb;
      this.context := context;
      this.next := null;
    }

    ghost predicate Sound() {
      Cuts(topic, sections, Levels(topic))
    }

    ghost function View(): Entry
      reads this
    {
      Entry(topic, cb, context)
    }
  }

  ghost function Views(items: seq<TopicItem>): (v: seq<Entry>)
    reads items
    ensures |v| == |items|
  {
    seq(|items|, i requires 0 <= i < |items| reads items => items[i].View())
  }

  ghost predicate Chained(items: seq<TopicItem>)
    reads items
  {
    forall i {:trigger Follower(items, i)} :: 0 <= i < |items| ==> items[i].Sound() && items[i].next == Follower(items, i)
  }

  ghost function Follower(items: seq<TopicItem>, i: nat): TopicItem? {
    Link(items, i + 1)
  }

  lemma ChainedAt(items: seq<TopicItem>, i: nat)
    requires Chained(items) && i < |items|
    ensures items[i].Sound() && items[i].next == Follower(items, i)
  {
  }

  ghost predicate NoneTwice(items: seq<TopicItem>) {
    forall i, j :: 0 <= i < j < |items| ==> items[i] != items[j]
  }

  lemma OnlyAt(items: seq<TopicItem>, k: nat)
    requires NoneTwice(items) && k < |items|
    ensures forall i :: 0 <= i < |items| && i != k ==> items[i] != items[k]
  {
  }

  function Without(items: seq<TopicItem>, k: nat): (rest: seq<TopicItem>)
    requires k < |items|
    ensures |rest| == |items| - 1
    ensures forall i :: 0 <= i < |rest| ==> rest[i] == items[if i < k then i else i + 1]
  {
    items[..k] + items[k + 1..]
  }

  lemma WithoutTwice(items: seq<TopicItem>, k: nat)
    requires NoneTwice(items) && k < |items|
    ensures NoneTwice(Without(items, k))
  {
    hide Without;
  }

  lemma OneMore(items: seq<TopicItem>, item: TopicItem)
    requires NoneTwice(items) && item !in items
    ensures NoneTwice(items + [item])
  {
  }

  class TopicList {
    var topicList: TopicItem?
    ghost var items: seq<TopicItem>

    ghost predicate Valid()
      reads this, items
    {
      && topicList == Link(items, 0)
      && Chained(items)
      && NoneTwice(items)
    }

    ghost function View(): (v: seq<Entry>)
      reads this, items
    {
      Views(items)
    }

    constructor ()
      ensures Valid() && View() == [] && items == []
    {
      topicList := null;
      items := [];
    }

    // connlost deletes the items one by one.
    method Clear()
      requires Valid()
      modifies this
      ensures Valid() && View() == []
    {
      while topicList != null
        invariant Valid()
        decreases |items|
      {
        RemoveFirst();
      }
    }

    // Item k matches and none before it does.
    ghost predicate FirstMatch(items: seq<TopicItem>, k: nat, levels: seq<string>)
      requires k < |items|
    {
      && Matched(Levels(items[k].topic), levels)
      && forall i :: 0 <= i < k ==> !Matched(Levels(items[i].topic), levels)
    }

    // The list part of mqtt_subscribe_ex.
    method Subscribe(topic: string, cb: Callback, context: int)
      requires Valid()
      modifies this, items
      ensures Valid()
      ensures View() == Subscribed(old(View()), topic, cb, context)
    {
      hide Subscribed, Cuts;
      ghost var before := View();
      SubscribedIs(before, topic, cb, context);
      if topicList == null {
        var item := new TopicItem(topic, cb, context);
        topicList := item;
        items := [item];
        assert Follower(items, 0) == null && item.Sound();
        assert Chained(items);
        assert before == [];
      } else if topicList.topic == topic {
        FoundAt(before, topic, 0);
        if cb == NoCallback {
          RemoveFirst();
          assert View() == before[..0] + before[1..];
        } else {
          SetCallback(topicList, 0, cb);
        }
      } else {
        SubscribeAfter(topic, cb, context);
      }
    }

    // The same, the first item being about another topic.
    method SubscribeAfter(topic: string, cb: Callback, context: int)
      requires Valid() && topicList != null && topicList.topic != topic
      modifies this, items
      ensures Valid()
      ensures View() == Subscribed(old(View()), topic, cb, context)
    {
      hide Subscribed, Cuts, NoneTwice, Without, Find;
      ghost var before := View();
      SubscribedIs(before, topic, cb, context);
      ghost var k: nat;
      var temp;
      temp, k := LastBefore(topic);
      FoundAt(before, topic, k + 1);
      if temp.next != null {
        ChainedAt(items, k);
        if cb == NoCallback {
          RemoveAfter(temp, k);
          assert View() == before[..k + 1] + before[k + 2..];
        } else {
          SetCallback(temp.next, k + 1, cb);
        }
      } else {
        Append(temp, topic, cb, context);
        assert View() == before + [Entry(topic, cb, context)];
      }
    }

    // The item after which the topic is, or should be added.
    method LastBefore(topic: string) returns (temp: TopicItem, ghost k: nat)
      requires Valid() && topicList != null && topicList.topic != topic
      ensures k < |items| && temp == items[k] && temp.next == Link(items, k + 1)
      ensures forall i :: 0 <= i <= k ==> items[i].topic != topic
      ensures temp.next != null ==> temp.next.topic == topic
    {
      hide Cuts, NoneTwice;
      temp := topicList;
      k := 0;
      ChainedAt(items, 0);
      while temp.next != null && temp.next.topic != topic
        invariant k < |items| && temp == items[k] && temp.next == Link(items, k + 1)
        invariant forall i :: 0 <= i <= k ==> items[i].topic != topic
        decreases |items| - k
      {
        temp := temp.next;
        k := k + 1;
        ChainedAt(items, k);
      }
    }

    lemma FoundAt(list: seq<Entry>, topic: string, k: nat)
      requires k <= |list| && forall i :: 0 <= i < k ==> list[i].topic != topic
      requires k < |list| ==> list[k].topic == topic
      ensures Find(list, topic) == k
    {
    }

    method RemoveFirst()
      requires Valid() && topicList != null
      modifies this
      ensures Valid() && items == Without(old(items), 0)
    {
      hide NoneTwice, Without;
      WithoutTwice(items, 0);
      ghost var was, rest := items, Without(items, 0);
      assert topicList.next == Follower(was, 0);
      topicList := topicList.next;
      items := rest;
      forall i | 0 <= i < |rest|
        ensures rest[i].Sound() && rest[i].next == Follower(rest, i)
      {
        assert rest[i] == was[i + 1] && was[i + 1].next == Follower(was, i + 1);
      }
    }

    method RemoveAfter(temp: TopicItem, ghost k: nat)
      requires Valid() && k + 1 < |items| && temp == items[k]
      modifies this, temp
      ensures Valid() && items == Without(old(items), k + 1)
      ensures temp.cb == old(temp.cb)
    {
      hide Cuts, NoneTwice, Without;
      OnlyAt(items, k);
      WithoutTwice(items, k + 1);
      ghost var was, rest := items, Without(items, k + 1);
      assert temp.next == Follower(was, k) == was[k + 1] && temp.next.next == Follower(was, k + 1);
      assert forall i {:trigger rest[i]} :: 0 <= i < |rest| && i != k ==>
        was[if i < k + 1 then i else i + 1].next == Follower(was, if i < k + 1 then i else i + 1);
      temp.next := temp.next.next;
      items := rest;
      forall i | 0 <= i < |rest|
        ensures rest[i].Sound() && rest[i].next == Follower(rest, i)
      {
        assert rest[i] == was[if i < k + 1 then i else i + 1];
      }
    }

    method Append(temp: TopicItem, topic: string, cb: Callback, context: int)
      requires Valid() && |items| > 0 && temp == items[|items| - 1]
      modifies this, temp
      ensures Valid() && |items| == |old(items)| + 1 && items[..|old(items)|] == old(items)
      ensures items[|old(items)|].View() == Entry(topic, cb, context)
      ensures temp.cb == old(temp.cb)
    {
      hide NoneTwice;
      OnlyAt(items, |items| - 1);
      var item := new TopicItem(topic, cb, context);
      OneMore(items, item);
      ghost var was, longer := items, items + [item];
      temp.next := item;
      items := longer;
      forall i | 0 <= i < |longer|
        ensures longer[i].Sound() && longer[i].next == Follower(longer, i)
      {
        if i < |was| {
          assert longer[i] == was[i] && Follower(was, i) == old(was[i].next) && was[i].Sound();
        }
      }
    }

    method SetCallback(temp: TopicItem, ghost k: nat, cb: Callback)
      requires Valid() && k < |items| && temp == items[k]
      modifies temp
      ensures Valid() && View() == old(View())[k := Entry(temp.topic, cb, temp.context)]
    {
      hide Cuts;
      ghost var before, was := View(), items;
      temp.cb := cb;
      forall i | 0 <= i < |was|
        ensures was[i].Sound() && was[i].next == Follower(was, i)
      {
        assert Follower(was, i) == old(was[i].next) && was[i].Sound();
      }
      assert View() == before[k := Entry(temp.topic, cb, temp.context)];
    }

    // messageArrived: the first item that matches, if any.
    method Arrived(name: string, length: nat) returns (found: TopicItem?)
      requires Valid() && length <= |name|
      ensures var levels := Levels(name[..length]);
              if found == null then forall i :: 0 <= i < |items| ==> !Matched(Levels(items[i].topic), levels)
              else exists k :: 0 <= k < |items| && found == items[k] && FirstMatch(items, k, levels)
    {
      hide Levels, Matched;
      var cut := Split(name, length);
      var sections := cut[..];
      ghost var levels := Levels(name[..length]);
      var temp := topicList;
      ghost var k := 0;
      while temp != null
        invariant k <= |items| && temp == Link(items, k)
        invariant forall i :: 0 <= i < k ==> !Matched(Levels(items[i].topic), levels)
        decreases |items| - k
      {
        assert temp.next == Follower(items, k);
        var hit := MatchItem(temp, name, sections, levels);
        if hit {
          return temp;
        }
        temp := temp.next;
        k := k + 1;
      }
      return null;
    }

    // The test of one item, by its sections.
    method MatchItem(item: TopicItem, name: string, sections: seq<Section>, ghost levels: seq<string>) returns (hit: bool)
      requires item.Sound() && Cuts(name, sections, levels)
      ensures hit == Matched(Levels(item.topic), levels)
    {
      ghost var filter := Levels(item.topic);
      hide Levels;
      var n := |item.sections|;
      if n > |sections| {
        return false;
      }
      if Text(item.topic, item.sections[n - 1]) == "#" {
        hit := Prefix(item, name, sections, n - 1, levels);
      } else if n < |sections| {
        hit := false;
      } else {
        hit := Prefix(item, name, sections, n, levels);
      }
    }

    method Prefix(item: TopicItem, name: string, sections: seq<Section>, n: nat, ghost levels: seq<string>) returns (hit: bool)
      requires item.Sound() && Cuts(name, sections, levels)
      requires n <= |item.sections| && n <= |sections|
      ensures hit <==> forall i :: 0 <= i < n ==> LevelMatches(Levels(item.topic)[i], levels[i])
    {
      hide Levels;
      for i := 0 to n
        invariant forall j :: 0 <= j < i ==> LevelMatches(Levels(item.topic)[j], levels[j])
      {
        if Text(item.topic, item.sections[i]) == "+" {
        } else if Text(item.topic, item.sections[i]) == Text(name, sections[i]) {
        } else {
          assert !LevelMatches(Levels(item.topic)[i], levels[i]);
          return false;
        }
      }
      return true;
    }
  }

  ghost function Link(items: seq<TopicItem>, k: nat): TopicItem? {
    if k < |items| then items[k] else null
  }
}
