/** The in-memory queue object: a ring buffer per topic, offsets per group and topic, the
    channels of registered consumers, and saving and recovering all of it. */
module MemoryQueue {
  import opened Wrappers
  import opened QueueTypes
  import opened Channels
  import Protocol = DeliveryProtocol

  /** The name of a topic or of a consumer group. */
  datatype Name = Name(text: string)

  const CHANNEL_CAPACITY: nat := 10_000

  datatype ConsumerState = ConsumerState(groupID: Name, offset: nat, ch: Channel<Message>)

  /** The slot `i` places after `head` in a ring. */
  function Slot(head: nat, i: nat, capacity: nat): (k: nat)
    requires head < capacity && i < capacity
    ensures k < capacity
  {
    if head + i < capacity then head + i else head + i - capacity
  }

  lemma ModuloOnce(x: nat, capacity: nat)
    requires 0 < capacity && x < 2 * capacity
    ensures x % capacity == if x < capacity then x else x - capacity
  {
  }

  lemma SlotIsModulo(head: nat, i: nat, capacity: nat)
    requires head < capacity && i < capacity
    ensures (head + i) % capacity == Slot(head, i, capacity)
  {
    ModuloOnce(head + i, capacity);
  }

  /** The source computes every slot with a modulus. */
  function SlotAt(head: nat, i: nat, capacity: nat): (k: nat)
    requires head < capacity && i < capacity
    ensures k == Slot(head, i, capacity)
  {
    SlotIsModulo(head, i, capacity);
    (head + i) % capacity
  }

  function Distance(head: nat, tail: nat, capacity: nat): (n: nat)
    requires head < capacity && tail < capacity
    ensures n < capacity
  {
    if tail >= head then tail - head else tail + capacity - head
  }

  lemma DistanceIsModulo(head: nat, tail: nat, capacity: nat)
    requires head < capacity && tail < capacity
    ensures (tail - head + capacity) % capacity == Distance(head, tail, capacity)
  {
    ModuloOnce(tail - head + capacity, capacity);
  }

  function CountOf(head: nat, tail: nat, capacity: nat): (n: nat)
    requires head < capacity && tail < capacity
    ensures n == Distance(head, tail, capacity)
  {
    DistanceIsModulo(head, tail, capacity);
    (tail - head + capacity) % capacity
  }

  /** A ring of slots, of which those from `head` up to `tail` hold a message. */
  ghost predicate RingShape(slots: seq<Option<Message>>, head: nat, tail: nat) {
    && head < |slots| && tail < |slots|
    && forall i :: 0 <= i < Distance(head, tail, |slots|) ==> slots[Slot(head, i, |slots|)].Some?
  }

  /** The messages a ring holds, oldest first. */
  ghost function WindowOf(slots: seq<Option<Message>>, head: nat, tail: nat): (w: seq<Message>)
    requires RingShape(slots, head, tail)
    ensures |w| == Distance(head, tail, |slots|)
    ensures forall i :: 0 <= i < |w| ==> Some(w[i]) == slots[Slot(head, i, |slots|)]
  {
    seq(Distance(head, tail, |slots|), i requires 0 <= i < Distance(head, tail, |slots|) =>
      slots[Slot(head, i, |slots|)].value)
  }

  lemma RingAppend(slots: seq<Option<Message>>, head: nat, tail: nat, m: Message)
    requires |slots| >= 2 && RingShape(slots, head, tail)
    ensures var slots' := slots[tail := Some(m)];
            var tail' := Slot(tail, 1, |slots|);
            var head' := if tail' == head then Slot(head, 1, |slots|) else head;
            var grown := WindowOf(slots, head, tail) + [m];
            && RingShape(slots', head', tail')
            && WindowOf(slots', head', tail') == if |grown| < |slots| then grown else grown[1..]
  {
    var n := Distance(head, tail, |slots|);
    assert Slot(head, n, |slots|) == tail;
    if n == |slots| - 1 {
      RingAppendFull(slots, head, tail, m);
    } else {
      RingAppendFree(slots, head, tail, m);
    }
  }

  lemma RingAppendFree(slots: seq<Option<Message>>, head: nat, tail: nat, m: Message)
    requires |slots| >= 2 && RingShape(slots, head, tail) && Distance(head, tail, |slots|) < |slots| - 1
    ensures var slots', tail' := slots[tail := Some(m)], Slot(tail, 1, |slots|);
            && tail' != head && RingShape(slots', head, tail')
            && WindowOf(slots', head, tail') == WindowOf(slots, head, tail) + [m]
  {
    var slots', tail', n := slots[tail := Some(m)], Slot(tail, 1, |slots|), Distance(head, tail, |slots|);
    assert Distance(head, tail', |slots|) == n + 1;
    forall i | 0 <= i < n + 1
      ensures slots'[Slot(head, i, |slots|)] == if i < n then slots[Slot(head, i, |slots|)] else Some(m) {}
  }

  lemma RingAppendFull(slots: seq<Option<Message>>, head: nat, tail: nat, m: Message)
    requires |slots| >= 2 && RingShape(slots, head, tail) && Distance(head, tail, |slots|) == |slots| - 1
    ensures var slots', head', tail' := slots[tail := Some(m)], Slot(head, 1, |slots|), Slot(tail, 1, |slots|);
            && tail' == head && RingShape(slots', head', tail')
            && WindowOf(slots', head', tail') == (WindowOf(slots, head, tail) + [m])[1..]
  {
    var slots', head', n := slots[tail := Some(m)], Slot(head, 1, |slots|), Distance(head, tail, |slots|);
    var grown := WindowOf(slots, head, tail) + [m];
    assert Distance(head', head, |slots|) == n;
    forall i | 0 <= i < n ensures slots'[Slot(head', i, |slots|)] == Some(grown[i + 1]) {
      assert Slot(head', i, |slots|) == Slot(head, i + 1, |slots|);
    }
  }

  class TopicState {
    const capacity: nat
    const messages: array<Option<Message>>
    var nextSeq: nat
    var head: nat
    var tail: nat
    var consumers: seq<ConsumerState>
    ghost var channels: set<Channel<Message>>   // the consumers' channels

    ghost predicate Shaped()
      reads this, messages
    {
      messages.Length == capacity && RingShape(messages[..], head, tail)
    }

    /** The retained messages, oldest first. */
    ghost function Window(): seq<Message>
      requires Shaped()
      reads this, messages
    {
      WindowOf(messages[..], head, tail)
    }

    ghost function View(): TopicView
      requires Shaped()
      reads this, messages
    {
      TopicView(Window(), nextSeq)
    }

    ghost predicate Valid()
      reads this, messages
    {
      && Shaped()
      && ViewOk(View(), capacity)
      && (forall i :: 0 <= i < |consumers| ==> consumers[i].ch in channels)
      && (forall i, j :: 0 <= i < j < |consumers| ==> consumers[i].ch != consumers[j].ch)
    }

    constructor (capacity: nat)
      requires capacity >= 2
      ensures Valid() && fresh(messages) && this.capacity == capacity
      ensures View() == EMPTY_VIEW && consumers == [] && channels == {} && head == 0 && tail == 0
    {
      this.capacity := capacity;
      messages := new Option<Message>[capacity](_ => None);
      nextSeq, head, tail, consumers, channels := 0, 0, 0, [], {};
    }

    /** Stores a message in the next slot; when the ring is full the oldest one goes. */
    method Append(key: string, value: string) returns (msg: Message)
      requires Valid()
      modifies this`nextSeq, this`head, this`tail, messages
      ensures Valid()
      ensures msg == Message(old(nextSeq), key, value)
      ensures View() == Push(old(View()), capacity, key, value)
    {
      PushKeepsWindow(View(), capacity, key, value);
      msg := Message(nextSeq, key, value);
      nextSeq := nextSeq + 1;
      Write(msg);
    }

    /** Writes at the tail and moves on, over the oldest message when the ring is full. */
    method Write(msg: Message)
      requires Shaped() && capacity >= 2
      modifies this`head, this`tail, messages
      ensures Shaped()
      ensures var grown := old(Window()) + [msg]; Window() == if |grown| < capacity then grown else grown[1..]
    {
      RingAppend(messages[..], head, tail, msg);
      ghost var slots := messages[..];
      messages[tail] := Some(msg);
      tail := SlotAt(tail, 1, capacity);
      if tail == head {
        head := SlotAt(head, 1, capacity);
      }
      assert messages[..] == slots[old(tail) := Some(msg)];
    }

    /** Offers a message to every registered consumer without blocking. */
    method Offer(msg: Message)
      requires Valid()
      modifies channels
      ensures Valid()
      ensures forall i :: 0 <= i < |consumers| ==>
        var ch := consumers[i].ch; ch.buffer == WithOffer(old(ch.buffer), ch.capacity, msg)
    {
      for k := 0 to |consumers|
        invariant Valid()
        invariant forall i :: 0 <= i < k ==>
          var ch := consumers[i].ch; ch.buffer == WithOffer(old(ch.buffer), ch.capacity, msg)
        invariant forall i :: k <= i < |consumers| ==> consumers[i].ch.buffer == old(consumers[i].ch.buffer)
      {
        var ch := consumers[k].ch;
        var _ := ch.TrySend(msg);
      }
    }

    /** A message from the producer's side: stored, then offered. */
    method Take(key: string, value: string)
      requires Valid()
      modifies this`nextSeq, this`head, this`tail, messages, channels
      ensures Valid()
      ensures View() == Push(old(View()), capacity, key, value)
      ensures forall i :: 0 <= i < |consumers| ==>
        var ch := consumers[i].ch;
        ch.buffer == WithOffer(old(ch.buffer), ch.capacity, Message(old(nextSeq), key, value))
    {
      var msg := Append(key, value);
      Offer(msg);
    }

    method Register(cs: ConsumerState)
      requires Valid() && cs.ch !in channels
      modifies this`consumers, this`channels
      ensures Valid() && View() == old(View())
      ensures consumers == old(consumers) + [cs] && channels == old(channels) + {cs.ch}
    {
      consumers := consumers + [cs];
      channels := channels + {cs.ch};
    }

    /** The retained messages as a list, oldest first. */
    method Serialize() returns (msgs: seq<Message>)
      requires Valid()
      ensures msgs == Window()
    {
      if head == tail {
        return [];
      }
      var count := CountOf(head, tail, capacity);
      msgs := [];
      for i := 0 to count
        invariant msgs == Window()[..i]
      {
        var idx := SlotAt(head, i, capacity);
        if messages[idx].Some? {
          msgs := msgs + [messages[idx].value];
        }
      }
    }

    /** The retained messages at or above an offset. */
    method Replay(offset: nat) returns (msgs: seq<Message>)
      requires Valid()
      ensures msgs == ReplayList(Window(), offset)
    {
      var count := CountOf(head, tail, capacity);
      msgs := [];
      for i := 0 to count
        invariant msgs == ReplayList(Window()[..i], offset)
      {
        var idx := SlotAt(head, i, capacity);
        ReplayListExtend(Window()[..i], Window()[i], offset);
        assert Window()[..i + 1] == Window()[..i] + [Window()[i]];
        if messages[idx].Some? && messages[idx].value.seqNo >= offset {
          msgs := msgs + [messages[idx].value];
        }
      }
      assert Window()[..count] == Window();
    }

    /** Refills a new ring from a stored list. A list longer than the array is an index out of
        range; one of exactly its length leaves the tail at the head, which reads as empty. */
    method Fill(msgs: seq<Message>, nextSeq: nat) returns (fits: bool)
      requires Shaped() && head == 0 && tail == 0
      modifies this`nextSeq, this`tail, messages
      ensures fits <==> |msgs| <= capacity
      ensures fits ==> Shaped() && View() == Refilled(msgs, nextSeq, capacity)
    {
      this.nextSeq := nextSeq;
      for k := 0 to |msgs|
        invariant tail == k <= capacity && this.nextSeq == nextSeq
        invariant forall i :: 0 <= i < k ==> messages[i] == Some(msgs[i])
      {
        if tail >= capacity {
          return false;
        }
        messages[tail] := Some(msgs[k]);
        tail := tail + 1;
      }
      ModuloOnce(tail, capacity);
      tail := tail % capacity;
      assert RingShape(messages[..], 0, tail);
      assert Window() == Refilled(msgs, nextSeq, capacity).window;
      fits := true;
    }
  }

  /** What a ring of `capacity` slots stands for after it was refilled from a stored list. */
  function Refilled(msgs: seq<Message>, nextSeq: nat, capacity: nat): TopicView {
    TopicView(if |msgs| < capacity then msgs else [], nextSeq)
  }

  /** The committed offsets: the next sequence number to consume, per group and topic. A save
      holds a reference to this object, not a copy of it. */
  class OffsetTable {
    var groups: map<Name, map<Name, nat>>

    constructor (groups: map<Name, map<Name, nat>>)
      ensures this.groups == groups
    {
      this.groups := groups;
    }

    function Get(groupID: Name, topic: Name): nat
      reads this
    {
      if groupID in groups && topic in groups[groupID] then groups[groupID][topic] else 0
    }

    /** Commits `seqNo` as handled. An offset never moves back. */
    method AdvanceOffset(groupID: Name, topic: Name, seqNo: nat)
      modifies this
      ensures Get(groupID, topic) == Advance(old(Get(groupID, topic)), seqNo)
      ensures forall g, t :: g != groupID || t != topic ==> Get(g, t) == old(Get(g, t))
    {
      if groupID !in groups {
        groups := groups[groupID := map[]];
      }
      var next: nat := seqNo + 1;
      if next > Get(groupID, topic) {
        var committed: map<Name, nat> := groups[groupID];
        committed := committed[topic := next];
        groups := groups[groupID := committed];
      }
    }
  }

  datatype TopicSnapshot = TopicSnapshot(messages: seq<Message>, nextSeq: nat, tail: nat) {
    function View(): TopicView { TopicView(messages, nextSeq) }
  }

  /** What a save collects under the lock; the offsets are still the live table. */
  datatype PersistState = PersistState(topics: map<Name, TopicSnapshot>, offsets: OffsetTable)

  /** What is stored: the offsets as they are when the save is encoded. */
  datatype Encoded = Encoded(topics: map<Name, TopicSnapshot>, offsets: map<Name, map<Name, nat>>)

  method Encode(ps: PersistState) returns (e: Encoded)
    ensures e == Encoded(ps.topics, ps.offsets.groups)
  {
    e := Encoded(ps.topics, ps.offsets.groups);
  }

  datatype PartitionOffset = PartitionOffset(currentOffset: nat, endOffset: nat, lag: int)

  /** A topic rebuilt from a snapshot: no consumers, and its ring moved to slot 0. */
  ghost predicate Restored(ts: TopicState, snap: TopicSnapshot, capacity: nat)
    reads ts, ts.messages
  {
    && ts.Shaped() && ts.capacity == capacity && ts.head == 0 && ts.consumers == [] && ts.channels == {}
    && ts.View() == Refilled(snap.messages, snap.nextSeq, capacity)
  }

  method RebuildTopic(snap: TopicSnapshot, capacity: nat) returns (ts: TopicState, fits: bool)
    requires capacity >= 2
    ensures fresh(ts) && fresh(ts.messages)
    ensures fits <==> |snap.messages| <= capacity
    ensures fits ==> Restored(ts, snap, capacity)
  {
    ts := new TopicState(capacity);
    fits := ts.Fill(snap.messages, snap.nextSeq);
  }

  /** A topic is there afterwards; those that were there before are the same objects. */
  ghost predicate Grown(before: map<Name, TopicState>, topic: Name, after: map<Name, TopicState>) {
    after.Keys == before.Keys + {topic} && forall n :: n in before ==> after[n] == before[n]
  }

  class MemoryQueue {
    const defaultCapacity: nat
    var topics: map<Name, TopicState>
    var offsets: OffsetTable
    var stopped: bool
    var dirty: bool
    ghost var owner: map<object, Name>                       // the topic of each ring and array
    ghost var channelOwner: map<Channel<Message>, Name>      // the topic of each channel

    /** The objects behind one topic. */
    ghost function Parts(topic: Name): set<object>
      reads this`topics
    {
      if topic in topics then {topics[topic], topics[topic].messages} else {}
    }

    /** Topic `n` is recorded as the owner of its objects. */
    ghost predicate Owns(n: Name)
      requires n in topics
      reads this`topics, this`owner, this`channelOwner, topics[n]
    {
      && topics[n] in owner && owner[topics[n]] == n
      && topics[n].messages in owner && owner[topics[n].messages] == n
      && forall ch :: ch in topics[n].channels ==> ch in channelOwner && channelOwner[ch] == n
    }

    /** Every topic owns its objects, so that no two share one. */
    ghost predicate Apart()
      reads this`topics, this`owner, this`channelOwner, owner.Keys
    {
      forall n {:trigger Owns(n)} :: n in topics ==> topics[n] in owner && Owns(n)
    }

    /** Topic `n` is in good order. */
    ghost predicate Sound(n: Name)
      requires n in topics
      reads this`topics, topics[n], topics[n].messages
    {
      topics[n].Valid() && topics[n].capacity == defaultCapacity
    }

    ghost predicate Valid()
      reads this`topics, this`owner, this`channelOwner, owner.Keys
    {
      && defaultCapacity >= 2
      && Apart()
      && forall n {:trigger Sound(n)} :: n in topics ==> Owns(n) && Sound(n)
    }

    /** Two topics share no ring, no message array and no channel: a method that names one topic's
        objects in its frame leaves every other topic alone. */
    lemma TopicsAreApart(m: Name, n: Name)
      requires Apart() && m in topics && n in topics && m != n
      ensures topics[m] != topics[n] && topics[m].messages != topics[n].messages
      ensures topics[m].channels !! topics[n].channels
    {
      assert Owns(m) && Owns(n);
    }

    /** What happens to the offsets does not concern the topics. */
    twostate lemma OffsetsAreApart()
      requires old(Valid()) && unchanged(this)
      requires forall n :: n in topics ==> unchanged(topics[n]) && unchanged(topics[n].messages)
      ensures Valid() && forall n :: n in topics ==> TopicOk(n) && ViewOf(n) == old(ViewOf(n))
    {
      forall n | n in topics ensures Owns(n) && Sound(n) && TopicOk(n) && ViewOf(n) == old(ViewOf(n)) {
        assert old(Owns(n) && Sound(n));
      }
    }

    /** The topic, if it exists, is in good order. */
    ghost predicate TopicOk(topic: Name)
      reads this`topics, Parts(topic)
    {
      defaultCapacity >= 2 && (topic in topics ==> Sound(topic))
    }

    /** What a topic's ring stands for; a topic that does not exist yet is an empty one. */
    ghost function ViewOf(topic: Name): TopicView
      requires TopicOk(topic)
      reads this`topics, Parts(topic)
    {
      if topic in topics then topics[topic].View() else EMPTY_VIEW
    }

    /** Topic `b` has its objects of before, and nothing in them has changed: neither its ring,
        its consumers nor what their channels hold. */
    twostate predicate Untouched(b: Name)
      requires b in old(topics)
      reads this`topics, Parts(b), ChannelsOf(b)
    {
      && b in topics && topics[b] == old(topics)[b]
      && unchanged(topics[b]) && unchanged(topics[b].messages)
      && forall ch :: ch in topics[b].channels ==> unchanged(ch)
    }

    function ConsumersOf(topic: Name): seq<ConsumerState>
      reads this`topics, if topic in topics then {topics[topic]} else {}
    {
      if topic in topics then topics[topic].consumers else []
    }

    ghost function ChannelsOf(topic: Name): set<Channel<Message>>
      reads this`topics, if topic in topics then {topics[topic]} else {}
    {
      if topic in topics then topics[topic].channels else {}
    }

    constructor (defaultCapacity: nat)
      requires defaultCapacity >= 2
      ensures Valid() && fresh(offsets)
      ensures topics == map[] && offsets.groups == map[] && !stopped && !dirty
      ensures this.defaultCapacity == defaultCapacity
    {
      this.defaultCapacity := defaultCapacity;
      topics := map[];
      offsets := new OffsetTable(map[]);
      stopped, dirty := false, false;
      owner, channelOwner := map[], map[];
    }

    method Install(topic: Name, ts: TopicState)
      requires Apart() && ts !in owner && ts.messages !in owner && ts.channels == {}
      modifies this`topics, this`owner
      ensures Apart() && topics == old(topics)[topic := ts]
    {
      topics := topics[topic := ts];
      owner := owner[ts := topic][ts.messages := topic];
      forall n | n in topics ensures topics[n] in owner && Owns(n) {
        assert n != topic ==> old(Owns(n));
      }
    }

    method GetOrCreateTopic(topic: Name) returns (ts: TopicState)
      requires Valid()
      modifies this`topics, this`owner
      ensures Valid() && Grown(old(topics), topic, topics) && ts == topics[topic]
      ensures forall b :: b in old(topics) ==> Untouched(b)
      ensures ViewOf(topic) == old(ViewOf(topic))
      ensures ConsumersOf(topic) == old(ConsumersOf(topic)) && ChannelsOf(topic) == old(ChannelsOf(topic))
      ensures topic !in old(topics) ==> fresh(ts) && fresh(ts.messages)
    {
      if topic in topics {
        return topics[topic];
      }
      ts := CreateTopic(topic);
    }

    method CreateTopic(topic: Name) returns (ts: TopicState)
      requires Valid() && topic !in topics
      modifies this`topics, this`owner
      ensures Valid() && topics == old(topics)[topic := ts] && fresh(ts) && fresh(ts.messages)
      ensures Sound(topic) && ts.View() == EMPTY_VIEW && ts.consumers == [] && ts.channels == {}
    {
      ts := new TopicState(defaultCapacity);
      Install(topic, ts);
      forall n | n in topics ensures Owns(n) && Sound(n) {
        assert n != topic ==> old(Sound(n));
      }
    }

    twostate lemma UntouchedKeepsView(topic: Name)
      requires old(Valid()) && Valid() && forall b :: b in old(topics) && b != topic ==> Untouched(b)
      ensures forall b :: b in old(topics) && b != topic ==> TopicOk(b) && ViewOf(b) == old(ViewOf(b))
    {
      forall b | b in old(topics) && b != topic ensures TopicOk(b) && ViewOf(b) == old(ViewOf(b)) {
        assert Untouched(b) && Sound(b) && old(Sound(b));
      }
    }

    twostate lemma OneTopicMoved(topic: Name)
      requires old(Valid()) && topic in topics
      requires topics == old(topics) && owner == old(owner) && channelOwner == old(channelOwner)
      requires Sound(topic) && topics[topic].channels == old(topics[topic].channels)
      requires forall b :: b in topics && b != topic ==> Untouched(b)
      ensures Valid()
    {
      forall n | n in topics ensures Owns(n) && Sound(n) {
        assert old(Owns(n) && Sound(n));
        assert n != topic ==> Untouched(n);
      }
    }

    /** `value` is None when it cannot be marshalled. Otherwise, unless the queue is stopped, the
        message joins the topic's ring and is offered to each of the topic's consumers. */
    method Produce(topic: Name, key: string, value: Option<string>)
      requires Valid()
      modifies this`topics, this`owner, this`dirty, Parts(topic), ChannelsOf(topic)
      ensures Valid()
      ensures value.None? || stopped ==>
        dirty == old(dirty) && topics == old(topics) && forall b :: b in topics ==> Untouched(b)
      ensures value.Some? && !stopped ==>
        && dirty && Grown(old(topics), topic, topics)
        && ViewOf(topic) == Push(old(ViewOf(topic)), defaultCapacity, key, value.value)
        && ConsumersOf(topic) == old(ConsumersOf(topic))
      ensures value.Some? && !stopped ==> forall i :: 0 <= i < |old(ConsumersOf(topic))| ==>
        var ch := old(ConsumersOf(topic))[i].ch;
        ch.buffer == WithOffer(old(ch.buffer), ch.capacity, Message(old(ViewOf(topic)).nextSeq, key, value.value))
      ensures forall b :: b in old(topics) && b != topic ==> Untouched(b) && ViewOf(b) == old(ViewOf(b))
    {
      if value.None? || stopped {
        return;
      }
      Store(topic, key, value.value);
      UntouchedKeepsView(topic);
    }

    method Store(topic: Name, key: string, value: string)
      requires Valid()
      modifies this`topics, this`owner, this`dirty, Parts(topic), ChannelsOf(topic)
      ensures Valid() && dirty && Grown(old(topics), topic, topics)
      ensures ViewOf(topic) == Push(old(ViewOf(topic)), defaultCapacity, key, value)
      ensures ConsumersOf(topic) == old(ConsumersOf(topic))
      ensures forall i :: 0 <= i < |old(ConsumersOf(topic))| ==>
        var ch := old(ConsumersOf(topic))[i].ch;
        ch.buffer == WithOffer(old(ch.buffer), ch.capacity, Message(old(ViewOf(topic)).nextSeq, key, value))
      ensures forall b :: b in old(topics) && b != topic ==> Untouched(b)
    {
      var ts := GetOrCreateTopic(topic);
      Deliver(topic, key, value);
    }

    method Deliver(topic: Name, key: string, value: string)
      requires Valid() && topic in topics
      modifies this`dirty, Parts(topic), ChannelsOf(topic)
      ensures Valid() && dirty && topics == old(topics)
      ensures ViewOf(topic) == Push(old(ViewOf(topic)), defaultCapacity, key, value)
      ensures ConsumersOf(topic) == old(ConsumersOf(topic)) && ChannelsOf(topic) == old(ChannelsOf(topic))
      ensures forall i :: 0 <= i < |old(ConsumersOf(topic))| ==>
        var ch := old(ConsumersOf(topic))[i].ch;
        ch.buffer == WithOffer(old(ch.buffer), ch.capacity, Message(old(ViewOf(topic)).nextSeq, key, value))
      ensures forall b :: b in topics && b != topic ==> Untouched(b)
    {
      forall b | b in topics && b != topic
        ensures topics[b] != topics[topic] && topics[b].messages != topics[topic].messages
        ensures forall ch :: ch in topics[b].channels ==> ch !in topics[topic].channels
      {
        TopicsAreApart(b, topic);
      }
      assert Sound(topic);
      topics[topic].Take(key, value);
      dirty := true;
      OneTopicMoved(topic);
    }

    /** Registers a consumer: from here on the topic offers it every new message. */
    method NewConsumer(topic: Name, groupID: Name) returns (c: Consumer)
      requires Valid()
      modifies this`topics, this`owner, this`channelOwner, if topic in topics then {topics[topic]} else {}
      ensures Valid() && Grown(old(topics), topic, topics) && ViewOf(topic) == old(ViewOf(topic))
      ensures c.queue == this && c.topic == topic && c.groupID == groupID
      ensures fresh(c.ch) && c.ch.buffer == [] && c.ch.capacity == CHANNEL_CAPACITY
      ensures ConsumersOf(topic) ==
        old(ConsumersOf(topic)) + [ConsumerState(groupID, offsets.Get(groupID, topic), c.ch)]
      ensures forall b :: b in old(topics) && b != topic ==> Untouched(b) && ViewOf(b) == old(ViewOf(b))
    {
      c := Attach(topic, groupID);
      UntouchedKeepsView(topic);
    }

    method Attach(topic: Name, groupID: Name) returns (c: Consumer)
      requires Valid()
      modifies this`topics, this`owner, this`channelOwner, if topic in topics then {topics[topic]} else {}
      ensures Valid() && Grown(old(topics), topic, topics) && ViewOf(topic) == old(ViewOf(topic))
      ensures c.queue == this && c.topic == topic && c.groupID == groupID
      ensures fresh(c.ch) && c.ch.buffer == [] && c.ch.capacity == CHANNEL_CAPACITY
      ensures ConsumersOf(topic) ==
        old(ConsumersOf(topic)) + [ConsumerState(groupID, offsets.Get(groupID, topic), c.ch)]
      ensures forall b :: b in old(topics) && b != topic ==> Untouched(b)
    {
      var ts := GetOrCreateTopic(topic);
      c := new Consumer(this, topic, groupID);
      AddConsumer(topic, ConsumerState(groupID, offsets.Get(groupID, topic), c.ch));
    }

    method AddConsumer(topic: Name, cs: ConsumerState)
      requires Valid() && topic in topics && cs.ch !in channelOwner
      modifies this`channelOwner, topics[topic]
      ensures Valid() && topics == old(topics) && ViewOf(topic) == old(ViewOf(topic))
      ensures ConsumersOf(topic) == old(ConsumersOf(topic)) + [cs]
      ensures forall b :: b in topics && b != topic ==> Untouched(b)
    {
      forall b | b in topics && b != topic ensures topics[b] != topics[topic] && cs.ch !in topics[b].channels {
        TopicsAreApart(b, topic);
        assert Owns(b);
      }
      assert Sound(topic);
      topics[topic].Register(cs);
      channelOwner := channelOwner[cs.ch := topic];
      forall n | n in topics ensures Owns(n) && Sound(n) {
        assert old(Owns(n) && Sound(n));
      }
    }

    /** Collects every topic's messages; the offsets of the result are the live table itself. */
    method BuildPersistState() returns (ps: PersistState)
      requires Valid()
      ensures ps.offsets == offsets
      ensures ps.topics.Keys == topics.Keys
      ensures forall n :: n in topics ==>
        ps.topics[n].View() == ViewOf(n) && ViewOk(ps.topics[n].View(), defaultCapacity)
    {
      var snaps: map<Name, TopicSnapshot> := map[];
      var left := topics.Keys;
      while left != {}
        invariant left <= topics.Keys && snaps.Keys == topics.Keys - left
        invariant forall n :: n in snaps ==>
          snaps[n].View() == ViewOf(n) && ViewOk(snaps[n].View(), defaultCapacity)
        decreases left
      {
        var name :| name in left;
        assert Sound(name);
        var msgs := topics[name].Serialize();
        snaps := snaps[name := TopicSnapshot(msgs, topics[name].nextSeq, topics[name].tail)];
        left := left - {name};
      }
      ps := PersistState(snaps, offsets);
    }

    /** Rebuilds every stored topic and replaces the offsets, unless a stored list is longer than
        a ring. The queue is in good order again when every stored list is such a window as a save
        writes. */
    method Recover(e: Encoded) returns (ok: bool)
      requires Valid()
      modifies this`topics, this`owner, this`offsets
      ensures ok <==> forall n :: n in e.topics ==> |e.topics[n].messages| <= defaultCapacity
      ensures ok ==> topics.Keys == old(topics.Keys) + e.topics.Keys
      ensures ok ==> forall n :: n in e.topics ==> Restored(topics[n], e.topics[n], defaultCapacity)
      ensures forall n :: n in old(topics) && n !in e.topics ==> n in topics && topics[n] == old(topics)[n]
      ensures if ok then offsets.groups == e.offsets && fresh(offsets) else offsets == old(offsets)
      ensures ok && (forall n :: n in e.topics ==> ViewOk(e.topics[n].View(), defaultCapacity)) ==> Valid()
    {
      ok := RebuildTopics(e);
      if ok {
        label Rebuilt:
        offsets := new OffsetTable(e.offsets);
        forall n | n in topics ensures topics[n] in owner && Owns(n) {
          assert old@Rebuilt(Owns(n));
        }
        RebuiltIsValid(e);
      }
    }

    method RebuildTopics(e: Encoded) returns (ok: bool)
      requires Apart() && defaultCapacity >= 2
      modifies this`topics, this`owner
      ensures Apart()
      ensures ok <==> forall n :: n in e.topics ==> |e.topics[n].messages| <= defaultCapacity
      ensures ok ==> topics.Keys == old(topics.Keys) + e.topics.Keys
      ensures ok ==> forall n :: n in e.topics ==> Restored(topics[n], e.topics[n], defaultCapacity)
      ensures forall n :: n in old(topics) && n !in e.topics ==> n in topics && topics[n] == old(topics)[n]
    {
      var left := e.topics.Keys;
      ghost var done: set<Name> := {};
      while left != {}
        invariant done !! left && done + left == e.topics.Keys
        invariant topics.Keys == old(topics.Keys) + done
        invariant Apart()
        invariant forall n :: n in done ==> |e.topics[n].messages| <= defaultCapacity
        invariant forall n :: n in done ==> Restored(topics[n], e.topics[n], defaultCapacity)
        invariant forall n :: n in old(topics) && n !in done ==> topics[n] == old(topics)[n]
        decreases left
      {
        var name :| name in left;
        var ts, fits := RebuildTopic(e.topics[name], defaultCapacity);
        if !fits {
          return false;
        }
        Install(name, ts);
        left, done := left - {name}, done + {name};
      }
      ok := true;
    }

    twostate lemma RebuiltIsValid(e: Encoded)
      requires old(Valid()) && Apart() && topics.Keys == old(topics.Keys) + e.topics.Keys
      requires forall n :: n in e.topics ==> Restored(topics[n], e.topics[n], defaultCapacity)
      requires forall n :: n in old(topics) && n !in e.topics ==> topics[n] == old(topics)[n]
      requires forall n :: n in old(topics) ==> unchanged(old(topics)[n]) && unchanged(old(topics)[n].messages)
      ensures (forall n :: n in e.topics ==> ViewOk(e.topics[n].View(), defaultCapacity)) ==> Valid()
    {
      if forall n :: n in e.topics ==> ViewOk(e.topics[n].View(), defaultCapacity) {
        forall n | n in topics ensures Owns(n) && Sound(n) {
          assert n !in e.topics ==> old(Sound(n));
        }
      }
    }

    predicate HasConsumer(topic: Name, groupID: Name)
      reads this`topics, if topic in topics then {topics[topic]} else {}
    {
      exists i :: 0 <= i < |ConsumersOf(topic)| && ConsumersOf(topic)[i].groupID == groupID
    }

    /** Current offset, end offset and lag of every topic on which the group has a consumer. The
        lag is never negative, also when a torn save left the offset beyond the end. */
    method DescribeConsumerGroup(groupID: Name) returns (detail: map<Name, PartitionOffset>)
      ensures forall n :: n in detail <==> n in topics && HasConsumer(n, groupID)
      ensures forall n :: n in detail ==>
        var offset, end := offsets.Get(groupID, n), topics[n].nextSeq;
        && detail[n].currentOffset == offset && detail[n].endOffset == end
        && detail[n].lag == Max(end - offset, 0)
    {
      detail := map[];
      var left := topics.Keys;
      while left != {}
        invariant left <= topics.Keys
        invariant forall n :: n in detail <==> n in topics && n !in left && HasConsumer(n, groupID)
        invariant forall n :: n in detail ==>
          var offset, end := offsets.Get(groupID, n), topics[n].nextSeq;
          detail[n] == PartitionOffset(offset, end, Max(end - offset, 0))
        decreases left
      {
        var name :| name in left;
        var found := FindConsumer(name, groupID);
        if found {
          var offset, end := offsets.Get(groupID, name), topics[name].nextSeq;
          var lag: int := end as int - offset as int;
          detail := detail[name := PartitionOffset(offset, end, Max(lag, 0))];
        }
        left := left - {name};
      }
    }

    method FindConsumer(topic: Name, groupID: Name) returns (found: bool)
      requires topic in topics
      ensures found <==> HasConsumer(topic, groupID)
    {
      var cs := topics[topic].consumers;
      for i := 0 to |cs|
        invariant forall j :: 0 <= j < i ==> cs[j].groupID != groupID
      {
        if cs[i].groupID == groupID {
          assert ConsumersOf(topic)[i].groupID == groupID;
          return true;
        }
      }
      found := false;
    }
  }

  /** What a handler call comes to. */
  datatype Reply = Success | Permanent | Retryable

  /** The handler and its surroundings during one delivery: what the handler answers on each
      attempt, whether the context is cancelled when it returns, and whether the wait that
      follows is interrupted. */
  datatype Attempts = Attempts(reply: nat -> Reply, canceled: nat -> bool, interrupted: nat -> bool)

  class Consumer {
    const queue: MemoryQueue
    const topic: Name
    const groupID: Name
    const ch: Channel<Message>

    constructor (queue: MemoryQueue, topic: Name, groupID: Name)
      ensures this.queue == queue && this.topic == topic && this.groupID == groupID
      ensures fresh(ch) && ch.buffer == [] && ch.capacity == CHANNEL_CAPACITY
    {
      this.queue := queue;
      this.topic := topic;
      this.groupID := groupID;
      this.ch := new Channel(CHANNEL_CAPACITY);
    }

    /** The messages to replay, taken in one go under the lock. */
    method ReplaySnapshot() returns (msgs: seq<Message>)
      requires queue.TopicOk(topic)
      ensures msgs == ReplayList(queue.ViewOf(topic).window, queue.offsets.Get(groupID, topic))
    {
      if topic !in queue.topics {
        return [];
      }
      msgs := queue.topics[topic].Replay(queue.offsets.Get(groupID, topic));
    }

    /** Delivers one message: at most `maxAttempts` handler calls, none for a message that is
        already acknowledged. The delivery goes on only past attempts that failed for now, in a
        context that lives on. It stops the consumer, and leaves the offset alone, only when the
        last attempt failed and the context was cancelled, then or during the wait that followed;
        otherwise it moves the offset past the message. */
    method Process(msg: Message, a: Attempts, maxAttempts: nat) returns (keepRunning: bool, calls: nat)
      requires maxAttempts >= 1
      modifies queue.offsets
      ensures calls <= maxAttempts && (calls == 0 <==> msg.seqNo < old(queue.offsets.Get(groupID, topic)))
      ensures forall k :: 1 <= k < calls ==> a.reply(k).Retryable? && !a.canceled(k) && !a.interrupted(k)
      // what the answer of the last attempt comes to
      ensures calls > 0 && a.reply(calls).Success? ==> keepRunning
      ensures calls > 0 && a.reply(calls).Permanent? ==> keepRunning == !a.canceled(calls)
      ensures calls > 0 && a.reply(calls).Retryable? ==>
        keepRunning == (calls == maxAttempts && !a.canceled(calls))
      ensures !keepRunning ==> calls > 0 && !a.reply(calls).Success? && (a.canceled(calls) || a.interrupted(calls))
      // nobody stops the consumer: whatever the handler answers, the message is done with
      ensures (forall k :: 1 <= k <= maxAttempts ==> !a.canceled(k) && !a.interrupted(k)) ==> keepRunning
      ensures keepRunning ==>
        queue.offsets.Get(groupID, topic) == Max(old(queue.offsets.Get(groupID, topic)), msg.seqNo + 1)
      ensures !keepRunning || calls == 0 ==> queue.offsets.groups == old(queue.offsets.groups)
      ensures forall g, t :: g != groupID || t != topic ==> queue.offsets.Get(g, t) == old(queue.offsets.Get(g, t))
    {
      if msg.seqNo < queue.offsets.Get(groupID, topic) {
        return true, 0;
      }
      calls := 1;
      while true
        invariant 1 <= calls <= maxAttempts
        invariant forall k :: 1 <= k < calls ==> a.reply(k).Retryable? && !a.canceled(k) && !a.interrupted(k)
        invariant queue.offsets.groups == old(queue.offsets.groups)
        decreases maxAttempts - calls
      {
        var reply := a.reply(calls);
        if reply.Success? {
          queue.offsets.AdvanceOffset(groupID, topic, msg.seqNo);
          return true, calls;
        }
        if a.canceled(calls) {
          return false, calls;
        }
        if reply.Permanent? || calls >= maxAttempts {
          queue.offsets.AdvanceOffset(groupID, topic, msg.seqNo);
          return true, calls;
        }
        if a.interrupted(calls) {
          return false, calls;
        }
        calls := calls + 1;
      }
    }

    /** The step of the delivery protocol that a delivery is: skipping, acknowledging or refusing
        the message in front of the consumer. */
    method ProcessStep(msg: Message, a: Attempts, maxAttempts: nat, ghost s: Protocol.State)
      returns (keepRunning: bool, ghost step: Protocol.Step)
      requires maxAttempts >= 1
      requires s.con.Inbox() != [] && s.con.Inbox()[0] == msg && s.offset == queue.offsets.Get(groupID, topic)
      // the context is cancelled only by the steps that cancel it
      requires (exists k :: 1 <= k <= maxAttempts && (a.canceled(k) || a.interrupted(k))) ==> s.canceled
      modifies queue.offsets
      ensures step.Skip? || step.Ack? || step.Refuse?
      ensures keepRunning == !step.Refuse?
      ensures Protocol.Enabled(s, step)
      ensures Protocol.Apply(s, step).offset == queue.offsets.Get(groupID, topic)
    {
      var calls;
      keepRunning, calls := Process(msg, a, maxAttempts);
      step := if !keepRunning then Protocol.Refuse else if calls == 0 then Protocol.Skip else Protocol.Ack;
    }
  }

  /** Saving without interference and recovering into a new queue restores every topic's
      messages and next sequence number, and every offset. */
  method SaveAndRecover(mq: MemoryQueue) returns (e: Encoded, restored: MemoryQueue)
    requires mq.Valid()
    ensures fresh(restored) && restored.Valid() && restored.topics.Keys == old(mq.topics.Keys)
    ensures forall n :: n in old(mq.topics) ==> n in e.topics && e.topics[n].View() == old(mq.ViewOf(n))
    ensures forall n :: n in restored.topics ==> n in old(mq.topics) && restored.ViewOf(n) == old(mq.ViewOf(n))
    ensures restored.offsets.groups == old(mq.offsets.groups)
  {
    var ps := mq.BuildPersistState();
    e := Encode(ps);
    restored := new MemoryQueue(mq.defaultCapacity);
    var ok := restored.Recover(e);
  }

  /** A save whose encoding is overtaken by an acknowledgement stores the messages from before it
      with the offsets from after it: the save holds the live table, not a copy. */
  method SaveAroundAck(mq: MemoryQueue, c: Consumer, msg: Message, a: Attempts) returns (e: Encoded, acked: bool)
    requires c.queue == mq && c.topic in mq.topics && mq.Valid()
    modifies mq.offsets
    ensures mq.Valid() && c.topic in e.topics && e.topics[c.topic].View() == mq.ViewOf(c.topic)
    ensures e.offsets == mq.offsets.groups
    ensures acked && msg.seqNo >= old(mq.offsets.Get(c.groupID, c.topic)) ==>
      mq.offsets.Get(c.groupID, c.topic) == msg.seqNo + 1
  {
    var ps := mq.BuildPersistState();
    var calls;
    acked, calls := c.Process(msg, a, 1);
    mq.OffsetsAreApart();
    e := Encode(ps);
  }
}
