/**
 Delivery of one topic to one consumer group as a protocol over all interleavings: producers,
 a consumer that is registered, replays the ring and then drains its live channel, cancellation,
 crashes, restarts, a two-part state save and recovery from what was saved.

 There is at most one live consumer of the group on the topic, and recovery happens before any
 consumer is registered.
 */
module DeliveryProtocol {
  import opened Wrappers
  import opened QueueTypes
  import opened Channels

  /** Where the consumer of the group stands. A registered consumer already receives live
      messages in its channel; `pending` is the part of the replay not yet processed. */
  datatype Phase = Absent | Registered | Replaying(pending: seq<Message>) | Live | Ended

  /** A replay left before its end: the first message it did not acknowledge, and the first
      message the live channel can still make it acknowledge. */
  datatype Cut = Cut(first: nat, resume: nat)

  datatype Saved = Saved(view: TopicView, offset: nat)

  /** The group's current consumer, with the history of what it did. */
  datatype Consumer = Consumer(
    phase: Phase,
    chan: seq<Message>,
    registeredAt: nat,            // the next sequence number when it registered
    start: nat,                   // where its replay begins
    replayEnd: nat,               // the next sequence number when its replay was collected
    acked: seq<nat>,
    dropped: set<nat>,            // live messages that found its channel full
    cut: Option<Cut>)
  {
    predicate Consuming() { phase.Registered? || phase.Replaying? || phase.Live? }

    /** The messages the consumer goroutine has in front of it. */
    function Inbox(): seq<Message> {
      if phase.Replaying? then phase.pending else if phase.Live? then chan else []
    }

    /** It is done with the first message in front of it. */
    function Consume(): Consumer
      requires Inbox() != []
    {
      if phase.Replaying? then this.(phase := Replaying(phase.pending[1..])) else this.(chan := chan[1..])
    }

    /** The replay loop is left; what is still pending is abandoned. */
    function EnterLive(offset: nat): Consumer
      requires phase.Replaying?
    {
      this.(phase := Live,
            cut := if phase.pending == [] then None
                   else Some(Cut(phase.pending[0].seqNo, Max(registeredAt, offset))))
    }

    /** A producer offers a message to the channel without blocking. */
    function Offer(msg: Message, chanCap: nat): Consumer {
      if !Consuming() then this
      else this.(chan := WithOffer(chan, chanCap, msg),
                 dropped := if |chan| < chanCap then dropped else dropped + {msg.seqNo})
    }

    /** The replay reaches number `q` before it is left. */
    predicate ByReplay(q: nat) {
      start <= q < if cut.Some? then cut.value.first else replayEnd
    }

    /** From this number on the live channel is what brings messages. */
    function LiveFrom(): nat { if cut.Some? then cut.value.resume else replayEnd }

    predicate ByChannel(q: nat) { LiveFrom() <= q && q !in dropped }
  }

  const NO_CONSUMER := Consumer(Absent, [], 0, 0, 0, [], {}, None)

  datatype State = State(
    capacity: nat,
    chanCap: nat,
    view: TopicView,
    offset: nat,
    con: Consumer,
    canceled: bool,
    draft: Option<TopicView>,     // messages of a save whose offsets are not encoded yet
    saved: Option<Saved>,
    ackLog: seq<nat>,             // what the group acknowledged since the last recovery
    recovered: nat,               // the offset that recovery found
    torn: bool)                   // some recovery found an offset beyond the next sequence number

  datatype Step =
    | Produce(key: string, value: string)
    | Register
    | BeginReplay
    | Skip          // the next message is already acknowledged
    | Ack           // handled, failed for good, or discarded as poison
    | Refuse        // the handler failed and the context is cancelled
    | Cancel
    | LeaveReplay
    | Die           // the goroutine returns or panics
    | SaveMessages  // the messages of a save are collected under the lock
    | SaveOffsets   // its offsets are read when the state is encoded, and the state is stored
    | Restart       // a new process recovers from what was stored

  function Init(capacity: nat, chanCap: nat): State {
    State(capacity, chanCap, EMPTY_VIEW, 0, NO_CONSUMER, false, None, None, [], 0, false)
  }

  predicate Enabled(s: State, step: Step) {
    match step
    case Produce(_, _) => s.capacity >= 2
    case Register => s.con.phase.Absent? || s.con.phase.Ended?
    case BeginReplay => s.con.phase.Registered?
    case Skip => s.con.Inbox() != [] && s.con.Inbox()[0].seqNo < s.offset
    case Ack => s.con.Inbox() != [] && s.con.Inbox()[0].seqNo >= s.offset
    case Refuse => s.con.Inbox() != [] && s.con.Inbox()[0].seqNo >= s.offset && s.canceled
    case Cancel => s.con.Consuming()
    case LeaveReplay => s.con.phase.Replaying? && (s.con.phase.pending == [] || s.canceled)
    case Die => s.con.Consuming()
    case SaveMessages => true
    case SaveOffsets => s.draft.Some?
    case Restart => true
  }

  function Apply(s: State, step: Step): State
    requires Enabled(s, step)
  {
    match step
    case Produce(key, value) =>
      s.(view := Push(s.view, s.capacity, key, value),
         con := s.con.Offer(Message(s.view.nextSeq, key, value), s.chanCap))
    case Register =>
      s.(con := NO_CONSUMER.(phase := Registered, registeredAt := s.view.nextSeq,
                             start := s.offset, replayEnd := s.view.nextSeq),
         canceled := false)
    case BeginReplay =>
      s.(con := s.con.(phase := Replaying(ReplayList(s.view.window, s.offset)),
                       start := Max(Max(0, s.view.Oldest()), s.offset), replayEnd := s.view.nextSeq))
    case Skip => s.(con := s.con.Consume())
    case Ack =>
      var seqNo := s.con.Inbox()[0].seqNo;
      s.(con := s.con.Consume().(acked := s.con.acked + [seqNo]),
         offset := Advance(s.offset, seqNo),
         ackLog := s.ackLog + [seqNo])
    case Refuse =>
      s.(con := if s.con.phase.Replaying? then s.con.EnterLive(s.offset) else s.con.(phase := Ended))
    case Cancel => s.(canceled := true)
    case LeaveReplay => s.(con := s.con.EnterLive(s.offset))
    case Die => s.(con := s.con.(phase := Ended))
    case SaveMessages => s.(draft := Some(s.view))
    case SaveOffsets => s.(saved := Some(Saved(s.draft.value, s.offset)), draft := None)
    case Restart =>
      var found := if s.saved.Some? then s.saved.value else Saved(EMPTY_VIEW, 0);
      State(s.capacity, s.chanCap, found.view, found.offset, NO_CONSUMER, false, None, s.saved, [], found.offset,
            s.torn || found.offset > found.view.nextSeq)
  }

  ghost predicate Run(s: State, steps: seq<Step>, t: State)
    decreases |steps|
  {
    if steps == [] then s == t
    else Enabled(s, steps[0]) && Run(Apply(s, steps[0]), steps[1..], t)
  }

  ghost predicate Increasing(a: seq<nat>) {
    forall i, j :: 0 <= i < j < |a| ==> a[i] < a[j]
  }

  /** The numbers from, ..., from + n - 1. */
  function Interval(from: nat, n: nat): (r: seq<nat>)
    ensures |r| == n && forall i :: 0 <= i < n ==> r[i] == from + i
  {
    seq(n, i requires 0 <= i < n => from + i)
  }

  // ---------- order: in every run, whatever overflows ----------

  ghost predicate InOrder(s: State) {
    && s.recovered <= s.offset
    && Increasing(s.ackLog) && (forall i :: 0 <= i < |s.ackLog| ==> s.recovered <= s.ackLog[i] < s.offset)
    && Increasing(s.con.acked) && (forall i :: 0 <= i < |s.con.acked| ==> s.con.acked[i] < s.offset)
    && (s.con.acked != [] ==> s.con.acked[|s.con.acked| - 1] + 1 == s.offset)
  }

  lemma AckKeepsOrder(s: State)
    requires InOrder(s) && Enabled(s, Ack)
    ensures InOrder(Apply(s, Ack))
  {
  }

  lemma StepKeepsOrder(s: State, step: Step)
    requires InOrder(s) && Enabled(s, step)
    ensures InOrder(Apply(s, step))
  {
    if step.Ack? {
      AckKeepsOrder(s);
    }
  }

  /** Main result: between two recoveries, through any number of consumers, overflows and
      cancellations, the group acknowledges sequence numbers in strictly increasing order, so
      none is acknowledged twice; after a crash it acknowledges none below the offset that was
      saved, so only what the save had not seen yet is repeated. */
  lemma {:induction false} AcknowledgementsIncrease(s: State, steps: seq<Step>, t: State)
    requires InOrder(s) && Run(s, steps, t)
    ensures InOrder(t)
    decreases |steps|
  {
    if steps != [] {
      StepKeepsOrder(s, steps[0]);
      AcknowledgementsIncrease(Apply(s, steps[0]), steps[1..], t);
    }
  }

  // ---------- the ring, the offset and what was saved ----------

  ghost predicate RingOk(s: State) {
    && s.chanCap >= 1
    && ViewOk(s.view, s.capacity)
    && (s.draft.Some? ==> ViewOk(s.draft.value, s.capacity))
    && (s.saved.Some? ==> ViewOk(s.saved.value.view, s.capacity))
  }

  lemma StepKeepsRing(s: State, step: Step)
    requires RingOk(s) && Enabled(s, step)
    ensures RingOk(Apply(s, step))
  {
    if step.Produce? {
      PushKeepsWindow(s.view, s.capacity, step.key, step.value);
    }
  }

  // ---------- what one consumer acknowledges ----------

  /** The numbers acknowledged are those below the offset that the replay or the channel brought. */
  ghost predicate AckedExactly(c: Consumer, offset: nat) {
    && (forall q: nat :: q in c.acked <==> q < offset && (c.ByReplay(q) || c.ByChannel(q)))
    && (c.acked == [] ==> offset <= c.start)
  }

  ghost predicate InChan(c: Consumer, q: nat) {
    exists i :: 0 <= i < |c.chan| && c.chan[i].seqNo == q
  }

  /** The channel: in order, without what was dropped, and complete but for what was consumed. */
  ghost predicate ChanOk(c: Consumer, nextSeq: nat, offset: nat) {
    && c.registeredAt <= nextSeq
    && (forall q :: q in c.dropped ==> q < nextSeq)
    && (forall i, j :: 0 <= i < j < |c.chan| ==> c.chan[i].seqNo < c.chan[j].seqNo)
    && (forall i :: 0 <= i < |c.chan| ==>
          c.registeredAt <= c.chan[i].seqNo < nextSeq && c.chan[i].seqNo !in c.dropped)
    && (forall q: nat :: c.registeredAt <= q < nextSeq && q !in c.dropped ==>
          InChan(c, q) || (c.phase.Live? && q < offset))
  }

  ghost predicate ReplayingOk(c: Consumer, nextSeq: nat, offset: nat)
    requires c.phase.Replaying?
  {
    var want := c.start + |c.acked|;
    && c.cut.None?
    && Consecutive(c.phase.pending, want)
    && want + |c.phase.pending| == c.replayEnd
    && c.registeredAt <= c.replayEnd <= nextSeq
    && offset <= want
    && (c.acked != [] || c.phase.pending == [] ==> offset == want)
  }

  ghost predicate LiveOk(c: Consumer, offset: nat) {
    && c.registeredAt <= c.LiveFrom()
    && (c.cut.None? ==> c.replayEnd <= offset)
    && (c.cut.Some? ==>
          && c.cut.value.resume <= Max(c.registeredAt, offset)
          && (c.start == c.cut.value.first || c.cut.value.first <= offset))
  }

  ghost predicate LifeOk(c: Consumer, nextSeq: nat, offset: nat) {
    && (c.Consuming() ==> ChanOk(c, nextSeq, offset))
    && (c.phase.Registered? ==>
          c.acked == [] && c.cut.None? && c.start == offset && c.replayEnd == c.registeredAt && offset <= c.replayEnd)
    && (c.phase.Replaying? ==> ReplayingOk(c, nextSeq, offset))
    && (c.phase.Live? ==> LiveOk(c, offset))
    && (!c.phase.Absent? ==>
          AckedExactly(c, offset) && c.start <= if c.cut.Some? then c.cut.value.first else c.replayEnd)
  }

  /** Only produced messages are in flight. */
  ghost predicate Known(c: Consumer, nextSeq: nat) {
    && (forall m :: m in c.chan ==> m.seqNo < nextSeq)
    && (c.phase.Replaying? ==> forall m :: m in c.phase.pending ==> m.seqNo < nextSeq)
  }

  ghost predicate Sound(s: State) {
    && RingOk(s)
    && Known(s.con, s.view.nextSeq)
    && (!s.torn ==> s.offset <= s.view.nextSeq && LifeOk(s.con, s.view.nextSeq, s.offset))
  }

  lemma RoomKeepsChan(c: Consumer, nextSeq: nat, offset: nat, m: Message)
    requires ChanOk(c, nextSeq, offset) && m.seqNo == nextSeq
    ensures ChanOk(c.(chan := c.chan + [m]), nextSeq + 1, offset)
  {
    var d := c.(chan := c.chan + [m]);
    assert d.chan[|c.chan|] == m;
    forall q: nat | c.registeredAt <= q < nextSeq && q !in d.dropped
      ensures InChan(d, q) || (d.phase.Live? && q < offset)
    {
      if InChan(c, q) {
        var i :| 0 <= i < |c.chan| && c.chan[i].seqNo == q;
        assert d.chan[i] == c.chan[i];
      }
    }
  }

  lemma DropKeepsChan(c: Consumer, nextSeq: nat, offset: nat)
    requires ChanOk(c, nextSeq, offset)
    ensures ChanOk(c.(dropped := c.dropped + {nextSeq}), nextSeq + 1, offset)
  {
    var d := c.(dropped := c.dropped + {nextSeq});
    forall q: nat ensures InChan(d, q) == InChan(c, q) {
    }
  }

  lemma OfferKeepsLife(c: Consumer, nextSeq: nat, offset: nat, m: Message, chanCap: nat)
    requires LifeOk(c, nextSeq, offset) && m.seqNo == nextSeq && offset <= nextSeq
    ensures LifeOk(c.Offer(m, chanCap), nextSeq + 1, offset)
  {
    if c.Consuming() {
      if |c.chan| < chanCap {
        RoomKeepsChan(c, nextSeq, offset, m);
      } else {
        DropKeepsChan(c, nextSeq, offset);
      }
    }
  }

  lemma RegisterKeepsSound(s: State)
    requires Sound(s) && Enabled(s, Register)
    ensures Sound(Apply(s, Register))
  {
  }

  lemma BeginReplayKeepsSound(s: State)
    requires Sound(s) && s.con.phase.Registered?
    ensures Sound(Apply(s, BeginReplay))
  {
    ReplayIsSuffix(s.view.window, s.view.Oldest(), s.offset);
    StepKeepsRing(s, BeginReplay);
    StepKeepsKnown(s, BeginReplay);
    if !s.torn {
      BeginReplayKeepsLife(s);
    }
  }

  lemma BeginReplayKeepsLife(s: State)
    requires RingOk(s) && s.con.phase.Registered? && s.offset <= s.view.nextSeq
    requires LifeOk(s.con, s.view.nextSeq, s.offset)
    ensures var t := Apply(s, BeginReplay); LifeOk(t.con, t.view.nextSeq, t.offset)
  {
    var d := Apply(s, BeginReplay).con;
    ReplayIsSuffix(s.view.window, s.view.Oldest(), s.offset);
    assert ReplayingOk(d, s.view.nextSeq, s.offset);
    forall q: nat ensures InChan(d, q) == InChan(s.con, q) {
    }
  }

  /** Taking the first message from the channel keeps it, when the offset has passed that message. */
  lemma ConsumeKeepsChan(c: Consumer, nextSeq: nat, offset: nat, offset': nat)
    requires ChanOk(c, nextSeq, offset) && c.phase.Live? && c.chan != []
    requires offset <= offset' && c.chan[0].seqNo < offset'
    ensures ChanOk(c.(chan := c.chan[1..]), nextSeq, offset')
  {
    var d := c.(chan := c.chan[1..]);
    forall q: nat | c.registeredAt <= q < nextSeq && q !in d.dropped
      ensures InChan(d, q) || (d.phase.Live? && q < offset')
    {
      if q >= offset' {
        var i :| 0 <= i < |c.chan| && c.chan[i].seqNo == q;
        assert d.chan[i - 1] == c.chan[i];
      }
    }
  }

  lemma SkipKeepsLife(c: Consumer, nextSeq: nat, offset: nat)
    requires LifeOk(c, nextSeq, offset) && c.Inbox() != [] && c.Inbox()[0].seqNo < offset
    ensures LifeOk(c.Consume(), nextSeq, offset)
  {
    if c.phase.Live? {
      ConsumeKeepsChan(c, nextSeq, offset, offset);
    }
  }

  /** A consumer that acknowledges the first message in front of it. */
  function Acked(c: Consumer): Consumer
    requires c.Inbox() != []
  {
    c.Consume().(acked := c.acked + [c.Inbox()[0].seqNo])
  }

  lemma AckOfReplay(c: Consumer, nextSeq: nat, offset: nat)
    requires LifeOk(c, nextSeq, offset) && c.phase.Replaying? && c.phase.pending != []
    ensures LifeOk(Acked(c), nextSeq, Advance(offset, c.phase.pending[0].seqNo))
  {
    var q0 := c.phase.pending[0].seqNo;
    assert q0 == c.start + |c.acked|;
    assert ChanOk(Acked(c), nextSeq, q0 + 1) by {
      forall q: nat ensures InChan(Acked(c), q) == InChan(c, q) {
      }
    }
  }

  /** Nothing lies between the offset and the next message of the channel but what was dropped. */
  lemma NextInChannel(c: Consumer, nextSeq: nat, offset: nat, q: nat)
    requires LifeOk(c, nextSeq, offset) && c.phase.Live? && c.chan != []
    requires offset <= q <= c.chan[0].seqNo
    ensures (c.ByReplay(q) || c.ByChannel(q)) <==> q == c.chan[0].seqNo
  {
    assert q < c.chan[0].seqNo ==> !InChan(c, q);
  }

  lemma AckOfChannel(c: Consumer, nextSeq: nat, offset: nat)
    requires LifeOk(c, nextSeq, offset) && c.phase.Live? && c.chan != [] && c.chan[0].seqNo >= offset
    ensures LifeOk(Acked(c), nextSeq, Advance(offset, c.chan[0].seqNo))
  {
    var q0, d := c.chan[0].seqNo, Acked(c);
    ConsumeKeepsChan(c, nextSeq, offset, q0 + 1);
    forall q: nat ensures q in d.acked <==> q < q0 + 1 && (d.ByReplay(q) || d.ByChannel(q)) {
      if offset <= q <= q0 {
        NextInChannel(c, nextSeq, offset, q);
      }
    }
  }

  lemma LeavingKeepsLife(c: Consumer, nextSeq: nat, offset: nat)
    requires LifeOk(c, nextSeq, offset) && c.phase.Replaying?
    ensures LifeOk(c.EnterLive(offset), nextSeq, offset)
  {
    var d := c.EnterLive(offset);
    forall q: nat ensures InChan(d, q) == InChan(c, q) {
    }
  }

  lemma EndingKeepsLife(c: Consumer, nextSeq: nat, offset: nat)
    requires LifeOk(c, nextSeq, offset) && c.Consuming()
    ensures LifeOk(c.(phase := Ended), nextSeq, offset)
  {
  }

  lemma StepKeepsKnown(s: State, step: Step)
    requires Known(s.con, s.view.nextSeq) && Enabled(s, step) && RingOk(s)
    ensures Known(Apply(s, step).con, Apply(s, step).view.nextSeq)
  {
    if step.BeginReplay? {
      ReplayIsSuffix(s.view.window, s.view.Oldest(), s.offset);
    }
  }

  lemma StepKeepsSound(s: State, step: Step)
    requires Sound(s) && Enabled(s, step)
    ensures Sound(Apply(s, step))
  {
    StepKeepsRing(s, step);
    StepKeepsKnown(s, step);
    if step.BeginReplay? {
      BeginReplayKeepsSound(s);
    } else if step.Register? {
      RegisterKeepsSound(s);
    } else if !s.torn {
      StepKeepsLife(s, step);
    }
  }

  lemma StepKeepsLife(s: State, step: Step)
    requires LifeOk(s.con, s.view.nextSeq, s.offset) && s.offset <= s.view.nextSeq
    requires Enabled(s, step) && !step.BeginReplay? && !step.Register?
    ensures var t := Apply(s, step); LifeOk(t.con, t.view.nextSeq, t.offset)
  {
    match step
    case Produce(key, value) =>
      OfferKeepsLife(s.con, s.view.nextSeq, s.offset, Message(s.view.nextSeq, key, value), s.chanCap);
    case Skip => SkipKeepsLife(s.con, s.view.nextSeq, s.offset);
    case Ack =>
      if s.con.phase.Replaying? {
        AckOfReplay(s.con, s.view.nextSeq, s.offset);
      } else {
        AckOfChannel(s.con, s.view.nextSeq, s.offset);
      }
    case Refuse =>
      if s.con.phase.Replaying? {
        LeavingKeepsLife(s.con, s.view.nextSeq, s.offset);
      } else {
        EndingKeepsLife(s.con, s.view.nextSeq, s.offset);
      }
    case LeaveReplay => LeavingKeepsLife(s.con, s.view.nextSeq, s.offset);
    case Die => EndingKeepsLife(s.con, s.view.nextSeq, s.offset);
    case _ =>
  }

  lemma {:induction false} RunKeepsSound(s: State, steps: seq<Step>, t: State)
    requires Sound(s) && Run(s, steps, t)
    ensures Sound(t)
    decreases |steps|
  {
    if steps != [] {
      StepKeepsSound(s, steps[0]);
      RunKeepsSound(Apply(s, steps[0]), steps[1..], t);
    }
  }

  // ---------- main results about one consumer ----------

  /** A run, with any number of messages dropped on full channels, that has not recovered
      inconsistent offsets. */
  ghost predicate Reached(capacity: nat, chanCap: nat, steps: seq<Step>, t: State) {
    && capacity >= 2 && chanCap >= 1
    && Run(Init(capacity, chanCap), steps, t)
    && !t.torn && !t.con.phase.Absent?
  }

  lemma ReachedIsSound(capacity: nat, chanCap: nat, steps: seq<Step>, t: State)
    requires Reached(capacity, chanCap, steps, t)
    ensures Sound(t) && InOrder(t) && LifeOk(t.con, t.view.nextSeq, t.offset)
  {
    assert Sound(Init(capacity, chanCap));
    RunKeepsSound(Init(capacity, chanCap), steps, t);
    AcknowledgementsIncrease(Init(capacity, chanCap), steps, t);
  }

  /** Main result: in every run a consumer acknowledges, in increasing order, exactly the numbers
      below the offset that its replay reached before it was left or its live channel brought. */
  lemma AcknowledgedExactly(capacity: nat, chanCap: nat, steps: seq<Step>, t: State, q: nat)
    requires Reached(capacity, chanCap, steps, t)
    ensures Increasing(t.con.acked)
    ensures q in t.con.acked <==> q < t.offset && (t.con.ByReplay(q) || t.con.ByChannel(q))
  {
    ReachedIsSound(capacity, chanCap, steps, t);
  }

  /** A message the consumer passed over: within reach of its replay, never acknowledged, and
      already below the group's offset, so that no later consumer gets it either. */
  ghost predicate LeftBehind(t: State, q: nat) {
    t.con.start <= q < t.offset && q !in t.con.acked
  }

  /** Abandoned by a replay that was cut short, and then passed by the live channel. */
  ghost predicate LostByCut(t: State, q: nat) {
    t.con.cut.Some? && t.con.cut.value.first <= q < t.con.cut.value.resume && q < t.offset
  }

  /** Dropped on a full channel, not replayed, and then passed by a later message. */
  ghost predicate LostByDrop(t: State, q: nat) {
    q in t.con.dropped && !t.con.ByReplay(q) && t.con.start <= q < t.offset
  }

  /** Older than the start of the replay, which was cut short: the ring moved on between
      registering and replaying, and the live channel still brought the message. */
  ghost predicate TakenEarly(t: State, q: nat) {
    t.con.cut.Some? && t.con.cut.value.resume <= q < t.con.start && q < t.offset && q !in t.con.dropped
  }

  /** Main result: an unacknowledged message stays at or above the offset, where the next consumer
      replays it - exactly unless a replay was cut short at or before it and live messages beyond
      it were acknowledged, or it met a full channel, was not replayed, and a later one was
      acknowledged. */
  lemma NothingLeftBehindExactly(capacity: nat, chanCap: nat, steps: seq<Step>, t: State, q: nat)
    requires Reached(capacity, chanCap, steps, t)
    ensures LeftBehind(t, q) <==> LostByCut(t, q) || LostByDrop(t, q)
  {
    ReachedIsSound(capacity, chanCap, steps, t);
  }

  /** Main result: the numbers acknowledged are one gap-free interval from the start of the replay,
      the larger of the oldest message in the ring and the stored offset - exactly when none was
      lost by a cut replay or a full channel, and none before that start was taken. */
  lemma GapFreeExactly(capacity: nat, chanCap: nat, steps: seq<Step>, t: State)
    requires Reached(capacity, chanCap, steps, t)
    ensures t.con.acked == Interval(t.con.start, |t.con.acked|) <==>
            forall q: nat :: !LostByCut(t, q) && !LostByDrop(t, q) && !TakenEarly(t, q)
  {
    ReachedIsSound(capacity, chanCap, steps, t);
    var a, from := t.con.acked, t.con.start;
    if a == Interval(from, |a|) {
      forall q: nat ensures q in a <==> from <= q < t.offset {
        IntervalMembers(from, |a|, q);
      }
      forall q: nat ensures !LostByCut(t, q) && !LostByDrop(t, q) && !TakenEarly(t, q) {
        assert q in a <==> from <= q < t.offset;
      }
    } else if forall q: nat :: !LostByCut(t, q) && !LostByDrop(t, q) && !TakenEarly(t, q) {
      forall q: nat ensures q in a <==> from <= q < t.offset {
        assert !LostByCut(t, q) && !LostByDrop(t, q) && !TakenEarly(t, q);
      }
      IncreasingIsInterval(a, from, t.offset);
    }
  }

  lemma IntervalMembers(from: nat, n: nat, q: nat)
    ensures q in Interval(from, n) <==> from <= q < from + n
  {
    if from <= q < from + n {
      assert Interval(from, n)[q - from] == q;
    }
  }

  lemma {:induction false} IncreasingIsInterval(a: seq<nat>, from: nat, to: nat)
    requires Increasing(a) && forall q: nat :: q in a <==> from <= q < to
    ensures a == Interval(from, |a|) && (from <= to ==> |a| == to - from)
  {
    if a == [] {
      assert from in a <==> from < to;
    } else {
      var front, last := a[..|a| - 1], a[|a| - 1];
      assert last in a && to - 1 in a;
      forall q: nat ensures q in front <==> from <= q < to - 1 {
        if q in a {
          var i :| 0 <= i < |a| && a[i] == q;
          assert q in front <==> i < |a| - 1;
        }
      }
      IncreasingIsInterval(front, from, to - 1);
      assert a == front + [last];
    }
  }

  /** A consumer that has caught up has acknowledged all that its replay reached or its channel took;
      with neither cut nor drops that is everything from its start on, so there is no lag. */
  lemma CaughtUpMeansAllAcknowledged(capacity: nat, chanCap: nat, steps: seq<Step>, t: State)
    requires Reached(capacity, chanCap, steps, t)
    requires t.con.phase.Live? && t.con.chan == []
    ensures forall q: nat :: q < t.view.nextSeq ==> (q in t.con.acked <==> t.con.ByReplay(q) || t.con.ByChannel(q))
    ensures t.con.cut.None? && t.con.dropped == {} ==>
              t.offset == t.view.nextSeq && t.con.start <= t.view.nextSeq
              && t.con.acked == Interval(t.con.start, t.view.nextSeq - t.con.start)
  {
    ReachedIsSound(capacity, chanCap, steps, t);
    forall q: nat | q < t.view.nextSeq && (t.con.ByReplay(q) || t.con.ByChannel(q)) ensures q < t.offset {
      assert !InChan(t.con, q);
    }
    if t.con.cut.None? && t.con.dropped == {} {
      assert t.offset < t.view.nextSeq ==> t.con.ByChannel(t.offset);
      IncreasingIsInterval(t.con.acked, t.con.start, t.view.nextSeq);
    }
  }

  lemma {:induction false} ReplayListMembers(window: seq<Message>, offset: nat, m: Message)
    ensures m in ReplayList(window, offset) <==> m in window && m.seqNo >= offset
  {
    if window != [] {
      ReplayListMembers(window[1..], offset, m);
      assert window == [window[0]] + window[1..];
    }
  }

  /** Main result: once a consumer has ended, a message within its reach that it did not acknowledge
      and that the ring still holds is replayed to the next consumer, exactly unless it was lost. */
  lemma UnacknowledgedAreRedelivered(capacity: nat, chanCap: nat, steps: seq<Step>, t: State, m: Message)
    requires Reached(capacity, chanCap, steps, t) && Enabled(t, Register)
    requires m in t.view.window && t.con.start <= m.seqNo && m.seqNo !in t.con.acked
    ensures var u := Apply(Apply(t, Register), BeginReplay);
            m in u.con.phase.pending <==> !LostByCut(t, m.seqNo) && !LostByDrop(t, m.seqNo)
  {
    NothingLeftBehindExactly(capacity, chanCap, steps, t, m.seqNo);
    ReplayListMembers(t.view.window, t.offset, m);
  }

  // ---------- recovery ----------

  /** Recovery brings back the saved messages, next sequence number and offset, and the first
      message produced afterwards reaches the group exactly when the saved offset is not beyond
      the saved next sequence number; otherwise every consumer skips it. */
  lemma RecoveryIsConsistentExactly(s: State, key: string, value: string)
    requires RingOk(s) && s.saved.Some?
    ensures var t := Apply(s, Restart);
            && t.view == s.saved.value.view && t.offset == s.saved.value.offset
            && RingOk(t)
    ensures var t := Apply(Apply(s, Restart), Produce(key, value));
            var m := t.view.window[|t.view.window| - 1];
            m in ReplayList(t.view.window, t.offset) <==> s.saved.value.offset <= s.saved.value.view.nextSeq
  {
    StepKeepsRing(s, Restart);
    var r := Apply(s, Restart);
    PushKeepsWindow(r.view, r.capacity, key, value);
    var t := Apply(r, Produce(key, value));
    ReplayListMembers(t.view.window, t.offset, t.view.window[|t.view.window| - 1]);
  }

  /** A save whose two parts see the same moment is always consistent. */
  lemma AtomicSaveIsConsistent(s: State)
    requires Sound(s) && !s.torn
    ensures var t := Apply(Apply(s, SaveMessages), SaveOffsets);
            && t.saved == Some(Saved(s.view, s.offset))
            && t.saved.value.offset <= t.saved.value.view.nextSeq
            && Apply(t, Restart).view == s.view && Apply(t, Restart).offset == s.offset
            && !Apply(t, Restart).torn
  {
  }

  // ---------- concrete runs that reach the exceptions ----------

  lemma Extend(s: State, steps: seq<Step>, t: State, step: Step) returns (steps': seq<Step>, t': State)
    requires Run(s, steps, t) && Enabled(t, step)
    ensures steps' == steps + [step] && t' == Apply(t, step) && Run(s, steps', t')
    decreases |steps|
  {
    steps', t' := steps + [step], Apply(t, step);
    if steps == [] {
      assert steps'[1..] == [];
    } else {
      assert steps'[1..] == steps[1..] + [step];
      var _, _ := Extend(Apply(s, steps[0]), steps[1..], t, step);
    }
  }

  /** Two messages wait when a consumer registers, and it is cancelled before replaying them. */
  lemma CutShort(m0: Message, m1: Message) returns (steps: seq<Step>, t: State)
    requires m0.seqNo == 0 && m1.seqNo == 1
    ensures Run(Init(4, 4), steps, t)
    ensures t == Init(4, 4).(view := TopicView([m0, m1], 2), canceled := true,
                             con := Consumer(Live, [], 2, 0, 2, [], {}, Some(Cut(0, 2))))
  {
    var s := Init(4, 4);
    steps, t := Extend(s, [], s, Produce(m0.key, m0.value));
    assert t == s.(view := TopicView([m0], 1));
    steps, t := Extend(s, steps, t, Produce(m1.key, m1.value));
    assert t == s.(view := TopicView([m0, m1], 2));
    steps, t := Extend(s, steps, t, Register);
    steps, t := Extend(s, steps, t, BeginReplay);
    ReplayIsSuffix([m0, m1], 0, 0);
    assert t.con == Consumer(Replaying([m0, m1]), [], 2, 0, 2, [], {}, None);
    steps, t := Extend(s, steps, t, Cancel);
    steps, t := Extend(s, steps, t, LeaveReplay);
  }

  /** After that its receive loop still picks up a third message and the handler completes: the
      first two are lost. */
  lemma CancelledReplayCanLoseMessages()
    ensures exists steps: seq<Step>, t: State ::
              Reached(4, 4, steps, t) && t.con.dropped == {} && LeftBehind(t, 0) && LeftBehind(t, 1)
  {
    var s := Init(4, 4);
    var steps, t := CutShort(Message(0, "a", "1"), Message(1, "b", "2"));
    steps, t := Extend(s, steps, t, Produce("c", "3"));
    assert t.con == Consumer(Live, [Message(2, "c", "3")], 2, 0, 2, [], {}, Some(Cut(0, 2))) && t.offset == 0;
    steps, t := Extend(s, steps, t, Ack);
    assert t.con.acked == [2] && t.offset == 3 && t.con.start == 0;
    assert Reached(4, 4, steps, t);
    assert LeftBehind(t, 0) && LeftBehind(t, 1);
  }

  /** A consumer that registered with an empty queue and is in its receive loop. */
  lemma LiveConsumer(s: State) returns (steps: seq<Step>, t: State)
    requires s.con.phase.Absent? && s.view == EMPTY_VIEW && s.con.chan == []
    ensures Run(s, steps, t)
    ensures t == s.(con := Consumer(Live, [], 0, s.offset, 0, [], {}, None), canceled := false)
  {
    steps, t := Extend(s, [], s, Register);
    steps, t := Extend(s, steps, t, BeginReplay);
    steps, t := Extend(s, steps, t, LeaveReplay);
  }

  /** A live consumer with room for one message takes the first of two; the second is dropped. */
  lemma OneDropped(m0: Message, m1: Message) returns (steps: seq<Step>, t: State)
    requires m0.seqNo == 0 && m1.seqNo == 1
    ensures Run(Init(4, 1), steps, t)
    ensures t == Init(4, 1).(view := TopicView([m0, m1], 2), offset := 1, ackLog := [0],
                             con := Consumer(Live, [], 0, 0, 0, [0], {1}, None))
  {
    var s := Init(4, 1);
    steps, t := LiveConsumer(s);
    var live := t;
    steps, t := Extend(s, steps, t, Produce(m0.key, m0.value));
    assert t == live.(view := TopicView([m0], 1), con := live.con.(chan := [m0]));
    var one := t;
    steps, t := Extend(s, steps, t, Produce(m1.key, m1.value));
    assert t == one.(view := TopicView([m0, m1], 2), con := one.con.(dropped := {1}));
    steps, t := Extend(s, steps, t, Ack);
  }

  /** A message that found the channel full is passed over once a later one is acknowledged. */
  lemma OverflowCanLoseAMessage()
    ensures exists steps: seq<Step>, t: State ::
              Reached(4, 1, steps, t) && t.con.cut.None? && LostByDrop(t, 1) && LeftBehind(t, 1)
  {
    var s := Init(4, 1);
    var steps, t := OneDropped(Message(0, "a", "1"), Message(1, "b", "2"));
    steps, t := Extend(s, steps, t, Produce("c", "3"));
    assert t.con.chan == [Message(2, "c", "3")];
    steps, t := Extend(s, steps, t, Ack);
    assert t.con.acked == [0, 2] && t.offset == 3;
    assert LostByDrop(t, 1);
    assert Reached(4, 1, steps, t) && LeftBehind(t, 1);
  }

  /** The offsets of a save are read after its messages were collected: a message produced and
      acknowledged in between leaves an offset beyond the saved next sequence number, and the
      recovered group never takes the next message. */
  lemma LateOffsetsTearASave()
    ensures exists steps: seq<Step>, t: State ::
              && Run(Init(4, 4), steps, t) && t.torn && t.con.phase.Live?
              && |t.con.chan| == 1 && t.con.chan[0].seqNo < t.offset && !Enabled(t, Ack)
  {
    var s := Init(4, 4);
    var steps, t := LiveConsumer(s);
    steps, t := Extend(s, steps, t, SaveMessages);
    assert t.draft == Some(EMPTY_VIEW);
    steps, t := Extend(s, steps, t, Produce("a", "1"));
    assert t.con.chan == [Message(0, "a", "1")];
    steps, t := Extend(s, steps, t, Ack);
    assert t.offset == 1 && t.draft == Some(EMPTY_VIEW);
    steps, t := Extend(s, steps, t, SaveOffsets);
    assert t.saved == Some(Saved(EMPTY_VIEW, 1));
    steps, t := Extend(s, steps, t, Restart);
    assert t.view == EMPTY_VIEW && t.offset == 1 && t.torn && t.con.phase == Absent && t.con.chan == []
           && t.chanCap == 4;
    var steps', t' := LiveConsumer(t);
    RunJoin(s, steps, t, steps', t');
    steps, t := Extend(s, steps + steps', t', Produce("b", "2"));
    assert t.con.chan == [Message(0, "b", "2")];
  }

  lemma {:induction false} RunJoin(s: State, steps: seq<Step>, t: State, more: seq<Step>, u: State)
    requires Run(s, steps, t) && Run(t, more, u)
    ensures Run(s, steps + more, u)
    decreases |steps|
  {
    if steps == [] {
      assert steps + more == more;
    } else {
      assert (steps + more)[1..] == steps[1..] + more;
      RunJoin(Apply(s, steps[0]), steps[1..], t, more, u);
    }
  }
}
