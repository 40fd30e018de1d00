/** Messages, the window of messages a topic retains, and the offset arithmetic shared by the
    in-memory queue object and by the delivery protocol. */
module QueueTypes {
  datatype Message = Message(seqNo: nat, key: string, value: string)

  /** What a topic's ring stands for: the retained messages, oldest first, and the sequence
      number the next message will get. */
  datatype TopicView = TopicView(window: seq<Message>, nextSeq: nat) {
    function Oldest(): int { nextSeq - |window| }
  }

  const EMPTY_VIEW := TopicView([], 0)

  function Min(a: int, b: int): int { if a <= b then a else b }
  function Max(a: int, b: int): int { if a <= b then b else a }

  /** Sequence numbers from, from + 1, from + 2, ... */
  ghost predicate Consecutive(ms: seq<Message>, from: int) {
    forall i {:trigger ms[i]} :: 0 <= i < |ms| ==> ms[i].seqNo == from + i
  }

  /** The window is exactly the last min(produced, capacity - 1) messages. */
  ghost predicate ViewOk(v: TopicView, capacity: nat) {
    && capacity >= 2
    && |v.window| == Min(v.nextSeq, capacity - 1)
    && Consecutive(v.window, v.Oldest())
  }

  /** A message appended to a ring of `capacity` slots, one of which always stays free. */
  function Push(v: TopicView, capacity: nat, key: string, value: string): TopicView
    requires capacity >= 2
  {
    var grown := v.window + [Message(v.nextSeq, key, value)];
    TopicView(if |grown| < capacity then grown else grown[1..], v.nextSeq + 1)
  }

  lemma PushKeepsWindow(v: TopicView, capacity: nat, key: string, value: string)
    requires ViewOk(v, capacity)
    ensures ViewOk(Push(v, capacity, key, value), capacity)
    ensures Push(v, capacity, key, value).window != []
    ensures var w := Push(v, capacity, key, value).window; w[|w| - 1] == Message(v.nextSeq, key, value)
  {
  }

  /** The messages a starting consumer replays. */
  function ReplayList(window: seq<Message>, offset: nat): seq<Message> {
    if window == [] then []
    else if window[0].seqNo >= offset then [window[0]] + ReplayList(window[1..], offset)
    else ReplayList(window[1..], offset)
  }

  lemma {:induction false} ReplayListExtend(window: seq<Message>, m: Message, offset: nat)
    ensures ReplayList(window + [m], offset) ==
            ReplayList(window, offset) + (if m.seqNo >= offset then [m] else [])
  {
    if window == [] {
      assert ([m] + [])[1..] == [] && window + [m] == [m];
    } else {
      assert (window + [m])[1..] == window[1..] + [m];
      ReplayListExtend(window[1..], m, offset);
    }
  }

  /** In a window of consecutive messages the replay list is the suffix that starts at the
      larger of the oldest retained message and the stored offset. */
  lemma {:induction false} ReplayIsSuffix(window: seq<Message>, from: nat, offset: nat)
    requires Consecutive(window, from)
    ensures var r := ReplayList(window, offset);
            && Consecutive(r, Max(from, offset))
            && |r| == Max(0, from + |window| - Max(from, offset))
    ensures from <= offset <= from + |window| ==> ReplayList(window, offset) == window[offset - from..]
    ensures offset <= from ==> ReplayList(window, offset) == window
  {
    if window != [] {
      ReplayIsSuffix(window[1..], from + 1, offset);
      if window[0].seqNo >= offset {
        assert window == [window[0]] + window[1..];
      }
    }
  }

  function Advance(offset: nat, seqNo: nat): nat { Max(offset, seqNo + 1) }
}
