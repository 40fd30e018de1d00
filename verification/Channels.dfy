/** A buffered Go channel as a heap object: several owners may hold a reference to the same one. */
module Channels {
  import opened Wrappers

  /** What a channel holds after a non-blocking send. */
  function WithOffer<T>(buffer: seq<T>, capacity: nat, x: T): seq<T> {
    if |buffer| < capacity then buffer + [x] else buffer
  }

  class Channel<T> {
    const capacity: nat
    var buffer: seq<T>

    constructor (capacity: nat)
      ensures this.capacity == capacity && buffer == []
    {
      this.capacity := capacity;
      buffer := [];
    }

    /** A send in a select with a default branch: it succeeds when there is room and changes
        nothing otherwise. */
    method TrySend(x: T) returns (sent: bool)
      modifies this
      ensures sent == (|old(buffer)| < capacity)
      ensures buffer == WithOffer(old(buffer), capacity, x)
    {
      sent := |buffer| < capacity;
      if sent {
        buffer := buffer + [x];
      }
    }

    /** A receive in a select with a default branch. */
    method TryReceive() returns (x: Option<T>)
      modifies this
      ensures old(buffer) == [] ==> x == None && buffer == []
      ensures old(buffer) != [] ==> x == Some(old(buffer)[0]) && buffer == old(buffer)[1..]
    {
      if buffer == [] {
        x := None;
      } else {
        x, buffer := Some(buffer[0]), buffer[1..];
      }
    }
  }
}
