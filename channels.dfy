/** Option, for the values the source represents with Java/Kotlin null. */
module Wrappers {
  datatype Option<+T> = None | Some(value: T)
}

/**
 * A kotlinx coroutine channel as both services use it: a FIFO buffer of
 * sent elements, a "closed for send" flag, and a fixed capacity.
 * Sending to a closed channel throws; sending to a full bounded channel
 * suspends the sender, which the model turns into a precondition.
 *
 * A channel is a value here; the services keep every channel they create
 * in a table and refer to it by its position, which plays the part of the
 * object reference the transport shares with the service.
 */
module Channels {
  import opened Wrappers

  /** `Channel.UNLIMITED`, or a buffer bound such as `Channel(100)`. */
  datatype Capacity = Unlimited | Bounded(limit: nat)

  datatype Channel<T> = Channel(buffer: seq<T>, closed: bool, capacity: Capacity)
  {
    /** A send would suspend: the buffer holds as many elements as the bound allows. */
    predicate Full() {
      capacity.Bounded? && |buffer| >= capacity.limit
    }

    /**
     * `send(x)`: appends to an open channel; on a closed channel it throws
     * (the caller checks `closed` first) and the channel stays as it was.
     */
    function Send(x: T): (r: Channel<T>)
      requires !closed ==> !Full()
      ensures r.closed == closed && r.capacity == capacity
      ensures !closed ==> r.buffer == buffer + [x] && |r.buffer| == |buffer| + 1
      ensures closed ==> r == this
    {
      if closed then this else this.(buffer := buffer + [x])
    }

    /**
     * `close()`: no further sends succeed; elements already buffered stay
     * receivable. Closing a closed channel changes nothing.
     */
    function Close(): (r: Channel<T>)
      ensures r.closed && r.buffer == buffer && r.capacity == capacity
      ensures closed ==> r == this
    {
      this.(closed := true)
    }

    /** The receiving side takes the oldest element, if there is one. */
    function Receive(): (r: (Option<T>, Channel<T>))
      ensures r.1.closed == closed && r.1.capacity == capacity
      ensures buffer == [] <==> r.0.None?
      ensures buffer != [] ==> r.0.value == buffer[0] && buffer == [r.0.value] + r.1.buffer
    {
      if buffer == [] then (None, this) else (Some(buffer[0]), this.(buffer := buffer[1..]))
    }
  }

  /** `Channel(capacity)`: a new open, empty channel. */
  function Open<T>(capacity: Capacity): (c: Channel<T>)
    ensures c.buffer == [] && !c.closed && c.capacity == capacity
  {
    Channel([], false, capacity)
  }

  /**
   * First in, first out: on an open channel, sending and then receiving
   * yields the new element only when nothing was waiting, and otherwise the
   * same as receiving first and sending afterwards.
   */
  lemma SendReceiveCommute<T>(c: Channel<T>, x: T)
    requires !c.closed && !c.Full()
    ensures c.buffer == [] ==> c.Send(x).Receive() == (Some(x), c)
    ensures c.buffer != [] ==>
      !c.Receive().1.Full() && c.Send(x).Receive() == (c.Receive().0, c.Receive().1.Send(x))
  {
    if c.buffer != [] {
      assert (c.buffer + [x])[1..] == c.buffer[1..] + [x];
    }
  }
}
