/** The output channels of subscriptions. */
module Channels {

  // A buffered channel: what has been sent on it, and whether it is closed.
  class Channel<T> {
    var queue: seq<T>
    var closed: bool

    constructor ()
      ensures queue == [] && !closed
    {
      queue := [];
      closed := false;
    }

    // Sending on a closed channel is a runtime error.
    method Send(v: T)
      requires !closed
      modifies this
      ensures queue == old(queue) + [v] && !closed
    {
      queue := queue + [v];
    }

    method Close()
      requires !closed
      modifies this
      ensures closed && queue == old(queue)
    {
      closed := true;
    }
  }
}
