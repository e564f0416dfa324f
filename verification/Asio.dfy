/**
 * What the model assumes of Boost.Asio. A started operation waits until it completes, once, and
 * its handler then runs once. Closing a socket or cancelling a timer turns the operations still
 * waiting on it into aborted ones; those already completed keep their result. An operation
 * started on a closed socket completes with another error.
 */
module Asio {
  datatype Ec = Ok | Aborted | OtherError

  /** Waiting for its event, or completed with its handler queued. */
  datatype Status = Waiting | Ready(ec: Ec)

  function Started(open: bool): Status {
    if open then Waiting else Ready(OtherError)
  }

  function Cancel(status: Status): Status {
    if status.Waiting? then Ready(Aborted) else status
  }

  /** Cancelling every wait on one timer, or every accept on one acceptor. */
  function CancelAll(waits: seq<Status>): (r: seq<Status>)
    ensures |r| == |waits|
  {
    seq(|waits|, i requires 0 <= i < |waits| => Cancel(waits[i]))
  }
}
