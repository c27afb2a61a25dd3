/**
  What a deployment scheme sees of a running application: an opaque
  handle per launched instance, and the record of what the scheme did to
  the outside world, in order (launch requests, stop requests, events
  emitted on the bus, callbacks invoked).
 */
module Instances {

  /** A launched instance; the launcher hands out a new one per launch. */
  datatype Handle = Handle(serial: nat)

  datatype Effect =
    | LaunchRequested            // launcher.startInstance(app, ...)
    | StopRequested(h: Handle)   // h.stop(...)
    | Emitted(topic: string)     // meshEvents.emit(topic, ...)
    | CalledBack                 // the caller's callback was invoked
    | CallbackFault              // callback() was invoked on a missing callback (a TypeError)

  /** The item at `k` removed, the others kept in order. */
  function RemoveAt<T>(s: seq<T>, k: nat): (r: seq<T>)
    requires k < |s|
    ensures |r| == |s| - 1
    ensures forall i :: 0 <= i < k ==> r[i] == s[i]
    ensures forall i :: k <= i < |r| ==> r[i] == s[i + 1]
  {
    s[..k] + s[k + 1..]
  }
}
