/**
 * The daemon's scheduler: requests from the client handlers are handed to
 * the request handlers in turn, round-robin, until a stop arrives or the
 * incoming channel closes.
 */
module Scheduler {
  import opened Text
  /** What the scheduler receives, in the order it receives it. */
  datatype Received<R> = Stop | Request(request: R) | Closed

  /** The requests received before the first stop or closed channel. */
  function RequestsBeforeStop<R>(received: seq<Received<R>>): (r: seq<R>)
    ensures |r| <= |received|
  {
    if received == [] || !received[0].Request? then []
    else [received[0].request] + RequestsBeforeStop(received[1..])
  }

  /** What the scheduler sent: the pairs of handler index and request, and whether it panicked. */
  datatype Scheduled<R> = Scheduled(sent: seq<(nat, R)>, panicked: bool)

  /**
   * `Scheduler::run`: the k-th request goes to handler k mod n. With no
   * handlers the first request indexes an empty list of senders, a panic.
   */
  method Run<R>(numRequestHandlers: nat, received: seq<Received<R>>) returns (r: Scheduled<R>)
    ensures r.panicked <==> numRequestHandlers == 0 && RequestsBeforeStop(received) != []
    ensures !r.panicked ==> |r.sent| == |RequestsBeforeStop(received)|
    ensures forall k :: 0 <= k < |r.sent| ==>
      numRequestHandlers > 0 && r.sent[k] == (k % numRequestHandlers, RequestsBeforeStop(received)[k])
  {
    var current: nat := 0;
    var sent: seq<(nat, R)> := [];
    ghost var requests: seq<R> := [];
    var i := 0;
    while i < |received|
      invariant 0 <= i <= |received|
      invariant i == |received| ==> received[i..] == []
      invariant numRequestHandlers > 0 ==> current < numRequestHandlers
      invariant numRequestHandlers > 0 ==> current == |sent| % numRequestHandlers
      invariant RequestsBeforeStop(received) == requests + RequestsBeforeStop(received[i..])
      invariant |requests| == |sent|
      invariant numRequestHandlers == 0 ==> sent == []
      invariant forall k :: 0 <= k < |sent| ==>
        numRequestHandlers > 0 && sent[k] == (k % numRequestHandlers, requests[k])
    {
      match received[i]
      case Stop =>
        assert received[i..][0] == received[i];
        assert requests + [] == requests;
        break;
      case Closed =>
        assert received[i..][0] == received[i];
        assert requests + [] == requests;
        break;
      case Request(request) =>
        assert received[i..][0] == received[i];
        if numRequestHandlers == 0 {
          return Scheduled(sent, true);
        }
        assert received[i..][1..] == received[i + 1..];
        ModStep(|sent|, numRequestHandlers);
        ModUnique(current, numRequestHandlers, 0, current);
        ModStep(current, numRequestHandlers);
        sent := sent + [(current, request)];
        requests := requests + [request];
        current := (current + 1) % numRequestHandlers;
        i := i + 1;
    }
    assert RequestsBeforeStop(received) == requests;
    return Scheduled(sent, false);
  }
}
