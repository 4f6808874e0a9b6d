/**
 * The daemon's per-client handler: it reads length-framed requests from
 * the client's socket until the client goes away or the daemon asks it to
 * stop, passes each request on, tells the response handler which client
 * made it, and finally reports how many requests the client made.
 */
module ClientHandler {
  import opened Wrappers
  import opened Text
  import opened Ids
  import opened Frames

  /** Which client a request came from, for the response handler. */
  datatype ClientRequest = ClientRequest(client: Uuid, request: Uuid)

  /** The report sent to every interested party once the client is gone. */
  datatype DisconnectedClient = DisconnectedClient(client: Uuid, numRequests: nat)

  /**
   * What the handler sent: the request payloads passed to the scheduler,
   * the client-request pairs, and the disconnect report, which is missing
   * when the handler panicked on a payload it could not deserialize.
   */
  datatype Handled = Handled(
    requests: seq<seq<Byte>>,
    clientRequests: seq<ClientRequest>,
    disconnected: Option<DisconnectedClient>)

  /** The first `n` elements, or all of them when there are fewer. */
  function Take<T>(s: seq<T>, n: Option<nat>): (r: seq<T>)
    ensures |r| <= |s| && r == s[..|r|]
    ensures n.None? ==> r == s
    ensures n.Some? ==> |r| == if n.value < |s| then n.value else |s|
  {
    if n.Some? && n.value < |s| then s[..n.value] else s
  }

  /** The payloads read before the stop: the first `stopAfter` of the stream's frames. */
  function Received(stream: seq<Byte>, stopAfter: Option<nat>): seq<seq<Byte>> {
    Take(Unframed(stream), stopAfter)
  }

  /**
   * Reading one request at `pos`: the 8-byte length, then exactly that many
   * payload bytes; nothing when the stream ends inside either.
   */
  method ReadFrame(stream: seq<Byte>, pos: nat) returns (frame: Option<seq<Byte>>, next: nat)
    requires pos <= |stream|
    ensures frame.None? ==> Unframed(stream[pos..]) == []
    ensures frame.Some? ==>
      pos + 8 + |frame.value| == next <= |stream|
      && FromBeBytes(stream[pos..pos + 8]) == |frame.value|
      && Unframed(stream[pos..]) == [frame.value] + Unframed(stream[next..])
  {
    var rest := stream[pos..];
    if |stream| - pos < 8 {
      return None, pos;
    }
    var lengthBuffer := stream[pos..pos + 8];
    assert rest[..8] == lengthBuffer;
    var length := FromBeBytes(lengthBuffer);
    if |stream| - pos - 8 < length {
      return None, pos;
    }
    frame := Some(stream[pos + 8..pos + 8 + length]);
    next := pos + 8 + length;
    assert rest[8..8 + length] == frame.value;
    assert rest[8 + length..] == stream[next..];
  }

  /** Appending one payload to those read keeps them a prefix of the stream's frames. */
  lemma ReadOne(requests: seq<seq<Byte>>, payload: seq<Byte>, later: seq<seq<Byte>>, all: seq<seq<Byte>>)
    requires requests + ([payload] + later) == all
    ensures (requests + [payload]) + later == all
    ensures all[|requests|] == payload && all[..|requests|] == requests
  {
    assert (requests + [payload]) + later == requests + ([payload] + later);
  }

  /** Stopping once `stopAfter` requests are read: those read are all that are received. */
  lemma StopTakes(requests: seq<seq<Byte>>, later: seq<seq<Byte>>, all: seq<seq<Byte>>, stopAfter: Option<nat>)
    requires requests + later == all
    requires stopAfter == Some(|requests|)
    ensures requests == Take(all, stopAfter)
  {
    assert all[..|requests|] == requests;
  }

  /** Running out of frames before the stop: every frame was received. */
  lemma EndTakes(requests: seq<seq<Byte>>, all: seq<seq<Byte>>, stopAfter: Option<nat>)
    requires requests + [] == all
    requires stopAfter.Some? ==> |requests| <= stopAfter.value
    ensures requests == Take(all, stopAfter)
  {
    assert requests == all;
  }

  /** A payload that is not a request, read before the stop, is the next one received. */
  lemma PanicTakes(requests: seq<seq<Byte>>, payload: seq<Byte>, all: seq<seq<Byte>>, stopAfter: Option<nat>)
    requires |requests| < |all| && all[|requests|] == payload && all[..|requests|] == requests
    requires stopAfter.Some? ==> |requests| < stopAfter.value
    ensures |requests| < |Take(all, stopAfter)|
    ensures requests == Take(all, stopAfter)[..|requests|]
    ensures Take(all, stopAfter)[|requests|] == payload
  {
  }

  /**
   * `ClientHandler::run` for the client `client`. `stream` is everything the
   * client writes before it closes the socket; `stopAfter` is the number of
   * requests read when the stop pipe becomes readable (none if it never
   * does); `deserialize` gives a payload's request uuid, or none when the
   * payload is not a request. Every complete frame before the stop is a
   * request, each sent on with its pair; the report carries their count.
   */
  method Run(client: Uuid, stream: seq<Byte>, stopAfter: Option<nat>, deserialize: seq<Byte> -> Option<Uuid>)
    returns (r: Handled)
    ensures |r.clientRequests| == |r.requests|
    ensures forall k :: 0 <= k < |r.requests| ==>
      deserialize(r.requests[k]).Some?
      && r.clientRequests[k] == ClientRequest(client, deserialize(r.requests[k]).value)
    ensures r.disconnected.Some? ==>
      r.requests == Received(stream, stopAfter)
      && r.disconnected.value == DisconnectedClient(client, |r.requests|)
    ensures r.disconnected.None? ==>
      |r.requests| < |Received(stream, stopAfter)|
      && r.requests == Received(stream, stopAfter)[..|r.requests|]
      && deserialize(Received(stream, stopAfter)[|r.requests|]).None?
  {
    var pos := 0;
    var requests: seq<seq<Byte>> := [];
    var pairs: seq<ClientRequest> := [];
    assert stream[pos..] == stream;
    assert requests + Unframed(stream) == Unframed(stream);
    while true
      invariant pos <= |stream|
      invariant requests + Unframed(stream[pos..]) == Unframed(stream)
      invariant stopAfter.Some? ==> |requests| <= stopAfter.value
      invariant |pairs| == |requests|
      invariant forall k :: 0 <= k < |requests| ==>
        deserialize(requests[k]).Some?
        && pairs[k] == ClientRequest(client, deserialize(requests[k]).value)
      decreases |stream| - pos
    {
      // the stop pipe is checked before any read
      if stopAfter == Some(|requests|) {
        StopTakes(requests, Unframed(stream[pos..]), Unframed(stream), stopAfter);
        break;
      }
      var frame, next := ReadFrame(stream, pos);
      if frame.None? {
        // the client disconnected, or the read failed
        EndTakes(requests, Unframed(stream), stopAfter);
        break;
      }
      var payload := frame.value;
      ReadOne(requests, payload, Unframed(stream[next..]), Unframed(stream));
      match deserialize(payload) {
        case None =>
          PanicTakes(requests, payload, Unframed(stream), stopAfter);
          return Handled(requests, pairs, None);
        case Some(request) =>
          requests := requests + [payload];
          pairs := pairs + [ClientRequest(client, request)];
          pos := next;
      }
    }
    return Handled(requests, pairs, Some(DisconnectedClient(client, |requests|)));
  }
}
