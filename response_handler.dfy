/**
 * The daemon's response handler: it learns which client made which request,
 * keeps each connected client's stream, sends each response to the client
 * that asked for it behind a length header, and forgets a client once it
 * has disconnected and all its requests have been answered.
 *
 * The bookkeeping is specified by functions over `Books`, the value of the
 * handler's four maps; the class `ResponseHandler` performs it in place and
 * is proved to agree with those functions.
 */
module ResponseHandlers {
  import opened Wrappers
  import opened Text
  import opened Ids
  import opened Frames
  import opened ClientHandler

  /** A response: the uuid of the request it answers, whether it is the last one, its serialized bytes. */
  datatype Response = Response(uuid: Uuid, last: bool, payload: seq<Byte>)

  /** How the two writes to the client's stream go: both, neither, or the length only. */
  datatype Writes = Written | LengthFailed | PayloadFailed

  /**
   * How handling one message ends: `Delivered` (or `WriteFailed`) and on to
   * the next message; `Stalled` waiting on a channel for a client or a request
   * that never comes (the source blocks, or panics once the channel closes);
   * `Panicked` on an unwrap of a missing entry or a length beyond 64 bits.
   */
  datatype Outcome = Delivered | WriteFailed | Accounted | Stalled | Panicked

  /**
   * The handler's maps: request to client, client to the bytes written to
   * its stream so far, client to responses handled, and client to the total
   * number of requests it made before disconnecting.
   */
  datatype Books = Books(
    requestToClient: map<Uuid, Uuid>,
    clientStreams: map<Uuid, seq<Byte>>,
    handled: map<Uuid, nat>,
    totals: map<Uuid, nat>)

  /** A client has a handled count exactly when it has a stream. */
  predicate Valid(b: Books) {
    b.handled.Keys == b.clientStreams.Keys
  }

  const EMPTY: Books := Books(map[], map[], map[], map[])

  /** `handle_new_client`. */
  function WithNewClient(b: Books, client: Uuid): Books {
    b.(handled := b.handled[client := 0], clientStreams := b.clientStreams[client := []])
  }

  /** `cleanup_client`. */
  function WithoutClient(b: Books, client: Uuid): Books {
    b.(handled := b.handled - {client}, clientStreams := b.clientStreams - {client})
  }

  /** `maybe_cleanup_client`: none when the client has no handled count (the unwrap panics). */
  function MaybeWithoutClient(b: Books, client: Uuid): Option<Books> {
    if client !in b.handled then None
    else if client in b.totals && b.totals[client] == b.handled[client] then Some(WithoutClient(b, client))
    else Some(b)
  }

  /** `handle_client_request`. */
  function WithClientRequest(b: Books, cr: ClientRequest): Books {
    b.(requestToClient := b.requestToClient[cr.request := cr.client])
  }

  /** The books after waiting on a channel, what was waited for if it came, and how many messages were taken. */
  datatype Awaited = Awaited(books: Books, found: Option<Uuid>, consumed: nat)

  /**
   * Waiting for the client of `request`: every client request that arrives
   * is recorded, until the one for `request`.
   */
  function AwaitRequest(b: Books, request: Uuid, arrivals: seq<ClientRequest>): (r: Awaited)
    ensures r.consumed <= |arrivals|
    decreases |arrivals|
  {
    if arrivals == [] then Awaited(b, None, 0)
    else
      var next := WithClientRequest(b, arrivals[0]);
      if arrivals[0].request == request then Awaited(next, Some(arrivals[0].client), 1)
      else
        var r := AwaitRequest(next, request, arrivals[1..]);
        Awaited(r.books, r.found, r.consumed + 1)
  }

  /** Waiting for `client` to be announced: every new client that arrives is recorded, until it. */
  function AwaitClient(b: Books, client: Uuid, arrivals: seq<Uuid>): (r: Awaited)
    ensures r.consumed <= |arrivals|
    decreases |arrivals|
  {
    if arrivals == [] then Awaited(b, None, 0)
    else
      var next := WithNewClient(b, arrivals[0]);
      if arrivals[0] == client then Awaited(next, Some(client), 1)
      else
        var r := AwaitClient(next, client, arrivals[1..]);
        Awaited(r.books, r.found, r.consumed + 1)
  }

  /** The books after a message and how handling it ended. */
  datatype Step = Step(books: Books, outcome: Outcome)

  /**
   * Counting the response, then writing its frame to the client's stream:
   * the length, then the payload; each failed write ends the delivery, and
   * either way the client is forgotten if that was its last awaited response.
   */
  function Deliver(b: Books, client: Uuid, response: Response, writes: Writes, increment: nat): Step {
    if client !in b.handled || client !in b.clientStreams then Step(b, Panicked)
    else
      var counted := b.(handled := b.handled[client := b.handled[client] + increment]);
      if |response.payload| >= WORD_RANGE then Step(counted, Panicked)
      else
        var stream := counted.clientStreams[client];
        var written :=
          match writes
          case LengthFailed => stream
          case PayloadFailed => stream + ToBeBytes(|response.payload|)
          case Written => stream + Frame(response.payload);
        var after := MaybeWithoutClient(counted.(clientStreams := counted.clientStreams[client := written]), client);
        if after.None? then Step(counted, Panicked)
        else Step(after.value, if writes.Written? then Delivered else WriteFailed)
  }

  /**
   * The response branch of `ResponseHandler::run`, with the handled count of
   * the client raised by `increment`: find the client (waiting for its
   * client request if need be), drop the mapping on a last response, find the
   * client's stream (waiting for the client if need be), then deliver.
   */
  function RespondCounting(b: Books, response: Response, writes: Writes,
                           requestArrivals: seq<ClientRequest>, clientArrivals: seq<Uuid>, increment: nat): Step
  {
    var a :=
      if response.uuid in b.requestToClient then Awaited(b, Some(b.requestToClient[response.uuid]), 0)
      else AwaitRequest(b, response.uuid, requestArrivals);
    if a.found.None? then Step(a.books, Stalled)
    else
      var client := a.found.value;
      var mapped :=
        if response.last then a.books.(requestToClient := a.books.requestToClient - {response.uuid})
        else a.books;
      var s :=
        if client in mapped.clientStreams then Awaited(mapped, Some(client), 0)
        else AwaitClient(mapped, client, clientArrivals);
      if s.found.None? then Step(s.books, Stalled)
      else Deliver(s.books, client, response, writes, increment)
  }

  /** The response branch as written: every response, last or not, counts as one handled. */
  function RespondAsWritten(b: Books, response: Response, writes: Writes,
                            requestArrivals: seq<ClientRequest>, clientArrivals: seq<Uuid>): Step
  {
    RespondCounting(b, response, writes, requestArrivals, clientArrivals, 1)
  }

  /**
   * The response branch as intended: a client's handled count is compared
   * with the number of requests it made, so it counts the requests answered
   * in full, that is the last responses.
   */
  function Respond(b: Books, response: Response, writes: Writes,
                   requestArrivals: seq<ClientRequest>, clientArrivals: seq<Uuid>): Step
  {
    RespondCounting(b, response, writes, requestArrivals, clientArrivals, if response.last then 1 else 0)
  }

  /**
   * The disconnect branch of `ResponseHandler::run`: the client is forgotten
   * at once if all its requests are answered, else its total is recorded.
   */
  function Disconnect(b: Books, dc: DisconnectedClient, clientArrivals: seq<Uuid>): Step {
    var s :=
      if dc.client in b.handled then Awaited(b, Some(dc.client), 0)
      else AwaitClient(b, dc.client, clientArrivals);
    if s.found.None? then Step(s.books, Stalled)
    else
      var handled := if dc.client in b.handled then b.handled[dc.client] else 0;
      if handled == dc.numRequests then Step(WithoutClient(s.books, dc.client), Accounted)
      else Step(s.books.(totals := s.books.totals[dc.client := dc.numRequests]), Accounted)
  }

  // ---------------------------------------------------------------------
  // Properties of the bookkeeping

  /** A new client starts with no responses handled and an empty stream; nothing else changes. */
  lemma NewClientRecorded(b: Books, client: Uuid)
    ensures var r := WithNewClient(b, client);
      r.handled[client] == 0 && r.clientStreams[client] == []
      && (forall c :: c != client ==> (c in r.handled <==> c in b.handled) && (c in r.clientStreams <==> c in b.clientStreams))
      && r.requestToClient == b.requestToClient && r.totals == b.totals
      && (Valid(b) ==> Valid(r))
  {
  }

  /** Forgetting a client drops its handled count and its stream, and nothing else. */
  lemma CleanupForgetsOnlyClient(b: Books, client: Uuid)
    ensures var r := WithoutClient(b, client);
      client !in r.handled && client !in r.clientStreams
      && (forall c :: c != client && c in b.handled ==> c in r.handled && r.handled[c] == b.handled[c])
      && r.requestToClient == b.requestToClient && r.totals == b.totals
      && (Valid(b) ==> Valid(r))
  {
  }

  /** `maybe_cleanup_client` forgets the client exactly when its responses handled reach its recorded total. */
  lemma MaybeCleanupExactly(b: Books, client: Uuid)
    ensures MaybeWithoutClient(b, client).None? <==> client !in b.handled
    ensures client in b.handled ==>
      var r := MaybeWithoutClient(b, client).value;
      (client !in r.clientStreams <==> client !in b.clientStreams || (client in b.totals && b.totals[client] == b.handled[client]))
      && (Valid(b) ==> Valid(r))
  {
  }

  /** Waiting for a request's client records every arrival up to the one for it, and finds the first. */
  lemma {:induction false} AwaitRequestFinds(b: Books, request: Uuid, arrivals: seq<ClientRequest>)
    ensures var r := AwaitRequest(b, request, arrivals);
      (r.found.Some? <==> exists k :: 0 <= k < |arrivals| && arrivals[k].request == request)
      && (r.found.Some? ==>
            r.consumed > 0 && arrivals[r.consumed - 1].request == request
            && r.found.value == arrivals[r.consumed - 1].client
            && request in r.books.requestToClient && r.books.requestToClient[request] == r.found.value)
      && (forall k :: 0 <= k < r.consumed - 1 ==> arrivals[k].request != request)
      && r.books.clientStreams == b.clientStreams && r.books.handled == b.handled && r.books.totals == b.totals
    decreases |arrivals|
  {
    if arrivals != [] && arrivals[0].request != request {
      var next := WithClientRequest(b, arrivals[0]);
      AwaitRequestFinds(next, request, arrivals[1..]);
      var r := AwaitRequest(next, request, arrivals[1..]);
      if exists k :: 0 <= k < |arrivals| && arrivals[k].request == request {
        var k :| 0 <= k < |arrivals| && arrivals[k].request == request;
        assert arrivals[1..][k - 1].request == request;
      }
      forall k | 0 <= k < r.consumed
        ensures arrivals[k + 1] == arrivals[1..][k]
      {
      }
    }
  }

  /** Waiting for a client announces every arriving client; the waited-for one gets a stream. */
  lemma {:induction false} AwaitClientFinds(b: Books, client: Uuid, arrivals: seq<Uuid>)
    ensures var r := AwaitClient(b, client, arrivals);
      (r.found.Some? <==> client in arrivals)
      && (r.found.Some? ==>
            r.found.value == client && client in r.books.clientStreams
            && client in r.books.handled && r.books.handled[client] == 0)
      && r.books.requestToClient == b.requestToClient && r.books.totals == b.totals
      && (Valid(b) ==> Valid(r.books))
    decreases |arrivals|
  {
    if arrivals != [] && arrivals[0] != client {
      var next := WithNewClient(b, arrivals[0]);
      AwaitClientFinds(next, client, arrivals[1..]);
      assert arrivals == [arrivals[0]] + arrivals[1..];
    }
  }

  /**
   * A delivered response appends its frame, the big-endian length and the
   * payload, to the client's stream, and raises the client's handled count
   * by the increment; the client is then forgotten exactly when that count
   * reaches its recorded total.
   */
  lemma DeliverWritesFrame(b: Books, client: Uuid, response: Response, writes: Writes, increment: nat)
    requires Valid(b) && client in b.clientStreams && |response.payload| < WORD_RANGE
    ensures var r := Deliver(b, client, response, writes, increment);
      var count := b.handled[client] + increment;
      var done := client in b.totals && b.totals[client] == count;
      Valid(r.books)
      && (r.outcome == Delivered <==> writes == Written)
      && (r.outcome == WriteFailed <==> writes != Written)
      && (client in r.books.clientStreams <==> !done)
      && (!done ==> r.books.handled[client] == count)
      && (!done && writes == Written ==> r.books.clientStreams[client] == b.clientStreams[client] + Frame(response.payload))
      && (!done && writes == PayloadFailed ==> r.books.clientStreams[client] == b.clientStreams[client] + ToBeBytes(|response.payload|))
      && (!done && writes == LengthFailed ==> r.books.clientStreams[client] == b.clientStreams[client])
      && r.books.requestToClient == b.requestToClient && r.books.totals == b.totals
  {
  }

  /**
   * Responding keeps the handler's maps consistent, drops the request's
   * mapping on a last response and keeps it on any other, and, once the
   * client is known and connected, delivers as `Deliver` does.
   */
  lemma {:induction false} RespondBooks(b: Books, response: Response, writes: Writes,
                                        requestArrivals: seq<ClientRequest>, clientArrivals: seq<Uuid>)
    requires Valid(b) && response.uuid in b.requestToClient
    requires b.requestToClient[response.uuid] in b.clientStreams
    ensures var r := Respond(b, response, writes, requestArrivals, clientArrivals);
      var client := b.requestToClient[response.uuid];
      (response.last ==> response.uuid !in r.books.requestToClient)
      && (!response.last ==> r.books.requestToClient == b.requestToClient)
      && (|response.payload| < WORD_RANGE ==>
            r == Deliver(b.(requestToClient := r.books.requestToClient), client, response, writes,
                         if response.last then 1 else 0))
      && (|response.payload| >= WORD_RANGE ==> r.outcome == Panicked)
  {
  }

  /** A response whose client request has not arrived waits for it, recording the ones before. */
  lemma RespondWaitsForRequest(b: Books, response: Response, writes: Writes,
                               requestArrivals: seq<ClientRequest>, clientArrivals: seq<Uuid>)
    requires response.uuid !in b.requestToClient
    ensures Respond(b, response, writes, requestArrivals, clientArrivals).outcome == Stalled <==>
      (forall k :: 0 <= k < |requestArrivals| ==> requestArrivals[k].request != response.uuid)
      || (var a := AwaitRequest(b, response.uuid, requestArrivals);
          a.found.Some? && a.found.value !in a.books.clientStreams && a.found.value !in clientArrivals)
  {
    var a := AwaitRequest(b, response.uuid, requestArrivals);
    AwaitRequestFinds(b, response.uuid, requestArrivals);
    if a.found.Some? {
      var client := a.found.value;
      var mapped :=
        if response.last then a.books.(requestToClient := a.books.requestToClient - {response.uuid})
        else a.books;
      AwaitClientFinds(mapped, client, clientArrivals);
    }
  }

  /**
   * A disconnect forgets the client at once when all its requests are
   * answered, and otherwise records how many it made.
   */
  lemma DisconnectDecides(b: Books, dc: DisconnectedClient)
    requires Valid(b) && dc.client in b.handled
    ensures var r := Disconnect(b, dc, []);
      r.outcome == Accounted && Valid(r.books)
      && (b.handled[dc.client] == dc.numRequests ==> r.books == WithoutClient(b, dc.client))
      && (b.handled[dc.client] != dc.numRequests ==>
            r.books.totals == b.totals[dc.client := dc.numRequests]
            && r.books.handled == b.handled && r.books.clientStreams == b.clientStreams)
  {
  }

  /** A client not yet announced is waited for; once it arrives nothing of it has been handled. */
  lemma DisconnectBeforeAnnounce(b: Books, dc: DisconnectedClient, clientArrivals: seq<Uuid>)
    requires Valid(b) && dc.client !in b.handled
    ensures var r := Disconnect(b, dc, clientArrivals);
      (r.outcome == Stalled <==> dc.client !in clientArrivals)
      && (r.outcome == Accounted && dc.numRequests == 0 ==> dc.client !in r.books.clientStreams)
      && (r.outcome == Accounted && dc.numRequests > 0 ==>
            dc.client in r.books.totals && r.books.totals[dc.client] == dc.numRequests
            && dc.client in r.books.handled && r.books.handled[dc.client] == 0)
  {
    AwaitClientFinds(b, dc.client, clientArrivals);
  }

  /**
   * No connected client with a recorded total has had all its requests
   * answered: such a client would have been forgotten.
   */
  predicate Settled(b: Books) {
    forall c :: c in b.totals && c in b.handled ==> b.totals[c] != b.handled[c]
  }

  /**
   * As intended, a response that is not the last for its request never
   * makes the handler forget its client: other responses for the same
   * request are still to come.
   */
  lemma NonLastKeepsClient(b: Books, response: Response, writes: Writes)
    requires Valid(b) && Settled(b) && !response.last && |response.payload| < WORD_RANGE
    requires response.uuid in b.requestToClient && b.requestToClient[response.uuid] in b.clientStreams
    ensures var r := Respond(b, response, writes, [], []);
      var client := b.requestToClient[response.uuid];
      r.outcome != Stalled && r.outcome != Panicked
      && client in r.books.clientStreams && Settled(r.books)
  {
    var client := b.requestToClient[response.uuid];
    RespondBooks(b, response, writes, [], []);
    DeliverWritesFrame(b, client, response, writes, 0);
  }

  // ---------------------------------------------------------------------
  // The responses of a find-files request, counted as written

  /** One connected client who made one request, the request `7`. */
  const ONE_REQUEST: Books := Books(map[7 := 1], map[1 := []], map[1 := 0], map[])

  /** A found file's response, and the final one. */
  const ENTRY: Response := Response(7, false, [0])
  const FINAL: Response := Response(7, true, [0])

  /**
   * As written, a client that disconnects after one request, before the
   * request's two responses arrive, is forgotten after the first; the second
   * then waits for the client to be announced again, which never happens.
   */
  lemma AsWrittenForgetsClientEarly()
    ensures var d := Disconnect(ONE_REQUEST, DisconnectedClient(1, 1), []);
      var first := RespondAsWritten(d.books, ENTRY, Written, [], []);
      var second := RespondAsWritten(first.books, FINAL, Written, [], []);
      first.outcome == Delivered && 1 !in first.books.clientStreams
      && second.outcome == Stalled
  {
    var d := Disconnect(ONE_REQUEST, DisconnectedClient(1, 1), []);
    assert d.books.totals == map[1 := 1];
  }

  /** Counting last responses only, both responses are delivered and the client is then forgotten. */
  lemma IntendedForgetsClientAfterLast()
    ensures var d := Disconnect(ONE_REQUEST, DisconnectedClient(1, 1), []);
      var first := Respond(d.books, ENTRY, Written, [], []);
      var second := Respond(first.books, FINAL, Written, [], []);
      first.outcome == Delivered && 1 in first.books.clientStreams
      && first.books.clientStreams[1] == Frame([0])
      && second.outcome == Delivered && 1 !in second.books.clientStreams
  {
    var d := Disconnect(ONE_REQUEST, DisconnectedClient(1, 1), []);
    assert d.books.totals == map[1 := 1];
  }

  // ---------------------------------------------------------------------
  // The handler

  /** `ResponseHandler`: its four maps, updated as messages arrive. */
  class ResponseHandler {
    var requestToClient: map<Uuid, Uuid>
    var clientStreams: map<Uuid, seq<Byte>>
    var handled: map<Uuid, nat>
    var totals: map<Uuid, nat>

    function Current(): Books
      reads this
    {
      Books(requestToClient, clientStreams, handled, totals)
    }

    constructor()
      ensures Current() == EMPTY && Valid(Current())
    {
      requestToClient, clientStreams, handled, totals := map[], map[], map[], map[];
    }

    method HandleNewClient(client: Uuid)
      modifies this
      ensures Current() == WithNewClient(old(Current()), client)
    {
      handled := handled[client := 0];
      clientStreams := clientStreams[client := []];
    }

    method CleanupClient(client: Uuid)
      modifies this
      ensures Current() == WithoutClient(old(Current()), client)
    {
      handled := handled - {client};
      clientStreams := clientStreams - {client};
    }

    method MaybeCleanupClient(client: Uuid) returns (panicked: bool)
      modifies this
      ensures panicked <==> MaybeWithoutClient(old(Current()), client).None?
      ensures !panicked ==> Current() == MaybeWithoutClient(old(Current()), client).value
      ensures panicked ==> Current() == old(Current())
    {
      if client !in handled {
        return true;
      }
      panicked := false;
      if client in totals && totals[client] == handled[client] {
        CleanupClient(client);
      }
    }

    method HandleClientRequest(cr: ClientRequest)
      modifies this
      ensures Current() == WithClientRequest(old(Current()), cr)
    {
      requestToClient := requestToClient[cr.request := cr.client];
    }

    /** Receiving client requests until the one for `request`, recording each. */
    method AwaitClientRequest(request: Uuid, arrivals: seq<ClientRequest>) returns (client: Option<Uuid>, consumed: nat)
      modifies this
      ensures AwaitRequest(old(Current()), request, arrivals) == Awaited(Current(), client, consumed)
    {
      var i := 0;
      while i < |arrivals|
        invariant i <= |arrivals|
        invariant forall k :: 0 <= k < i ==> arrivals[k].request != request
        invariant var r := AwaitRequest(Current(), request, arrivals[i..]);
          AwaitRequest(old(Current()), request, arrivals) == Awaited(r.books, r.found, r.consumed + i)
      {
        var cr := arrivals[i];
        assert arrivals[i..][1..] == arrivals[i + 1..];
        HandleClientRequest(cr);
        if cr.request == request {
          return Some(cr.client), i + 1;
        }
        i := i + 1;
      }
      return None, i;
    }

    /** Receiving new clients until `client`, recording each. */
    method AwaitNewClient(client: Uuid, arrivals: seq<Uuid>) returns (found: bool, consumed: nat)
      modifies this
      ensures AwaitClient(old(Current()), client, arrivals) ==
        Awaited(Current(), if found then Some(client) else None, consumed)
    {
      var i := 0;
      while i < |arrivals|
        invariant i <= |arrivals|
        invariant var r := AwaitClient(Current(), client, arrivals[i..]);
          AwaitClient(old(Current()), client, arrivals) == Awaited(r.books, r.found, r.consumed + i)
      {
        var next := arrivals[i];
        assert arrivals[i..][1..] == arrivals[i + 1..];
        HandleNewClient(next);
        if next == client {
          return true, i + 1;
        }
        i := i + 1;
      }
      return false, i;
    }

    /** The response branch of `run`, counting last responses only. */
    method HandleResponse(response: Response, writes: Writes,
                          requestArrivals: seq<ClientRequest>, clientArrivals: seq<Uuid>) returns (outcome: Outcome)
      modifies this
      ensures Step(Current(), outcome) == Respond(old(Current()), response, writes, requestArrivals, clientArrivals)
    {
      var client: Uuid;
      if response.uuid in requestToClient {
        client := requestToClient[response.uuid];
      } else {
        var found, _ := AwaitClientRequest(response.uuid, requestArrivals);
        if found.None? {
          return Stalled;
        }
        client := found.value;
      }
      if response.last {
        requestToClient := requestToClient - {response.uuid};
      }
      if client !in clientStreams {
        var found, _ := AwaitNewClient(client, clientArrivals);
        if !found {
          return Stalled;
        }
      }
      outcome := Send(client, response, writes, if response.last then 1 else 0);
    }

    /** Counting the response and writing its frame. */
    method Send(client: Uuid, response: Response, writes: Writes, increment: nat) returns (outcome: Outcome)
      modifies this
      ensures Step(Current(), outcome) == Deliver(old(Current()), client, response, writes, increment)
    {
      if client !in handled || client !in clientStreams {
        return Panicked;
      }
      handled := handled[client := handled[client] + increment];
      if |response.payload| >= WORD_RANGE {
        return Panicked;
      }
      var stream := clientStreams[client];
      var header := ToBeBytes(|response.payload|);
      if writes == LengthFailed {
        var _ := MaybeCleanupClient(client);
        return WriteFailed;
      }
      stream := stream + header;
      if writes == PayloadFailed {
        clientStreams := clientStreams[client := stream];
        var _ := MaybeCleanupClient(client);
        return WriteFailed;
      }
      assert stream + response.payload == clientStreams[client] + Frame(response.payload);
      clientStreams := clientStreams[client := stream + response.payload];
      var _ := MaybeCleanupClient(client);
      return Delivered;
    }

    /** The disconnect branch of `run`. */
    method HandleDisconnect(dc: DisconnectedClient, clientArrivals: seq<Uuid>) returns (outcome: Outcome)
      modifies this
      ensures Step(Current(), outcome) == Disconnect(old(Current()), dc, clientArrivals)
    {
      var count: nat;
      if dc.client in handled {
        count := handled[dc.client];
      } else {
        var found, _ := AwaitNewClient(dc.client, clientArrivals);
        if !found {
          return Stalled;
        }
        count := 0;
      }
      if count == dc.numRequests {
        CleanupClient(dc.client);
        return Accounted;
      }
      totals := totals[dc.client := dc.numRequests];
      return Accounted;
    }
  }
}
