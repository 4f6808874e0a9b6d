/**
 * The daemon's client handler monitor: it matches the handle of each client
 * handler thread with the notice that its client disconnected, in whichever
 * order the two arrive, and joins the thread once it has both. On stop it
 * waits for the handles of clients that disconnected before their handle
 * arrived, then stops and joins every remaining handler.
 */
module ClientHandlerMonitor {
  import opened Ids

  /** What the monitor receives, in the order it receives it. */
  datatype MonitorEvent =
    | Stop
    | Handle(client: Uuid)
    | HandleError
    | Disconnected(client: Uuid)
    | DisconnectError

  /**
   * How the run ends: `Finished`; `Blocked` waiting for a stop that never
   * comes; `Panicked` when the handle channel closes while a disconnected
   * client's handle is still awaited.
   */
  datatype Outcome = Finished | Blocked | Panicked

  /**
   * The handlers joined, in order, and the handlers told to stop and joined
   * at the end (in the map's order, which is not modelled).
   */
  datatype Monitored = Monitored(joined: seq<Uuid>, stopped: set<Uuid>, outcome: Outcome)

  /** The clients whose handle is among the events. */
  ghost function HandleClients(events: seq<MonitorEvent>): set<Uuid> {
    if events == [] then {}
    else
      var last := events[|events| - 1];
      HandleClients(events[..|events| - 1]) + (if last.Handle? then {last.client} else {})
  }

  /** The clients whose disconnect is among the events. */
  ghost function DisconnectClients(events: seq<MonitorEvent>): set<Uuid> {
    if events == [] then {}
    else
      var last := events[|events| - 1];
      DisconnectClients(events[..|events| - 1]) + (if last.Disconnected? then {last.client} else {})
  }

  lemma {:induction false} InHandleClients(events: seq<MonitorEvent>, c: Uuid)
    ensures c in HandleClients(events) <==> exists k :: 0 <= k < |events| && events[k] == Handle(c)
  {
    if events != [] {
      var front := events[..|events| - 1];
      InHandleClients(front, c);
      assert forall k :: 0 <= k < |front| ==> front[k] == events[k];
    }
  }

  lemma {:induction false} InDisconnectClients(events: seq<MonitorEvent>, c: Uuid)
    ensures c in DisconnectClients(events) <==> exists k :: 0 <= k < |events| && events[k] == Disconnected(c)
  {
    if events != [] {
      var front := events[..|events| - 1];
      InDisconnectClients(front, c);
      assert forall k :: 0 <= k < |front| ==> front[k] == events[k];
    }
  }

  /**
   * What the daemon guarantees: each client handler sends its handle once
   * and reports its client's disconnect once.
   */
  ghost predicate Unique(events: seq<MonitorEvent>, later: seq<Uuid>) {
    (forall i, j :: 0 <= i < j < |events| && events[i].Handle? && events[j].Handle? ==>
       events[i].client != events[j].client)
    && (forall i, j :: 0 <= i < j < |events| && events[i].Disconnected? && events[j].Disconnected? ==>
       events[i].client != events[j].client)
    && (forall i, j :: 0 <= i < |events| && 0 <= j < |later| && events[i].Handle? ==> events[i].client != later[j])
    && NoDuplicates(later)
  }

  /** The index of the first stop, or the length when there is none. */
  function StopIndex(events: seq<MonitorEvent>): (r: nat)
    ensures r <= |events|
    ensures r < |events| ==> events[r] == Stop
    ensures forall k :: 0 <= k < r ==> events[k] != Stop
  {
    if events == [] then 0
    else if events[0] == Stop then 0
    else 1 + StopIndex(events[1..])
  }

  /** The clients that disconnected before the stop but whose handle had not arrived. */
  ghost function PendingAtStop(events: seq<MonitorEvent>): set<Uuid> {
    var before := events[..StopIndex(events)];
    DisconnectClients(before) - HandleClients(before)
  }

  /** The state of the first loop after `i` events, when the events are unique. */
  ghost predicate Matched(events: seq<MonitorEvent>, i: nat, handles: set<Uuid>, pending: set<Uuid>, joined: seq<Uuid>)
    requires i <= |events|
  {
    var h := HandleClients(events[..i]);
    var d := DisconnectClients(events[..i]);
    handles == h - d && pending == d - h
    && (forall c :: c in joined <==> c in h && c in d)
    && NoDuplicates(joined)
  }

  /** A handle arriving: joined at once if its client already disconnected, else stored. */
  lemma HandleStep(events: seq<MonitorEvent>, later: seq<Uuid>, i: nat,
                   handles: set<Uuid>, pending: set<Uuid>, joined: seq<Uuid>)
    requires i < |events| && events[i].Handle? && Unique(events, later)
    requires Matched(events, i, handles, pending, joined)
    ensures var c := events[i].client;
      if c in pending then Matched(events, i + 1, handles, pending - {c}, joined + [c])
      else Matched(events, i + 1, handles + {c}, pending, joined)
  {
    var c := events[i].client;
    assert events[..i + 1][..i] == events[..i];
    InHandleClients(events[..i], c);
    assert c !in HandleClients(events[..i]);
    assert c !in joined;
  }

  /** A disconnect arriving: the stored handle is joined, or the client waits for its handle. */
  lemma DisconnectStep(events: seq<MonitorEvent>, later: seq<Uuid>, i: nat,
                       handles: set<Uuid>, pending: set<Uuid>, joined: seq<Uuid>)
    requires i < |events| && events[i].Disconnected? && Unique(events, later)
    requires Matched(events, i, handles, pending, joined)
    ensures var c := events[i].client;
      if c in handles then Matched(events, i + 1, handles - {c}, pending, joined + [c])
      else Matched(events, i + 1, handles, pending + {c}, joined)
  {
    var c := events[i].client;
    assert events[..i + 1][..i] == events[..i];
    InDisconnectClients(events[..i], c);
    assert c !in DisconnectClients(events[..i]);
    assert c !in joined;
  }

  /** An error receiving: nothing changes. */
  lemma ErrorStep(events: seq<MonitorEvent>, i: nat, handles: set<Uuid>, pending: set<Uuid>, joined: seq<Uuid>)
    requires i < |events| && (events[i].HandleError? || events[i].DisconnectError?)
    requires Matched(events, i, handles, pending, joined)
    ensures Matched(events, i + 1, handles, pending, joined)
  {
    assert events[..i + 1][..i] == events[..i];
  }

  /**
   * `ClientHandlerMonitor::run` over the events it receives and the handles
   * that arrive after the stop. When every client sends one handle and one
   * disconnect, no handler is joined twice, every client that disconnected
   * before the stop is joined, and exactly the handlers whose client is
   * still connected are stopped.
   */
  method Run(events: seq<MonitorEvent>, later: seq<Uuid>) returns (r: Monitored)
    ensures r.outcome.Blocked? <==> Stop !in events
    ensures r.outcome.Panicked? ==> Stop in events
    ensures Unique(events, later) ==>
      (r.outcome.Panicked? <==> Stop in events && !(forall c :: c in PendingAtStop(events) ==> c in later))
    ensures Unique(events, later) && r.outcome.Finished? ==>
      var before := events[..StopIndex(events)];
      NoDuplicates(r.joined)
      && r.stopped == HandleClients(before) - DisconnectClients(before)
      && (forall c :: c in DisconnectClients(before) ==> c in r.joined)
      && (forall c :: c in r.joined ==> c !in r.stopped)
  {
    ghost var unique := Unique(events, later);
    var handles: set<Uuid> := {};
    var pending: set<Uuid> := {};
    var joined: seq<Uuid> := [];
    var i := 0;
    while i < |events| && events[i] != Stop
      invariant 0 <= i <= |events|
      invariant forall k :: 0 <= k < i ==> events[k] != Stop
      invariant unique ==> Matched(events, i, handles, pending, joined)
      decreases |events| - i
    {
      match events[i] {
      case Handle(c) =>
        if unique {
          HandleStep(events, later, i, handles, pending, joined);
        }
        if c in pending {
          pending := pending - {c};
          joined := joined + [c];
        } else {
          handles := handles + {c};
        }
      case Disconnected(c) =>
        if unique {
          DisconnectStep(events, later, i, handles, pending, joined);
        }
        if c in handles {
          handles := handles - {c};
          joined := joined + [c];
        } else {
          pending := pending + {c};
        }
      case HandleError =>
        if unique {
          ErrorStep(events, i, handles, pending, joined);
        }
      case DisconnectError =>
        if unique {
          ErrorStep(events, i, handles, pending, joined);
        }
      }
      i := i + 1;
    }
    if i == |events| {
      assert Stop !in events;
      return Monitored(joined, {}, Blocked);
    }
    assert i == StopIndex(events);
    assert Stop in events;
    // drain: wait for the handle of every client that already disconnected
    ghost var matched := joined;
    ghost var waited := pending;
    var j := 0;
    while pending != {}
      invariant 0 <= j <= |later|
      invariant forall c :: c in pending <==> c in waited && c !in later[..j]
      invariant joined == matched + later[..j]
      decreases |later| - j
    {
      if j == |later| {
        assert later[..j] == later;
        return Monitored(joined, {}, Panicked);
      }
      var c := later[j];
      assert later[..j + 1] == later[..j] + [c];
      joined := joined + [c];
      pending := pending - {c};
      j := j + 1;
    }
    if unique {
      Drained(events, later, i, j, handles, waited, matched);
    }
    return Monitored(joined, handles, Finished);
  }

  /** After the drain, the joined handlers and the stopped ones are as `Run` promises. */
  lemma Drained(events: seq<MonitorEvent>, later: seq<Uuid>, i: nat, j: nat,
                handles: set<Uuid>, waited: set<Uuid>, matched: seq<Uuid>)
    requires Unique(events, later) && i <= |events| && j <= |later|
    requires Matched(events, i, handles, waited, matched)
    requires forall c :: c in waited ==> c in later[..j]
    ensures var h := HandleClients(events[..i]);
      var d := DisconnectClients(events[..i]);
      NoDuplicates(matched + later[..j])
      && (forall c :: c in d ==> c in matched + later[..j])
      && (forall c :: c in matched + later[..j] ==> c !in h - d)
  {
    var h := HandleClients(events[..i]);
    var all := matched + later[..j];
    forall c | c in later[..j]
      ensures c !in h
    {
      InHandleClients(events[..i], c);
    }
    forall a, b | 0 <= a < b < |all|
      ensures all[a] != all[b]
    {
      if b < |matched| {
        assert all[a] == matched[a] && all[b] == matched[b];
      } else if a >= |matched| {
        assert all[a] == later[a - |matched|] && all[b] == later[b - |matched|];
      } else {
        assert all[a] == matched[a] && all[b] == later[..j][b - |matched|];
        assert all[a] in h;
      }
    }
  }
}
