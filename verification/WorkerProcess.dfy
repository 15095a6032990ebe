/** One worker processing one claimed job. */
module WorkerProcess {
  // The select loop of worker/service.go as a loop over the events that become ready,
  // returning the store calls it makes, all of them with the snapshot it was given.

  import opened JobTables

  datatype Event =
    | RunContextDone
    | ShutdownDeadline
    | HandlerSucceeded
    | HandlerFailed(kind: ErrorKind)
    | HeartbeatTick(owned: bool)

  datatype Call = CallHeartbeat | CallComplete | CallFail(kind: ErrorKind)

  /** Shutdown begins when the run context ends and only then can its deadline fire. */
  predicate ShuttingDown(events: seq<Event>) { RunContextDone in events }

  /** The event at which the loop returns. */
  predicate Ends(events: seq<Event>, i: nat)
    requires i < |events|
  {
    match events[i]
    case RunContextDone => false
    case ShutdownDeadline => ShuttingDown(events[..i])
    case HandlerSucceeded => true
    case HandlerFailed(_) => true
    case HeartbeatTick(owned) => !owned
  }

  function Ticks(events: seq<Event>): seq<Call> {
    if events == [] then []
    else Ticks(events[..|events| - 1]) + if events[|events| - 1].HeartbeatTick? then [CallHeartbeat] else []
  }

  lemma {:induction false} TicksAreHeartbeats(events: seq<Event>)
    ensures forall i :: 0 <= i < |Ticks(events)| ==> Ticks(events)[i].CallHeartbeat?
  {
    if events != [] {
      TicksAreHeartbeats(events[..|events| - 1]);
    }
  }

  /**
   The calls are heartbeats, then at most one Complete or Fail, and nothing after
   it. The first ending event decides that call; without one the loop is still running.
   */
  method Process(handlerKnown: bool, events: seq<Event>) returns (calls: seq<Call>)
    ensures !handlerKnown ==> calls == [CallFail(Permanent)]
    ensures handlerKnown && (forall i :: 0 <= i < |events| ==> !Ends(events, i)) ==> calls == Ticks(events)
    ensures forall i ::
              handlerKnown && 0 <= i < |events| && Ends(events, i) && (forall j :: 0 <= j < i ==> !Ends(events, j)) ==>
                calls == Ticks(events[..i + 1]) +
                  [match events[i]
                   case HandlerSucceeded => CallComplete
                   case HandlerFailed(kind) => CallFail(kind)
                   case HeartbeatTick(_) => CallFail(Cancellation)
                   case _ => CallFail(Transient)]
    ensures forall i :: 0 <= i < |calls| - 1 ==> calls[i].CallHeartbeat?
  {
    if !handlerKnown {
      return [CallFail(Permanent)];
    }
    calls := [];
    var shutdown := false;
    for i := 0 to |events|
      invariant calls == Ticks(events[..i])
      invariant forall j :: 0 <= j < i ==> !Ends(events, j)
      invariant shutdown == ShuttingDown(events[..i])
    {
      var event := events[i];
      assert events[..i + 1][..i] == events[..i];
      TicksAreHeartbeats(events[..i]);
      match event {
        case RunContextDone =>
          shutdown := true;
        case ShutdownDeadline =>
          if shutdown {
            assert Ends(events, i);
            return calls + [CallFail(Transient)];
          }
        case HandlerSucceeded =>
          assert Ends(events, i);
          return calls + [CallComplete];
        case HandlerFailed(kind) =>
          assert Ends(events, i);
          return calls + [CallFail(kind)];
        case HeartbeatTick(owned) =>
          calls := calls + [CallHeartbeat];
          if !owned {
            assert Ends(events, i);
            return calls + [CallFail(Cancellation)];
          }
      }
    }
    assert events[..|events|] == events;
    TicksAreHeartbeats(events);
  }
}
