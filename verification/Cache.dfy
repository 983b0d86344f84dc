/** `LateJoinCache`: what a client that attaches late is told, and the breakpoint tracker. */
module Cache {
  import opened Wrappers
  import opened MuxMessage
  import opened BreakpointState
  import opened BreakpointModel

  /** The initialize response a late joiner receives. */
  function ReplayedInitialize(body: Body): Message {
    LocalResponse(0, 0, Some("initialize"), body)
  }

  predicate IsInitializeSuccess(m: Message) {
    m.IsCommand("initialize") && m.success == Some(true)
  }

  /** The messages replayed for given cached values, in order. */
  function ReplayOf(initializeBody: Option<Body>, initialized: Option<Message>, lastStopped: Option<Message>)
    : seq<Message>
  {
    (if initializeBody.Some? then [ReplayedInitialize(initializeBody.value)] else [])
    + (if initialized.Some? then [initialized.value] else [])
    + (if lastStopped.Some? then [lastStopped.value] else [])
  }

  class LateJoinCache {
    var initialized: Option<Message>
    var lastStopped: Option<Message>
    var initializeBody: Option<Body>
    const breakpoints: BreakpointTracker

    constructor ()
      ensures initialized == lastStopped == None && initializeBody == None
      ensures fresh(breakpoints) && breakpoints.Value() == EMPTY
    {
      initialized, lastStopped, initializeBody := None, None, None;
      breakpoints := new BreakpointTracker();
    }

    method Observe(message: Message)
      modifies this`initialized, this`lastStopped, breakpoints
      ensures initialized == if message.IsEvent("initialized") then Some(message) else old(initialized)
      ensures lastStopped == if message.IsEvent("stopped") then Some(message) else old(lastStopped)
      ensures breakpoints.Value() ==
        if message.IsEvent("breakpoint") then Next(old(breakpoints.Value()), Notified(message))
        else old(breakpoints.Value())
    {
      if message.kind != Event {
        return;
      }
      match message.event {
        case Some(name) =>
          if name == "initialized" {
            initialized := Some(message);
          } else if name == "stopped" {
            lastStopped := Some(message);
          } else if name == "breakpoint" {
            breakpoints.ObserveBreakpointEvent(message);
          }
        case None =>
      }
    }

    method ObserveResponse(message: Message)
      modifies this`initializeBody, breakpoints
      ensures initializeBody ==
        if message.kind == Response && IsInitializeSuccess(message) then message.body else old(initializeBody)
      ensures breakpoints.Value() ==
        if message.kind == Response then Next(old(breakpoints.Value()), Responded(message))
        else old(breakpoints.Value())
    {
      if message.kind != Response {
        return;
      }
      if message.command == Some("initialize") && message.success == Some(true) {
        initializeBody := message.body;
      }
      breakpoints.ObserveSetBreakpointsResponse(message);
    }

    method ObserveClientRequest(backendSeq: int, message: Message)
      modifies breakpoints
      ensures breakpoints.Value() ==
        if message.IsCommand("setBreakpoints") then Next(old(breakpoints.Value()), Requested(backendSeq, message))
        else if message.IsCommand("setExceptionBreakpoints")
        then Next(old(breakpoints.Value()), ExceptionsRequested(message))
        else old(breakpoints.Value())
    {
      match message.command {
        case Some(name) =>
          if name == "setBreakpoints" {
            breakpoints.TrackSetBreakpointsRequest(backendSeq, message);
          } else if name == "setExceptionBreakpoints" {
            breakpoints.TrackSetExceptionBreakpointsRequest(message);
          }
        case None =>
      }
    }

    method BreakpointSnapshot() returns (body: Body)
      ensures body == Snapshot(breakpoints.Value().files, breakpoints.Value().exceptions)
    {
      body := Snapshot(breakpoints.sourceBreakpoints, breakpoints.exceptionBreakpoints);
    }

    method Replay() returns (out: seq<Message>)
      ensures out == ReplayOf(initializeBody, initialized, lastStopped)
    {
      out := [];
      match initializeBody {
        case Some(body) => out := out + [ReplayedInitialize(body)];
        case None =>
      }
      match initialized {
        case Some(message) => out := out + [message];
        case None =>
      }
      match lastStopped {
        case Some(message) => out := out + [message];
        case None =>
      }
    }
  }
}
