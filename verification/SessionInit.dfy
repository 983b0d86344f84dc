/** The start-up handshake over a control client: `initialize`, then either the default sequence or
    the steps of a manifest, then the `stopped` event.  A deadline that expires ends the whole
    sequence, just as a wire that closes at that point would; so only the wire is modelled. */
module SessionInit {
  import opened Wrappers
  import opened ControlClient

  datatype Location = Location(path: string, line: int)

  /** One step of a manifest.  `record` is the entry location a step asks to note: absent, a
      template that does not resolve, or the resolved place. */
  datatype InitStep = InitStep(
    request: Option<string>,
    waitForEvent: Option<string>,
    waitForResponse: Option<string>,
    record: Field<Location>)

  datatype InitResult = InitResult(
    stopReason: Option<string>,
    threadId: Option<int>,
    entry: Option<Location>,
    capabilities: string)

  datatype Error = NoResponse | NoEvent | NoCapabilities | NoEntry

  // ----- where each sequence leaves the client ---------------------------------------------------

  function Then(wire: seq<Message>, c: Option<Cursor>, w: Wait): (r: Option<Cursor>)
    requires c.Some? ==> c.value.read <= |wire|
    ensures r.Some? ==> c.Some? && r == Await(wire, c.value, w) && r.value.read <= |wire| && r.value.taken != []
  {
    if c.Some? then Await(wire, c.value, w) else None
  }

  /** A request goes out and its response is awaited on the wire. */
  function Asked(wire: seq<Message>, c: Option<Cursor>): (r: Option<Cursor>)
    requires c.Some? ==> c.value.read <= |wire|
    ensures r.Some? ==> c.Some? && r.value.read <= |wire| && r.value.taken != []
    ensures r.Some? ==> r.value.seqNo == c.value.seqNo + 1
  {
    if c.Some? then Await(wire, Sent(c.value), OnWire(ResponseTo(c.value.seqNo))) else None
  }

  function Sent(c: Cursor): Cursor {
    c.(seqNo := c.seqNo + 1)
  }

  function AfterDefault(wire: seq<Message>, c: Cursor): (r: Option<Cursor>)
    requires c.read <= |wire|
    ensures r.Some? ==> r.value.read <= |wire|
  {
    Asked(wire, Then(wire, Asked(wire, Some(c)), KeptFirst(EventNamed("initialized"))))
  }

  function AfterStep(wire: seq<Message>, c: Cursor, step: InitStep): (r: Option<Cursor>)
    requires c.read <= |wire|
    ensures r.Some? ==> r.value.read <= |wire| && c.seqNo <= r.value.seqNo <= c.seqNo + 1
  {
    if step.request.None? then
      if step.waitForResponse.Some? then Then(wire, Some(c), KeptFirst(ResponseNamed(step.waitForResponse.value)))
      else Some(c)
    else if step.record.Mistyped? then None
    else if step.waitForEvent.Some? then
      var seen := Then(wire, Some(Sent(c)), OnWire(EventNamed(step.waitForEvent.value)));
      if step.waitForResponse == step.request then Then(wire, seen, KeptFirst(ResponseTo(c.seqNo))) else seen
    else
      var answered := Asked(wire, Some(c));
      if step.waitForResponse.Some? then
        Then(wire, answered, KeptFirst(ResponseNamed(step.waitForResponse.value)))
      else answered
  }

  function AfterSteps(wire: seq<Message>, c: Cursor, steps: seq<InitStep>): (r: Option<Cursor>)
    requires c.read <= |wire|
    ensures r.Some? ==> r.value.read <= |wire| && c.seqNo <= r.value.seqNo <= c.seqNo + |steps|
    decreases |steps|
  {
    if steps == [] then Some(c)
    else
      var before := AfterSteps(wire, c, steps[..|steps| - 1]);
      if before.Some? then AfterStep(wire, before.value, steps[|steps| - 1]) else None
  }

  function Entry(steps: seq<InitStep>): Option<Location> {
    if steps == [] then None
    else
      var step := steps[|steps| - 1];
      if step.request.Some? && step.record.Is? then Some(step.record.value) else Entry(steps[..|steps| - 1])
  }

  function Asks(steps: seq<InitStep>, seqNo: int): seq<Message> {
    if steps == [] then []
    else
      var before := Asks(steps[..|steps| - 1], seqNo);
      var step := steps[|steps| - 1];
      if step.request.Some? then before + [Request(seqNo + |before|, step.request.value)] else before
  }

  /** Step `i` asks for an entry location to be noted. */
  predicate Notes(steps: seq<InitStep>, i: nat) {
    i < |steps| && steps[i].request.Some? && steps[i].record.Is?
  }

  ghost predicate LastNotes(steps: seq<InitStep>, i: nat) {
    Notes(steps, i) && forall j: nat :: i < j ==> !Notes(steps, j)
  }

  /** The entry location is that of the last step that asks, with its request, for one to be noted. */
  lemma {:induction false} EntryIsLast(steps: seq<InitStep>)
    ensures forall i: nat :: LastNotes(steps, i) ==> Entry(steps) == Some(steps[i].record.value)
    ensures (forall i: nat :: !Notes(steps, i)) ==> Entry(steps) == None
    decreases |steps|
  {
    if steps != [] {
      var fewer, last := steps[..|steps| - 1], |steps| - 1;
      EntryIsLast(fewer);
      assert forall i: nat :: i < last ==> (Notes(steps, i) <==> Notes(fewer, i));
      assert forall i: nat :: Notes(fewer, i) ==> i < last;
      if Notes(steps, last) {
        assert forall i: nat :: LastNotes(steps, i) ==> i == last;
      } else {
        assert forall i: nat :: LastNotes(steps, i) ==> i < last && LastNotes(fewer, i);
      }
    }
  }

  /** The commands that steps send, in order. */
  function Commands(steps: seq<InitStep>): seq<string> {
    if steps == [] then []
    else (if steps[0].request.Some? then [steps[0].request.value] else []) + Commands(steps[1..])
  }

  /** Steps send their commands in order, under consecutive numbers. */
  lemma {:induction false} AsksInOrder(steps: seq<InitStep>, s: int)
    ensures |Asks(steps, s)| == |Commands(steps)|
    ensures forall k :: 0 <= k < |Asks(steps, s)| ==> Asks(steps, s)[k] == Request(s + k, Commands(steps)[k])
    decreases |steps|
  {
    if steps != [] {
      var fewer := steps[..|steps| - 1];
      AsksInOrder(fewer, s);
      CommandsEnd(steps);
    }
  }

  lemma {:induction false} CommandsEnd(steps: seq<InitStep>)
    requires steps != []
    ensures var last := steps[|steps| - 1].request;
      Commands(steps) == Commands(steps[..|steps| - 1]) + if last.Some? then [last.value] else []
    decreases |steps|
  {
    if |steps| > 1 {
      CommandsEnd(steps[1..]);
      assert steps[1..][..|steps| - 2] == steps[..|steps| - 1][1..];
    } else {
      assert steps[1..] == [];
    }
  }

  /** The whole handshake: where it leaves the client, if it succeeds. */
  function AfterHandshake(wire: seq<Message>, c: Cursor, steps: seq<InitStep>): (r: Option<Cursor>)
    requires c.read <= |wire|
    ensures r.Some? ==> r.value.read <= |wire| && r.value.taken != [] && Last(r.value) < |wire|
    ensures r.Some? ==> wire[Last(r.value)].Event?
    ensures r.Some? ==> Greeting(wire, c).Some?
  {
    var greeted := Asked(wire, Some(c));
    if Greeting(wire, c).None? then None
    else
      var ready := if steps == [] then AfterDefault(wire, greeted.value) else AfterSteps(wire, greeted.value, steps);
      Then(wire, ready, KeptFirst(EventNamed("stopped")))
  }

  /** The capabilities in the response to `initialize`. */
  function Greeting(wire: seq<Message>, c: Cursor): (r: Option<string>)
    requires c.read <= |wire|
    ensures r.Some? ==> Asked(wire, Some(c)).Some?
  {
    match Asked(wire, Some(c))
    case Some(greeted) => Capabilities(wire[Last(greeted)])
    case None => None
  }

  function Capabilities(m: Message): Option<string> {
    if m.Response? && m.body.Some? then m.body.value.capabilities else None
  }

  // ----- the sequences themselves -------------------------------------------------------------------

  method Ask(client: ControlClient, command: string) returns (r: Option<Message>)
    requires client.Valid()
    modifies client`read, client`pending, client`seqNo, client`sent, client`kept, client`taken
    ensures client.Valid() && client.seqNo == old(client.seqNo) + 1
    ensures client.sent == old(client.sent) + [Request(old(client.seqNo), command)]
    ensures r.Some? <==> Asked(client.wire, Some(old(client.Where()))).Some?
    ensures r.Some? ==> Some(client.Where()) == Asked(client.wire, Some(old(client.Where())))
    ensures r.Some? ==> r.value == client.wire[Last(client.Where())]
  {
    r := client.DapRequestPreserveEvents(command, |client.wire|);
  }

  method AskForEvent(client: ControlClient, command: string, event: string) returns (n: int, r: Option<Message>)
    requires client.Valid()
    modifies client`read, client`pending, client`seqNo, client`sent, client`kept, client`taken
    ensures client.Valid() && n == old(client.seqNo) && client.seqNo == n + 1
    ensures client.sent == old(client.sent) + [Request(n, command)]
    ensures r.Some? <==> Then(client.wire, Some(Sent(old(client.Where()))), OnWire(EventNamed(event))).Some?
    ensures r.Some? ==>
      Some(client.Where()) == Then(client.wire, Some(Sent(old(client.Where()))), OnWire(EventNamed(event)))
  {
    n, r := client.SendDapRequestAndWaitForEvent(command, event, |client.wire|);
  }

  method AwaitKept(client: ControlClient, want: Want) returns (r: Option<Message>)
    requires client.Valid()
    modifies client`read, client`pending, client`kept, client`taken
    ensures client.Valid()
    ensures r.Some? <==> Then(client.wire, Some(old(client.Where())), KeptFirst(want)).Some?
    ensures r.Some? ==> Some(client.Where()) == Then(client.wire, Some(old(client.Where())), KeptFirst(want))
    ensures r.Some? ==> r.value == client.wire[Last(client.Where())]
  {
    match want
    case ResponseTo(n) => r := client.WaitForResponseSeq(n);
    case ResponseNamed(command) => r := client.WaitForResponseNamed(command);
    case EventNamed(name) => r := client.WaitForEvent(name, |client.wire|);
  }

  method RunDefaultInitSequence(client: ControlClient, request: string) returns (r: Result<(), Error>)
    requires client.Valid()
    modifies client`read, client`pending, client`seqNo, client`sent, client`kept, client`taken
    ensures client.Valid()
    ensures r.Ok? <==> AfterDefault(client.wire, old(client.Where())).Some?
    ensures r.Ok? ==> Some(client.Where()) == AfterDefault(client.wire, old(client.Where()))
    ensures r.Ok? ==> (client.sent == old(client.sent) +
      [Request(old(client.seqNo), request), Request(old(client.seqNo) + 1, "configurationDone")])
  {
    hide Await, Asked, Then, Last, Earliest, Partition, Within;
    var response := Ask(client, request);
    if response.None? {
      return Err(NoResponse);
    }
    var event := AwaitKept(client, EventNamed("initialized"));
    if event.None? {
      return Err(NoEvent);
    }
    response := Ask(client, "configurationDone");
    if response.None? {
      return Err(NoResponse);
    }
    return Ok(());
  }

  /** One iteration of the loop over the steps. */
  method RunStep(client: ControlClient, step: InitStep, entry: Option<Location>)
    returns (r: Result<Option<Location>, Error>)
    requires client.Valid()
    modifies client`read, client`pending, client`seqNo, client`sent, client`kept, client`taken
    ensures client.Valid()
    ensures r.Ok? <==> AfterStep(client.wire, old(client.Where()), step).Some?
    ensures r.Ok? ==> Some(client.Where()) == AfterStep(client.wire, old(client.Where()), step)
    ensures r.Ok? ==> r.value == if step.request.Some? && step.record.Is? then Some(step.record.value) else entry
    ensures r.Ok? ==> (client.sent == old(client.sent) +
      if step.request.Some? then [Request(old(client.seqNo), step.request.value)] else [])
    ensures r.Ok? ==> client.seqNo == old(client.seqNo) + if step.request.Some? then 1 else 0
  {
    hide Await, Asked, Then, Last, Earliest, Partition, Within;
    if step.request.None? {
      if step.waitForResponse.Some? {
        var named := AwaitKept(client, ResponseNamed(step.waitForResponse.value));
        if named.None? {
          return Err(NoResponse);
        }
      }
      return Ok(entry);
    }
    var command := step.request.value;
    if step.waitForEvent.Some? {
      var n, event := AskForEvent(client, command, step.waitForEvent.value);
      if event.None? {
        return Err(NoEvent);
      }
      if step.record.Mistyped? {
        return Err(NoEntry);
      }
      if step.waitForResponse == Some(command) {
        var answer := AwaitKept(client, ResponseTo(n));
        if answer.None? {
          return Err(NoResponse);
        }
      }
    } else {
      var response := Ask(client, command);
      if response.None? {
        return Err(NoResponse);
      }
      if step.record.Mistyped? {
        return Err(NoEntry);
      }
      if step.waitForResponse.Some? {
        var named := AwaitKept(client, ResponseNamed(step.waitForResponse.value));
        if named.None? {
          return Err(NoResponse);
        }
      }
    }
    return Ok(if step.record.Is? then Some(step.record.value) else entry);
  }

  method RunManifestInitSequence(client: ControlClient, steps: seq<InitStep>)
    returns (r: Result<Option<Location>, Error>)
    requires client.Valid()
    modifies client`read, client`pending, client`seqNo, client`sent, client`kept, client`taken
    ensures client.Valid()
    ensures r.Ok? <==> AfterSteps(client.wire, old(client.Where()), steps).Some?
    ensures r.Ok? ==> Some(client.Where()) == AfterSteps(client.wire, old(client.Where()), steps)
    ensures r.Ok? ==> r.value == Entry(steps)
    ensures r.Ok? ==> client.sent == old(client.sent) + Asks(steps, old(client.seqNo))
  {
    hide AfterStep, Await, Earliest, Partition, Within;
    var entry := None;
    for i := 0 to |steps|
      invariant client.Valid()
      invariant AfterSteps(client.wire, old(client.Where()), steps[..i]) == Some(client.Where())
      invariant entry == Entry(steps[..i])
      invariant client.sent == old(client.sent) + Asks(steps[..i], old(client.seqNo))
      invariant client.seqNo == old(client.seqNo) + |Asks(steps[..i], old(client.seqNo))|
    {
      assert steps[..i + 1][..i] == steps[..i];
      var outcome := RunStep(client, steps[i], entry);
      if outcome.Err? {
        NeverRecovers(client.wire, old(client.Where()), steps, i + 1);
        return outcome;
      }
      entry := outcome.value;
    }
    assert steps[..|steps|] == steps;
    return Ok(entry);
  }

  lemma {:induction false} NeverRecovers(wire: seq<Message>, c: Cursor, steps: seq<InitStep>, i: nat)
    requires c.read <= |wire| && i <= |steps| && AfterSteps(wire, c, steps[..i]) == None
    ensures AfterSteps(wire, c, steps) == None
    decreases |steps|
  {
    if i == |steps| {
      assert steps[..i] == steps;
    } else {
      var shorter := steps[..|steps| - 1];
      assert shorter[..i] == steps[..i];
      NeverRecovers(wire, c, shorter, i);
    }
  }

  /** With no steps the default sequence runs. */
  method RunToStopped(client: ControlClient, request: string, steps: seq<InitStep>)
    returns (r: Result<InitResult, Error>)
    requires client.Valid()
    modifies client
    ensures client.Valid()
    ensures var done := AfterHandshake(client.wire, old(client.Where()), steps);
      if done.None? then r.Err?
      else r.Ok? && Some(client.Where()) == done
           && r.value.capabilities == Greeting(client.wire, old(client.Where())).value
           && client.capabilities == Some(r.value.capabilities)
           && r.value.entry == Entry(steps)
           && client.sent == old(client.sent) + [Request(old(client.seqNo), "initialize")]
                + (if steps != [] then Asks(steps, old(client.seqNo) + 1)
                   else [Request(old(client.seqNo) + 1, request), Request(old(client.seqNo) + 2, "configurationDone")])
           && r.value.stopReason == Reason(client.wire[Last(done.value)])
           && r.value.threadId == ThreadId(client.wire[Last(done.value)])
  {
    hide Await, Asked, Then, Last, Earliest, Partition, Within, AfterDefault, AfterSteps;
    var response := Ask(client, "initialize");
    if response.None? {
      return Err(NoResponse);
    }
    var capabilities := Capabilities(response.value);
    if capabilities.None? {
      return Err(NoCapabilities);
    }
    client.capabilities := capabilities;
    var entry := None;
    if steps == [] {
      var outcome := RunDefaultInitSequence(client, request);
      if outcome.Err? {
        return Err(outcome.error);
      }
    } else {
      var outcome := RunManifestInitSequence(client, steps);
      if outcome.Err? {
        return Err(outcome.error);
      }
      entry := outcome.value;
    }
    var stopped := AwaitKept(client, EventNamed("stopped"));
    if stopped.None? {
      return Err(NoEvent);
    }
    return Ok(InitResult(Reason(stopped.value), ThreadId(stopped.value), entry, capabilities.value));
  }

  /** The same, and what is kept for later is exactly what was read and not handed out. */
  method RunDebugRequest(client: ControlClient, request: string, steps: seq<InitStep>)
    returns (r: Result<InitResult, Error>)
    requires client.Valid()
    modifies client
    ensures client.Valid() && client.pending == Unconsumed(client.wire, client.taken, client.read)
    ensures var done := AfterHandshake(client.wire, old(client.Where()), steps);
      if done.None? then r.Err?
      else r.Ok? && Some(client.Where()) == done
           && r.value.capabilities == Greeting(client.wire, old(client.Where())).value
           && client.capabilities == Some(r.value.capabilities)
           && r.value.entry == Entry(steps)
           && client.sent == old(client.sent) + [Request(old(client.seqNo), "initialize")]
                + (if steps != [] then Asks(steps, old(client.seqNo) + 1)
                   else [Request(old(client.seqNo) + 1, request), Request(old(client.seqNo) + 2, "configurationDone")])
           && r.value.stopReason == Reason(client.wire[Last(done.value)])
           && r.value.threadId == ThreadId(client.wire[Last(done.value)])
  {
    r := RunToStopped(client, request, steps);
    PendingIsUnconsumed(client.wire, client.kept, client.taken, client.read);
  }

  function Reason(m: Message): Option<string> {
    if m.Event? && m.body.Some? then m.body.value.reason else None
  }

  function ThreadId(m: Message): Option<int> {
    if m.Event? && m.body.Some? then m.body.value.threadId else None
  }
}
