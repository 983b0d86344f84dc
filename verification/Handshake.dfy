/** Which wires let the handshake succeed, and what it then reports. */
module Handshake {
  import opened Wrappers
  import opened ControlClient
  import opened SessionInit

  /** `p` is the first position from `from` on that fits. */
  ghost predicate IsFirst(wire: seq<Message>, want: Want, from: nat, p: nat) {
    from <= p < |wire| && Fits(wire[p], want) && forall q: nat :: from <= q < p ==> !Fits(wire[q], want)
  }

  ghost predicate Occurs(wire: seq<Message>, want: Want, from: nat) {
    exists p: nat :: from <= p < |wire| && Fits(wire[p], want)
  }

  lemma OnWireIsFirst(wire: seq<Message>, c: Cursor, want: Want)
    requires c.read <= |wire|
    ensures var r := Await(wire, c, OnWire(want));
      (r.Some? <==> Occurs(wire, want, c.read)) &&
      (r.Some? ==> IsFirst(wire, want, c.read, Last(r.value)) &&
                   r.value == Cursor(c.taken + [Last(r.value)], Last(r.value) + 1, c.seqNo))
  {
  }

  lemma FirstOnWire(wire: seq<Message>, c: Cursor, want: Want, p: nat)
    requires c.read <= |wire| && IsFirst(wire, want, c.read, p)
    ensures Await(wire, c, OnWire(want)) == Some(Cursor(c.taken + [p], p + 1, c.seqNo))
  {
  }

  lemma KeptIsFirst(wire: seq<Message>, c: Cursor, want: Want)
    requires c.read <= |wire|
    requires forall i :: 0 <= i < |c.taken| ==> c.taken[i] < |wire| && !Fits(wire[c.taken[i]], want)
    ensures var r := Await(wire, c, KeptFirst(want));
      (r.Some? <==> Occurs(wire, want, 0)) &&
      (r.Some? ==> IsFirst(wire, want, 0, Last(r.value)) && r.value == Take(c, Last(r.value)))
  {
  }

  /** A request that is answered is answered by the first response to it on the wire. */
  lemma AskedFirst(wire: seq<Message>, c: Cursor) returns (d: Cursor)
    requires c.read <= |wire| && Asked(wire, Some(c)).Some?
    ensures Asked(wire, Some(c)) == Some(d) && d.taken != []
    ensures d == Cursor(c.taken + [Last(d)], Last(d) + 1, c.seqNo + 1)
    ensures IsFirst(wire, ResponseTo(c.seqNo), c.read, Last(d))
  {
    OnWireIsFirst(wire, Sent(c), ResponseTo(c.seqNo));
    d := Asked(wire, Some(c)).value;
  }

  // ----- the default sequence --------------------------------------------------------------------

  /** Positions of the answers to `initialize`, the launch request and `configurationDone`, in that
      order; of an `initialized` event before the last of them; and of a `stopped` event. */
  datatype Marks = Marks(init: nat, launch: nat, initialized: nat, done: nat, stopped: nat)

  ghost predicate Causal(wire: seq<Message>, s: int, m: Marks) {
    && m.init < m.launch < m.done < |wire| && m.initialized < m.done && m.stopped < |wire|
    && Fits(wire[m.init], ResponseTo(s))
    && Fits(wire[m.launch], ResponseTo(s + 1))
    && Fits(wire[m.done], ResponseTo(s + 2))
    && Fits(wire[m.initialized], EventNamed("initialized"))
    && Fits(wire[m.stopped], EventNamed("stopped"))
  }

  /** The first answer to `initialize` from position `r` on carries capabilities. */
  ghost predicate Greeted(wire: seq<Message>, r: nat, s: int, p: nat) {
    IsFirst(wire, ResponseTo(s), r, p) && Capabilities(wire[p]).Some?
  }

  /** A client that has read and kept the first `r` messages and handed out none: nothing read yet,
      or the late-join replay absorbed. */
  function Start(r: nat, s: int): Cursor {
    Cursor([], r, s)
  }

  /** What a default handshake that succeeds has done: it took the first answer to each request
      that lies after everything taken before, the first `initialized` and the first `stopped` of
      the whole wire, and nothing else. */
  lemma DefaultMarks(wire: seq<Message>, r: nat, s: int) returns (m: Marks)
    requires r <= |wire| && AfterHandshake(wire, Start(r, s), []).Some?
    ensures Causal(wire, s, m) && Greeted(wire, r, s, m.init)
    ensures IsFirst(wire, ResponseTo(s + 1), m.init + 1, m.launch)
    ensures IsFirst(wire, EventNamed("initialized"), 0, m.initialized)
    ensures IsFirst(wire, ResponseTo(s + 2), Max(m.launch, m.initialized) + 1, m.done)
    ensures IsFirst(wire, EventNamed("stopped"), 0, m.stopped)
    ensures AfterHandshake(wire, Start(r, s), []).value == Cursor(
      [m.init, m.launch, m.initialized, m.done, m.stopped], Max(m.done, m.stopped) + 1, s + 3)
  {
    hide Await, Earliest, Occurs, Asked, Capabilities;
    var c1 := AskedFirst(wire, Start(r, s));
    var c2 := AskedFirst(wire, c1);
    KeptIsFirst(wire, c2, EventNamed("initialized"));
    var c3 := Then(wire, Some(c2), KeptFirst(EventNamed("initialized"))).value;
    var c4 := AskedFirst(wire, c3);
    KeptIsFirst(wire, c4, EventNamed("stopped"));
    var c5 := Then(wire, Some(c4), KeptFirst(EventNamed("stopped"))).value;
    m := Marks(Last(c1), Last(c2), Last(c3), Last(c4), Last(c5));
  }

  lemma LaunchAnswered(wire: seq<Message>, r: nat, s: int, m: Marks) returns (launch: nat)
    requires r <= |wire| && Causal(wire, s, m) && Greeted(wire, r, s, m.init)
    ensures launch <= m.launch && Fits(wire[launch], ResponseTo(s + 1))
    ensures Asked(wire, Some(Start(r, s))) == Some(Cursor([m.init], m.init + 1, s + 1))
    ensures Asked(wire, Some(Cursor([m.init], m.init + 1, s + 1))) ==
      Some(Cursor([m.init, launch], launch + 1, s + 2))
  {
    hide Await, Earliest, Capabilities;
    FirstOnWire(wire, Sent(Start(r, s)), ResponseTo(s), m.init);
    var c1 := Cursor([m.init], m.init + 1, s + 1);
    OnWireIsFirst(wire, Sent(c1), ResponseTo(s + 1));
    assert Occurs(wire, ResponseTo(s + 1), m.init + 1);
    launch := Last(Asked(wire, Some(c1)).value);
    assert Sent(c1).taken + [launch] == [m.init, launch];
  }

  /** Any order in which a real adapter can send these messages, with anything in between, will do. */
  lemma OrderDoesNotMatter(wire: seq<Message>, r: nat, s: int, m: Marks)
    requires r <= |wire| && Causal(wire, s, m) && Greeted(wire, r, s, m.init)
    ensures AfterHandshake(wire, Start(r, s), []).Some?
  {
    hide Await, Earliest, Capabilities;
    var launch := LaunchAnswered(wire, r, s, m);
    var c2 := Cursor([m.init, launch], launch + 1, s + 2);
    KeptIsFirst(wire, c2, EventNamed("initialized"));
    assert Occurs(wire, EventNamed("initialized"), 0);
    var c3 := Then(wire, Some(c2), KeptFirst(EventNamed("initialized"))).value;
    assert Last(c3) <= m.initialized;
    OnWireIsFirst(wire, Sent(c3), ResponseTo(s + 2));
    assert Occurs(wire, ResponseTo(s + 2), c3.read);
    var c4 := Asked(wire, Some(c3)).value;
    KeptIsFirst(wire, c4, EventNamed("stopped"));
    assert Occurs(wire, EventNamed("stopped"), 0);
  }

  /** Exactly those wires. */
  lemma DefaultSucceedsExactly(wire: seq<Message>, r: nat, s: int)
    requires r <= |wire|
    ensures AfterHandshake(wire, Start(r, s), []).Some? <==>
      exists m: Marks :: Causal(wire, s, m) && Greeted(wire, r, s, m.init)
  {
    if AfterHandshake(wire, Start(r, s), []).Some? {
      var m := DefaultMarks(wire, r, s);
    }
    if m: Marks :| Causal(wire, s, m) && Greeted(wire, r, s, m.init) {
      OrderDoesNotMatter(wire, r, s, m);
    }
  }

  // ----- the python manifest ---------------------------------------------------------------------

  /** The steps of the python manifest: the launch response is claimed last. */
  function PythonSteps(entry: Location): seq<InitStep> {
    [InitStep(Some("launch"), Some("initialized"), None, Absent),
     InitStep(Some("setBreakpoints"), None, None, Is(entry)),
     InitStep(Some("configurationDone"), None, None, Absent),
     InitStep(None, None, Some("launch"), Absent)]
  }

  lemma PythonSequence(wire: seq<Message>, c: Cursor, entry: Location)
    requires c.read <= |wire|
    ensures AfterSteps(wire, c, PythonSteps(entry)) ==
      Then(wire, Asked(wire, Asked(wire, Then(wire, Some(Sent(c)), OnWire(EventNamed("initialized"))))),
           KeptFirst(ResponseNamed("launch")))
  {
    hide Await;
    var steps := PythonSteps(entry);
    assert steps[..3][..2] == steps[..2] && steps[..2][..1] == steps[..1] && steps[..1][..0] == [];
    assert AfterSteps(wire, c, steps[..1]) == Then(wire, Some(Sent(c)), OnWire(EventNamed("initialized")));
    assert AfterSteps(wire, c, steps[..2]) == Asked(wire, AfterSteps(wire, c, steps[..1]));
    assert AfterSteps(wire, c, steps[..3]) == Asked(wire, AfterSteps(wire, c, steps[..2]));
  }

  /** Positions for the python manifest; `launch` is that of a response named so. */
  datatype PythonMarks =
    PythonMarks(init: nat, initialized: nat, breakpoints: nat, done: nat, launch: nat, stopped: nat)

  /** Unlike the default sequence, this one only sees an `initialized` that follows the answer to
      `initialize`; the launch response may come at any time. */
  ghost predicate PythonOrder(wire: seq<Message>, r: nat, s: int, m: PythonMarks) {
    && Greeted(wire, r, s, m.init)
    && IsFirst(wire, EventNamed("initialized"), m.init + 1, m.initialized)
    && IsFirst(wire, ResponseTo(s + 2), m.initialized + 1, m.breakpoints)
    && IsFirst(wire, ResponseTo(s + 3), m.breakpoints + 1, m.done)
    && m.launch < |wire| && Fits(wire[m.launch], ResponseNamed("launch"))
    && m.launch !in [m.init, m.breakpoints, m.done]
    && m.stopped < |wire| && Fits(wire[m.stopped], EventNamed("stopped"))
  }

  lemma PythonSucceedsExactly(wire: seq<Message>, r: nat, s: int, entry: Location)
    requires r <= |wire|
    ensures AfterHandshake(wire, Start(r, s), PythonSteps(entry)).Some? <==>
      exists m: PythonMarks :: PythonOrder(wire, r, s, m)
  {
    if AfterHandshake(wire, Start(r, s), PythonSteps(entry)).Some? {
      var m := PythonMarksOf(wire, r, s, entry);
    }
    if m: PythonMarks :| PythonOrder(wire, r, s, m) {
      PythonSucceeds(wire, r, s, entry, m);
    }
  }

  /** Waiting by name takes a response with that name that has not been handed out. */
  lemma NamedAwaited(wire: seq<Message>, c: Cursor, command: string)
    requires c.read <= |wire|
    ensures var r := Await(wire, c, KeptFirst(ResponseNamed(command)));
      (r.Some? <==> exists p: nat :: p < |wire| && Fits(wire[p], ResponseNamed(command)) && p !in c.taken) &&
      (r.Some? ==> r.value == Take(c, Last(r.value)) && Last(r.value) !in c.taken)
  {
  }

  lemma PythonMarksOf(wire: seq<Message>, r: nat, s: int, entry: Location) returns (m: PythonMarks)
    requires r <= |wire| && AfterHandshake(wire, Start(r, s), PythonSteps(entry)).Some?
    ensures PythonOrder(wire, r, s, m)
  {
    hide Await, Earliest, Occurs, AfterSteps, Asked, Capabilities;
    var c1 := AskedFirst(wire, Start(r, s));
    PythonSequence(wire, c1, entry);
    OnWireIsFirst(wire, Sent(c1), EventNamed("initialized"));
    var c2 := Then(wire, Some(Sent(c1)), OnWire(EventNamed("initialized"))).value;
    var c3 := AskedFirst(wire, c2);
    var c4 := AskedFirst(wire, c3);
    NamedAwaited(wire, c4, "launch");
    var c5 := Then(wire, Some(c4), KeptFirst(ResponseNamed("launch"))).value;
    var c6 := AfterHandshake(wire, Start(r, s), PythonSteps(entry)).value;
    m := PythonMarks(Last(c1), Last(c2), Last(c3), Last(c4), Last(c5), Last(c6));
  }

  lemma PythonAnswered(wire: seq<Message>, r: nat, s: int, m: PythonMarks)
    requires r <= |wire| && PythonOrder(wire, r, s, m)
    ensures Asked(wire, Some(Start(r, s))) == Some(Cursor([m.init], m.init + 1, s + 1))
    ensures Asked(wire, Asked(wire, Then(wire, Some(Sent(Cursor([m.init], m.init + 1, s + 1))),
                                         OnWire(EventNamed("initialized"))))) ==
      Some(Cursor([m.init, m.initialized, m.breakpoints, m.done], m.done + 1, s + 4))
  {
    hide Await, Fits, Earliest;
    var c1 := Cursor([m.init], m.init + 1, s + 1);
    var c2 := Cursor([m.init, m.initialized], m.initialized + 1, s + 2);
    var c3 := Cursor([m.init, m.initialized, m.breakpoints], m.breakpoints + 1, s + 3);
    FirstOnWire(wire, Sent(Start(r, s)), ResponseTo(s), m.init);
    FirstOnWire(wire, Sent(c1), EventNamed("initialized"), m.initialized);
    assert Sent(c1).taken + [m.initialized] == c2.taken;
    FirstOnWire(wire, Sent(c2), ResponseTo(s + 2), m.breakpoints);
    assert Sent(c2).taken + [m.breakpoints] == c3.taken;
    FirstOnWire(wire, Sent(c3), ResponseTo(s + 3), m.done);
    assert Sent(c3).taken + [m.done] == [m.init, m.initialized, m.breakpoints, m.done];
  }

  lemma PythonSucceeds(wire: seq<Message>, r: nat, s: int, entry: Location, m: PythonMarks)
    requires r <= |wire| && PythonOrder(wire, r, s, m)
    ensures AfterHandshake(wire, Start(r, s), PythonSteps(entry)).Some?
  {
    hide Await, Earliest, AfterSteps;
    PythonAnswered(wire, r, s, m);
    PythonSequence(wire, Cursor([m.init], m.init + 1, s + 1), entry);
    var c4 := Cursor([m.init, m.initialized, m.breakpoints, m.done], m.done + 1, s + 4);
    NamedAwaited(wire, c4, "launch");
    var c5 := Await(wire, c4, KeptFirst(ResponseNamed("launch"))).value;
    assert c5.taken == [m.init, m.initialized, m.breakpoints, m.done, Last(c5)];
    KeptIsFirst(wire, c5, EventNamed("stopped"));
    assert Occurs(wire, EventNamed("stopped"), 0);
  }

  // ----- a step that waits for a response named like its own request ---------------------------

  /** Such a step, with no event to wait for, needs two different responses: the first one to its
      request, and another, not handed out yet, that carries the command; and an entry it notes must resolve. */
  lemma SelfWaitNeedsTwoResponses(wire: seq<Message>, c: Cursor, step: InitStep)
    requires c.read <= |wire| && step.request.Some? && step.waitForEvent == None
    requires step.waitForResponse == step.request
    ensures AfterStep(wire, c, step).Some? <==>
      && !step.record.Mistyped?
      && exists p: nat, q: nat :: (IsFirst(wire, ResponseTo(c.seqNo), c.read, p) && q < |wire| && q != p
           && q !in c.taken && Fits(wire[q], ResponseNamed(step.request.value)))
  {
    hide Await, Earliest;
    OnWireIsFirst(wire, Sent(c), ResponseTo(c.seqNo));
    var asked := Asked(wire, Some(c));
    if asked.Some? {
      NamedAwaited(wire, asked.value, step.request.value);
      forall q: nat ensures q in asked.value.taken <==> q in c.taken || q == Last(asked.value) {
        assert asked.value.taken == c.taken + [Last(asked.value)];
      }
    }
  }

  /** A step that asks and awaits an event on the wire: it sees only an event that is still to come,
      and claims the response to its request, from anywhere, only if it names its own command. */
  lemma EventStepExactly(wire: seq<Message>, c: Cursor, step: InitStep)
    requires c.read <= |wire| && step.request.Some? && step.waitForEvent.Some?
    requires Within(c.taken, c.read)
    ensures AfterStep(wire, c, step).Some? <==>
      && !step.record.Mistyped?
      && (exists e: nat :: c.read <= e < |wire| && wire[e].Event? && wire[e].event == step.waitForEvent.value)
      && (step.waitForResponse == step.request ==>
           exists q: nat :: (q < |wire| && q !in c.taken && wire[q].Response? && wire[q].requestSeq == c.seqNo))
  {
    hide Await, Earliest, Occurs;
    var event := EventNamed(step.waitForEvent.value);
    OnWireIsFirst(wire, Sent(c), event);
    OccursMeans(wire, event, c.read);
    var seen := Then(wire, Some(Sent(c)), OnWire(event));
    if seen.Some? {
      Claimed(wire, seen.value, c.seqNo);
      forall q: nat | q < |wire| && wire[q].Response? ensures q in seen.value.taken <==> q in c.taken {
        assert seen.value.taken == c.taken + [Last(seen.value)];
      }
    }
  }

  lemma OccursMeans(wire: seq<Message>, want: Want, from: nat)
    ensures Occurs(wire, want, from) <==> exists p: nat :: from <= p < |wire| && Fits(wire[p], want)
  {
  }

  /** Waiting for the response to `n` takes one that has not been handed out. */
  lemma Claimed(wire: seq<Message>, c: Cursor, n: int)
    requires c.read <= |wire|
    ensures Await(wire, c, KeptFirst(ResponseTo(n))).Some? <==>
      exists q: nat :: (q < |wire| && q !in c.taken && wire[q].Response? && wire[q].requestSeq == n)
  {
    var r := Await(wire, c, KeptFirst(ResponseTo(n)));
    if q: nat :| q < |wire| && q !in c.taken && wire[q].Response? && wire[q].requestSeq == n {
      assert Fits(wire[q], ResponseTo(n));
    }
  }

  /** A step without a request only waits, if it names a response at all. */
  lemma WaitStepExactly(wire: seq<Message>, c: Cursor, step: InitStep)
    requires c.read <= |wire| && step.request.None?
    ensures step.waitForResponse.None? ==> AfterStep(wire, c, step) == Some(c)
    ensures step.waitForResponse.Some? ==> (AfterStep(wire, c, step).Some? <==>
      exists q: nat :: (q < |wire| && q !in c.taken && wire[q].Response? && wire[q].name == step.waitForResponse))
  {
    if step.waitForResponse.Some? {
      NamedAwaited(wire, c, step.waitForResponse.value);
      if q: nat :| q < |wire| && q !in c.taken && wire[q].Response? && wire[q].name == step.waitForResponse {
        assert Fits(wire[q], ResponseNamed(step.waitForResponse.value));
      }
    }
  }

  /** The one response that such a step gets from an adapter that answers once. */
  lemma SelfWaitExample()
    ensures var wire := [Response(1, 1, true, Some("launch"), None)];
      && Asked(wire, Some(Start(0, 1))).Some?
      && AfterStep(wire, Start(0, 1), InitStep(Some("launch"), None, Some("launch"), Absent)).None?
  {
    var wire := [Response(1, 1, true, Some("launch"), None)];
    var step := InitStep(Some("launch"), None, Some("launch"), Absent);
    SelfWaitNeedsTwoResponses(wire, Start(0, 1), step);
    OnWireIsFirst(wire, Sent(Start(0, 1)), ResponseTo(1));
    assert Fits(wire[0], ResponseTo(1));
  }

  // ----- an `initialized` that comes early --------------------------------------------------------

  /** An adapter that sends `initialized` before it answers `initialize`: the default sequence goes
      through, the python manifest never sees the event. */
  lemma EarlyInitializedExample(entry: Location)
    ensures var wire := EarlyWire();
      && AfterHandshake(wire, Start(0, 1), []).Some?
      && AfterHandshake(wire, Start(0, 1), PythonSteps(entry)).None?
  {
    hide AfterHandshake, PythonSteps;
    EarlyWireSuitsDefault();
    EarlyWireFailsPython();
    OrderDoesNotMatter(EarlyWire(), 0, 1, Marks(1, 2, 0, 3, 5));
    PythonSucceedsExactly(EarlyWire(), 0, 1, entry);
  }

  lemma EarlyWireSuitsDefault()
    ensures Causal(EarlyWire(), 1, Marks(1, 2, 0, 3, 5)) && Greeted(EarlyWire(), 0, 1, 1)
  {
  }

  lemma EarlyWireFailsPython()
    ensures forall m: PythonMarks :: !PythonOrder(EarlyWire(), 0, 1, m)
  {
    var wire := EarlyWire();
    forall m: PythonMarks ensures !PythonOrder(wire, 0, 1, m) {
      assert !Fits(wire[0], ResponseTo(1));
      assert forall p: nat :: 0 < p < |wire| ==> !Fits(wire[p], EventNamed("initialized"));
    }
  }

  function EarlyWire(): seq<Message> {
    [Event(1, "initialized", None),
     Response(2, 1, true, Some("initialize"), Some(Body(None, None, Some("{}"), ""))),
     Response(3, 2, true, Some("launch"), None),
     Response(4, 3, true, Some("setBreakpoints"), None),
     Response(5, 4, true, Some("configurationDone"), None),
     Event(6, "stopped", None)]
  }

  // ----- connecting first --------------------------------------------------------------------------

  /** How a child session is started: connect, which absorbs the replay, then the handshake.  With
      the default sequence it succeeds on exactly these wires and reports the first `stopped`, be it
      replayed or live. */
  method ConnectAndInitialize(wire: seq<Message>, arriving: nat, request: string) returns (r: Result<InitResult, Error>)
    ensures r.Ok? <==> exists m: Marks :: Causal(wire, 1, m) && Greeted(wire, Min(|wire|, arriving), 1, m.init)
    ensures r.Ok? ==> forall p: nat :: IsFirst(wire, EventNamed("stopped"), 0, p) ==>
      && wire[p].Event?
      && r.value.stopReason == (if wire[p].body.Some? then wire[p].body.value.reason else None)
      && r.value.threadId == (if wire[p].body.Some? then wire[p].body.value.threadId else None)
    ensures r.Ok? ==> forall p: nat :: IsFirst(wire, ResponseTo(1), Min(|wire|, arriving), p) ==>
      wire[p].Response? && wire[p].body.Some? && wire[p].body.value.capabilities == Some(r.value.capabilities)
  {
    hide AfterHandshake, Causal, Greeted, IsFirst, Unconsumed, Partition, At, Within, Greeting;
    var client := Connect(wire, arriving);
    ghost var replayed := Min(|wire|, arriving);
    DefaultSucceedsExactly(wire, replayed, 1);
    r := RunDebugRequest(client, request, []);
    if r.Ok? {
      ReportsFirstStopped(wire, replayed, 1);
      ReportsCapabilities(wire, replayed, 1);
    }
  }

  /** A new client that has absorbed the replay. */
  method Connect(wire: seq<Message>, arriving: nat) returns (client: ControlClient)
    ensures fresh(client) && client.Valid() && client.wire == wire
    ensures client.Where() == Start(Min(|wire|, arriving), 1)
    ensures client.sent == [] && client.pending == wire[..client.read]
  {
    client := new ControlClient(wire, 1);
    client.AbsorbLateJoinReplay(arriving);
  }

  lemma ReportsCapabilities(wire: seq<Message>, r: nat, s: int)
    requires r <= |wire| && AfterHandshake(wire, Start(r, s), []).Some?
    ensures Greeting(wire, Start(r, s)).Some?
    ensures forall p: nat :: IsFirst(wire, ResponseTo(s), r, p) ==>
      wire[p].Response? && wire[p].body.Some? && wire[p].body.value.capabilities == Greeting(wire, Start(r, s))
  {
    hide Await, Earliest, Occurs;
    var c := AskedFirst(wire, Start(r, s));
  }

  lemma ReportsFirstStopped(wire: seq<Message>, r: nat, s: int)
    requires r <= |wire| && AfterHandshake(wire, Start(r, s), []).Some?
    ensures forall p: nat :: IsFirst(wire, EventNamed("stopped"), 0, p) ==>
      wire[p].Event? && p == Last(AfterHandshake(wire, Start(r, s), []).value)
  {
    hide AfterHandshake;
    var m := DefaultMarks(wire, r, s);
  }
}
