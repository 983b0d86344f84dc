/** `ExecutionStateTracker`, the fold over events behind every `status`, and when a client that
    joined late and saw only the replay computes the same state as one that saw everything. */
module ExecutionState {
  import opened Wrappers
  import opened MuxMessage
  import opened SessionHistory
  import C = Cache
  import R = SessionRouting

  datatype ExecutionStatus = Unknown | Running | Stopped | Exited

  datatype Summary = Summary(
    status: ExecutionStatus,
    threadId: Option<int>,
    stopReason: Option<string>,
    description: Option<string>)

  const START := Summary(ExecutionStatus.Unknown, None, None, None)

  function ReasonOf(body: Option<Body>): Option<string> {
    if body.Some? then body.value.Reason() else None
  }

  function Applied(s: Summary, name: string, body: Option<Body>): Summary {
    if name == "stopped" then
      Summary(Stopped,
        if body.Some? then body.value.ThreadId() else None,
        ReasonOf(body),
        if body.Some? then body.value.Text() else None)
    else if name == "continued" then s.(status := Running, stopReason := None, description := None)
    else if name == "exited" || name == "terminated" then s.(status := Exited, stopReason := ReasonOf(body))
    else if name == "initialized" then s.(status := Running)
    else s
  }

  class ExecutionStateTracker {
    var version: nat
    var state: Summary

    constructor ()
      ensures version == 0 && state == START
    {
      version, state := 0, START;
    }

    method ApplyEvent(name: string, body: Option<Body>)
      modifies this
      ensures version == old(version) + 1
      ensures state == Applied(old(state), name, body)
    {
      version := version + 1;
      match name {
        case "stopped" =>
          state := state.(status := Stopped);
          state := state.(threadId := if body.Some? then body.value.ThreadId() else None);
          state := state.(stopReason := ReasonOf(body));
          state := state.(description := if body.Some? then body.value.Text() else None);
        case "continued" =>
          state := state.(status := Running);
          state := state.(stopReason := None, description := None);
        case "exited" | "terminated" =>
          state := state.(status := Exited);
          state := state.(stopReason := ReasonOf(body));
        case "initialized" =>
          state := state.(status := Running);
        case _ =>
      }
    }

    /** Responses and requests are ignored. */
    method ApplyMessage(message: Message)
      modifies this
      ensures state == After(old(state), [message])
    {
      assert [message][1..] == [];
      if message.kind == Event && message.event.Some? {
        ApplyEvent(message.event.value, message.body);
      }
    }
  }

  function Saw(s: Summary, m: Message): Summary {
    if m.kind == Event && m.event.Some? then Applied(s, m.event.value, m.body) else s
  }

  /** The state after a list of messages. */
  function After(s: Summary, messages: seq<Message>): Summary
    decreases |messages|
  {
    if messages == [] then s else After(Saw(s, messages[0]), messages[1..])
  }

  // ----- the two observers ----------------------------------------------------------------------

  /** A tracker that has seen every upstream message of a session. */
  function FullState(h: History): Summary {
    if h == [] then START
    else if Last(h).Upstream? then Saw(FullState(Past(h)), Last(h).message)
    else FullState(Past(h))
  }

  /** A tracker that has seen only what a client attaching now is told. */
  function ReplayState(h: History): Summary {
    After(START, Replay(h))
  }

  const STATE_EVENTS := {"stopped", "continued", "exited", "terminated", "initialized"}

  /** The last upstream event that can change the state. */
  function LastStateEvent(h: History): Option<Message> {
    if h == [] then None
    else if Last(h).Upstream? && exists name :: name in STATE_EVENTS && Last(h).message.IsEvent(name)
    then Some(Last(h).message)
    else LastStateEvent(Past(h))
  }

  lemma ReplayStateIs(h: History)
    ensures ReplayState(h) ==
      var stopped, initialized := LastEvent(h, "stopped"), LastEvent(h, "initialized");
      if stopped.Some? then Saw(START, stopped.value)
      else if initialized.Some? then START.(status := Running)
      else START
  {
    hide LastEvent, LastInitializeBody;
    var body, initialized, stopped := LastInitializeBody(h), LastEvent(h, "initialized"), LastEvent(h, "stopped");
    LastEventIs(h, "initialized");
    LastEventIs(h, "stopped");
    var init := if body.Some? then [C.ReplayedInitialize(body.value)] else [];
    var first := if initialized.Some? then [initialized.value] else [];
    var second := if stopped.Some? then [stopped.value] else [];
    assert Replay(h) == init + first + second;
    AfterConcat(START, init + first, second);
    AfterConcat(START, init, first);
    AfterOne(START, init);
    AfterOne(START, first);
    AfterOne(After(START, first), second);
  }

  lemma AfterOne(s: Summary, messages: seq<Message>)
    requires |messages| <= 1
    ensures After(s, messages) == if messages == [] then s else Saw(s, messages[0])
  {
    if messages != [] {
      assert messages[1..] == [];
    }
  }

  lemma {:induction false} AfterConcat(s: Summary, xs: seq<Message>, ys: seq<Message>)
    ensures After(s, xs + ys) == After(After(s, xs), ys)
    decreases |xs|
  {
    if xs == [] {
      assert xs + ys == ys;
    } else {
      assert (xs + ys)[1..] == xs[1..] + ys;
      AfterConcat(Saw(s, xs[0]), xs[1..], ys);
    }
  }

  lemma {:induction false} LastEventIs(h: History, name: string)
    ensures LastEvent(h, name).Some? ==> LastEvent(h, name).value.IsEvent(name)
  {
    if h != [] {
      LastEventIs(Past(h), name);
    }
  }

  /** The reason left over from an exit, when nothing has cleared it. */
  function LeftoverReason(h: History): Option<string> {
    if h == [] then None
    else if !Last(h).Upstream? then LeftoverReason(Past(h))
    else
      var m := Last(h).message;
      if m.IsEvent("exited") || m.IsEvent("terminated") || m.IsEvent("stopped") then ReasonOf(m.body)
      else if m.IsEvent("continued") then None
      else LeftoverReason(Past(h))
  }

  /** One of the five events that a state depends on. */
  predicate MovesState(m: Message) {
    && m.kind == Event && m.event.Some?
    && m.event.value in {"stopped", "continued", "exited", "terminated", "initialized"}
  }

  /** What each kind of event does to the state, member by member; nothing else moves it. */
  lemma StateAfter(h: History, m: Message)
    requires m.body.Some? ==> m.body.value.Body?
    ensures var was, now := FullState(h), FullState(h + [Upstream(m)]);
      && (m.kind == Event && m.event == Some("stopped") ==>
           && now.status == Stopped
           && now.threadId == (if m.body.Some? then m.body.value.threadId else None)
           && now.stopReason == (if m.body.Some? then m.body.value.reason else None)
           && now.description == (if m.body.Some? then m.body.value.text else None))
      && (m.kind == Event && m.event == Some("continued") ==>
           now == Summary(Running, was.threadId, None, None))
      && (m.kind == Event && (m.event == Some("exited") || m.event == Some("terminated")) ==>
           now == Summary(Exited, was.threadId, if m.body.Some? then m.body.value.reason else None, was.description))
      && (m.kind == Event && m.event == Some("initialized") ==>
           now == Summary(Running, was.threadId, was.stopReason, was.description))
      && (!MovesState(m) ==> now == was)
  {
    Extend(h, Upstream(m));
  }

  /** Clients do not move it. */
  lemma ClientsMoveNothing(h: History, op: Op)
    requires !op.Upstream?
    ensures FullState(h + [op]) == FullState(h) && FullState([]) == Summary(ExecutionStatus.Unknown, None, None, None)
  {
    Extend(h, op);
  }

  /** The full state, read off the history. */
  lemma {:induction false} FullStateIs(h: History)
    ensures var last, s := LastStateEvent(h), FullState(h);
      && s.stopReason == LeftoverReason(h)
      && (last.None? ==> s == START)
      && (last.Some? && last.value.IsEvent("stopped") ==>
           s == Saw(START, last.value) && s.status == Stopped && LastEvent(h, "stopped") == last)
      && (last.Some? && (last.value.IsEvent("continued") || last.value.IsEvent("initialized")) ==> s.status == Running)
      && (last.Some? && (last.value.IsEvent("exited") || last.value.IsEvent("terminated")) ==> s.status == Exited)
      && (last.Some? ==> exists name :: name in STATE_EVENTS && last.value.IsEvent(name))
      && (last.None? ==> LastEvent(h, "stopped") == None && LastEvent(h, "initialized") == None)
      && (LastEvent(h, "stopped").None? ==> s.threadId == None && s.description == None)
  {
    if h != [] {
      FullStateIs(Past(h));
    }
  }

  /** A late joiner starts in step with everyone else exactly when this holds: the last
      state-changing event was `stopped`; or nothing has happened; or the program never stopped,
      was initialized, is running, and no exit left a reason behind. */
  ghost predicate InStep(h: History) {
    var last := LastStateEvent(h);
    if last.None? then true
    else if LastEvent(h, "stopped").Some? then last.value.IsEvent("stopped")
    else
      && LastEvent(h, "initialized").Some?
      && (last.value.IsEvent("continued") || last.value.IsEvent("initialized"))
      && LeftoverReason(h).None?
  }

  lemma LateJoinerAgreesExactly(h: History)
    ensures ReplayState(h) == FullState(h) <==> InStep(h)
  {
    ReplayStateIs(h);
    FullStateIs(h);
    LastEventIs(h, "stopped");
    LastEventIs(h, "initialized");
  }

  /** A program that stopped and was continued: a client attaching now is told it is stopped. */
  lemma ContinuedExample(stopped: Message, continued: Message)
    requires stopped.IsEvent("stopped") && continued.IsEvent("continued")
    ensures var h := [Upstream(stopped), Upstream(continued)];
      && FullState(h).status == Running && ReplayState(h).status == Stopped
  {
    var one: History := [Upstream(stopped)];
    var h := one + [Upstream(continued)];
    assert h == [Upstream(stopped), Upstream(continued)];
    Extend([], Upstream(stopped));
    assert [] + [Upstream(stopped)] == one;
    Extend(one, Upstream(continued));
    ReplayStateIs(h);
    FullStateIs(h);
    assert LastEvent(one, "stopped") == Some(stopped) && LastEvent(h, "stopped") == Some(stopped);
    assert "continued" in STATE_EVENTS;
  }

  // ----- the late joiner's own tracker, fed its whole inbox ---------------------------------------

  /** A state carried over the steps from `k` on. */
  function Carried(s: Summary, h: History, k: nat): Summary {
    if |h| <= k then s
    else if Last(h).Upstream? then Saw(Carried(s, Past(h), k), Last(h).message)
    else Carried(s, Past(h), k)
  }

  lemma {:induction false} FullStateIsCarried(h: History, k: nat)
    requires k <= |h|
    ensures FullState(h) == Carried(FullState(h[..k]), h, k)
  {
    if k < |h| {
      assert Past(h)[..k] == h[..k];
      FullStateIsCarried(Past(h), k);
    } else {
      assert h[..k] == h;
    }
  }

  /** Responses and snapshot answers do not disturb a tracker; events count once each. */
  lemma {:induction false} LiveTrafficCarries(s: Summary, h: History, k: nat, id: Id)
    requires k <= |h| && HearsEvents(h[..k], id)
    requires forall j :: k <= j < |h| ==> !R.Leaves(h[j], id)
    ensures After(s, R.Live(h, k, id)) == Carried(s, h, k)
  {
    if k < |h| {
      hide Attached, Replay, Displayed, Open;
      var past := Past(h);
      assert past[..k] == h[..k];
      assert forall j :: k <= j < |past| ==> past[j] == h[j];
      LiveTrafficCarries(s, past, k, id);
      R.StaysAttached(past, k, id);
      NotAttachedAgain(past, id);
      var more := Shown(past, Last(h), id);
      AfterConcat(s, R.Live(past, k, id), more);
      AfterOne(Carried(s, past, k), more);
    }
  }

  lemma NotAttachedAgain(h: History, id: Id)
    requires id in Attached(h)
    ensures id != NextId(h)
  {
    R.ClientsAreNumbered(h);
  }

  lemma {:induction false} SteppedTogether(a: Summary, b: Summary, h: History, k: nat, j: nat)
    requires k <= j < |h| && h[j].Upstream? && h[j].message.IsEvent("stopped")
    ensures Carried(a, h, k) == Carried(b, h, k)
  {
    if j < |h| - 1 {
      assert Past(h)[j] == h[j];
      SteppedTogether(a, b, Past(h), k, j);
    }
  }

  lemma LateJoinerIsCarried(h: History, k: nat, id: Id)
    requires R.AttachedAt(h, k, id) && (h[k].role == Editor || h[k].role == Control)
    requires forall j :: k < j < |h| ==> !R.Leaves(h[j], id)
    ensures After(START, Inbox(h, id)) == Carried(ReplayState(h[..k]), h, k + 1)
    ensures FullState(h) == Carried(FullState(h[..k]), h, k + 1)
  {
    hide Replay, Shown;
    R.InboxIsReplayThenLive(h, k, id);
    AfterConcat(START, Replay(h[..k]), R.Live(h, k + 1, id));
    assert Past(h[..k + 1]) == h[..k] && Last(h[..k + 1]) == h[k];
    LiveTrafficCarries(ReplayState(h[..k]), h, k + 1, id);
    FullStateIsCarried(h, k + 1);
  }

  /** A client that joins in step and stays has, from its inbox alone, the same state as an
      observer of the whole session, however the session continues. */
  lemma LateJoinerStaysInStep(h: History, k: nat, id: Id)
    requires R.AttachedAt(h, k, id) && (h[k].role == Editor || h[k].role == Control)
    requires forall j :: k < j < |h| ==> !R.Leaves(h[j], id)
    requires InStep(h[..k])
    ensures After(START, Inbox(h, id)) == FullState(h)
  {
    LateJoinerIsCarried(h, k, id);
    LateJoinerAgreesExactly(h[..k]);
  }

  /** And one that joins out of step agrees from the next live `stopped` event on. */
  lemma LateJoinerCatchesUp(h: History, k: nat, id: Id, j: nat)
    requires R.AttachedAt(h, k, id) && (h[k].role == Editor || h[k].role == Control)
    requires forall i :: k < i < |h| ==> !R.Leaves(h[i], id)
    requires k < j < |h| && h[j].Upstream? && h[j].message.IsEvent("stopped")
    ensures After(START, Inbox(h, id)) == FullState(h)
  {
    LateJoinerIsCarried(h, k, id);
    SteppedTogether(ReplayState(h[..k]), FullState(h[..k]), h, k + 1, j);
  }
}
