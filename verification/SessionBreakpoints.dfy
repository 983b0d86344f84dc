/** Breakpoint tracking as seen through the multiplexer: requests of several clients, answered in
    any order, and events in between. */
module SessionBreakpoints {
  import opened Wrappers
  import opened MuxMessage
  import opened Remapper
  import opened BreakpointState
  import opened SessionHistory
  import opened SessionTables
  import BM = BreakpointModel

  /** Step `i` forwards a setBreakpoints request under number `n`. */
  predicate SetsBreakpoints(h: History, i: nat, n: int) {
    Opens(h, i, BackendSeq(n)) && h[i].message.IsCommand("setBreakpoints")
  }

  /** A successful response attributed to number `n`. */
  predicate Confirms(op: Op, n: int) {
    IsResponse(op) && op.message.success == Some(true) && op.message.AttributionSeq() == n
  }

  /** Step `i` sent the request, and nothing has confirmed it since. */
  ghost predicate Unconfirmed(h: History, i: nat, n: int) {
    SetsBreakpoints(h, i, n) && forall j :: i < j < |h| ==> !Confirms(h[j], n)
  }

  lemma {:induction false} NumberIsOnce(h: History, i: nat, n: int)
    requires Opens(h, i, BackendSeq(n))
    ensures 1 <= n <= Issued(h)
    ensures forall j: nat :: Opens(h, j, BackendSeq(n)) ==> j == i
  {
    var last := |h| - 1;
    assert h[..last] == Past(h);
    if i < last {
      PrefixOfPast(h, i);
      NumberIsOnce(Past(h), i, n);
      assert NextNumber(h[..last]) != BackendSeq(n);
      forall j: nat | Opens(h, j, BackendSeq(n)) ensures j == i {
        PrefixOfPast(h, j);
        if j < last {
          assert Opens(Past(h), j, BackendSeq(n));
        }
      }
    } else {
      forall j: nat | j < last && Opens(h, j, BackendSeq(n)) ensures false {
        PrefixOfPast(h, j);
        NumberIsOnce(Past(h), j, n);
      }
    }
  }

  lemma ForwardedBreakpoints(h: History, op: Op)
    requires IsNumbered(h, op) && op.message.IsCommand("setBreakpoints")
    ensures RequestedBreakpoints(Forwarded(h, op)) == RequestedBreakpoints(op.message)
  {
  }

  lemma NotifiedKeepsPending(t: State, op: Op)
    ensures op.Upstream? ==> ObserveEvent(t, op.message).pending == t.pending
    ensures forall u: State, path, specs :: Rebuild(u, path, specs).pending == u.pending
  {
  }

  /** What each step does to the pending requests. */
  lemma PendingStep(h: History, op: Op)
    ensures Breakpoints(h + [op]).pending ==
      if IsNumbered(h, op) && op.message.IsCommand("setBreakpoints")
      then Breakpoints(h).pending[Issued(h) + 1 := RequestedBreakpoints(op.message)]
      else if IsResponse(op) && op.message.success == Some(true)
              && op.message.AttributionSeq() in Breakpoints(h).pending
      then Breakpoints(h).pending - {op.message.AttributionSeq()}
      else Breakpoints(h).pending
  {
    hide Breakpoints, Issued, Attached, RequestedBreakpoints, Resolved, Rebuild, ObserveEvent, RequestedExceptions;
    BreakpointsStep(h, op);
    NotifiedKeepsPending(Breakpoints(h), op);
    if IsNumbered(h, op) && op.message.IsCommand("setBreakpoints") {
      ForwardedBreakpoints(h, op);
    }
  }

  lemma UnconfirmedOfPast(h: History, i: nat, n: int)
    requires h != [] && i < |Past(h)|
    ensures Unconfirmed(h, i, n) <==> Unconfirmed(Past(h), i, n) && !Confirms(Last(h), n)
  {
    PrefixOfPast(h, i);
    assert forall j :: 0 <= j < |Past(h)| ==> Past(h)[j] == h[j];
  }

  /** However requests and responses interleave, the pending entry under a number is exactly the
      request some step sent under it and no response has confirmed since. */
  lemma {:induction false} PendingExactly(h: History, n: int)
    ensures n in Breakpoints(h).pending <==> exists i: nat :: Unconfirmed(h, i, n)
    ensures forall i: nat :: Unconfirmed(h, i, n) ==>
      n in Breakpoints(h).pending && Breakpoints(h).pending[n] == RequestedBreakpoints(h[i].message)
  {
    if h != [] {
      var past, op, last := Past(h), Last(h), |h| - 1;
      assert past + [op] == h && h[..last] == past;
      PendingExactly(past, n);
      PendingStep(past, op);
      forall i: nat | i < last ensures Unconfirmed(h, i, n) <==> Unconfirmed(past, i, n) && !Confirms(op, n) {
        UnconfirmedOfPast(h, i, n);
      }
      if SetsBreakpoints(h, last, n) {
        assert Unconfirmed(h, last, n);
        forall i: nat | Unconfirmed(h, i, n) ensures i == last {
          NumberIsOnce(h, last, n);
        }
      } else {
        assert forall i: nat :: Unconfirmed(h, i, n) ==> i < last;
      }
    }
  }

  /** A successful response installs the breakpoints of exactly the request it is attributed to,
      merged with that request's own entries; any other response changes no breakpoints. */
  lemma AttributionIsExact(h: History, m: Message)
    requires m.kind == Response
    ensures forall i: nat :: Unconfirmed(h, i, m.AttributionSeq()) && m.success == Some(true) ==>
      var resolved := Resolved(m, RequestedBreakpoints(h[i].message));
      var before, after := Breakpoints(h), Breakpoints(h + [Upstream(m)]);
      && after.files == (if resolved.specs == [] then before.files - {resolved.path}
                         else before.files[resolved.path := resolved.specs])
      && m.AttributionSeq() !in after.pending
    ensures m.success != Some(true) || (forall i: nat :: !Unconfirmed(h, i, m.AttributionSeq())) ==>
      Breakpoints(h + [Upstream(m)]) == Breakpoints(h)
  {
    BreakpointsStep(h, Upstream(m));
    PendingExactly(h, m.AttributionSeq());
  }

  /** A request is confirmed at most once: after one successful response to a number, no later
      response to it changes any breakpoint. */
  lemma ConfirmedOnce(h: History, j: nat, n: int, m: Message)
    requires j < |h| && Confirms(h[j], n) && 1 <= n <= Issued(h[..j])
    requires m.kind == Response && m.AttributionSeq() == n
    ensures Breakpoints(h + [Upstream(m)]) == Breakpoints(h)
  {
    forall i: nat ensures !Unconfirmed(h, i, n) {
      if i > j && Opens(h, i, BackendSeq(n)) {
        IssuedGrows(h, j, i);
      }
    }
    AttributionIsExact(h, m);
  }

  // ----- routing against attribution -----------------------------------------------------------

  /** The two spellings of the number a response refers to do not contradict each other: one is
      missing, or both say the same. */
  predicate SpeltAlike(m: Message) {
    m.camel.Absent? || m.snake.Absent? || m.camel == m.snake
  }

  /** The response ends the wait for the breakpoints of the request numbered `n`. */
  predicate Settles(h: History, m: Message, n: int) {
    n in Breakpoints(h).pending && n !in Breakpoints(h + [Upstream(m)]).pending
  }

  /** A successful answer, routed to the client that sent setBreakpoints at step `i`, settles that
      request if and only if nothing settled it before and the answer is spelt alike; then it
      installs that request's breakpoints. */
  lemma AnswerSettlesExactly(h: History, m: Message, i: nat, n: int)
    requires OpenSince(h, i, BackendSeq(n)) && h[i].message.IsCommand("setBreakpoints")
    requires m.kind == Response && m.RequestSeq() == Some(n) && m.success == Some(true)
    ensures Settles(h, m, n) <==> Unconfirmed(h, i, n) && SpeltAlike(m)
    ensures Settles(h, m, n) ==>
      var resolved := Resolved(m, RequestedBreakpoints(h[i].message));
      Breakpoints(h + [Upstream(m)]).files ==
        if resolved.specs == [] then Breakpoints(h).files - {resolved.path}
        else Breakpoints(h).files[resolved.path := resolved.specs]
  {
    hide Breakpoints, Issued, RequestedBreakpoints, Resolved;
    NumberIsOnce(h, i, n);
    assert m.AttributionSeq() == n <==> SpeltAlike(m);
    PendingExactly(h, n);
    PendingStep(h, Upstream(m));
    assert forall j: nat :: Unconfirmed(h, j, n) ==> j == i;
    if SpeltAlike(m) && Unconfirmed(h, i, n) {
      AttributionIsExact(h, m);
    }
  }

  /** A successful answer that is not spelt alike leaves its own request waiting. */
  lemma MisspeltLeavesWaiting(h: History, m: Message, i: nat, n: int)
    requires OpenSince(h, i, BackendSeq(n)) && Unconfirmed(h, i, n)
    requires m.kind == Response && m.RequestSeq() == Some(n) && m.success == Some(true) && !SpeltAlike(m)
    ensures n in Breakpoints(h + [Upstream(m)]).pending
  {
    AnswerSettlesExactly(h, m, i, n);
    PendingExactly(h, n);
  }

  /** In a run whose responses are all spelt alike, an answered setBreakpoints request has not been
      settled before, so that its first successful answer settles it. */
  lemma RoutedIsAttributed(h: History, m: Message, i: nat, n: int)
    requires OpenSince(h, i, BackendSeq(n)) && h[i].message.IsCommand("setBreakpoints")
    requires forall j :: 0 <= j < |h| && IsResponse(h[j]) ==> SpeltAlike(h[j].message)
    requires m.kind == Response && m.RequestSeq() == Some(n) && SpeltAlike(m) && m.success == Some(true)
    ensures Settles(h, m, n)
  {
    NumberIsOnce(h, i, n);
    forall j | i < j < |h| ensures !Confirms(h[j], n) {
      assert !Answers(h[j], BackendSeq(n));
    }
    assert Unconfirmed(h, i, n);
    AnswerSettlesExactly(h, m, i, n);
  }

  function SetAt(path: string): Op {
    ClientSend(Id(if path == "a" then 1 else 2),
      Message(Request, Some(7), Absent, Absent, Some("setBreakpoints"), None, None,
        Some(Arguments(None, Some(path), Some([Breakpoint(None, None, Some(1), None, Absent, Absent, Absent)]),
                       None, None, "")),
        None))
  }

  /** Two control clients set breakpoints, in "a" and in "b".  An answer with both spellings goes to
      the first client and installs the breakpoints of the second. */
  lemma MisspeltExample()
    ensures var h := [Attach(Control), Attach(Control), SetAt("a"), SetAt("b")];
      var m := Message(Response, None, Is(1), Is(2), None, Some(true), None, None, None);
      && Shown(h, Upstream(m), Id(1)) != [] && Shown(h, Upstream(m), Id(2)) == []
      && Breakpoints(h + [Upstream(m)]).files == map["b" := [SourceSpec(1, None, None, None)]]
  {
    var h: History := [Attach(Control), Attach(Control), SetAt("a"), SetAt("b")];
    var m := Message(Response, None, Is(1), Is(2), None, Some(true), None, None, None);
    hide Attached, Issued, Open, Displayed, Breakpoints, SetAt;
    TwoRequests();
    BreakpointsStep(h, Upstream(m));
  }

  lemma TwoRequests()
    ensures var h: History := [Attach(Control), Attach(Control), SetAt("a"), SetAt("b")];
      && Attached(h) == map[Id(1) := Control, Id(2) := Control]
      && BackendSeq(1) in Open(h) && Open(h)[BackendSeq(1)] == Ticket(Id(1), Control, 7)
      && Breakpoints(h).files == map[]
      && 2 in Breakpoints(h).pending && Breakpoints(h).pending[2] == Pending("b", [SourceSpec(1, None, None, None)])
  {
    var two: History := [Attach(Control), Attach(Control)];
    var three := two + [SetAt("a")];
    assert three + [SetAt("b")] == [Attach(Control), Attach(Control), SetAt("a"), SetAt("b")];
    TwoControls();
    SetExample(two, "a");
    SetExample(three, "b");
    assert SetAt("a").id == Id(1);
    hide Attached, Issued, Open, Breakpoints, SetAt;
  }

  lemma TwoControls()
    ensures var h := [Attach(Control), Attach(Control)];
      && Attached(h) == map[Id(1) := Control, Id(2) := Control] && Issued(h) == 0
      && Open(h) == map[] && Breakpoints(h) == EMPTY
  {
    var one: History := [Attach(Control)];
    var attach := Attach(Control);
    hide Attached, Issued, Open, Cancellable, Attaches, Breakpoints;
    Beginning();
    NothingTracked();
    assert [] + [attach] == one && one + [attach] == [attach, attach];
    StepClients([], attach);
    StepCounters([], attach);
    StepTickets([], attach);
    BreakpointsStep([], attach);
    StepClients(one, attach);
    StepCounters(one, attach);
    StepTickets(one, attach);
    BreakpointsStep(one, attach);
  }

  lemma SetExample(h: History, path: string)
    requires Attached(h) == map[Id(1) := Control, Id(2) := Control] && path in {"a", "b"}
    ensures var longer, n := h + [SetAt(path)], Issued(h) + 1;
      && Attached(longer) == Attached(h) && Issued(longer) == n
      && Open(longer) == Open(h)[BackendSeq(n) := Ticket(SetAt(path).id, Control, 7)]
      && Breakpoints(longer) == Breakpoints(h).(
           pending := Breakpoints(h).pending[n := Pending(path, [SourceSpec(1, None, None, None)])])
  {
    var send := SetAt(path);
    hide Attached, Issued, Open, Cancellable, Attaches, Breakpoints;
    StepClients(h, send);
    StepCounters(h, send);
    StepTickets(h, send);
    BreakpointsStep(h, send);
    ForwardedBreakpoints(h, send);
    assert RequestedBreakpoints(send.message) == Pending(path, [SourceSpec(1, None, None, None)]) by {
      assert send.message.arguments.value.breakpoints.value[1..] == [];
    }
  }

  // ----- exception filters and the snapshot --------------------------------------------------------

  /** Step `i` forwards a setExceptionBreakpoints request. */
  predicate SetsExceptions(h: History, i: nat) {
    i < |h| && IsNumbered(h[..i], h[i]) && h[i].message.IsCommand("setExceptionBreakpoints")
  }

  ghost predicate LastSetsExceptions(h: History, i: nat) {
    SetsExceptions(h, i) && forall j: nat :: i < j < |h| ==> !SetsExceptions(h, j)
  }

  lemma ExceptionsStep(h: History, op: Op)
    ensures Breakpoints(h + [op]).exceptions ==
      if IsNumbered(h, op) && op.message.IsCommand("setExceptionBreakpoints")
      then RequestedExceptions(op.message) else Breakpoints(h).exceptions
  {
    hide Breakpoints, Issued, Attached, RequestedBreakpoints, Resolved, ExceptionSpecs;
    BreakpointsStep(h, op);
  }

  /** The exception filters are those of the last such request any client sent, and of no other. */
  lemma {:induction false} ExceptionsExactly(h: History)
    ensures forall i: nat :: LastSetsExceptions(h, i) ==>
      Breakpoints(h).exceptions == RequestedExceptions(h[i].message)
    ensures (forall i: nat :: !SetsExceptions(h, i)) ==> Breakpoints(h).exceptions == []
  {
    hide Breakpoints, Issued, Attached, RequestedExceptions;
    if h == [] {
      NothingTracked();
    } else {
      var past, op, last := Past(h), Last(h), |h| - 1;
      assert past + [op] == h && h[..last] == past;
      ExceptionsExactly(past);
      ExceptionsStep(past, op);
      forall i: nat | i < last ensures SetsExceptions(h, i) <==> SetsExceptions(past, i) {
        PrefixOfPast(h, i);
      }
      assert SetsExceptions(h, last) <==> IsNumbered(past, op) && op.message.IsCommand("setExceptionBreakpoints");
      assert forall i: nat :: LastSetsExceptions(h, i) && i < last ==>
        LastSetsExceptions(past, i) && !SetsExceptions(h, last);
    }
  }

  lemma NothingTracked()
    ensures Breakpoints([]) == EMPTY
  {
  }

  /** The snapshot a control client receives lists the reference breakpoints of the whole session
      and the filters of the last setExceptionBreakpoints request. */
  lemma SnapshotShowsReference(h: History, op: Op)
    requires IsLocal(h, op) && BM.ClashFree(BreakpointLog(h))
    ensures forall i: nat :: LastSetsExceptions(h, i) ==>
      Shown(h, op, op.id) == [SnapshotMessage(h, op, RequestedExceptions(h[i].message))]
    ensures (forall i: nat :: !SetsExceptions(h, i)) ==> Shown(h, op, op.id) == [SnapshotMessage(h, op, [])]
  {
    hide Displayed, Attached, Issued, BreakpointLog, BM.Erased, BM.Referenced, BM.ClashFree, BM.Tracked, SetsExceptions,
      LastSetsExceptions, RequestedExceptions;
    BM.SnapshotIsReference(BreakpointLog(h));
    ExceptionsExactly(h);
  }

  function SnapshotMessage(h: History, op: Op, exceptions: seq<ExceptionSpec>): Message
    requires op.ClientSend?
  {
    LocalResponse(Displayed(h) + 1, op.message.seqNo.GetOr(0), None,
      Snapshot(BM.Erased(BM.Referenced(BreakpointLog(h)).lists), exceptions))
  }
}
