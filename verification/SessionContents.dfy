/** What is in the messages that clients and the adapter receive, member by member. */
module SessionContents {
  import opened Wrappers
  import opened MuxMessage
  import opened Remapper
  import opened SessionHistory
  import opened SessionTables
  import R = SessionRouting

  // ----- who is attached -------------------------------------------------------------------------

  /** Step `k` attached client `id`, and it has not left since. */
  ghost predicate AttachedSince(h: History, k: nat, id: Id) {
    R.AttachedAt(h, k, id) && forall j :: k < j < |h| ==> h[j] != Detach(id)
  }

  lemma {:induction false} AttachedExactly(h: History, id: Id)
    ensures id in Attached(h) <==> exists k: nat :: AttachedSince(h, k, id)
    ensures forall k: nat :: AttachedSince(h, k, id) ==> id in Attached(h) && Attached(h)[id] == h[k].role
  {
    if h != [] {
      var past, op, last := Past(h), Last(h), |h| - 1;
      assert past + [op] == h && h[..last] == past;
      AttachedExactly(past, id);
      R.ClientsAreNumbered(past);
      forall k: nat | k < last ensures AttachedSince(h, k, id) <==> AttachedSince(past, k, id) && op != Detach(id) {
        PrefixOfPast(h, k);
        assert forall j :: 0 <= j < last ==> past[j] == h[j];
      }
      hide AttachedSince;
      if R.AttachedAt(h, last, id) {
        LastAttached(h, id);
        forall k: nat | k < last ensures !AttachedSince(h, k, id) {
          R.AttachesGrow(past, k);
          EarlierIsLower(h, k, id);
        }
      } else {
        assert forall k: nat :: AttachedSince(h, k, id) ==> k < last by {
          NotAttachedLast(h, id);
        }
      }
    }
  }

  lemma LastAttached(h: History, id: Id)
    requires h != [] && R.AttachedAt(h, |h| - 1, id)
    ensures AttachedSince(h, |h| - 1, id)
  {
  }

  lemma NotAttachedLast(h: History, id: Id)
    requires h != [] && !R.AttachedAt(h, |h| - 1, id)
    ensures forall k: nat :: AttachedSince(h, k, id) ==> k < |h| - 1
  {
  }

  /** An id is handed out once. */
  lemma EarlierIsLower(h: History, k: nat, id: Id)
    requires h != [] && k < |h| - 1 && R.AttachedAt(h, |h| - 1, id)
    ensures !R.AttachedAt(h, k, id)
  {
    var past := Past(h);
    assert h[..|h| - 1] == past && h[..k + 1] == past[..k + 1] && Past(h[..k + 1]) == h[..k];
    R.AttachesGrow(past, k + 1);
  }

  // ----- what goes upstream --------------------------------------------------------------------------

  /** The argument a `cancel` names, when it names an integer. */
  ghost predicate Names(m: Message, c: int) {
    m.command == Some("cancel") && m.arguments.Some? && m.arguments.value.requestId == Some(c)
  }

  /** A request of an attached client goes upstream once, under the next number, unless it is an editor
      request without a number or asks for the snapshot.  Everything else in it is untouched, but for
      the number in an editor's `cancel` that can be translated. */
  lemma RequestsGoUpstream(h: History, op: Op)
    requires op.ClientSend? && op.id in Attached(h) && op.message.kind == Request
    requires Attached(h)[op.id] == Editor ==> op.message.seqNo.Some?
    requires Attached(h)[op.id] == Control ==> op.message.command != Some("_dapBreakpointSnapshot")
    ensures IsNumbered(h, op)
    ensures var m, sent := op.message, SentUpstream(h + [op]);
      && |sent| == |SentUpstream(h)| + 1 && sent[..|sent| - 1] == SentUpstream(h)
      && var out := sent[|sent| - 1];
      && out.seqNo == Some(NextNumber(h).raw)
      && out.(seqNo := m.seqNo, arguments := m.arguments) == m
      && (forall c :: Attached(h)[op.id] == Editor && Names(m, c) && ClientSeq(c) in Cancellable(h) ==>
           out.arguments == Some(m.arguments.value.(requestId := Some(Cancellable(h)[ClientSeq(c)].raw))))
      && (Attached(h)[op.id] != Editor || (forall c :: Names(m, c) ==> ClientSeq(c) !in Cancellable(h)) ==>
           out.arguments == m.arguments)
  {
    hide Attached, Cancellable, Issued, SentUpstream;
    StepCounters(h, op);
    var m := op.message;
    assert m.CancelRequestId().Some? ==> Names(m, m.CancelRequestId().value);
  }

  /** An editor request without a number goes upstream as it is. */
  lemma UnnumberedGoUpstream(h: History, op: Op)
    requires op.ClientSend? && op.id in Attached(h) && Attached(h)[op.id] == Editor
    requires op.message.kind == Request && op.message.seqNo == None
    ensures SentUpstream(h + [op]) == SentUpstream(h) + [op.message]
  {
    hide Attached, SentUpstream;
    StepCounters(h, op);
  }

  /** Upstream numbers are positive and increase from request to request. */
  lemma NumbersIncrease(h: History, i: nat, j: nat, a: BackendSeq, b: BackendSeq)
    requires Opens(h, i, a) && Opens(h, j, b) && i < j
    ensures 1 <= a.raw < b.raw
  {
    assert Past(h[..i + 1]) == h[..i];
    IssuedGrows(h, i + 1, j);
  }

  // ----- what clients are shown ------------------------------------------------------------------------

  /** The answer to the request of step `i`, as each client that hears it receives it: with the number
      its asker used, under the single spelling `request_seq`; for editors under the next display
      number; and with nothing else changed. */
  lemma AnswersCarryTheAskersNumber(h: History, m: Message, i: nat, id: Id)
    requires m.kind == Response && m.RequestSeq().Some? && OpenSince(h, i, BackendSeq(m.RequestSeq().value))
    requires R.HearsAnswer(h, i, id)
    ensures var shown := Shown(h, Upstream(m), id);
      && |shown| == 1
      && var out := shown[0];
      && out.camel == Absent
      && out.snake == Is(h[i].message.seqNo.GetOr(m.RequestSeq().value))
      && out.seqNo == (if Attached(h[..i])[h[i].id] == Editor then Some(Displayed(h) + 1) else m.seqNo)
      && out.(camel := m.camel, snake := m.snake, seqNo := m.seqNo) == m
  {
    R.ResponsesGoTo(h, m, id);
  }

  /** An event is shown, once, to exactly the attached editors and control clients, under the next
      display number and with nothing else changed. */
  lemma EventsGoTo(h: History, m: Message, id: Id)
    requires m.kind == Event
    ensures var shown := Shown(h, Upstream(m), id);
      && |shown| <= 1
      && (shown != [] <==> id in Attached(h) && (Attached(h)[id] == Editor || Attached(h)[id] == Control))
      && (shown != [] ==> shown[0].seqNo == Some(Displayed(h) + 1) && shown[0].(seqNo := m.seqNo) == m)
  {
    hide Attached, Displayed;
  }

  /** A control client's request for the breakpoint snapshot is answered on the spot, to that client,
      and goes nowhere else. */
  lemma SnapshotsAreAnswered(h: History, op: Op)
    requires op.ClientSend? && op.id in Attached(h) && Attached(h)[op.id] == Control
    requires op.message.kind == Request && op.message.command == Some("_dapBreakpointSnapshot")
    ensures Shown(h, op, op.id) ==
      [Message(Response, Some(Displayed(h) + 1), Absent, Is(op.message.seqNo.GetOr(0)), None, Some(true), None, None,
         Some(Snapshot(Breakpoints(h).files, Breakpoints(h).exceptions)))]
    ensures SentUpstream(h + [op]) == SentUpstream(h)
    ensures forall id :: id != op.id ==> Shown(h, op, id) == []
  {
    hide Attached, SentUpstream, Displayed, Breakpoints;
    StepCounters(h, op);
  }

  // ----- what a late joiner is told ------------------------------------------------------------------

  /** Step `k` is the adapter's event `name`. */
  predicate EventAt(h: History, k: nat, name: string) {
    k < |h| && h[k].Upstream? && h[k].message.kind == Event && h[k].message.event == Some(name)
  }

  ghost predicate LastEventAt(h: History, k: nat, name: string) {
    EventAt(h, k, name) && forall j: nat :: k < j < |h| ==> !EventAt(h, j, name)
  }

  /** Step `k` is a successful answer to `initialize`. */
  predicate InitializeAt(h: History, k: nat) {
    && k < |h| && h[k].Upstream? && h[k].message.kind == Response
    && h[k].message.command == Some("initialize") && h[k].message.success == Some(true)
  }

  ghost predicate LastInitializeAt(h: History, k: nat) {
    InitializeAt(h, k) && forall j: nat :: k < j < |h| ==> !InitializeAt(h, j)
  }

  lemma {:induction false} LastEventExactly(h: History, name: string)
    ensures forall k: nat :: LastEventAt(h, k, name) ==> LastEvent(h, name) == Some(h[k].message)
    ensures (forall k: nat :: !EventAt(h, k, name)) ==> LastEvent(h, name) == None
  {
    if h != [] {
      var past, last := Past(h), |h| - 1;
      LastEventExactly(past, name);
      assert forall k: nat :: k < last ==> (EventAt(h, k, name) <==> EventAt(past, k, name));
      if EventAt(h, last, name) {
        assert forall k: nat :: LastEventAt(h, k, name) ==> k == last;
      } else {
        assert forall k: nat :: LastEventAt(h, k, name) ==> k < last && LastEventAt(past, k, name);
      }
    }
  }

  lemma {:induction false} LastInitializeExactly(h: History)
    ensures forall k: nat :: LastInitializeAt(h, k) ==> LastInitializeBody(h) == h[k].message.body
    ensures (forall k: nat :: !InitializeAt(h, k)) ==> LastInitializeBody(h) == None
  {
    if h != [] {
      var past, last := Past(h), |h| - 1;
      LastInitializeExactly(past);
      assert forall k: nat :: k < last ==> (InitializeAt(h, k) <==> InitializeAt(past, k));
      if InitializeAt(h, last) {
        assert forall k: nat :: LastInitializeAt(h, k) ==> k == last;
      } else {
        assert forall k: nat :: LastInitializeAt(h, k) ==> k < last && LastInitializeAt(past, k);
      }
    }
  }

  /** `part` is the last event `name`, if there was one. */
  ghost predicate IsLastEvent(h: History, name: string, part: seq<Message>) {
    && (forall k: nat :: LastEventAt(h, k, name) ==> part == [h[k].message])
    && ((forall k: nat :: !EventAt(h, k, name)) ==> part == [])
  }

  /** `part` is an answer to `initialize` with the body of the last successful one, if there was one
      and it had a body. */
  ghost predicate IsInitializeAnswer(h: History, part: seq<Message>) {
    && (forall k: nat :: LastInitializeAt(h, k) ==>
         part == if h[k].message.body.None? then []
                 else [Message(Response, Some(0), Absent, Is(0), Some("initialize"), Some(true), None, None,
                         h[k].message.body)])
    && ((forall k: nat :: !InitializeAt(h, k)) ==> part == [])
  }

  /** Whoever attaches is told these three things, in this order, and nothing else; nobody else is
      told anything. */
  lemma LateJoinerIsTold(h: History, role: ClientRole)
    returns (answer: seq<Message>, initialized: seq<Message>, stopped: seq<Message>)
    ensures Shown(h, Attach(role), NextId(h)) == answer + initialized + stopped
    ensures IsInitializeAnswer(h, answer)
    ensures IsLastEvent(h, "initialized", initialized) && IsLastEvent(h, "stopped", stopped)
    ensures forall id :: id != NextId(h) ==> Shown(h, Attach(role), id) == []
  {
    hide LastEvent, LastInitializeBody, Attaches;
    var body, first, last := LastInitializeBody(h), LastEvent(h, "initialized"), LastEvent(h, "stopped");
    answer := [];
    if body.Some? {
      answer := [Message(Response, Some(0), Absent, Is(0), Some("initialize"), Some(true), None, None, body)];
    }
    initialized := if first.Some? then [first.value] else [];
    stopped := if last.Some? then [last.value] else [];
    LastInitializeExactly(h);
    LastEventExactly(h, "initialized");
    LastEventExactly(h, "stopped");
  }
}
