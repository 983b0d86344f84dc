/** Who receives what: responses reach exactly the client that asked, attaching is a clean cut
    between replay and live traffic, and a session whose clients behave never fails. */
module SessionRouting {
  import opened Wrappers
  import opened MuxMessage
  import opened Remapper
  import opened SessionHistory
  import opened SessionTables

  // ----- identities --------------------------------------------------------------------------

  /** How many editors have ever been attached. */
  function Editors(h: History): nat {
    if h == [] then 0 else Editors(Past(h)) + if Last(h) == Attach(Editor) then 1 else 0
  }

  function EditorId(h: History): Option<Id> {
    if h == [] then None else if Last(h) == Attach(Editor) then Some(NextId(Past(h))) else EditorId(Past(h))
  }

  lemma {:induction false} ClientsAreNumbered(h: History)
    ensures forall id :: id in Attached(h) ==> 1 <= id.raw <= Attaches(h)
    ensures forall b :: b in Open(h) ==> 1 <= Open(h)[b].client.raw <= Attaches(h)
  {
    if h != [] {
      ClientsAreNumbered(Past(h));
    }
  }

  /** A client keeps its role for as long as it is attached. */
  lemma {:induction false} RolesAreStable(h: History)
    ensures forall b :: b in Open(h) && Open(h)[b].client in Attached(h) ==>
      Attached(h)[Open(h)[b].client] == Open(h)[b].role
  {
    if h != [] {
      RolesAreStable(Past(h));
      ClientsAreNumbered(Past(h));
    }
  }

  /** With at most one editor ever attached, everything marked as the editor's is that one's. */
  lemma {:induction false} OneEditor(h: History)
    requires Editors(h) <= 1
    ensures EditorId(h).None? <==> Editors(h) == 0
    ensures forall id :: id in Attached(h) && Attached(h)[id] == Editor ==> EditorId(h) == Some(id)
    ensures forall b :: b in Open(h) && Open(h)[b].role == Editor ==> EditorId(h) == Some(Open(h)[b].client)
  {
    if h != [] {
      OneEditor(Past(h));
    }
  }

  // ----- responses ----------------------------------------------------------------------------

  /** The response at the end of `h` is the first answer to the request client `id` sent at step
      `i`, and `id` is still attached. */
  ghost predicate FirstAnswerTo(h: History, m: Message, i: nat, id: Id) {
    && m.kind == Response && m.RequestSeq().Some?
    && OpenSince(h, i, BackendSeq(m.RequestSeq().value))
    && h[i].id == id && id in Attached(h)
  }

  /** The response as its asker sees it: its own number restored, everything else untouched; an
      editor also gets the next display number. */
  function Restored(h: History, m: Message, i: nat): Message
    requires i < |h| && IsNumbered(h[..i], h[i])
  {
    var restored := m.WithRequestSeq(TicketAt(h, i).clientSeq);
    if TicketAt(h, i).role == Editor then restored.WithSeq(Displayed(h) + 1) else restored
  }

  /** Who is shown the answer to the request of step `i`: the asker, or every attached editor if the
      asker was one. */
  predicate HearsAnswer(h: History, i: nat, id: Id)
    requires i < |h| && IsNumbered(h[..i], h[i])
  {
    id in Attached(h) && if TicketAt(h, i).role == Editor then Attached(h)[id] == Editor else id == h[i].id
  }

  /** At every point of every run, with any number of editors: a response is shown to exactly these
      clients, with the asker's number, and only if it is the first answer to a request. */
  lemma ResponsesGoTo(h: History, m: Message, id: Id)
    requires m.kind == Response && m.RequestSeq().Some?
    ensures var b := BackendSeq(m.RequestSeq().value);
      && (forall i: nat :: OpenSince(h, i, b) ==>
           Shown(h, Upstream(m), id) == if HearsAnswer(h, i, id) then [Restored(h, m, i)] else [])
      && ((forall i: nat :: !OpenSince(h, i, b)) ==> Shown(h, Upstream(m), id) == [])
  {
    InFlightExactly(h, BackendSeq(m.RequestSeq().value));
  }

  /** Nobody but the asker of step `i` is attached as an editor, or the asker is no editor. */
  predicate Private(h: History, i: nat)
    requires i < |h| && IsNumbered(h[..i], h[i])
  {
    TicketAt(h, i).role == Editor ==> forall id :: id in Attached(h) && Attached(h)[id] == Editor ==> id == h[i].id
  }

  /** The first answer to a request is shown to nobody but its asker if and only if no other editor
      is attached while it answers an editor. */
  lemma PrivateExactly(h: History, m: Message, i: nat)
    requires m.kind == Response && m.RequestSeq().Some? && OpenSince(h, i, BackendSeq(m.RequestSeq().value))
    ensures (forall id :: Shown(h, Upstream(m), id) != [] ==> id == h[i].id) <==> Private(h, i)
  {
    forall id ensures Shown(h, Upstream(m), id) != [] <==> HearsAnswer(h, i, id) {
      ResponsesGoTo(h, m, id);
    }
    hide Shown;
    if forall id :: Shown(h, Upstream(m), id) != [] ==> id == h[i].id {
      assert forall id :: HearsAnswer(h, i, id) ==> id == h[i].id;
      assert forall id :: id in Attached(h) && Attached(h)[id] == Editor && TicketAt(h, i).role == Editor ==>
        HearsAnswer(h, i, id);
    }
  }

  /** Two editors: the second one is shown the answer to the first one's request. */
  lemma TwoEditorsExample()
    ensures var h := [Attach(Editor), Attach(Editor), ClientSend(Id(1), Plain(Request, Some(5), Absent))];
      var m := Plain(Response, None, Is(1));
      Shown(h, Upstream(m), Id(2)) == [m.WithRequestSeq(5).WithSeq(1)]
  {
    hide Attached, Issued, Open, Displayed;
    TwoEditorsState();
  }

  lemma TwoEditorsState()
    ensures var h := [Attach(Editor), Attach(Editor), ClientSend(Id(1), Plain(Request, Some(5), Absent))];
      && Attached(h) == map[Id(1) := Editor, Id(2) := Editor] && Displayed(h) == 0
      && BackendSeq(1) in Open(h) && Open(h)[BackendSeq(1)] == Ticket(Id(1), Editor, 5)
  {
    var two: History := [Attach(Editor), Attach(Editor)];
    var send := ClientSend(Id(1), Plain(Request, Some(5), Absent));
    hide Attached, Issued, Open, Cancellable, Attaches, Displayed;
    TwoEditors();
    assert two + [send] == [Attach(Editor), Attach(Editor), send];
    StepClients(two, send);
    StepCounters(two, send);
    StepTickets(two, send);
  }

  lemma TwoEditors()
    ensures var h: History := [Attach(Editor), Attach(Editor)];
      Attached(h) == map[Id(1) := Editor, Id(2) := Editor] && Displayed(h) == 0 && Issued(h) == 0
  {
    var attach := Attach(Editor);
    var one: History := [attach];
    hide Attached, Issued, Open, Cancellable, Attaches, Displayed;
    Beginning();
    assert [] + [attach] == one && one + [attach] == [attach, attach];
    StepClients([], attach);
    StepCounters([], attach);
    StepClients(one, attach);
    StepCounters(one, attach);
  }

  ghost predicate AnswersPrivately(h: History, m: Message) {
    m.RequestSeq().Some? ==> forall i: nat :: OpenSince(h, i, BackendSeq(m.RequestSeq().value)) ==> Private(h, i)
  }

  /** Whenever no other editor is attached: a response is shown to a client if and only if it is the
      first answer to a request of that client, and then with its own number. */
  lemma ResponsesReachTheirAsker(h: History, m: Message, id: Id)
    requires m.kind == Response && AnswersPrivately(h, m)
    ensures forall i: nat :: FirstAnswerTo(h, m, i, id) ==> Shown(h, Upstream(m), id) == [Restored(h, m, i)]
    ensures (forall i: nat :: !FirstAnswerTo(h, m, i, id)) ==> Shown(h, Upstream(m), id) == []
  {
    RolesAreStable(h);
    if m.RequestSeq().Some? {
      var b := BackendSeq(m.RequestSeq().value);
      InFlightExactly(h, b);
      if b in Open(h) {
        var i := TicketHasOrigin(h, b);
        assert Open(h)[b] == TicketAt(h, i);
        assert id == h[i].id && id in Attached(h) ==> FirstAnswerTo(h, m, i, id);
      }
    }
  }

  /** A response is shown to two clients exactly when it answers an editor and both are attached
      editors. */
  lemma ResponsesAreExclusive(h: History, m: Message, a: Id, b: Id)
    requires m.kind == Response && a != b
    ensures Shown(h, Upstream(m), a) != [] && Shown(h, Upstream(m), b) != [] <==>
      && AnswersEditor(h, Upstream(m))
      && a in Attached(h) && Attached(h)[a] == Editor && b in Attached(h) && Attached(h)[b] == Editor
  {
  }

  /** Whatever happens in between, once an issued number has been answered no later response with
      that number is shown to anyone, and it fails nothing. */
  lemma SecondAnswersAreDropped(h: History, j: nat, n: BackendSeq, m: Message, id: Id)
    requires j < |h| && Answers(h[j], n) && n.raw <= Issued(h[..j])
    requires Answers(Upstream(m), n)
    ensures Shown(h, Upstream(m), id) == [] && Failure(h, Upstream(m)) == None
  {
    AnsweredIsClosed(h, j, n);
  }

  /** All live responses in a client's inbox, in order. */
  function Responses(h: History, id: Id): seq<Message> {
    if h == [] then []
    else Responses(Past(h), id) + if IsResponse(Last(h)) then Shown(Past(h), Last(h), id) else []
  }

  /** The same list from the requests' side: for each upstream response in turn, the client's copy
      if it is the first answer to one of its own requests. */
  ghost function OwnAnswers(h: History, id: Id): seq<Message> {
    if h == [] then []
    else
      var past, op := Past(h), Last(h);
      OwnAnswers(past, id) +
        (if IsResponse(op) && exists i: nat :: FirstAnswerTo(past, op.message, i, id)
         then var i: nat :| FirstAnswerTo(past, op.message, i, id); [Restored(past, op.message, i)]
         else [])
  }

  /** No response of the run was shown past its asker. */
  ghost predicate AlwaysPrivate(h: History) {
    forall k :: 0 <= k < |h| && IsResponse(h[k]) ==> AnswersPrivately(h[..k], h[k].message)
  }

  /** Over every such run: a client's responses are, in order, exactly the first answers to its own
      requests. */
  lemma {:induction false} ResponsesAreOwnAnswers(h: History, id: Id)
    requires AlwaysPrivate(h)
    ensures Responses(h, id) == OwnAnswers(h, id)
  {
    if h != [] {
      var past, op := Past(h), Last(h);
      assert h[..|past|] == past && h[|past|] == op;
      forall k | 0 <= k < |past| && IsResponse(past[k]) ensures AnswersPrivately(past[..k], past[k].message) {
        assert past[..k] == h[..k];
      }
      ResponsesAreOwnAnswers(past, id);
      if IsResponse(op) {
        ResponsesReachTheirAsker(past, op.message, id);
      }
    }
  }

  /** Every run with at most one editor ever is such a run. */
  lemma OneEditorIsPrivate(h: History)
    requires Editors(h) <= 1
    ensures AlwaysPrivate(h)
  {
    forall k | 0 <= k < |h| && IsResponse(h[k]) ensures AnswersPrivately(h[..k], h[k].message) {
      EditorsGrow(h, k);
      OneEditor(h[..k]);
      if h[k].message.RequestSeq().Some? {
        InFlightExactly(h[..k], BackendSeq(h[k].message.RequestSeq().value));
      }
    }
  }

  lemma {:induction false} EditorsGrow(h: History, k: nat)
    requires k <= |h|
    ensures Editors(h[..k]) <= Editors(h)
  {
    if k < |h| {
      assert Past(h)[..k] == h[..k];
      EditorsGrow(Past(h), k);
    } else {
      assert h[..k] == h;
    }
  }

  // ----- attaching ----------------------------------------------------------------------------

  /** What steps `k` and later show to a client. */
  function Live(h: History, k: nat, id: Id): seq<Message> {
    if |h| <= k then [] else Live(Past(h), k, id) + Shown(Past(h), Last(h), id)
  }

  /** Step `k` attaches client `id`. */
  predicate AttachedAt(h: History, k: nat, id: Id) {
    k < |h| && h[k].Attach? && NextId(h[..k]) == id
  }

  /** An inbox is the replay computed at the attach, followed by live traffic. */
  lemma {:induction false} InboxIsReplayThenLive(h: History, k: nat, id: Id)
    requires AttachedAt(h, k, id)
    ensures Inbox(h, id) == Replay(h[..k]) + Live(h, k + 1, id)
  {
    hide Replay, Attached, Open, Displayed, Breakpoints;
    var past := Past(h);
    if k == |h| - 1 {
      assert h[..k] == past;
      NobodyYet(past, id);
      assert Shown(past, h[k], id) == Replay(past);
    } else {
      hide Shown;
      PrefixOfPast(h, k);
      InboxIsReplayThenLive(past, k, id);
      assert Replay(h[..k]) + Live(past, k + 1, id) + Shown(past, Last(h), id)
          == Replay(h[..k]) + (Live(past, k + 1, id) + Shown(past, Last(h), id));
    }
  }

  predicate IsEvent(op: Op) {
    op.Upstream? && op.message.kind == Event
  }

  /** The events among `Live`. */
  function LiveEvents(h: History, k: nat, id: Id): seq<Message> {
    if |h| <= k then []
    else LiveEvents(Past(h), k, id) + if IsEvent(Last(h)) then Shown(Past(h), Last(h), id) else []
  }

  /** Every upstream event from step `k` on, under its display number: no client is mentioned. */
  function EventsSince(h: History, k: nat): seq<Message> {
    if |h| <= k then []
    else EventsSince(Past(h), k) + if IsEvent(Last(h)) then [Last(h).message.WithSeq(Displayed(Past(h)) + 1)] else []
  }

  /** The snapshot answers and the replay in an inbox. */
  function OtherMessages(h: History, id: Id): seq<Message> {
    if h == [] then []
    else OtherMessages(Past(h), id) + if Last(h).Upstream? then [] else Shown(Past(h), Last(h), id)
  }

  /** Nothing else is ever in an inbox: events, responses, and locally produced messages. */
  lemma {:induction false} InboxHasThreeParts(h: History, id: Id)
    ensures multiset(Inbox(h, id)) ==
      multiset(LiveEvents(h, 0, id)) + multiset(Responses(h, id)) + multiset(OtherMessages(h, id))
  {
    if h != [] {
      hide Attached, Open, Replay, SnapshotAnswer, Displayed;
      InboxHasThreeParts(Past(h), id);
      var more := Shown(Past(h), Last(h), id);
      assert Last(h).Upstream? && !IsEvent(Last(h)) && !IsResponse(Last(h)) ==> more == [];
      hide Shown;
    }
  }

  predicate Leaves(op: Op, id: Id) {
    op == Detach(id)
  }

  lemma {:induction false} StaysAttached(h: History, k: nat, id: Id)
    requires k <= |h| && id in Attached(h[..k])
    requires forall j :: k <= j < |h| ==> !Leaves(h[j], id)
    ensures id in Attached(h) && Attached(h)[id] == Attached(h[..k])[id]
  {
    if k == |h| {
      assert h[..k] == h;
    } else {
      var past := Past(h);
      assert past[..k] == h[..k];
      assert forall j :: k <= j < |past| ==> past[j] == h[j];
      StaysAttached(past, k, id);
      ClientsAreNumbered(past);
      assert !Leaves(h[|h| - 1], id);
    }
  }

  /** An attached editor or control client sees every later event exactly once, in order. */
  lemma {:induction false} NoEventIsMissed(h: History, k: nat, id: Id)
    requires k <= |h| && HearsEvents(h[..k], id)
    requires forall j :: k <= j < |h| ==> !Leaves(h[j], id)
    ensures LiveEvents(h, k, id) == EventsSince(h, k)
  {
    if k < |h| {
      var past := Past(h);
      assert past[..k] == h[..k];
      assert forall j :: k <= j < |past| ==> past[j] == h[j];
      NoEventIsMissed(past, k, id);
      StaysAttached(past, k, id);
    }
  }

  /** Hence any two of them see the same events under the same numbers. */
  lemma SameEventsForAll(h: History, k: nat, a: Id, b: Id)
    requires k <= |h| && HearsEvents(h[..k], a) && HearsEvents(h[..k], b)
    requires forall j :: k <= j < |h| ==> !Leaves(h[j], a) && !Leaves(h[j], b)
    ensures LiveEvents(h, k, a) == LiveEvents(h, k, b)
  {
    NoEventIsMissed(h, k, a);
    NoEventIsMissed(h, k, b);
  }

  /** A client that is not attached is shown nothing, until its id is handed out. */
  lemma AbsentSeesNothing(h: History, op: Op, id: Id)
    requires id !in Attached(h) && !(op.Attach? && id == NextId(h))
    ensures Shown(h, op, id) == []
  {
  }

  /** Once a client has left, its inbox never changes again. */
  lemma {:induction false} NothingAfterLeaving(h: History, k: nat, id: Id)
    requires k < |h| && h[k] == Detach(id) && id.raw <= Attaches(h[..k])
    ensures Inbox(h, id) == Inbox(h[..k], id) && id !in Attached(h)
  {
    var past := Past(h);
    if k == |h| - 1 {
      assert h[..k] == past;
    } else {
      PrefixOfPast(h, k);
      NothingAfterLeaving(past, k, id);
      AttachesGrow(past, k);
      AbsentSeesNothing(past, Last(h), id);
    }
  }

  /** `s` is numbered, strictly increasing, within `(low, high]`. */
  ghost predicate Ascending(s: seq<Message>, low: int, high: int) {
    && (forall i :: 0 <= i < |s| ==> s[i].seqNo.Some? && low < s[i].seqNo.value <= high)
    && (forall i, j :: 0 <= i < j < |s| ==> s[i].seqNo.value < s[j].seqNo.value)
  }

  lemma AscendingExtends(s: seq<Message>, low: int, high: int, more: seq<Message>, newHigh: int)
    requires Ascending(s, low, high) && low <= high <= newHigh
    requires more == [] || (|more| == 1 && more[0].seqNo == Some(high + 1) && newHigh == high + 1)
    ensures Ascending(s + more, low, newHigh)
  {
  }

  /** After the replay, the numbers an editor sees strictly increase. */
  lemma {:induction false} EditorNumbersIncrease(h: History, k: nat, id: Id)
    requires AttachedAt(h, k, id) && h[k] == Attach(Editor)
    ensures id in Attached(h) ==> Attached(h)[id] == Editor
    ensures Displayed(h[..k + 1]) <= Displayed(h)
    ensures Ascending(Live(h, k + 1, id), Displayed(h[..k + 1]), Displayed(h))
  {
    var past, op := Past(h), Last(h);
    if k == |h| - 1 {
      assert h[..k] == past && h[..k + 1] == h;
    } else {
      assert past[..k] == h[..k] && past[..k + 1] == h[..k + 1];
      EditorNumbersIncrease(past, k, id);
      assert Past(h[..k + 1]) == h[..k] && Last(h[..k + 1]) == h[k];
      AttachesGrow(past, k + 1);
      EditorShownOne(past, op, id);
      AscendingExtends(Live(past, k + 1, id), Displayed(h[..k + 1]), Displayed(past),
                       Shown(past, op, id), Displayed(h));
    }
  }

  lemma {:induction false} AttachesGrow(h: History, k: nat)
    requires k <= |h|
    ensures Attaches(h[..k]) <= Attaches(h)
  {
    if k < |h| {
      assert Past(h)[..k] == h[..k];
      AttachesGrow(Past(h), k);
    } else {
      assert h[..k] == h;
    }
  }

  lemma EditorShownOne(h: History, op: Op, id: Id)
    requires id in Attached(h) ==> Attached(h)[id] == Editor
    requires id.raw <= Attaches(h)
    ensures var more := Shown(h, op, id);
      more == [] || (|more| == 1 && more[0].seqNo == Some(Displayed(h) + 1) && IsDisplayed(h, op))
  {
    RolesAreStable(h);
  }

  // ----- failures -----------------------------------------------------------------------------

  /** A response to a request of a client, other than an editor, that has left. */
  ghost predicate Orphaned(h: History, m: Message) {
    m.kind == Response && m.RequestSeq().Some? &&
    exists i: nat :: OpenSince(h, i, BackendSeq(m.RequestSeq().value))
      && TicketAt(h, i).role != Editor && h[i].id !in Attached(h)
  }

  /** The loop fails at a step in exactly three cases. */
  lemma FailsExactly(h: History, op: Op)
    ensures Failure(h, op) != None <==>
      || (op.ClientSend? && op.id !in Attached(h))
      || (op.Upstream? && op.message.kind == Response && op.message.RequestSeq().None?)
      || (op.Upstream? && Orphaned(h, op.message))
  {
    if IsResponse(op) && op.message.RequestSeq().Some? {
      var b := BackendSeq(op.message.RequestSeq().value);
      InFlightExactly(h, b);
      if b in Open(h) {
        var i := TicketHasOrigin(h, b);
        assert Open(h)[b] == TicketAt(h, i);
      }
    }
  }

  predicate HasSecondaryPending(h: History, id: Id) {
    exists b :: b in Open(h) && Open(h)[b].client == id && Open(h)[b].role != Editor
  }

  /** What well-behaved clients and adapters do: send while attached, leave with nothing pending
      (editors may leave at any time), and put a request number in every response. */
  predicate Polite(h: History, op: Op) {
    match op
    case Attach(_) => true
    case ClientSend(id, _) => id in Attached(h)
    case Detach(id) => !HasSecondaryPending(h, id)
    case Upstream(m) => m.kind == Response ==> m.RequestSeq().Some?
  }

  ghost predicate PoliteRun(h: History) {
    forall k :: 0 <= k < |h| ==> Polite(h[..k], h[k])
  }

  lemma PoliteStep(h: History, op: Op)
    requires forall b :: b in Open(h) && Open(h)[b].role != Editor ==> Open(h)[b].client in Attached(h)
    requires Polite(h, op)
    ensures Failure(h, op) == None
    ensures forall b :: b in Open(h + [op]) && Open(h + [op])[b].role != Editor ==>
      Open(h + [op])[b].client in Attached(h + [op])
  {
    StepClients(h, op);
    StepTickets(h, op);
    if op.Detach? {
      forall b | b in Open(h) && Open(h)[b].role != Editor ensures Open(h)[b].client != op.id {
      }
    }
  }

  /** Such a run never ends with an error. */
  lemma {:induction false} PoliteRunsNeverFail(h: History)
    requires PoliteRun(h)
    ensures Clean(h)
    ensures forall b :: b in Open(h) && Open(h)[b].role != Editor ==> Open(h)[b].client in Attached(h)
  {
    if h != [] {
      var past, op := Past(h), Last(h);
      assert forall k :: 0 <= k <= |past| ==> past[..k] == h[..k];
      assert h[..|past|] == past;
      PoliteRunsNeverFail(past);
      PoliteStep(past, op);
      CleanExtends(past, op);
      assert past + [op] == h;
    }
  }
}
