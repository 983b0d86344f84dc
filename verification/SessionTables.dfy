/** Which requests are in flight, who owns them, and what `cancel` may refer to: the fold-style
    readings of a history, restated by pointing at the steps themselves. */
module SessionTables {
  import opened Wrappers
  import opened MuxMessage
  import opened Remapper
  import opened SessionHistory
  import opened Session

  // ----- in-flight requests --------------------------------------------------------------

  /** Step `i` forwards a request under number `b`. */
  predicate Opens(h: History, i: nat, b: BackendSeq) {
    i < |h| && IsNumbered(h[..i], h[i]) && NextNumber(h[..i]) == b
  }

  /** ... and no response to `b` has come since. */
  ghost predicate OpenSince(h: History, i: nat, b: BackendSeq) {
    Opens(h, i, b) && forall j :: i < j < |h| ==> !Answers(h[j], b)
  }

  function TicketAt(h: History, i: nat): Ticket
    requires i < |h| && IsNumbered(h[..i], h[i])
  {
    TicketFor(h[..i], h[i])
  }

  lemma PrefixOfPast(h: History, i: nat)
    requires h != [] && i < |h|
    ensures Past(h)[..i] == h[..i]
  {
  }

  lemma {:induction false} OpenHasTicket(h: History, i: nat, b: BackendSeq)
    requires OpenSince(h, i, b)
    ensures b in Open(h) && Open(h)[b] == TicketAt(h, i)
  {
    PrefixOfPast(h, i);
    assert h[..|h| - 1] == Past(h);
    if i < |h| - 1 {
      assert OpenSince(Past(h), i, b);
      OpenHasTicket(Past(h), i, b);
      OpenAreIssued(Past(h));
      assert !Answers(h[|h| - 1], b);
    }
  }

  lemma {:induction false} TicketHasOrigin(h: History, b: BackendSeq) returns (i: nat)
    requires b in Open(h)
    ensures OpenSince(h, i, b)
  {
    var past, op := Past(h), Last(h);
    assert h[..|h| - 1] == past;
    if IsNumbered(past, op) && NextNumber(past) == b {
      i := |h| - 1;
    } else {
      i := TicketHasOrigin(past, b);
      PrefixOfPast(h, i);
      forall j | i < j < |h| ensures !Answers(h[j], b) {
        assert j < |past| ==> h[j] == past[j];
      }
    }
  }

  /** In every history, a number is in flight exactly when some step forwarded a request under it
      and no later step answered it. */
  lemma InFlightExactly(h: History, b: BackendSeq)
    ensures b in Open(h) <==> exists i: nat :: OpenSince(h, i, b)
    ensures forall i: nat :: OpenSince(h, i, b) ==> Open(h)[b] == TicketAt(h, i)
  {
    if b in Open(h) {
      var i := TicketHasOrigin(h, b);
    }
    forall i: nat | OpenSince(h, i, b) ensures b in Open(h) && Open(h)[b] == TicketAt(h, i) {
      OpenHasTicket(h, i, b);
    }
  }

  /** Hence for the tables of the loop: their keys never overlap, are numbers already issued, and
      together are exactly the requests forwarded and not yet answered. */
  lemma TablesHoldInFlight(t: Tables, h: History, b: BackendSeq)
    requires TablesMatch(t, h)
    ensures !(b in t.reverse && b in t.secondary)
    ensures (b in t.reverse || b in t.secondary) <==> exists i: nat :: OpenSince(h, i, b)
    ensures b in t.reverse || b in t.secondary ==> 1 <= b.raw <= Issued(h)
    ensures forall i: nat :: OpenSince(h, i, b) ==>
      if TicketAt(h, i).role == Editor then b in t.reverse && t.reverse[b].raw == TicketAt(h, i).clientSeq
      else b in t.secondary && t.secondary[b] == Secondary(h[i].id, TicketAt(h, i).clientSeq)
  {
    InFlightExactly(h, b);
    OpenAreIssued(h);
  }

  lemma {:induction false} IssuedGrows(h: History, j: nat, i: nat)
    requires j <= i <= |h|
    ensures Issued(h[..j]) <= Issued(h[..i])
    decreases i - j
  {
    if j < i {
      assert Past(h[..i]) == h[..i - 1];
      IssuedGrows(h, j, i - 1);
    }
  }

  /** A number that was answered after it was issued is never in flight again. */
  lemma AnsweredIsClosed(h: History, j: nat, b: BackendSeq)
    requires j < |h| && Answers(h[j], b) && b.raw <= Issued(h[..j])
    ensures b !in Open(h)
  {
    InFlightExactly(h, b);
    forall i: nat ensures !OpenSince(h, i, b) {
      if i > j && Opens(h, i, b) {
        IssuedGrows(h, j, i);
      }
    }
  }

  // ----- the editor's own numbers -------------------------------------------------------------

  predicate IsEditorTicket(open: map<BackendSeq, Ticket>, b: BackendSeq, c: ClientSeq) {
    b in open && open[b].role == Editor && open[b].clientSeq == c.raw
  }

  /** The forward table only ever names in-flight editor requests, under their own number. */
  lemma {:induction false} ForwardIsInverse(h: History)
    ensures forall c :: c in Cancellable(h) ==> IsEditorTicket(Open(h), Cancellable(h)[c], c)
  {
    if h != [] {
      ForwardIsInverse(Past(h));
      OpenAreIssued(Past(h));
    }
  }

  /** No two in-flight editor requests carry the same number. */
  ghost predicate DistinctNow(h: History) {
    forall a, b, c :: IsEditorTicket(Open(h), a, c) && IsEditorTicket(Open(h), b, c) ==> a == b
  }

  /** At no point so far did two in-flight editor requests carry the same number. */
  ghost predicate AlwaysDistinct(h: History) {
    forall k :: 0 <= k <= |h| ==> DistinctNow(h[..k])
  }

  lemma DistinctPast(h: History)
    requires h != [] && AlwaysDistinct(h)
    ensures AlwaysDistinct(Past(h)) && DistinctNow(h) && DistinctNow(Past(h))
  {
    var past := Past(h);
    assert h[..|h|] == h && h[..|h| - 1] == past;
    forall k | 0 <= k <= |past| ensures DistinctNow(past[..k]) {
      assert past[..k] == h[..k];
    }
  }

  /** With distinct numbers the two tables are inverses of each other. */
  lemma {:induction false} TablesAreInverses(h: History, b: BackendSeq, c: ClientSeq)
    requires AlwaysDistinct(h)
    ensures IsEditorTicket(Open(h), b, c) <==> c in Cancellable(h) && Cancellable(h)[c] == b
  {
    if h != [] {
      var past, op := Past(h), Last(h);
      DistinctPast(h);
      TablesAreInverses(past, b, c);
      OpenAreIssued(past);
      ForwardIsInverse(h);
      if IsEditorTicket(Open(h), b, c) && !IsNumbered(past, op) && AnswersEditor(past, op) {
        var n := BackendSeq(op.message.RequestSeq().value);
        assert IsEditorTicket(Open(past), n, ClientSeq(Answered(past, op).value.clientSeq));
        assert IsEditorTicket(Open(past), b, c);
      }
    }
  }

  /** Step `i` is an editor request numbered `c`. */
  predicate EditorSends(h: History, i: nat, c: ClientSeq) {
    i < |h| && IsNumbered(h[..i], h[i]) && Attached(h[..i])[h[i].id] == Editor && h[i].message.seqNo == Some(c.raw)
  }

  /** Step `i` answers an editor request numbered `c`. */
  predicate EditorAnswered(h: History, i: nat, c: ClientSeq) {
    i < |h| && AnswersEditor(h[..i], h[i]) && Answered(h[..i], h[i]).value.clientSeq == c.raw
  }

  ghost predicate LatestSend(h: History, i: nat, c: ClientSeq) {
    && EditorSends(h, i, c)
    && forall j :: i < j < |h| ==> !EditorSends(h, j, c) && !EditorAnswered(h, j, c)
  }

  lemma LatestSendOfPast(h: History, i: nat, c: ClientSeq)
    requires h != [] && i < |Past(h)|
    requires !EditorSends(h, |h| - 1, c) && !EditorAnswered(h, |h| - 1, c)
    ensures LatestSend(h, i, c) <==> LatestSend(Past(h), i, c)
  {
    var past := Past(h);
    assert forall j :: 0 <= j < |past| ==> past[..j] == h[..j] && past[j] == h[j];
    assert forall j :: 0 <= j < |past| ==>
      (EditorSends(past, j, c) <==> EditorSends(h, j, c)) && (EditorAnswered(past, j, c) <==> EditorAnswered(h, j, c));
  }

  /** Exactly when a number can be cancelled, whatever numbers the editor picks: its last use is
      still in flight, and no request with the same number was answered since. */
  lemma {:induction false} CancellableExactly(h: History, c: ClientSeq)
    ensures c in Cancellable(h) <==> exists i: nat :: LatestSend(h, i, c)
    ensures forall i: nat :: LatestSend(h, i, c) ==> c in Cancellable(h) && Cancellable(h)[c] == NextNumber(h[..i])
  {
    if h != [] {
      var past, op, last := Past(h), Last(h), |h| - 1;
      assert h[..last] == past;
      CancellableExactly(past, c);
      if EditorSends(h, last, c) {
        assert LatestSend(h, last, c);
        assert forall i: nat :: LatestSend(h, i, c) ==> i == last;
      } else if EditorAnswered(h, last, c) {
        assert forall i: nat :: LatestSend(h, i, c) ==> i == last;
        assert forall i: nat :: !LatestSend(h, i, c);
      } else {
        forall i: nat | i < |past| ensures LatestSend(h, i, c) <==> LatestSend(past, i, c) {
          LatestSendOfPast(h, i, c);
        }
        assert forall i: nat :: i < |past| ==> past[..i] == h[..i];
        assert forall i: nat :: LatestSend(h, i, c) ==> i < |past|;
        assert c in Cancellable(h) <==> c in Cancellable(past);
      }
    }
  }

  // ----- cancel ------------------------------------------------------------------------------

  /** An editor sends `cancel` naming its own number `c`. */
  predicate EditorCancels(h: History, op: Op, c: ClientSeq) {
    IsNumbered(h, op) && Attached(h)[op.id] == Editor && op.message.CancelRequestId() == Some(c.raw)
  }

  /** What an editor's `cancel` becomes.  If it is rewritten, it names an in-flight request of an
      editor and not the number it goes out under itself; if not, it is otherwise unchanged. */
  lemma CancelTargets(h: History, op: Op, c: ClientSeq)
    requires EditorCancels(h, op, c)
    ensures var sent := Forwarded(h, op);
      && sent.seqNo == Some(NextNumber(h).raw)
      && (c !in Cancellable(h) ==> sent == op.message.WithSeq(NextNumber(h).raw))
      && (c in Cancellable(h) ==>
           && sent.CancelRequestId() == Some(Cancellable(h)[c].raw)
           && IsEditorTicket(Open(h), Cancellable(h)[c], c)
           && Cancellable(h)[c].raw != NextNumber(h).raw)
  {
    ForwardIsInverse(h);
    OpenAreIssued(h);
  }

  /** The message names upstream request `b`, which is in flight for a client that is no editor. */
  predicate NamesAnothers(h: History, sent: Message, b: BackendSeq) {
    sent.CancelRequestId() == Some(b.raw) && b in Open(h) && Open(h)[b].role != Editor
  }

  /** An editor's `cancel` names another client's in-flight request exactly when it is not rewritten
      and its own number happens to be the upstream number of such a request. */
  lemma CancelNamesAnothersExactly(h: History, op: Op, c: ClientSeq)
    requires EditorCancels(h, op, c)
    ensures (exists b :: NamesAnothers(h, Forwarded(h, op), b)) <==>
      c !in Cancellable(h) && BackendSeq(c.raw) in Open(h) && Open(h)[BackendSeq(c.raw)].role != Editor
  {
    CancelTargets(h, op, c);
    if c !in Cancellable(h) && BackendSeq(c.raw) in Open(h) && Open(h)[BackendSeq(c.raw)].role != Editor {
      assert NamesAnothers(h, Forwarded(h, op), BackendSeq(c.raw));
    }
  }

  /** A `cancel` of any other client is never rewritten: it names the number its sender wrote. */
  lemma OthersCancelUnchanged(h: History, op: Op)
    requires IsNumbered(h, op) && Attached(h)[op.id] != Editor
    ensures Forwarded(h, op) == op.message.WithSeq(NextNumber(h).raw)
    ensures Forwarded(h, op).CancelRequestId() == op.message.CancelRequestId()
  {
  }

  /** With distinct numbers, a `cancel` is translated if and only if it names a request in flight,
      and then to the upstream number of that very request. */
  lemma CancelIsExact(h: History, op: Op, c: ClientSeq)
    requires EditorCancels(h, op, c) && AlwaysDistinct(h)
    ensures forall b :: IsEditorTicket(Open(h), b, c) ==> Forwarded(h, op).CancelRequestId() == Some(b.raw)
    ensures (forall b :: !IsEditorTicket(Open(h), b, c)) ==> Forwarded(h, op) == op.message.WithSeq(NextNumber(h).raw)
  {
    CancelTargets(h, op, c);
    ForwardIsInverse(h);
    forall b | IsEditorTicket(Open(h), b, c) ensures Forwarded(h, op).CancelRequestId() == Some(b.raw) {
      TablesAreInverses(h, b, c);
    }
  }

  /** For any numbers at all: a `cancel` is translated exactly when the number's last use is still
      in flight and no request with the same number was answered since, and then to that use. */
  lemma CancelReachesLatest(h: History, op: Op, c: ClientSeq)
    requires EditorCancels(h, op, c)
    ensures forall i: nat :: LatestSend(h, i, c) ==>
      Forwarded(h, op) == op.message.WithCancelRequestId(NextNumber(h[..i]).raw).WithSeq(NextNumber(h).raw)
    ensures (forall i: nat :: !LatestSend(h, i, c)) ==> Forwarded(h, op) == op.message.WithSeq(NextNumber(h).raw)
  {
    CancellableExactly(h, c);
    CancelTargets(h, op, c);
  }

  // ----- when numbers are not distinct ---------------------------------------------------------

  function Plain(kind: Kind, seqNo: Option<int>, answers: Field<int>): Message {
    Message(kind, seqNo, Absent, answers, None, None, None, None, None)
  }

  /** An editor that uses number 5 twice at once: after the first answer, the second request is
      still in flight but can no longer be cancelled. */
  lemma DuplicateLosesCancel()
    ensures var send := ClientSend(Id(1), Plain(Request, Some(5), Absent));
      var h := [Attach(Editor), send, send, Upstream(Plain(Response, None, Is(1)))];
      IsEditorTicket(Open(h), BackendSeq(2), ClientSeq(5)) && ClientSeq(5) !in Cancellable(h)
  {
    var attach, send := Attach(Editor), ClientSend(Id(1), Plain(Request, Some(5), Absent));
    var answer := Upstream(Plain(Response, None, Is(1)));
    hide Attached, Issued, Open, Cancellable, Attaches;
    Beginning();
    StepClients([], attach);
    StepCounters([], attach);
    StepTickets([], attach);
    assert [] + [attach] == [attach];
    SendExample([attach], 0);
    assert [attach] + [send] == [attach, send];
    SendExample([attach, send], 1);
    assert [attach, send] + [send] == [attach, send, send];
    StepTickets([attach, send, send], answer);
    assert [attach, send, send] + [answer] == [attach, send, send, answer];
  }

  lemma SendExample(h: History, issued: nat)
    requires Attached(h) == map[Id(1) := Editor] && Issued(h) == issued
    ensures var longer := h + [ClientSend(Id(1), Plain(Request, Some(5), Absent))];
      && Attached(longer) == Attached(h) && Issued(longer) == issued + 1
      && Open(longer) == Open(h)[BackendSeq(issued + 1) := Ticket(Id(1), Editor, 5)]
      && Cancellable(longer) == Cancellable(h)[ClientSeq(5) := BackendSeq(issued + 1)]
  {
    var send := ClientSend(Id(1), Plain(Request, Some(5), Absent));
    hide Attached, Issued, Open, Cancellable, Attaches;
    StepClients(h, send);
    StepCounters(h, send);
    StepTickets(h, send);
  }

  lemma Beginning()
    ensures Attached([]) == map[] && Attaches([]) == 0
    ensures Issued([]) == 0 && Displayed([]) == 0 && Open([]) == map[] && Cancellable([]) == map[]
  {
  }

  /** A control client's request goes out as number 1; an editor that never sent a number 1 cancels
      it, and the `cancel` names the control client's request. */
  lemma StrayCancelExample()
    ensures var h := [Attach(Editor), Attach(Control), ClientSend(Id(2), Plain(Request, Some(9), Absent))];
      var cancel := CancelOf(1);
      EditorCancels(h, cancel, ClientSeq(1)) && NamesAnothers(h, Forwarded(h, cancel), BackendSeq(1))
  {
    hide Attached, Issued, Open, Cancellable;
    OneControlRequest();
  }

  lemma OneControlRequest()
    ensures var h := [Attach(Editor), Attach(Control), ClientSend(Id(2), Plain(Request, Some(9), Absent))];
      && Attached(h) == map[Id(1) := Editor, Id(2) := Control] && Cancellable(h) == map[]
      && BackendSeq(1) in Open(h) && Open(h)[BackendSeq(1)] == Ticket(Id(2), Control, 9)
  {
    var two: History := [Attach(Editor), Attach(Control)];
    var send := ClientSend(Id(2), Plain(Request, Some(9), Absent));
    hide Attached, Issued, Open, Cancellable, Attaches;
    EditorAndControl();
    assert two + [send] == [Attach(Editor), Attach(Control), send];
    StepClients(two, send);
    StepTickets(two, send);
  }

  lemma EditorAndControl()
    ensures var h: History := [Attach(Editor), Attach(Control)];
      && Attached(h) == map[Id(1) := Editor, Id(2) := Control] && Issued(h) == 0
      && Open(h) == map[] && Cancellable(h) == map[]
  {
    var editor, control := Attach(Editor), Attach(Control);
    var one: History := [editor];
    hide Attached, Issued, Open, Cancellable, Attaches;
    Beginning();
    assert [] + [editor] == one && one + [control] == [editor, control];
    StepClients([], editor);
    StepCounters([], editor);
    StepTickets([], editor);
    StepClients(one, control);
    StepCounters(one, control);
    StepTickets(one, control);
  }

  function CancelOf(c: int): Op {
    ClientSend(Id(1), Message(Request, Some(3), Absent, Absent, Some("cancel"), None, None,
      Some(Arguments(Some(c), None, None, None, None, "")), None))
  }
}
