/** What a multiplexed session means, as functions of the operations processed so far: who is
    attached, which requests are open, what is cached, and what each step shows to each client.
    Nothing here mentions the tables of the event loop. */
module SessionHistory {
  import opened Wrappers
  import opened MuxMessage
  import opened Remapper
  import opened BreakpointState
  import BM = BreakpointModel
  import C = Cache
  import Cancel

  datatype Id = Id(raw: nat)

  datatype ClientRole = Editor | Control | Agent | Other

  datatype Op =
    | Attach(role: ClientRole)
    | ClientSend(id: Id, message: Message)
    | Detach(id: Id)
    | Upstream(message: Message)

  type History = seq<Op>

  function Past(h: History): History
    requires h != []
  {
    h[..|h| - 1]
  }

  function Last(h: History): Op
    requires h != []
  {
    h[|h| - 1]
  }

  // ----- clients ---------------------------------------------------------------

  function Attaches(h: History): nat {
    if h == [] then 0 else Attaches(Past(h)) + if Last(h).Attach? then 1 else 0
  }

  /** The id the next attach hands out. */
  function NextId(h: History): Id {
    Id(Attaches(h) + 1)
  }

  function Attached(h: History): map<Id, ClientRole> {
    if h == [] then map[]
    else
      var before := Attached(Past(h));
      match Last(h)
      case Attach(role) => before[NextId(Past(h)) := role]
      case Detach(id) => before - {id}
      case _ => before
  }

  // ----- requests ---------------------------------------------------------------

  const SNAPSHOT_COMMAND := "_dapBreakpointSnapshot"

  /** An attached client sends a request. */
  predicate IsRequest(h: History, op: Op) {
    op.ClientSend? && op.id in Attached(h) && op.message.kind == Request
  }

  /** A control client asks for the breakpoint snapshot, which is answered on the spot. */
  predicate IsLocal(h: History, op: Op) {
    IsRequest(h, op) && Attached(h)[op.id] == Control && op.message.IsCommand(SNAPSHOT_COMMAND)
  }

  /** A request that goes upstream under a fresh number.  Only an editor request without a
      number of its own goes upstream unnumbered. */
  predicate IsNumbered(h: History, op: Op) {
    IsRequest(h, op) && !IsLocal(h, op) && (Attached(h)[op.id] == Editor ==> op.message.seqNo.Some?)
  }

  /** How many upstream numbers have been used: 1, 2, 3, ... */
  function Issued(h: History): nat {
    if h == [] then 0 else Issued(Past(h)) + if IsNumbered(Past(h), Last(h)) then 1 else 0
  }

  function NextNumber(h: History): BackendSeq {
    BackendSeq(Issued(h) + 1)
  }

  /** Who an upstream number belongs to, and the number that client used. */
  datatype Ticket = Ticket(client: Id, role: ClientRole, clientSeq: int)

  function TicketFor(h: History, op: Op): Ticket
    requires IsNumbered(h, op)
  {
    Ticket(op.id, Attached(h)[op.id], op.message.seqNo.GetOr(Issued(h) + 1))
  }

  predicate IsResponse(op: Op) {
    op.Upstream? && op.message.kind == Response
  }

  /** An upstream response to number `b`. */
  predicate Answers(op: Op, b: BackendSeq) {
    IsResponse(op) && op.message.RequestSeq() == Some(b.raw)
  }

  /** Requests forwarded under a number and not answered yet. */
  function Open(h: History): map<BackendSeq, Ticket> {
    if h == [] then map[]
    else
      var past, op := Past(h), Last(h);
      if IsNumbered(past, op) then Open(past)[NextNumber(past) := TicketFor(past, op)]
      else if IsResponse(op) && op.message.RequestSeq().Some?
      then Open(past) - {BackendSeq(op.message.RequestSeq().value)}
      else Open(past)
  }

  /** The open request a response answers, if any. */
  function Answered(h: History, op: Op): Option<Ticket> {
    if IsResponse(op) && op.message.RequestSeq().Some? && BackendSeq(op.message.RequestSeq().value) in Open(h)
    then Some(Open(h)[BackendSeq(op.message.RequestSeq().value)])
    else None
  }

  predicate AnswersEditor(h: History, op: Op) {
    Answered(h, op).Some? && Answered(h, op).value.role == Editor
  }

  /** The number a `cancel` naming editor number `c` is translated to, for each `c`. */
  function Cancellable(h: History): map<ClientSeq, BackendSeq> {
    if h == [] then map[]
    else
      var past, op := Past(h), Last(h);
      if IsNumbered(past, op) && Attached(past)[op.id] == Editor then
        Cancellable(past)[ClientSeq(op.message.seqNo.value) := NextNumber(past)]
      else if AnswersEditor(past, op) then Cancellable(past) - {ClientSeq(Answered(past, op).value.clientSeq)}
      else Cancellable(past)
  }

  /** The message a request becomes on the upstream connection. */
  function Forwarded(h: History, op: Op): Message
    requires IsRequest(h, op)
  {
    if !IsNumbered(h, op) then op.message
    else if Attached(h)[op.id] == Editor then Cancel.Translated(op.message, Cancellable(h)).WithSeq(Issued(h) + 1)
    else op.message.WithSeq(Issued(h) + 1)
  }

  /** Everything sent upstream. */
  function SentUpstream(h: History): seq<Message> {
    if h == [] then []
    else
      var past, op := Past(h), Last(h);
      SentUpstream(past) + (if IsRequest(past, op) && !IsLocal(past, op) then [Forwarded(past, op)] else [])
  }

  // ----- cached state ---------------------------------------------------------------

  function LastEvent(h: History, name: string): Option<Message> {
    if h == [] then None
    else if Last(h).Upstream? && Last(h).message.IsEvent(name) then Some(Last(h).message)
    else LastEvent(Past(h), name)
  }

  function LastInitializeBody(h: History): Option<Body> {
    if h == [] then None
    else if IsResponse(Last(h)) && C.IsInitializeSuccess(Last(h).message) then Last(h).message.body
    else LastInitializeBody(Past(h))
  }

  /** What a client attaching now is told first. */
  function Replay(h: History): seq<Message> {
    C.ReplayOf(LastInitializeBody(h), LastEvent(h, "initialized"), LastEvent(h, "stopped"))
  }

  /** What one step tells the breakpoint tracker. */
  function BreakpointInput(h: History, op: Op): seq<BM.Input> {
    match op
    case ClientSend(id, m) =>
      if !IsNumbered(h, op) then []
      else if m.IsCommand("setBreakpoints") then [BM.Requested(Issued(h) + 1, Forwarded(h, op))]
      else if m.IsCommand("setExceptionBreakpoints") then [BM.ExceptionsRequested(Forwarded(h, op))]
      else []
    case Upstream(m) =>
      if m.kind == Response then [BM.Responded(m)]
      else if m.IsEvent("breakpoint") then [BM.Notified(m)]
      else []
    case _ => []
  }

  function BreakpointLog(h: History): seq<BM.Input> {
    if h == [] then [] else BreakpointLog(Past(h)) + BreakpointInput(Past(h), Last(h))
  }

  function Breakpoints(h: History): State {
    BM.Tracked(BreakpointLog(h))
  }

  // ----- what clients see ---------------------------------------------------------------

  /** Steps that consume a display number: events, answers to editors, local answers. */
  predicate IsDisplayed(h: History, op: Op) {
    || (op.Upstream? && op.message.kind == Event)
    || AnswersEditor(h, op)
    || IsLocal(h, op)
  }

  function Displayed(h: History): nat {
    if h == [] then 0 else Displayed(Past(h)) + if IsDisplayed(Past(h), Last(h)) then 1 else 0
  }

  predicate HearsEvents(h: History, id: Id) {
    id in Attached(h) && (Attached(h)[id] == Editor || Attached(h)[id] == Control)
  }

  function SnapshotAnswer(h: History, m: Message): Message {
    LocalResponse(Displayed(h) + 1, m.seqNo.GetOr(0), None,
      Snapshot(Breakpoints(h).files, Breakpoints(h).exceptions))
  }

  /** What one step adds to the inbox of one client. */
  function Shown(h: History, op: Op, id: Id): seq<Message> {
    match op
    case Attach(role) => if id == NextId(h) then Replay(h) else []
    case Detach(_) => []
    case ClientSend(sender, m) => if sender == id && IsLocal(h, op) then [SnapshotAnswer(h, m)] else []
    case Upstream(m) =>
      if m.kind == Event then
        if HearsEvents(h, id) then [m.WithSeq(Displayed(h) + 1)] else []
      else
        match Answered(h, op)
        case None => []
        case Some(ticket) =>
          if ticket.role == Editor then
            if id in Attached(h) && Attached(h)[id] == Editor
            then [m.WithRequestSeq(ticket.clientSeq).WithSeq(Displayed(h) + 1)] else []
          else if id == ticket.client && id in Attached(h) then [m.WithRequestSeq(ticket.clientSeq)] else []
  }

  function Inbox(h: History, id: Id): seq<Message> {
    if h == [] then [] else Inbox(Past(h), id) + Shown(Past(h), Last(h), id)
  }

  // ----- failures ---------------------------------------------------------------

  datatype MuxError = ClientNotFound | ResponseWithoutRequestSeq

  /** Whether, and how, the event loop ends with an error at this step. */
  function Failure(h: History, op: Op): Option<MuxError> {
    match op
    case ClientSend(id, _) => if id !in Attached(h) then Some(ClientNotFound) else None
    case Upstream(m) =>
      if m.kind != Response then None
      else if m.RequestSeq().None? then Some(ResponseWithoutRequestSeq)
      else
        var ticket := Answered(h, op);
        if ticket.Some? && ticket.value.role != Editor && ticket.value.client !in Attached(h) then Some(ClientNotFound)
        else None
    case _ => None
  }

  /** No step of the history failed. */
  ghost predicate Clean(h: History) {
    forall k :: 0 <= k < |h| ==> Failure(h[..k], h[k]) == None
  }

  // ----- one more step --------------------------------------------------------------------

  lemma Extend(h: History, op: Op)
    ensures Past(h + [op]) == h && Last(h + [op]) == op
  {
  }

  lemma CleanExtends(h: History, op: Op)
    requires Clean(h)
    ensures Clean(h + [op]) <==> Failure(h, op) == None
  {
    var longer := h + [op];
    assert forall k :: 0 <= k <= |h| ==> longer[..k] == h[..k];
    assert h[..|h|] == h && longer[|h|] == op;
  }

  /** What one step tells the tracker, applied to the tracker. */
  lemma BreakpointsStep(h: History, op: Op)
    ensures Breakpoints(h + [op]) ==
      var input := BreakpointInput(h, op);
      if input == [] then Breakpoints(h) else BM.Next(Breakpoints(h), input[0])
  {
    Extend(h, op);
    var log, input := BreakpointLog(h), BreakpointInput(h, op);
    assert BreakpointLog(h + [op]) == log + input;
    if input == [] {
      assert log + input == log;
    } else {
      assert input == [input[0]];
      assert (log + input)[..|log|] == log;
    }
  }

  // Every reading of a history, one step later.

  lemma StepClients(h: History, op: Op)
    ensures Attaches(h + [op]) == Attaches(h) + if op.Attach? then 1 else 0
    ensures Attached(h + [op]) ==
      if op.Attach? then Attached(h)[NextId(h) := op.role]
      else if op.Detach? then Attached(h) - {op.id}
      else Attached(h)
    ensures forall id :: Inbox(h + [op], id) == Inbox(h, id) + Shown(h, op, id)
  {
    Extend(h, op);
  }

  lemma StepCounters(h: History, op: Op)
    ensures Issued(h + [op]) == Issued(h) + if IsNumbered(h, op) then 1 else 0
    ensures Displayed(h + [op]) == Displayed(h) + if IsDisplayed(h, op) then 1 else 0
    ensures SentUpstream(h + [op]) ==
      SentUpstream(h) + if IsRequest(h, op) && !IsLocal(h, op) then [Forwarded(h, op)] else []
  {
    Extend(h, op);
  }

  lemma StepTickets(h: History, op: Op)
    ensures Open(h + [op]) ==
      if IsNumbered(h, op) then Open(h)[NextNumber(h) := TicketFor(h, op)]
      else if IsResponse(op) && op.message.RequestSeq().Some? then Open(h) - {BackendSeq(op.message.RequestSeq().value)}
      else Open(h)
    ensures Cancellable(h + [op]) ==
      if IsNumbered(h, op) && Attached(h)[op.id] == Editor
      then Cancellable(h)[ClientSeq(op.message.seqNo.value) := NextNumber(h)]
      else if AnswersEditor(h, op) then Cancellable(h) - {ClientSeq(Answered(h, op).value.clientSeq)}
      else Cancellable(h)
  {
    Extend(h, op);
  }

  lemma StepCache(h: History, op: Op)
    ensures forall name :: op.Upstream? && op.message.IsEvent(name) ==> LastEvent(h + [op], name) == Some(op.message)
    ensures forall name :: !(op.Upstream? && op.message.IsEvent(name)) ==>
      LastEvent(h + [op], name) == LastEvent(h, name)
    ensures LastInitializeBody(h + [op]) ==
      if IsResponse(op) && C.IsInitializeSuccess(op.message) then op.message.body else LastInitializeBody(h)
    ensures Breakpoints(h + [op]) ==
      if BreakpointInput(h, op) == [] then Breakpoints(h) else BM.Next(Breakpoints(h), BreakpointInput(h, op)[0])
  {
    Extend(h, op);
    BreakpointsStep(h, op);
  }

  /** Open numbers have been issued. */
  lemma {:induction false} OpenAreIssued(h: History)
    ensures forall b :: b in Open(h) ==> 1 <= b.raw <= Issued(h)
  {
    if h != [] {
      OpenAreIssued(Past(h));
    }
  }

  /** Nobody has an id, or an inbox, before being attached. */
  lemma {:induction false} NobodyYet(h: History, id: Id)
    requires id.raw == 0 || id.raw > Attaches(h)
    ensures Inbox(h, id) == [] && id !in Attached(h)
  {
    if h != [] {
      NobodyYet(Past(h), id);
    }
  }
}
