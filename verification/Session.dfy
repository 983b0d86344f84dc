/** The multiplexer's event loop.  Each step of the object is proved to leave every table, the
    upstream channel and every client inbox equal to what the history of operations says. */
module Session {
  import opened Wrappers
  import opened MuxMessage
  import opened Remapper
  import opened SessionHistory
  import opened BreakpointState
  import BM = BreakpointModel
  import C = Cache
  import Cancel

  /** A request of a client other than the editor, waiting for its response. */
  datatype Secondary = Secondary(client: Id, clientSeq: int)

  // ----- the values of all tables, and what the history says they are --------------------

  datatype Clients = Clients(roles: map<Id, ClientRole>, inboxes: map<Id, seq<Message>>, lastId: nat)
  datatype Tables = Tables(
    secondary: map<BackendSeq, Secondary>,
    forward: map<ClientSeq, BackendSeq>,
    reverse: map<BackendSeq, ClientSeq>)
  datatype Channels = Channels(backend: nat, display: nat, sent: seq<Message>)
  datatype Cached = Cached(
    initialized: Option<Message>,
    lastStopped: Option<Message>,
    initializeBody: Option<Body>,
    breakpoints: State)

  datatype Loop = Loop(clients: Clients, tables: Tables, channels: Channels, cached: Cached)

  ghost predicate ClientsMatch(c: Clients, h: History) {
    && c.roles == Attached(h)
    && c.lastId == Attaches(h)
    && (forall id :: id in c.inboxes <==> 1 <= id.raw <= c.lastId)
    && (forall id :: id in c.roles ==> id in c.inboxes)
    && (forall id :: id in c.inboxes ==> c.inboxes[id] == Inbox(h, id))
  }

  function SecondaryOf(open: map<BackendSeq, Ticket>): map<BackendSeq, Secondary> {
    map b | b in open && open[b].role != Editor :: Secondary(open[b].client, open[b].clientSeq)
  }

  function ReverseOf(open: map<BackendSeq, Ticket>): map<BackendSeq, ClientSeq> {
    map b | b in open && open[b].role == Editor :: ClientSeq(open[b].clientSeq)
  }

  ghost predicate TablesMatch(t: Tables, h: History) {
    t.secondary == SecondaryOf(Open(h)) && t.reverse == ReverseOf(Open(h)) && t.forward == Cancellable(h)
  }

  ghost predicate ChannelsMatch(c: Channels, h: History) {
    c.backend == Issued(h) && c.display == Displayed(h) && c.sent == SentUpstream(h)
  }

  ghost predicate CachedMatch(c: Cached, h: History) {
    && c.initialized == LastEvent(h, "initialized")
    && c.lastStopped == LastEvent(h, "stopped")
    && c.initializeBody == LastInitializeBody(h)
    && c.breakpoints == Breakpoints(h)
  }

  ghost predicate Matches(v: Loop, h: History) {
    ClientsMatch(v.clients, h) && TablesMatch(v.tables, h) && ChannelsMatch(v.channels, h) && CachedMatch(v.cached, h)
  }

  // ----- how each kind of step changes the values ------------------------------------------

  /** The clients after a step that attaches and detaches nobody. */
  ghost predicate Delivered(before: Clients, after: Clients, h: History, op: Op) {
    && after.roles == before.roles && after.lastId == before.lastId
    && after.inboxes.Keys == before.inboxes.Keys
    && forall id :: id in before.inboxes ==> after.inboxes[id] == before.inboxes[id] + Shown(h, op, id)
  }

  lemma DeliveredMatch(before: Clients, after: Clients, h: History, op: Op)
    requires ClientsMatch(before, h) && !op.Attach? && !op.Detach?
    requires Delivered(before, after, h, op)
    ensures ClientsMatch(after, h + [op])
  {
    StepClients(h, op);
  }

  lemma AttachMatch(before: Clients, h: History, role: ClientRole)
    requires ClientsMatch(before, h)
    ensures ClientsMatch(Clients(before.roles[NextId(h) := role],
                                 before.inboxes[NextId(h) := Replay(h)],
                                 before.lastId + 1), h + [Attach(role)])
  {
    StepClients(h, Attach(role));
    NobodyYet(h, NextId(h));
  }

  lemma DetachMatch(before: Clients, h: History, id: Id)
    requires ClientsMatch(before, h)
    ensures ClientsMatch(before.(roles := before.roles - {id}), h + [Detach(id)])
  {
    StepClients(h, Detach(id));
  }

  /** Attaching, detaching and messages of the wrong kind leave tables, channels and cache alone. */
  lemma QuietMatch(v: Loop, clients: Clients, h: History, op: Op)
    requires Matches(v, h) && ClientsMatch(clients, h + [op])
    requires op.Attach? || op.Detach? || (op.ClientSend? && op.message.kind != Request)
          || (op.Upstream? && op.message.kind in {Request, Unknown})
    ensures Matches(v.(clients := clients), h + [op])
  {
    StepTickets(h, op);
    StepCounters(h, op);
    StepCache(h, op);
  }

  /** A local answer goes to its asker alone and uses one display number. */
  lemma LocalMatch(v: Loop, h: History, op: Op)
    requires Matches(v, h) && IsLocal(h, op)
    ensures op.id in v.clients.inboxes
    ensures Matches(
      v.(clients := v.clients.(inboxes :=
           v.clients.inboxes[op.id := v.clients.inboxes[op.id] + [SnapshotAnswer(h, op.message)]]),
         channels := v.channels.(display := v.channels.display + 1)), h + [op])
  {
    LocalDelivered(v.clients, h, op);
    var answer := [SnapshotAnswer(h, op.message)];
    var answered := v.clients.(inboxes := v.clients.inboxes[op.id := v.clients.inboxes[op.id] + answer]);
    hide Attached, Attaches, Issued, Open, Cancellable, SentUpstream, LastEvent, LastInitializeBody, Breakpoints;
    hide Displayed, Inbox, SecondaryOf, ReverseOf, Requested;
    hide ClientsMatch, TablesMatch, CachedMatch, Delivered, SnapshotAnswer;
    DeliveredMatch(v.clients, answered, h, op);
    UnansweredMatch(v.tables, h, op);
    StepCounters(h, op);
    LocalCachedMatch(v.cached, h, op);
  }

  lemma LocalDelivered(before: Clients, h: History, op: Op)
    requires ClientsMatch(before, h) && IsLocal(h, op)
    ensures op.id in before.inboxes
    ensures Delivered(before,
      before.(inboxes := before.inboxes[op.id := before.inboxes[op.id] + [SnapshotAnswer(h, op.message)]]), h, op)
  {
    hide Attached, Attaches, Inbox, SnapshotAnswer;
  }

  lemma LocalCachedMatch(c: Cached, h: History, op: Op)
    requires CachedMatch(c, h) && IsLocal(h, op)
    ensures CachedMatch(c, h + [op])
  {
    hide Attached, LastEvent, LastInitializeBody, Breakpoints;
    StepCache(h, op);
  }

  /** The answer in terms of the fields. */
  lemma AnsweredHere(v: Loop, h: History, op: Op)
    requires Matches(v, h) && IsLocal(h, op)
    ensures op.id in v.clients.roles
    ensures SnapshotAnswer(h, op.message) ==
      LocalResponse(v.channels.display + 1, op.message.seqNo.GetOr(0), None,
        Snapshot(v.cached.breakpoints.files, v.cached.breakpoints.exceptions))
  {
  }

  /** A forwarded request reaches no inbox ... */
  lemma RequestClientsMatch(c: Clients, h: History, op: Op)
    requires ClientsMatch(c, h) && op.ClientSend? && !IsLocal(h, op)
    ensures ClientsMatch(c, h + [op])
  {
    StepClients(h, op);
  }

  /** ... goes upstream, under the next number if it is numbered ... */
  lemma RequestChannelsMatch(c: Channels, h: History, op: Op)
    requires ChannelsMatch(c, h) && IsRequest(h, op) && !IsLocal(h, op)
    ensures ChannelsMatch(
      Channels(c.backend + (if IsNumbered(h, op) then 1 else 0), c.display, c.sent + [Forwarded(h, op)]), h + [op])
  {
    StepCounters(h, op);
  }

  /** ... and tells the cache nothing but breakpoints. */
  lemma RequestCachedMatch(c: Cached, h: History, op: Op)
    requires CachedMatch(c, h) && IsRequest(h, op) && !IsLocal(h, op)
    ensures CachedMatch(
      c.(breakpoints :=
        if IsNumbered(h, op) then Requested(c.breakpoints, Issued(h) + 1, Forwarded(h, op)) else c.breakpoints),
      h + [op])
  {
    StepCache(h, op);
    SameCommand(h, op);
  }

  lemma SameCommand(h: History, op: Op)
    requires IsRequest(h, op)
    ensures Forwarded(h, op).command == op.message.command
  {
  }

  /** What a request tells the tracker. */
  function Requested(t: State, n: int, m: Message): State {
    if m.IsCommand("setBreakpoints") then BM.Next(t, BM.Requested(n, m))
    else if m.IsCommand("setExceptionBreakpoints") then BM.Next(t, BM.ExceptionsRequested(m))
    else t
  }

  /** The fields after an editor request: without a number it only passes through. */
  function AfterEditorRequest(v: Loop, m: Message): Loop {
    match m.seqNo
    case None => v.(channels := v.channels.(sent := v.channels.sent + [m]))
    case Some(c) =>
      var n := v.channels.backend + 1;
      var out := Cancel.Translated(m, v.tables.forward).WithSeq(n);
      Loop(v.clients,
        Tables(v.tables.secondary, v.tables.forward[ClientSeq(c) := BackendSeq(n)],
          v.tables.reverse[BackendSeq(n) := ClientSeq(c)]),
        Channels(n, v.channels.display, v.channels.sent + [out]),
        v.cached.(breakpoints := Requested(v.cached.breakpoints, n, out)))
  }

  /** The fields after a request of any other client that is not answered on the spot. */
  function AfterSecondaryRequest(v: Loop, id: Id, m: Message): Loop {
    var n := v.channels.backend + 1;
    var out := m.WithSeq(n);
    Loop(v.clients,
      v.tables.(secondary := v.tables.secondary[BackendSeq(n) := Secondary(id, m.seqNo.GetOr(n))]),
      Channels(n, v.channels.display, v.channels.sent + [out]),
      v.cached.(breakpoints := Requested(v.cached.breakpoints, n, out)))
  }

  lemma EditorRequestMatch(v: Loop, h: History, op: Op)
    requires Matches(v, h) && IsRequest(h, op) && Attached(h)[op.id] == Editor
    ensures Matches(AfterEditorRequest(v, op.message), h + [op])
  {
    hide Attached, Attaches, Issued, Open, Cancellable, SentUpstream, LastEvent, LastInitializeBody, Breakpoints;
    hide Displayed, Inbox, SecondaryOf, ReverseOf, Requested, Cancel.Translated;
    assert IsNumbered(h, op) <==> op.message.seqNo.Some?;
    assert !IsLocal(h, op);
    hide ClientsMatch, TablesMatch, ChannelsMatch, CachedMatch, Forwarded, IsNumbered, IsLocal;
    EditorTablesMatch(v, h, op);
    EditorForwards(v, h, op);
    RequestClientsMatch(v.clients, h, op);
    RequestChannelsMatch(v.channels, h, op);
    RequestCachedMatch(v.cached, h, op);
  }

  lemma EditorTablesMatch(v: Loop, h: History, op: Op)
    requires Matches(v, h) && IsRequest(h, op) && Attached(h)[op.id] == Editor
    ensures TablesMatch(AfterEditorRequest(v, op.message).tables, h + [op])
  {
    hide ClientsMatch, CachedMatch, Open, Cancellable, SecondaryOf, ReverseOf, Cancel.Translated;
    if op.message.seqNo.Some? {
      NumberedMatch(v.tables, h, op);
    } else {
      UnansweredMatch(v.tables, h, op);
    }
  }

  lemma EditorForwards(v: Loop, h: History, op: Op)
    requires Matches(v, h) && IsRequest(h, op) && Attached(h)[op.id] == Editor
    ensures v.channels.backend == Issued(h)
    ensures op.message.seqNo.None? ==> Forwarded(h, op) == op.message
    ensures op.message.seqNo.Some? ==>
      Forwarded(h, op) == Cancel.Translated(op.message, v.tables.forward).WithSeq(v.channels.backend + 1)
  {
    hide Attached, Attaches, Issued, Open, Cancellable, SentUpstream, LastEvent, LastInitializeBody, Breakpoints;
    hide Displayed, Inbox, SecondaryOf, ReverseOf, Requested, Cancel.Translated;
    hide ClientsMatch, CachedMatch;
  }

  lemma SecondaryRequestMatch(v: Loop, h: History, op: Op)
    requires Matches(v, h) && IsRequest(h, op) && !IsLocal(h, op) && Attached(h)[op.id] != Editor
    ensures Matches(AfterSecondaryRequest(v, op.id, op.message), h + [op])
  {
    hide Attached, Attaches, Issued, Open, Cancellable, SentUpstream, LastEvent, LastInitializeBody, Breakpoints;
    hide Displayed, Inbox, SecondaryOf, ReverseOf, Requested, Cancel.Translated;
    NumberedMatch(v.tables, h, op);
    assert v.channels.backend == Issued(h);
    hide ClientsMatch, TablesMatch, ChannelsMatch, CachedMatch;
    RequestClientsMatch(v.clients, h, op);
    RequestChannelsMatch(v.channels, h, op);
    RequestCachedMatch(v.cached, h, op);
  }

  /** What the cache holds after an upstream message. */
  function CachedAfter(c: Cached, m: Message): Cached {
    if m.kind == Event then
      Cached(
        if m.IsEvent("initialized") then Some(m) else c.initialized,
        if m.IsEvent("stopped") then Some(m) else c.lastStopped,
        c.initializeBody,
        if m.IsEvent("breakpoint") then BM.Next(c.breakpoints, BM.Notified(m)) else c.breakpoints)
    else
      Cached(c.initialized, c.lastStopped,
        if C.IsInitializeSuccess(m) then m.body else c.initializeBody,
        BM.Next(c.breakpoints, BM.Responded(m)))
  }

  lemma UpstreamCachedMatch(c: Cached, h: History, m: Message)
    requires CachedMatch(c, h) && (m.kind == Event || m.kind == Response)
    ensures CachedMatch(CachedAfter(c, m), h + [Upstream(m)])
  {
    StepCache(h, Upstream(m));
  }

  /** An event, and an answer to an editor, use one display number; other answers use none. */
  lemma UpstreamMatch(v: Loop, clients: Clients, tables: Tables, h: History, m: Message)
    requires Matches(v, h) && (m.kind == Event || m.kind == Response)
    requires TablesMatch(tables, h + [Upstream(m)])
    requires Delivered(v.clients, clients, h, Upstream(m))
    ensures Matches(
      Loop(clients, tables,
        v.channels.(display := v.channels.display + if IsDisplayed(h, Upstream(m)) then 1 else 0),
        CachedAfter(v.cached, m)), h + [Upstream(m)])
  {
    hide Delivered, CachedAfter, CachedMatch, ClientsMatch, TablesMatch;
    var op := Upstream(m);
    StepCounters(h, op);
    UpstreamCachedMatch(v.cached, h, m);
    DeliveredMatch(v.clients, clients, h, op);
  }

  lemma UpstreamChannelsMatch(c: Channels, h: History, m: Message)
    requires ChannelsMatch(c, h)
    ensures ChannelsMatch(c.(display := c.display + if IsDisplayed(h, Upstream(m)) then 1 else 0), h + [Upstream(m)])
    ensures c.display == Displayed(h)
  {
    StepCounters(h, Upstream(m));
  }

  lemma CachedReplay(c: Cached, h: History)
    requires CachedMatch(c, h)
    ensures C.ReplayOf(c.initializeBody, c.initialized, c.lastStopped) == Replay(h)
  {
  }

  lemma SameRoles(v: Loop, h: History)
    requires Matches(v, h)
    ensures v.clients.roles == Attached(h)
  {
  }

  lemma ClientsHaveInboxes(c: Clients, h: History)
    requires ClientsMatch(c, h)
    ensures c.roles == Attached(h) && c.lastId == Attaches(h)
    ensures forall id :: id in c.roles ==> id in c.inboxes
  {
  }

  /** The tables and the history agree on whom a response is for. */
  lemma AnsweredByTables(t: Tables, h: History, m: Message)
    requires TablesMatch(t, h) && m.kind == Response && m.RequestSeq().Some?
    ensures var n, ticket := BackendSeq(m.RequestSeq().value), Answered(h, Upstream(m));
      && (n in t.reverse <==> AnswersEditor(h, Upstream(m)))
      && (n in t.reverse ==> t.reverse[n].raw == ticket.value.clientSeq)
      && (n in t.secondary <==> ticket.Some? && ticket.value.role != Editor)
      && (n in t.secondary ==> t.secondary[n] == Secondary(ticket.value.client, ticket.value.clientSeq))
  {
  }

  /** A fresh number enters exactly one of the two tables. */
  lemma NumberedMatch(t: Tables, h: History, op: Op)
    requires TablesMatch(t, h) && IsNumbered(h, op)
    ensures var n, ticket := NextNumber(h), TicketFor(h, op);
      TablesMatch(
        if ticket.role == Editor then
          Tables(t.secondary, t.forward[ClientSeq(ticket.clientSeq) := n], t.reverse[n := ClientSeq(ticket.clientSeq)])
        else t.(secondary := t.secondary[n := Secondary(ticket.client, ticket.clientSeq)]),
        h + [op])
  {
    StepTickets(h, op);
    OpenAreIssued(h);
  }

  /** A response closes its number in whichever table holds it. */
  lemma AnsweredMatch(t: Tables, h: History, op: Op)
    requires TablesMatch(t, h) && IsResponse(op) && op.message.RequestSeq().Some?
    ensures var n := BackendSeq(op.message.RequestSeq().value);
      TablesMatch(
        if n in t.reverse then Tables(t.secondary, t.forward - {t.reverse[n]}, t.reverse - {n})
        else t.(secondary := t.secondary - {n}),
        h + [op])
  {
    StepTickets(h, op);
  }

  lemma UnansweredMatch(t: Tables, h: History, op: Op)
    requires TablesMatch(t, h)
    requires !IsNumbered(h, op) && !IsResponse(op)
    ensures TablesMatch(t, h + [op])
  {
    StepTickets(h, op);
  }

  /** An event reaches every attached editor and control client. */
  lemma DeliveredToListeners(before: Clients, after: Clients, h: History, m: Message, display: nat)
    requires ClientsMatch(before, h) && m.kind == Event && display == Displayed(h) + 1
    requires after.roles == before.roles && after.lastId == before.lastId && after.inboxes.Keys == before.inboxes.Keys
    requires forall id :: id in after.inboxes ==>
      after.inboxes[id] == before.inboxes[id]
        + if id in before.roles && (before.roles[id] == Editor || before.roles[id] == Control)
          then [m.WithSeq(display)] else []
    ensures Delivered(before, after, h, Upstream(m))
  {
  }

  lemma NoEventFails(h: History, m: Message)
    requires m.kind == Event
    ensures Failure(h, Upstream(m)) == None && IsDisplayed(h, Upstream(m))
  {
  }

  /** An answer to an editor request reaches every attached editor. */
  lemma DeliveredToEditors(before: Clients, after: Clients, t: Tables, h: History, m: Message)
    requires ClientsMatch(before, h) && TablesMatch(t, h)
    requires m.kind == Response && m.RequestSeq().Some? && BackendSeq(m.RequestSeq().value) in t.reverse
    requires after.roles == before.roles && after.lastId == before.lastId && after.inboxes.Keys == before.inboxes.Keys
    requires var out := m.WithRequestSeq(t.reverse[BackendSeq(m.RequestSeq().value)].raw).WithSeq(Displayed(h) + 1);
      forall id :: id in after.inboxes ==>
        after.inboxes[id] == before.inboxes[id] + if id in before.roles && before.roles[id] == Editor then [out] else []
    ensures Delivered(before, after, h, Upstream(m))
    ensures Failure(h, Upstream(m)) == None && IsDisplayed(h, Upstream(m))
  {
    hide Attaches, Inbox, Displayed, TablesMatch;
    AnsweredByTables(t, h, m);
  }

  /** An answer to any other client reaches that client, if it is still attached. */
  lemma DeliveredToSecondary(before: Clients, t: Tables, h: History, m: Message)
    requires ClientsMatch(before, h) && TablesMatch(t, h)
    requires m.kind == Response && m.RequestSeq().Some? && BackendSeq(m.RequestSeq().value) in t.secondary
    ensures var waiting := t.secondary[BackendSeq(m.RequestSeq().value)];
      && Failure(h, Upstream(m)) == (if waiting.client in before.roles then None else Some(ClientNotFound))
      && !IsDisplayed(h, Upstream(m))
      && (waiting.client in before.roles ==>
           var inbox := before.inboxes[waiting.client] + [m.WithRequestSeq(waiting.clientSeq)];
           Delivered(before, before.(inboxes := before.inboxes[waiting.client := inbox]), h, Upstream(m)))
  {
    AnsweredByTables(t, h, m);
  }

  /** A response nobody waits for reaches nobody. */
  lemma DeliveredToNobody(before: Clients, t: Tables, h: History, m: Message)
    requires ClientsMatch(before, h) && TablesMatch(t, h)
    requires m.kind == Response && m.RequestSeq().Some?
    requires var n := BackendSeq(m.RequestSeq().value); n !in t.reverse && n !in t.secondary
    ensures Delivered(before, before, h, Upstream(m))
    ensures Failure(h, Upstream(m)) == None && !IsDisplayed(h, Upstream(m))
  {
    AnsweredByTables(t, h, m);
  }

  class SessionLoop {
    var clients: map<Id, ClientRole>
    var inboxes: map<Id, seq<Message>>
    var toUpstream: seq<Message>
    var secondaryPending: map<BackendSeq, Secondary>
    var backendSeq: nat
    var displaySeq: nat
    var nextClientId: nat
    const remapper: MessageRemapper
    const cache: C.LateJoinCache

    ghost var history: History

    ghost function ClientsValue(): Clients
      reads this
    {
      Clients(clients, inboxes, nextClientId)
    }

    ghost function TablesValue(): Tables
      reads this, remapper
    {
      Tables(secondaryPending, remapper.forward, remapper.reverse)
    }

    ghost function ChannelsValue(): Channels
      reads this
    {
      Channels(backendSeq, displaySeq, toUpstream)
    }

    ghost function CachedValue(): Cached
      reads cache, cache.breakpoints
    {
      Cached(cache.initialized, cache.lastStopped, cache.initializeBody, cache.breakpoints.Value())
    }

    ghost function Value(): Loop
      reads this, remapper, cache, cache.breakpoints
    {
      Loop(ClientsValue(), TablesValue(), ChannelsValue(), CachedValue())
    }

    ghost predicate Valid()
      reads this, remapper, cache, cache.breakpoints
    {
      Matches(Value(), history) && Clean(history)
    }

    constructor ()
      ensures Valid() && history == []
      ensures fresh(remapper) && fresh(cache) && fresh(cache.breakpoints)
    {
      clients, inboxes, toUpstream, secondaryPending := map[], map[], [], map[];
      backendSeq, displaySeq, nextClientId := 0, 0, 0;
      remapper := new MessageRemapper();
      cache := new C.LateJoinCache();
      history := [];
    }

    method NextBackendSeq() returns (n: nat)
      modifies this`backendSeq
      ensures n == backendSeq == old(backendSeq) + 1
    {
      backendSeq := backendSeq + 1;
      n := backendSeq;
    }

    method NextDisplaySeq() returns (n: nat)
      modifies this`displaySeq
      ensures n == displaySeq == old(displaySeq) + 1
    {
      displaySeq := displaySeq + 1;
      n := displaySeq;
    }

    method DeliverToClient(id: Id, message: Message) returns (found: bool)
      requires id in clients ==> id in inboxes
      modifies this`inboxes
      ensures found == (id in clients)
      ensures inboxes == if id in clients then old(inboxes)[id := old(inboxes)[id] + [message]] else old(inboxes)
    {
      found := id in clients;
      if found {
        inboxes := inboxes[id := inboxes[id] + [message]];
      }
    }

    /** One copy of `message` to every attached client whose role is in `roles`, in whatever
        order the client table is walked. */
    method DeliverToRoles(roles: set<ClientRole>, message: Message)
      requires forall id :: id in clients ==> id in inboxes
      modifies this`inboxes
      ensures inboxes.Keys == old(inboxes).Keys
      ensures forall id :: id in inboxes ==>
        inboxes[id] == old(inboxes)[id] + if id in clients && clients[id] in roles then [message] else []
    {
      var todo := clients.Keys;
      while todo != {}
        invariant todo <= clients.Keys
        invariant inboxes.Keys == old(inboxes).Keys
        invariant forall id :: id in inboxes ==>
          inboxes[id] == old(inboxes)[id]
            + if id in clients && id !in todo && clients[id] in roles then [message] else []
        decreases todo
      {
        var id :| id in todo;
        if clients[id] in roles {
          var found := DeliverToClient(id, message);
        }
        todo := todo - {id};
      }
    }

    method BroadcastToAll(message: Message)
      requires forall id :: id in clients ==> id in inboxes
      modifies this`inboxes, this`displaySeq
      ensures displaySeq == old(displaySeq) + 1
      ensures inboxes.Keys == old(inboxes).Keys
      ensures forall id :: id in inboxes ==>
        inboxes[id] == old(inboxes)[id]
          + if id in clients && (clients[id] == Editor || clients[id] == Control)
            then [message.WithSeq(displaySeq)] else []
    {
      var display := NextDisplaySeq();
      DeliverToRoles({Editor, Control}, message.WithSeq(display));
    }

    method DeliverToEditor(message: Message)
      requires forall id :: id in clients ==> id in inboxes
      modifies this`inboxes, this`displaySeq
      ensures displaySeq == old(displaySeq) + 1
      ensures inboxes.Keys == old(inboxes).Keys
      ensures forall id :: id in inboxes ==>
        inboxes[id] == old(inboxes)[id]
          + if id in clients && clients[id] == Editor then [message.WithSeq(displaySeq)] else []
    {
      var display := NextDisplaySeq();
      DeliverToRoles({Editor}, message.WithSeq(display));
    }

    method ReplayTo(id: Id, cached: seq<Message>)
      requires id in clients && id in inboxes
      modifies this`inboxes
      ensures inboxes == old(inboxes)[id := old(inboxes)[id] + cached]
    {
      for i := 0 to |cached|
        invariant id in inboxes
        invariant inboxes[id] == old(inboxes)[id] + cached[..i]
        invariant inboxes == old(inboxes)[id := inboxes[id]]
      {
        var found := DeliverToClient(id, cached[i]);
        assert old(inboxes)[id] + cached[..i] + [cached[i]] == old(inboxes)[id] + cached[..i + 1];
      }
      assert cached[..|cached|] == cached;
    }

    /** A new client: it gets the next id and the replay as its first messages. */
    method AttachClient(role: ClientRole) returns (id: Id)
      requires Valid()
      modifies this
      ensures Valid() && history == old(history) + [Attach(role)]
      ensures id == NextId(old(history)) && id in clients
    {
      hide Attached, Attaches, Issued, Open, Cancellable, SentUpstream;
      hide LastEvent, LastInitializeBody, Breakpoints, Displayed, Inbox;
      hide Shown, Clean, ClientsMatch, TablesMatch, ChannelsMatch, CachedMatch;
      ClientsHaveInboxes(ClientsValue(), history);
      CachedReplay(CachedValue(), history);
      nextClientId := nextClientId + 1;
      id := Id(nextClientId);
      clients := clients[id := role];
      inboxes := inboxes[id := []];
      var cached := cache.Replay();
      ReplayTo(id, cached);
      assert [] + cached == cached;
      assert inboxes == old(inboxes)[id := cached];
      history := history + [Attach(role)];
      AttachMatch(old(ClientsValue()), old(history), role);
      QuietMatch(old(Value()), ClientsValue(), old(history), Attach(role));
      CleanExtends(old(history), Attach(role));
    }

    method DetachClient(id: Id)
      requires Valid()
      modifies this
      ensures Valid() && history == old(history) + [Detach(id)]
    {
      hide Attached, Attaches, Issued, Open, Cancellable, SentUpstream;
      hide LastEvent, LastInitializeBody, Breakpoints, Displayed, Inbox;
      clients := clients - {id};
      history := history + [Detach(id)];
      DetachMatch(old(ClientsValue()), old(history), id);
      QuietMatch(old(Value()), ClientsValue(), old(history), Detach(id));
      CleanExtends(old(history), Detach(id));
    }

    method HandleClientMessage(id: Id, message: Message) returns (r: Option<MuxError>)
      requires Valid()
      modifies this, remapper, cache, cache.breakpoints
      ensures r == Failure(old(history), ClientSend(id, message))
      ensures Valid()
      ensures r != None ==> inboxes == old(inboxes) && toUpstream == old(toUpstream)
      ensures history == if r == None then old(history) + [ClientSend(id, message)] else old(history)
    {
      hide Attached, Attaches, Issued, Open, Cancellable, SentUpstream;
      hide LastEvent, LastInitializeBody, Breakpoints, Displayed, Inbox;
      if id !in clients {
        return Some(ClientNotFound);
      }
      r := None;
      if message.kind != Request {
        Ignore(ClientSend(id, message));
        return;
      }
      var role := clients[id];
      if role == Control && message.command == Some(SNAPSHOT_COMMAND) {
        AnswerSnapshot(id, message);
      } else if role == Editor {
        ForwardFromEditor(id, message);
      } else {
        ForwardFromSecondary(id, message);
      }
    }

    /** A message of the wrong kind is dropped. */
    ghost method Ignore(op: Op)
      requires Valid() && Failure(history, op) == None
      requires (op.ClientSend? && op.message.kind != Request)
            || (op.Upstream? && op.message.kind in {Request, Unknown})
      modifies this`history
      ensures Valid() && history == old(history) + [op]
    {
      hide Attached, Attaches, Issued, Open, Cancellable, SentUpstream;
      hide LastEvent, LastInitializeBody, Breakpoints, Displayed, Inbox;
      history := history + [op];
      DeliveredMatch(ClientsValue(), ClientsValue(), old(history), op);
      QuietMatch(old(Value()), ClientsValue(), old(history), op);
      CleanExtends(old(history), op);
    }

    method AnswerSnapshot(id: Id, message: Message)
      requires Valid() && IsLocal(history, ClientSend(id, message))
      modifies this
      ensures Valid() && history == old(history) + [ClientSend(id, message)]
    {
      hide Attached, Attaches, Issued, Open, Cancellable, SentUpstream;
      hide LastEvent, LastInitializeBody, Breakpoints, Displayed, Inbox;
      ghost var op := ClientSend(id, message);
      LocalMatch(old(Value()), old(history), op);
      AnsweredHere(old(Value()), old(history), op);
      ClientsHaveInboxes(ClientsValue(), history);
      hide Matches, SnapshotAnswer, SecondaryOf, ReverseOf, Clean, ClientsMatch;
      var body := cache.BreakpointSnapshot();
      var display := NextDisplaySeq();
      var found := DeliverToClient(id, LocalResponse(display, message.seqNo.GetOr(0), None, body));
      history := history + [op];
      CleanExtends(old(history), op);
    }

    method ForwardFromEditor(id: Id, message: Message)
      requires Valid() && IsRequest(history, ClientSend(id, message)) && clients[id] == Editor
      modifies this, remapper, cache.breakpoints
      ensures Valid() && history == old(history) + [ClientSend(id, message)]
    {
      hide Attached, Attaches, Issued, Open, Cancellable, SentUpstream;
      hide LastEvent, LastInitializeBody, Breakpoints, Displayed, Inbox, Matches, BM.Next;
      ghost var op := ClientSend(id, message);
      SameRoles(old(Value()), old(history));
      EditorRequestMatch(old(Value()), old(history), op);
      var outbound := message;
      match message.seqNo {
        case Some(clientSeq) =>
          var translated, changed := Cancel.TranslateCancel(message, remapper);
          var backend := NextBackendSeq();
          outbound := translated.WithSeq(backend);
          remapper.Map(ClientSeq(clientSeq), BackendSeq(backend));
          cache.ObserveClientRequest(backend, outbound);
        case None =>
      }
      toUpstream := toUpstream + [outbound];
      history := history + [op];
      assert Value() == AfterEditorRequest(old(Value()), message);
      hide AfterEditorRequest;
      CleanExtends(old(history), op);
    }

    method ForwardFromSecondary(id: Id, message: Message)
      requires Valid() && IsRequest(history, ClientSend(id, message)) && clients[id] != Editor
      requires !IsLocal(history, ClientSend(id, message))
      modifies this, cache.breakpoints
      ensures Valid() && history == old(history) + [ClientSend(id, message)]
    {
      hide Attached, Attaches, Issued, Open, Cancellable, SentUpstream;
      hide LastEvent, LastInitializeBody, Breakpoints, Displayed, Inbox, Matches, BM.Next;
      ghost var op := ClientSend(id, message);
      SameRoles(old(Value()), old(history));
      SecondaryRequestMatch(old(Value()), old(history), op);
      var backend := NextBackendSeq();
      var clientSeq := message.seqNo.GetOr(backend);
      var outbound := message.WithSeq(backend);
      secondaryPending := secondaryPending[BackendSeq(backend) := Secondary(id, clientSeq)];
      cache.ObserveClientRequest(backend, outbound);
      toUpstream := toUpstream + [outbound];
      history := history + [op];
      assert Value() == AfterSecondaryRequest(old(Value()), id, message);
      hide AfterSecondaryRequest;
      CleanExtends(old(history), op);
    }

    /** Handles one message from the debug adapter.  A failing step has delivered nothing. */
    method HandleUpstreamMessage(message: Message) returns (r: Option<MuxError>)
      requires Valid()
      modifies this, remapper, cache, cache.breakpoints
      ensures r == Failure(old(history), Upstream(message))
      ensures r == None ==> Valid() && history == old(history) + [Upstream(message)]
      ensures r != None ==> inboxes == old(inboxes) && toUpstream == old(toUpstream) && history == old(history)
    {
      r := None;
      match message.kind {
        case Response =>
          r := HandleResponse(message);
        case Event =>
          HandleEvent(message);
        case Request =>
          Ignore(Upstream(message));
        case Unknown =>
          Ignore(Upstream(message));
      }
    }

    method HandleEvent(message: Message)
      requires Valid() && message.kind == Event
      modifies this, cache, cache.breakpoints
      ensures Valid() && history == old(history) + [Upstream(message)]
    {
      hide Attached, Attaches, Issued, Open, Cancellable, SentUpstream;
      hide LastEvent, LastInitializeBody, Breakpoints, Displayed, Inbox;
      hide BM.Next, SecondaryOf, ReverseOf, Clean;
      ghost var op := Upstream(message);
      UnansweredMatch(TablesValue(), history, op);
      ClientsHaveInboxes(ClientsValue(), history);
      cache.Observe(message);
      BroadcastToAll(message);
      DeliveredToListeners(old(ClientsValue()), ClientsValue(), old(history), message, displaySeq);
      history := history + [op];
      assert CachedValue() == CachedAfter(old(CachedValue()), message);
      hide ClientsMatch, TablesMatch, CachedMatch, Delivered, CachedAfter, Shown, Failure;
      UpstreamMatch(old(Value()), ClientsValue(), TablesValue(), old(history), message);
      NoEventFails(old(history), message);
      CleanExtends(old(history), op);
    }

    method HandleResponse(message: Message) returns (r: Option<MuxError>)
      requires Valid() && message.kind == Response
      modifies this, remapper, cache, cache.breakpoints
      ensures r == Failure(old(history), Upstream(message))
      ensures r == None ==> Valid() && history == old(history) + [Upstream(message)]
      ensures r != None ==> inboxes == old(inboxes) && toUpstream == old(toUpstream) && history == old(history)
    {
      hide Attached, Attaches, Issued, Open, Cancellable, SentUpstream;
      hide LastEvent, LastInitializeBody, Breakpoints, Displayed, Inbox;
      ghost var op := Upstream(message);
      cache.ObserveResponse(message);
      if message.RequestSeq().None? {
        return Some(ResponseWithoutRequestSeq);
      }
      UpstreamCachedMatch(old(CachedValue()), history, message);
      r := RouteResponse(message);
    }

    /** Sends an observed response to whoever asked, with the number they used. */
    method RouteResponse(message: Message) returns (r: Option<MuxError>)
      requires message.kind == Response && message.RequestSeq().Some?
      requires ClientsMatch(ClientsValue(), history) && TablesMatch(TablesValue(), history)
      requires ChannelsMatch(ChannelsValue(), history) && Clean(history)
      requires CachedMatch(CachedValue(), history + [Upstream(message)])
      modifies this, remapper
      ensures r == Failure(old(history), Upstream(message))
      ensures r == None ==> Valid() && history == old(history) + [Upstream(message)]
      ensures r != None ==> inboxes == old(inboxes) && toUpstream == old(toUpstream) && history == old(history)
    {
      hide Attached, Attaches, Issued, Open, Cancellable, SentUpstream;
      hide LastEvent, LastInitializeBody, Breakpoints, Displayed, Inbox;
      hide Shown, Delivered, Failure, Clean, IsDisplayed, SecondaryOf, ReverseOf;
      hide ClientsMatch, TablesMatch, ChannelsMatch, CachedMatch;
      ghost var op := Upstream(message);
      var backend := BackendSeq(message.RequestSeq().value);
      AnsweredMatch(TablesValue(), history, op);
      UpstreamChannelsMatch(ChannelsValue(), history, message);
      ClientsHaveInboxes(ClientsValue(), history);
      var clientSeq := remapper.Unmap(backend);
      r := None;
      match clientSeq {
        case Some(c) =>
          DeliverToEditor(message.WithRequestSeq(c.raw));
          DeliveredToEditors(old(ClientsValue()), ClientsValue(), old(TablesValue()), history, message);
        case None =>
          if backend in secondaryPending {
            var waiting := secondaryPending[backend];
            DeliveredToSecondary(ClientsValue(), old(TablesValue()), history, message);
            secondaryPending := secondaryPending - {backend};
            var found := DeliverToClient(waiting.client, message.WithRequestSeq(waiting.clientSeq));
            if !found {
              return Some(ClientNotFound);
            }
          } else {
            DeliveredToNobody(ClientsValue(), old(TablesValue()), history, message);
            assert secondaryPending - {backend} == secondaryPending;
          }
      }
      DeliveredMatch(old(ClientsValue()), ClientsValue(), history, op);
      history := history + [op];
      CleanExtends(old(history), op);
    }

    method HandleOp(op: Op) returns (r: Option<MuxError>)
      requires Valid()
      modifies this, remapper, cache, cache.breakpoints
      ensures r == Failure(old(history), op)
      ensures r == None ==> Valid() && history == old(history) + [op]
      ensures r != None ==> inboxes == old(inboxes) && toUpstream == old(toUpstream) && history == old(history)
    {
      hide Matches, Clean;
      r := None;
      match op {
        case Attach(role) =>
          var id := AttachClient(role);
        case ClientSend(id, message) =>
          r := HandleClientMessage(id, message);
        case Detach(id) =>
          DetachClient(id);
        case Upstream(message) =>
          r := HandleUpstreamMessage(message);
      }
    }

    /** The loop: takes operations as they come until they run out or one fails. */
    method Run(ops: seq<Op>) returns (done: nat, r: Option<MuxError>)
      requires Valid()
      modifies this, remapper, cache, cache.breakpoints
      ensures done <= |ops| && history == old(history) + ops[..done]
      ensures r == None ==> done == |ops| && Valid()
      ensures r != None ==> done < |ops| && r == Failure(history, ops[done])
      ensures Clean(history)
    {
      hide Attached, Attaches, Issued, Open, Cancellable, SentUpstream;
      hide LastEvent, LastInitializeBody, Breakpoints, Displayed, Inbox;
      hide Matches, Failure;
      done, r := 0, None;
      while done < |ops|
        invariant done <= |ops| && Valid() && r == None
        invariant history == old(history) + ops[..done]
      {
        r := HandleOp(ops[done]);
        if r != None {
          return;
        }
        assert old(history) + ops[..done] + [ops[done]] == old(history) + ops[..done + 1];
        done := done + 1;
      }
    }
  }
}
