# A verified model of the debug-adapter multiplexer and its clients

These files model the core of a multi-client debug-adapter hub and prove what it keeps. The hub sits
between one debug adapter and any number of clients, all speaking the Debug Adapter Protocol (DAP).

* **The multiplexer** (`MuxMessage`, `Remapper`, `Cancel`, `Cache`, `BreakpointState`, `Session`). The
  event loop, its tables, its cache and its breakpoint tracker are classes whose methods update the
  same fields as the original. `SessionHistory` says what a run means as functions of the operations
  processed so far, without mentioning any table. `Session.SessionLoop.Valid` ties every field to that
  meaning, so each lemma about histories is a statement about every reachable state and every run:
  `SessionContents` and `SessionEdits` (what messages and lists contain, member by member),
  `SessionTables` (in-flight numbers, `cancel`), `SessionRouting` (who receives what, when the loop
  fails), `SessionBreakpoints` (which request a response confirms), `ExecutionState` (what a late
  joiner believes).
* **The breakpoint tracker** (`BreakpointState`, `BreakpointModel`). An index from adapter ids to
  positions in per-file lists, with positions that shift on removal, refines lists of tagged entries
  that have no index at all. One kind of event breaks the refinement; it is characterised exactly.
* **The control client and the handshake** (`ControlClient`, `SessionInit`, `Handshake`,
  `HandshakeNoise`). Selective receive over one wire loses nothing and always takes the earliest
  match; the start-up handshake succeeds on exactly the wires described, whatever is interleaved.
* **Four algorithms**: the `*` matcher (`StopPolicy`), message framing (`Radix`, `Ascii`,
  `Transport`), the bounded tree of child proxies (`ChildSession`), and the two lossless renderings,
  hex dump and highlighted source (`Memory`, `SourceView`).

`Wrappers` holds the shared option and result types.

Results worth knowing before using the code:

* A `new` breakpoint event that re-uses a known id for another file may overwrite an unrelated entry
  (`BreakpointModel.ClashExample`); without such an event the tracker is exact, and the first such
  event always makes it inexact (`BreakpointModel.FirstClashDiverges`).
* An editor that has two requests with the same number in flight loses the ability to cancel the
  second one when the first is answered (`SessionTables.DuplicateLosesCancel`); which number a
  `cancel` reaches is stated for any numbers at all (`SessionTables.CancellableExactly`).
* With two editors attached, each is shown the answers to the other's requests
  (`SessionRouting.TwoEditorsExample`; exactly when a response stays private is
  `SessionRouting.PrivateExactly`).
* An editor's `cancel` that names none of its own requests in flight is forwarded as it is, and may so
  name another client's request (`SessionTables.StrayCancelExample`,
  `SessionTables.CancelNamesAnothersExactly`).
* A response is routed by `requestSeq` first and attributed by `request_seq` first. An answer to a
  request in flight that carries both, with different contents, goes to its asker but does not confirm
  its breakpoints (`SessionBreakpoints.AnswerSettlesExactly`); it may install another client's
  (`SessionBreakpoints.MisspeltExample`). This concerns the multiplexer's own interface: the bridge in
  front of it (crates/dap-core/src/mux_bridge.rs) parses messages into a type for which the two
  spellings are one field (crates/dap-protocol/src/message.rs:26-28), so a message with both does not
  get through it.
* A late joiner's execution state is right at once exactly when the condition
  `ExecutionState.InStep` holds; `continued` does not clear the cached `stopped`
  (`ExecutionState.ContinuedExample`).
* The python manifest (tests/fixtures/plugins/builtin/python/plugin.yaml) misses an `initialized` event
  that precedes the answer to `initialize`; the default sequence does not
  (`Handshake.EarlyInitializedExample`; exactly when each succeeds is `Handshake.PythonSucceedsExactly`
  and `Handshake.DefaultSucceedsExactly`).
* A manifest step that names its own command as the response to wait for, with no event, needs two
  responses (`Handshake.SelfWaitNeedsTwoResponses`, `Handshake.SelfWaitExample`).
* A child process that starts but never reports ready is neither counted nor stopped, so the limit on
  children does not bound how many are started (`ChildSession.UnreadyExample`); the depth limit does
  hold for them (`ChildSession.TreeIsSmall`).
* The hex payload reader takes `+A` as a byte (`Memory.PlusSignExample`, `Memory.HexAcceptedExactly`).

Where code and documentation differ the model follows the code. The multiplexer's own README says
that clients other than the editor use upstream numbers directly and get events only from the
broadcast channel (crates/protocol-mux/README.md); the code renumbers their requests too and also
sends every event to the inbox of control clients. The comment in `control_client.rs` on
`send_dap_request_and_wait_for_event` speaks of waiting for a response; it waits for an event.

## Model

| member | source | states |
|---|---|---|
| `Session.SessionLoop.HandleOp` | crates/protocol-mux/src/session.rs:187-223 | one step of the loop keeps every field equal to the meaning of the history, fails exactly when the history says so, and a failing step delivers and forwards nothing |
| `Session.SessionLoop.Run` | crates/protocol-mux/src/session.rs:167-185 | the loop processes operations in order up to the first failing one; what was processed is a clean history |
| `Session.SessionLoop.AttachClient` | crates/protocol-mux/src/session.rs:189-214 | a new client gets a fresh id and the replay as its first messages; no other inbox changes |
| `Session.SessionLoop.DetachClient` | crates/protocol-mux/src/session.rs:218-220 | a client leaves; its pending requests stay in the table |
| `Session.SessionLoop.HandleClientMessage` | crates/protocol-mux/src/session.rs:225-268 | a message of an unknown sender fails, a non-request is dropped, a snapshot request is answered on the spot, any other request goes upstream as the history says |
| `Session.SessionLoop.AnswerSnapshot` | crates/protocol-mux/src/session.rs:237-243 | a control client's snapshot request uses one display number, reaches only its sender and is not forwarded |
| `Session.SessionLoop.ForwardFromEditor` | crates/protocol-mux/src/session.rs:247-254 | an editor request is translated if it is a `cancel`, then renumbered, then recorded in both directions; one without a number is forwarded untouched |
| `Session.SessionLoop.ForwardFromSecondary` | crates/protocol-mux/src/session.rs:255-261 | any other client's request is renumbered and remembered with its sender and number |
| `Session.SessionLoop.HandleUpstreamMessage` | crates/protocol-mux/src/session.rs:270-302 | a message of the adapter is cached and routed as the history says; a failure leaves every inbox as it was |
| `Session.SessionLoop.HandleEvent` | crates/protocol-mux/src/session.rs:292-295 | an event is cached and shown once, under one display number, to every attached editor and control client |
| `Session.SessionLoop.RouteResponse` | crates/protocol-mux/src/session.rs:276-290 | a response leaves the table that held its number and reaches whoever asked, with the asker's number |
| `Session.SessionLoop.BroadcastToAll` | crates/protocol-mux/src/session.rs:310-322 | one display number, one copy to each attached editor and control client, nothing to anyone else |
| `Session.SessionLoop.DeliverToEditor` | crates/protocol-mux/src/session.rs:324-338 | one display number, one copy to every attached editor |
| `Session.SessionLoop.DeliverToClient` | crates/protocol-mux/src/session.rs:340-350 | appends to one inbox, or reports an unknown client and changes nothing |
| `SessionContents.AttachedExactly` | crates/protocol-mux/src/session.rs:189-220 | a client is attached, with a role, if and only if some step attached it with that role and no later step detached it |
| `SessionContents.RequestsGoUpstream` | crates/protocol-mux/src/session.rs:245-266 | a request goes upstream once under the next number; every other member is untouched, but for the number in an editor's translatable `cancel` |
| `SessionContents.UnnumberedGoUpstream` | crates/protocol-mux/src/session.rs:245-266 | an editor request without a number goes upstream as it is |
| `SessionContents.NumbersIncrease` | crates/protocol-mux/src/session.rs:352-354 | upstream numbers are positive and strictly increase from request to request |
| `SessionContents.AnswersCarryTheAskersNumber` | crates/protocol-mux/src/message.rs:38-43 | every client that hears the answer to a request receives it once, under `request_seq` alone, with the number its asker used, and with nothing else changed but, for editors, the display number |
| `SessionContents.EventsGoTo` | crates/protocol-mux/src/session.rs:310-322 | an event is shown once, to exactly the attached editors and control clients, under the next display number and otherwise unchanged |
| `SessionContents.SnapshotsAreAnswered` | crates/protocol-mux/src/session.rs:237-243 | a snapshot request is answered to its sender alone, with its own number, as a success, and goes nowhere else |
| `SessionContents.LateJoinerIsTold` | crates/protocol-mux/src/cache.rs:58-77 | whoever attaches is told, in this order and nothing else: an answer to `initialize` with the body of the last successful one, the last `initialized`, the last `stopped`, each if there was one |
| `SessionTables.InFlightExactly` | crates/protocol-mux/src/session.rs:247-291 | a number is in flight if and only if some step forwarded a request under it and no later step answered it |
| `SessionTables.TablesHoldInFlight` | crates/protocol-mux/src/session.rs:247-291 | the keys of the two tables are disjoint, lie in 1..counter, and together are exactly the requests in flight, with their senders and numbers |
| `SessionTables.ForwardIsInverse` | crates/protocol-mux/src/remapper.rs:51-62 | in every history the forward table only names in-flight editor requests under their own number |
| `SessionTables.TablesAreInverses` | crates/protocol-mux/src/remapper.rs:51-62 | while the editor's in-flight numbers are distinct the two tables are mutual inverses |
| `SessionTables.CancellableExactly` | crates/protocol-mux/src/remapper.rs:51-62 | for any numbers: a number is translatable if and only if its last use is unanswered and no request with the same number was answered since; and to what |
| `SessionTables.CancelTargets` | crates/protocol-mux/src/session.rs:250-253 | a rewritten `cancel` of an editor names an in-flight editor request and never its own fresh number; one that is not rewritten is otherwise unchanged |
| `SessionTables.CancelNamesAnothersExactly` | crates/protocol-mux/src/session.rs:247-254 | an editor's `cancel` names another client's in-flight request if and only if its own number is not translatable and happens to be the upstream number of such a request |
| `SessionTables.OthersCancelUnchanged` | crates/protocol-mux/src/session.rs:255-261 | a `cancel` of any other client is never rewritten |
| `SessionTables.StrayCancelExample` | crates/protocol-mux/src/session.rs:247-254 | a concrete run in which an editor's `cancel` names a control client's request |
| `SessionTables.CancelIsExact` | crates/protocol-mux/src/cancel.rs:10-19 | with distinct numbers a `cancel` is translated if and only if it names a request in flight, and then to that request's upstream number |
| `SessionTables.CancelReachesLatest` | crates/protocol-mux/src/cancel.rs:10-19 | for any numbers: a `cancel` is rewritten to the latest use of its number if that is unanswered and no request with the number was answered since; otherwise it is forwarded unchanged |
| `SessionTables.DuplicateLosesCancel` | crates/protocol-mux/src/remapper.rs:57-62 | a concrete run in which a repeated number leaves an in-flight request that cannot be cancelled |
| `Remapper.MessageRemapper.Map` | crates/protocol-mux/src/remapper.rs:51-55 | both tables gain the pair; a fresh pair keeps them mutually inverse |
| `Remapper.MessageRemapper.Unmap` | crates/protocol-mux/src/remapper.rs:57-62 | removes the reverse entry and the forward entry of its number, or nothing; keeps consistency and invertibility |
| `Remapper.MessageRemapper.LookupBackend` | crates/protocol-mux/src/remapper.rs:64-67 | the number found maps back to the one asked for; with mutually inverse tables it is the only one that does |
| `Remapper.MessageRemapper.LookupClient` | crates/protocol-mux/src/remapper.rs:69-72 | undoes the lookup the other way; with mutually inverse tables the other lookup also undoes it |
| `Cancel.TranslateCancel` | crates/protocol-mux/src/cancel.rs:10-19 | rewrites `requestId` when it is a mapped number, changes nothing else, and reports which |
| `SessionRouting.ResponsesGoTo` | crates/protocol-mux/src/session.rs:270-291 | with any number of editors: exactly which clients a response is shown to, and as what |
| `SessionRouting.PrivateExactly` | crates/protocol-mux/src/session.rs:280-291 | a first answer is shown to nobody but its asker if and only if no other editor is attached while it answers an editor |
| `SessionRouting.TwoEditorsExample` | crates/protocol-mux/src/session.rs:331-338 | a concrete run in which a second editor is shown the first one's answer |
| `SessionRouting.ResponsesReachTheirAsker` | crates/protocol-mux/src/session.rs:270-291 | under that condition a response is shown to a client if and only if it is the first answer to that client's own request, with its number restored |
| `SessionRouting.ResponsesAreExclusive` | crates/protocol-mux/src/session.rs:280-290 | a response is shown to two clients if and only if it answers an editor and both are attached editors |
| `SessionRouting.SecondAnswersAreDropped` | crates/protocol-mux/src/session.rs:280-290 | once an issued number has been answered, no later response with it, whatever it says and whatever lies between, is shown to anyone or ends the loop |
| `SessionRouting.ResponsesAreOwnAnswers` | crates/protocol-mux/src/session.rs:225-302 | over every run in which that condition held at each response, a client's live responses are in order exactly the first answers to its own requests |
| `SessionRouting.OneEditorIsPrivate` | crates/protocol-mux/src/session.rs:324-338 | every run with at most one editor ever attached is such a run |
| `SessionRouting.OneEditor` | crates/protocol-mux/src/session.rs:324-338 | with at most one editor ever, everything held for an editor is that client's |
| `SessionRouting.InboxIsReplayThenLive` | crates/protocol-mux/src/session.rs:189-214 | an inbox is the replay computed from the upstream messages before the attach, followed by live traffic |
| `SessionRouting.InboxHasThreeParts` | crates/protocol-mux/src/session.rs:187-350 | nothing but events, responses and locally produced messages is ever in an inbox |
| `SessionRouting.NoEventIsMissed` | crates/protocol-mux/src/session.rs:310-322 | an attached editor or control client sees every later event exactly once, in upstream order |
| `SessionRouting.SameEventsForAll` | crates/protocol-mux/src/session.rs:310-322 | any two such clients see the same events under the same display numbers |
| `SessionRouting.NothingAfterLeaving` | crates/protocol-mux/src/session.rs:218-220 | once a client has left, its inbox never changes again |
| `SessionRouting.EditorNumbersIncrease` | crates/protocol-mux/src/session.rs:310-329 | after the replay the numbers an editor sees strictly increase |
| `SessionRouting.FailsExactly` | crates/protocol-mux/src/session.rs:187-302 | a step fails if and only if the sender is not attached, a response carries no number, or it answers a client that has left |
| `SessionRouting.PoliteRunsNeverFail` | crates/protocol-mux/src/session.rs:167-302 | if clients send only while attached, non-editors leave with nothing pending, and responses carry numbers, no run ends with an error |
| `Cache.LateJoinCache.Observe` | crates/protocol-mux/src/cache.rs:16-26 | keeps the last `initialized` and the last `stopped`, passes breakpoint events on, and no other event changes anything |
| `Cache.LateJoinCache.ObserveResponse` | crates/protocol-mux/src/cache.rs:28-39 | keeps the body of a successful `initialize` response and passes every response to the tracker |
| `Cache.LateJoinCache.ObserveClientRequest` | crates/protocol-mux/src/cache.rs:41-52 | passes the two kinds of breakpoint request to the tracker |
| `Cache.LateJoinCache.Replay` | crates/protocol-mux/src/cache.rs:58-77 | initialize response, then `initialized`, then `stopped`, as far as they are known |
| `BreakpointModel.AlwaysIntegral` | crates/protocol-mux/src/breakpoint_state.rs:179-288 | after any inputs: every id points into a list, distinct ids at distinct entries, and no list is empty |
| `BreakpointModel.ApplyRemovedKeepsIntegrity` | crates/protocol-mux/src/breakpoint_state.rs:267-288 | removal in the middle of a list, with its shift of later positions, keeps the index intact |
| `BreakpointModel.ChangedNeverAppends` | crates/protocol-mux/src/breakpoint_state.rs:232-265 | a `changed` event for a known id adds no entry, no file and no id |
| `BreakpointModel.NewRefines` | crates/protocol-mux/src/breakpoint_state.rs:189-230 | a `new` event that is no clash replaces the entry with its tag, or appends one and moves the tag |
| `BreakpointModel.ClashDiverges` | crates/protocol-mux/src/breakpoint_state.rs:218-224 | a clash always leaves lists different from the reference |
| `BreakpointModel.ClashExample` | crates/protocol-mux/src/breakpoint_state.rs:218-224 | a concrete clash that overwrites an unrelated breakpoint |
| `BreakpointModel.ChangedRefines` | crates/protocol-mux/src/breakpoint_state.rs:232-265 | a `changed` event patches exactly the tagged entry, whatever file it names |
| `BreakpointModel.ReferenceChangeRewrites` | crates/protocol-mux/src/breakpoint_state.rs:232-261 | on the reference lists a `changed` event rewrites, member by member, exactly the entries with its tag |
| `BreakpointModel.RemovedRefines` | crates/protocol-mux/src/breakpoint_state.rs:267-288 | a `removed` event deletes exactly the tagged entry |
| `BreakpointModel.InstallRefines` | crates/protocol-mux/src/breakpoint_state.rs:179-187 | a rebuild replaces one file's list by untagged entries and forgets the ids of that file only |
| `BreakpointModel.TrackerRefinesReference` | crates/protocol-mux/src/breakpoint_state.rs:35-108 | on every clash-free history the tracker holds the reference lists, tags and pending requests |
| `BreakpointModel.FirstClashDiverges` | crates/protocol-mux/src/breakpoint_state.rs:189-230 | the condition is exact: one more input keeps agreement if and only if it is no clash |
| `BreakpointModel.SnapshotIsReference` | crates/protocol-mux/src/breakpoint_state.rs:147-177 | a snapshot shows the reference lists with tags erased |
| `BreakpointState.MergeIsFilledSurvivors` | crates/protocol-mux/src/breakpoint_state.rs:310-350 | a merge of a non-empty response lists exactly the entries not refused that have a line from somewhere, in response order, each field the response's own or else that of the request at the same position; an empty response leaves the request as it is |
| `BreakpointState.SurvivorsSurvive` | crates/protocol-mux/src/breakpoint_state.rs:318-328 | every listed position is one of an entry that survives |
| `BreakpointState.SurvivorIsKept` | crates/protocol-mux/src/breakpoint_state.rs:318-328 | every entry that survives is listed |
| `BreakpointState.SurvivorsIncrease` | crates/protocol-mux/src/breakpoint_state.rs:318-328 | listed positions strictly increase |
| `BreakpointState.BreakpointTracker.TrackSetBreakpointsRequest` | crates/protocol-mux/src/breakpoint_state.rs:35-56 | remembers the path and the parsed specs under the upstream number |
| `BreakpointState.BreakpointTracker.TrackSetExceptionBreakpointsRequest` | crates/protocol-mux/src/breakpoint_state.rs:110-145 | one entry per string filter, in order, each with the condition of the first option that names it and carries a string condition |
| `BreakpointState.FilterConditionIsFirst` | crates/protocol-mux/src/breakpoint_state.rs:128-141 | the condition found for a filter is that of the first option that names it and carries one, and none exactly if no option does |
| `BreakpointState.ExceptionSpecsAreConfigured` | crates/protocol-mux/src/breakpoint_state.rs:112-144 | the whole list of exception entries described in terms of the request alone |
| `BreakpointState.BreakpointTracker.ObserveSetBreakpointsResponse` | crates/protocol-mux/src/breakpoint_state.rs:58-92 | a successful response uses up its pending request and rebuilds that file; any other changes nothing |
| `BreakpointState.BreakpointTracker.ObserveBreakpointEvent` | crates/protocol-mux/src/breakpoint_state.rs:94-108 | dispatches on the reason; an unknown reason changes nothing |
| `BreakpointState.BreakpointTracker.ApplyNewBreakpoint` | crates/protocol-mux/src/breakpoint_state.rs:189-230 | the in-place update equals the state function that the refinement lemmas are about |
| `BreakpointState.BreakpointTracker.ApplyChangedBreakpoint` | crates/protocol-mux/src/breakpoint_state.rs:232-265 | the in-place patch equals that state function, falling back to a `new` event for unknown ids |
| `BreakpointState.BreakpointTracker.ApplyRemovedBreakpoint` | crates/protocol-mux/src/breakpoint_state.rs:267-288 | the in-place removal and the decrement loop equal that state function |
| `SessionBreakpoints.PendingExactly` | crates/protocol-mux/src/session.rs:253-275 | however requests and answers interleave, the pending entry under a number is exactly the request sent under it and not confirmed yet |
| `SessionBreakpoints.AttributionIsExact` | crates/protocol-mux/src/breakpoint_state.rs:58-92 | a successful response installs the breakpoints of exactly the request with its number; a failed or unknown one changes nothing |
| `SessionBreakpoints.ConfirmedOnce` | crates/protocol-mux/src/breakpoint_state.rs:62-72 | after one successful response to a number a later one changes nothing |
| `SessionBreakpoints.AnswerSettlesExactly` | crates/protocol-mux/src/session.rs:270-290 | a successful answer routed to the sender of a setBreakpoints request installs that request's breakpoints if and only if nothing did before and the two spellings of the number do not contradict each other |
| `SessionBreakpoints.MisspeltLeavesWaiting` | crates/protocol-mux/src/breakpoint_state.rs:62-72 | an answer with contradicting spellings leaves its own request pending |
| `SessionBreakpoints.RoutedIsAttributed` | crates/protocol-mux/src/session.rs:270-290 | if no earlier response contradicts itself, the first successful answer settles the very request whose asker receives it |
| `SessionBreakpoints.MisspeltExample` | crates/protocol-mux/src/breakpoint_state.rs:62-91 | a concrete run in which an answer routed to one client installs the breakpoints of another |
| `SessionBreakpoints.ExceptionsExactly` | crates/protocol-mux/src/breakpoint_state.rs:110-145 | the exception filters are those of the last forwarded setExceptionBreakpoints request, and none if there was none |
| `SessionBreakpoints.SnapshotShowsReference` | crates/protocol-mux/src/session.rs:237-243 | the snapshot sent to a control client lists the reference breakpoints of the whole session and the filters of the last setExceptionBreakpoints request |
| `SessionEdits.RequestIsRemembered` | crates/protocol-mux/src/breakpoint_state.rs:35-56 | a request is remembered as its path and its breakpoints that have a line, each with its text members that are strings |
| `SessionEdits.LinedExactly` | crates/protocol-mux/src/breakpoint_state.rs:291-308 | those breakpoints are exactly the ones with a line, in order |
| `SessionEdits.AnswerInstallsMerge` | crates/protocol-mux/src/breakpoint_state.rs:62-91 | a successful answer that lists breakpoints installs, under the path its first entry or else the request names, exactly those it does not refuse, in its order, each filled from the request it is attributed to; no other file changes |
| `SessionEdits.AnswerInstallsRequest` | crates/protocol-mux/src/breakpoint_state.rs:74-91 | one that lists none, or has no such array, installs the request as it is |
| `SessionEdits.ChangedRewrites` | crates/protocol-mux/src/breakpoint_state.rs:232-261 | a `changed` event for a known id rewrites the line and each text member of that entry from the event, keeps absent ones, clears those that are no strings, and changes nothing else |
| `SessionEdits.UnknownChangedIsNew` | crates/protocol-mux/src/breakpoint_state.rs:262-265 | for an unknown id it does what a `new` event does |
| `SessionEdits.NewWrites` | crates/protocol-mux/src/breakpoint_state.rs:189-230 | a `new` event with a file and a line writes one entry with its own members, over the entry its id has in that list or at the end, and records its id |
| `SessionEdits.IncompleteNewIsIgnored` | crates/protocol-mux/src/breakpoint_state.rs:190-200 | any other `new` event writes nothing |
| `SessionEdits.RemovedDeletes` | crates/protocol-mux/src/breakpoint_state.rs:267-288 | a `removed` event deletes the entry of a known id, moves the ids of later entries of that file down by one, and changes nothing else |
| `SessionEdits.UnknownRemovedIsIgnored` | crates/protocol-mux/src/breakpoint_state.rs:267-274 | for an unknown id it changes nothing |
| `SessionEdits.OthersWriteNothing` | crates/protocol-mux/src/cache.rs:16-52 | no other message of the adapter and no other step changes the lists |
| `ExecutionState.ExecutionStateTracker.ApplyEvent` | crates/dap-core/src/execution_state.rs:63-97 | each event counts once and moves the state by its name |
| `ExecutionState.ExecutionStateTracker.ApplyMessage` | crates/dap-core/src/execution_state.rs:57-61 | only events move the state |
| `ExecutionState.FullStateIs` | crates/dap-core/src/execution_state.rs:63-97 | the state after any history, read off its last state-changing event |
| `ExecutionState.StateAfter` | crates/dap-core/src/execution_state.rs:63-97 | what each of the five events writes into status, thread, reason and text, and that nothing else does |
| `ExecutionState.ClientsMoveNothing` | crates/dap-core/src/execution_state.rs:45-61 | steps of clients do not move the state, and it starts unknown |
| `ExecutionState.LateJoinerAgreesExactly` | crates/protocol-mux/src/cache.rs:58-77 | the replay alone gives the full state if and only if the last state-changing event is the replayed one, or an equivalent one with nothing left over |
| `ExecutionState.ContinuedExample` | crates/protocol-mux/src/cache.rs:16-26 | a concrete history, `stopped` then `continued`, after which a late joiner is told the program is stopped |
| `ExecutionState.LateJoinerStaysInStep` | crates/protocol-mux/src/cache.rs:16-26 | a client that joins in step and stays agrees with the full history for ever, from its inbox alone |
| `ExecutionState.LateJoinerCatchesUp` | crates/dap-core/src/execution_state.rs:63-97 | one that joins out of step agrees from the next live `stopped` event on |
| `ControlClient.ControlClient.TakePending` | crates/dap-core/src/control_client.rs:183-190 | removes the earliest kept match and nothing else |
| `ControlClient.ControlClient.TakeFromWire` | crates/dap-core/src/control_client.rs:192-198 | reads up to the first match, keeping everything before it |
| `ControlClient.ControlClient.Wait` | crates/dap-core/src/control_client.rs:183-217 | returns the earliest match not yet handed out, kept or still on the wire |
| `ControlClient.ControlClient.WaitForResponseSeq` | crates/dap-core/src/control_client.rs:183-199 | the earliest unconsumed response to the number, or everything read and kept |
| `ControlClient.ControlClient.WaitForResponseNamed` | crates/dap-core/src/control_client.rs:201-217 | the earliest unconsumed response to the command, or everything read and kept |
| `ControlClient.ControlClient.WaitForEvent` | crates/dap-core/src/control_client.rs:724-753 | the earliest unconsumed event of the name that arrives before the deadline |
| `ControlClient.ControlClient.DapRequestPreserveEvents` | crates/dap-core/src/control_client.rs:248-270 | sends under the next number and takes the first response to it from the wire, keeping the rest |
| `ControlClient.ControlClient.SendDapRequestAndWaitForEvent` | crates/dap-core/src/control_client.rs:158-181 | sends under the next number and takes the first such event from the wire; kept events do not count |
| `ControlClient.ControlClient.RecvTimeout` | crates/dap-core/src/control_client.rs:684-689 | hands out the oldest kept message, else the next on the wire, else nothing, and says which position that was |
| `ControlClient.ControlClient.Drain` | crates/dap-core/src/control_client.rs:695-721 | everything kept, in order, followed by what arrives, in order; nothing stays kept |
| `ControlClient.ControlClient.AbsorbLateJoinReplay` | crates/dap-core/src/control_client.rs:94-107 | everything read is kept in arrival order and the capabilities announced last are noted |
| `ControlClient.PerformAll` | crates/dap-core/src/control_client.rs:94-270 | over any run of the operations that keep what they pass over: what they returned and what is kept are, as a multiset, exactly what was read, and what is kept is in arrival order |
| `ControlClient.Perform` | crates/dap-core/src/control_client.rs:126-270 | each operation appends to the messages handed out exactly what it returns |
| `ControlClient.NothingIsLost` | crates/dap-core/src/control_client.rs:109-123 | in every reachable state the messages read are, as a multiset, those handed out plus those kept |
| `ControlClient.PendingIsUnconsumed` | crates/dap-core/src/control_client.rs:109-123 | what is kept is exactly what was read and not handed out, in arrival order |
| `ControlClient.KeptIsEarliest` | crates/dap-core/src/control_client.rs:183-190 | the first kept match is the earliest unconsumed match of everything read |
| `SessionInit.RunDefaultInitSequence` | crates/dap-core/src/session_init.rs:189-208 | succeeds if and only if its three waits can be served in turn, and where it then leaves the client |
| `SessionInit.RunStep` | crates/dap-core/src/session_init.rs:220-272 | one manifest step: what it sends, what it waits for, and the entry location it notes |
| `SessionInit.RunManifestInitSequence` | crates/dap-core/src/session_init.rs:210-275 | the steps in order; on success all requests were sent in order and the last noted location is returned |
| `SessionInit.EntryIsLast` | crates/dap-core/src/session_init.rs:240-262 | the entry location is that of the last step that notes one with its request |
| `SessionInit.AsksInOrder` | crates/dap-core/src/session_init.rs:220-272 | steps send their commands in order under consecutive numbers |
| `SessionInit.RunDebugRequest` | crates/dap-core/src/session_init.rs:90-145 | the whole handshake: success exactly when the waits can be served, the `stopped` event and capabilities reported, every request sent, and everything else kept in arrival order |
| `Handshake.DefaultSucceedsExactly` | crates/dap-core/src/session_init.rs:90-208 | from any start with r messages read and kept: the default handshake succeeds if and only if the answers to its three requests come in order after those, the first `initialize` answer has capabilities, an `initialized` precedes the last answer (kept or not), and a `stopped` is anywhere |
| `Handshake.OrderDoesNotMatter` | crates/dap-core/src/session_init.rs:90-208 | every such order succeeds, with anything in between |
| `Handshake.DefaultMarks` | crates/dap-core/src/session_init.rs:113-145 | what a successful handshake took: the first `stopped` of the whole wire, the first `initialized`, the answers, and nothing else |
| `Handshake.PythonSucceedsExactly` | tests/fixtures/plugins/builtin/python/plugin.yaml:34-50 | the exact wires on which the python manifest succeeds |
| `Handshake.ConnectAndInitialize` | crates/dap-proxy/src/main.rs:306-325 | connecting, absorbing the replay and then running the default handshake succeeds on exactly those wires and reports the first `stopped`, replayed or live |
| `Handshake.Connect` | crates/dap-core/src/control_client.rs:55-71 | a connected client has read and kept the replay and handed out nothing |
| `Handshake.EarlyInitializedExample` | crates/dap-core/src/session_init.rs:229-238 | a concrete wire with an early `initialized` on which the default sequence succeeds and the python manifest fails |
| `Handshake.SelfWaitNeedsTwoResponses` | crates/dap-core/src/session_init.rs:256-271 | a step that waits for a response named like its own request succeeds if and only if a first response to it and another with that name, not handed out yet, are there, and the entry it notes, if any, resolves |
| `Handshake.SelfWaitExample` | crates/dap-core/src/session_init.rs:256-271 | a concrete wire with the one response of such a step, on which the step fails |
| `Handshake.EventStepExactly` | crates/dap-core/src/session_init.rs:229-247 | a step that asks and awaits an event succeeds if and only if such an event is still to come, the response to its request is there if it names its own command, and the entry it notes resolves |
| `Handshake.WaitStepExactly` | crates/dap-core/src/session_init.rs:221-228 | a step without a request succeeds if and only if the response it names, if any, is there unclaimed |
| `HandshakeNoise.NoiseChangesNothing` | crates/dap-core/src/session_init.rs:90-275 | for every manifest, every wire and any number of messages read before: leaving out a message that nothing waits for changes neither success nor report, and only shifts positions |
| `HandshakeNoise.StepsStay` | crates/dap-core/src/session_init.rs:210-275 | the same for any list of manifest steps from any state |
| `StopPolicy.PathMatchesSkip` | crates/dap-core/src/stop_policy.rs:68-98 | the greedy matcher is true if and only if the path matches the starred pattern; without a star, if and only if it contains the pattern; an empty pattern never |
| `StopPolicy.LeftmostSuffices` | crates/dap-core/src/stop_policy.rs:89-92 | taking the leftmost occurrence of a part loses no match |
| `StopPolicy.GlobIsParts` | crates/dap-core/src/stop_policy.rs:73-94 | matching character by character and matching part by part are the same |
| `StopPolicy.MatchIsWeave` | crates/dap-core/src/stop_policy.rs:73-94 | a path matches if and only if it is the literal parts in order with some text at each star |
| `Transport.Reader.ReadMessage` | crates/dap-protocol/src/transport.rs:9-46 | header loop, body read and parsing of the body agree with the decoder on every stream, for any parser; every error of the code is an outcome, and exactly the rest of the stream is left |
| `Transport.Writer.WriteMessage` | crates/dap-protocol/src/transport.rs:49-59 | appends one frame around the encoded message |
| `Transport.FrameText` | crates/dap-protocol/src/transport.rs:53-57 | a frame is `Content-Length: `, the number of bytes in decimal, an empty line and the body |
| `Transport.FrameExample` | crates/dap-protocol/src/transport.rs:53-57 | the frame of a two-byte body, character by character |
| `Ascii.TrimStrips` | crates/dap-protocol/src/transport.rs:30 | which ASCII white space is trimmed from a header value and from hex input |
| `Transport.StrangeHeaderFails` | crates/dap-protocol/src/transport.rs:24-37 | a line that is neither empty nor a length header is refused |
| `Transport.MissingHeaderFails` | crates/dap-protocol/src/transport.rs:40-41 | without a length header there is no message |
| `Transport.LastHeaderCounts` | crates/dap-protocol/src/transport.rs:28-34 | of several length headers the last one counts |
| `Transport.DecodeFrame` | crates/dap-protocol/src/transport.rs:9-59 | decoding a written frame gives back its body and consumes exactly the frame |
| `Transport.StreamRoundTrip` | crates/dap-protocol/src/transport.rs:9-59 | any list of written bodies is read back in order, followed by a clean end of stream |
| `Transport.MessagesRoundTrip` | crates/dap-protocol/src/transport.rs:9-59 | for any encoder and parser that undo each other, the messages written are received in order and the stream ends cleanly |
| `Transport.CutFrame` | crates/dap-protocol/src/transport.rs:9-46 | what the framing layer says of a frame cut at any place |
| `Transport.CutIsReadExactly` | crates/dap-protocol/src/transport.rs:9-46 | the framing layer takes a cut frame for a whole one if and only if the body is empty and just its last byte is missing |
| `Transport.TruncationIsDetected` | crates/dap-protocol/src/transport.rs:43-45 | with a parser that refuses the empty text, as a JSON parser does, no strict prefix of a frame is ever read as a message |
| `Radix.PrintThenValue` | crates/dap-protocol/src/transport.rs:54-56 | printed numbers read back, in base 10 and 16 |
| `Memory.HexStringToBytes` | crates/dap-core/src/memory.rs:22-45 | the pair loop computes the specified bytes or the specified error |
| `Memory.HexRoundTrip` | crates/dap-core/src/memory.rs:22-45 | reading undoes two-digit printing for every payload of 1 to 2^20 bytes and refuses the others |
| `Memory.HexAcceptedExactly` | crates/dap-core/src/memory.rs:22-45 | exactly which texts are accepted |
| `Memory.CaseDoesNotMatter` | crates/dap-core/src/memory.rs:31-36 | small and capital hex digits read alike |
| `Memory.PlusSignExample` | crates/dap-core/src/memory.rs:34-40 | the text `+A` is read as the byte 10 |
| `Memory.FormatMemoryRead` | crates/dap-core/src/memory.rs:64-105 | the output loop produces the header line, the dump lines and the note on unreadable bytes |
| `Memory.DumpIsLossless` | crates/dap-core/src/memory.rs:70-102 | reading the hex columns of all lines gives back the bytes |
| `Memory.SidebarIsAligned` | crates/dap-core/src/memory.rs:70-102 | the text column starts at the same offset on every line, however short the last chunk, and shows each printable byte as itself and any other as a dot |
| `Memory.LabelWidth` | crates/dap-core/src/memory.rs:70-78 | a line's label has the standard width if and only if the base is known or the offset fits eight hex digits |
| `Memory.AddressReadsBack` | crates/dap-core/src/memory.rs:108-114 | line i's address parses back to base + 16 i modulo 2^64 |
| `ChildSession.GrantedExactly` | crates/dap-core/src/child_session/resolve.rs:62-102 | a request is granted if and only if spawning is on, both budgets are left, and the first eligible rule can be filled in |
| `ChildSession.FilledInExactly` | crates/dap-core/src/child_session/resolve.rs:134-171 | a rule can be filled in if and only if its backend has what it is built from and every path it mentions is present |
| `ChildSession.FindsFirstEligible` | crates/dap-core/src/child_session/resolve.rs:82-93 | the rule chosen is the first one that matches and suits the parent's backend |
| `ChildSession.ChildSessionBridge.HandleStartDebugging` | crates/dap-core/src/child_session/mod.rs:30-69 | success is answered exactly when a child reported ready and was counted, and the count never passes the limit |
| `ChildSession.TreesStayBounded` | crates/dap-proxy/src/child_supervisor.rs:79-85 | whatever is requested anywhere in the tree, every proxy counts at most m successful spawns over its life, and every process it starts, ready or not, is one level lower |
| `ChildSession.TreeIsSmall` | crates/dap-proxy/src/child_supervisor.rs:79-85 | no started process is more than d levels below the root, and at most m + m^2 + ... + m^d proxies are counted |
| `ChildSession.AllCountedExactly` | crates/dap-proxy/src/child_supervisor.rs:112-117 | started and counted processes are equally many if and only if none failed to report ready |
| `ChildSession.ReadyTreeIsSmall` | crates/dap-proxy/src/child_supervisor.rs:112-117 | if every started process reports ready, the bound holds of all of them |
| `ChildSession.UnreadyExample` | crates/dap-proxy/src/child_supervisor.rs:112-117 | with a limit of one child, any number k of processes that never report ready can be started |
| `SourceView.HighlightPythonLine` | crates/dap-core/src/source_view.rs:236-297 | the scanner loop terminates and emits the pieces of the line in order |
| `SourceView.PiecesExample` | crates/dap-core/src/source_view.rs:241-295 | a keyword, a string with an escaped quote and a comment, each cut where it ends and in its color |
| `SourceView.ScanIsLossless` | crates/dap-core/src/source_view.rs:241-295 | the pieces concatenate to the line |
| `SourceView.HighlightingIsInvisible` | crates/dap-core/src/source_view.rs:225-297 | stripping the color codes gives back the line |
| `SourceView.FormatSourceSnippet` | crates/dap-core/src/source_view.rs:191-223 | the loop renders exactly the rows of the window |
| `SourceView.WindowIsExact` | crates/dap-core/src/source_view.rs:191-223 | the window shows exactly the lines within the context of the current one, each once, at most 2 context + 1, and exactly one row is marked |
| `SourceView.PlainRows` | crates/dap-core/src/source_view.rs:204-221 | two rows as they are written without colors |

## Left out

- Channels, tasks, locks and a client hanging up without detaching: inboxes are unbounded sequences, and sends to an open channel succeed.
- The lossy broadcast side channel and its capacity: only the inbox of each client is specified.
- JSON text of the multiplexer: messages are records of the fields the code reads; a field of the wrong type is a case of its own, everything that is only copied is opaque.
- 64-bit overflow of the two counters of the event loop: numbers are unbounded. The iteration order of the client table is arbitrary in the original; the model delivers in any order and states only the result.
- Timeouts: a deadline is the number of messages that still arrive in time; in the handshake, where every failed wait ends the sequence, it is the end of the wire. Cancellation in the middle of reading one message is not part of this model.
- `ControlClient.dap_request`, `roundtrip_request` and the methods built on them: they drop messages by design, so conservation does not hold for runs that use them. I/O errors of the wire are not part of this model.
- Template resolution for manifests and child sessions, host and port parsing, and type errors of resolved values: a manifest entry location is given as resolved or not, and a child rule as the set of paths it mentions.
- Request arguments of the handshake: they do not influence what is waited for.
- ChildSession.TreesStayBounded: requires every proxy to be given the same child limit, as the supervisor passes one configuration down; exits of children are not modelled because the count never decreases in the original. Whether a process reports ready in time is a parameter of each request.
- Memory.DumpIsLossless: for an unknown base address it covers data up to 2^32 bytes; beyond that the label is wider (Memory.LabelWidth) and the columns move.
- JSON parsing in the framing layer: encoder and parser are parameters. `Transport.CutIsReadExactly` speaks of the framing layer alone, where a frame with an empty body may lose its last byte; the original's JSON step refuses an empty body and its writer never produces one, so there every cut is detected (`Transport.TruncationIsDetected`). Header lines are ASCII; invalid UTF-8 and Unicode white space are not part of this model.
- Text outside ASCII in the highlighter and in hex input; splitting a file into lines; base64 payloads of memory reads, replies to reads that return no data, and a negative count of unreadable bytes.
- Process start, TCP, signals, session files, gateway and plugin registries, the instance table and navigation: I/O, or short case splits that would only add easy members.
