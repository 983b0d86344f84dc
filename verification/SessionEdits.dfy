/** What responses and breakpoint events write into the breakpoint lists, member by member. */
module SessionEdits {
  import opened Wrappers
  import opened MuxMessage
  import opened Remapper
  import opened BreakpointState
  import opened SessionHistory
  import opened SessionTables
  import opened SessionBreakpoints
  import BM = BreakpointModel

  // ----- requests -----------------------------------------------------------------------------------

  /** The positions, from `from` on, of the requested breakpoints that have a line. */
  function Lined(bps: seq<Breakpoint>, from: nat): seq<nat>
    requires from <= |bps|
    decreases |bps| - from
  {
    if from == |bps| then []
    else (if bps[from].line.Some? then [from] else []) + Lined(bps, from + 1)
  }

  lemma {:induction false} LinedExactly(bps: seq<Breakpoint>, from: nat)
    requires from <= |bps|
    ensures var kept := Lined(bps, from);
      && (forall k :: 0 <= k < |kept| ==> from <= kept[k] < |bps| && bps[kept[k]].line.Some?)
      && (forall j, k :: 0 <= j < k < |kept| ==> kept[j] < kept[k])
      && (forall i: nat :: from <= i < |bps| && bps[i].line.Some? ==> i in kept)
    decreases |bps| - from
  {
    if from < |bps| {
      var kept, rest := Lined(bps, from), Lined(bps, from + 1);
      LinedExactly(bps, from + 1);
      if bps[from].line.Some? {
        assert kept == [from] + rest;
        assert forall k :: 0 < k < |kept| ==> kept[k] == rest[k - 1];
      } else {
        forall k | 0 <= k < |kept| ensures from <= kept[k] < |bps| && bps[kept[k]].line.Some? {
          assert kept[k] == rest[k];
        }
      }
    }
  }

  /** A requested breakpoint as it is remembered: its line, and each text member that is a string. */
  predicate Remembers(spec: SourceSpec, bp: Breakpoint) {
    && bp.line == Some(spec.line)
    && Filled(bp.condition, None, spec.condition)
    && Filled(bp.hitCondition, None, spec.hitCondition)
    && Filled(bp.logMessage, None, spec.logMessage)
  }

  lemma {:induction false} ParsedAll(bps: seq<Breakpoint>, from: nat)
    requires from <= |bps|
    ensures var kept, specs := Lined(bps, from), ParseAll(bps[from..]);
      |specs| == |kept| && forall k :: 0 <= k < |kept| ==> kept[k] < |bps| && Remembers(specs[k], bps[kept[k]])
    decreases |bps| - from
  {
    if from < |bps| {
      ParsedAll(bps, from + 1);
      assert bps[from..][0] == bps[from] && bps[from..][1..] == bps[from + 1..];
    }
  }

  /** What a setBreakpoints request asks for: its path, and its breakpoints that have a line. */
  lemma RequestIsRemembered(m: Message)
    ensures m.arguments.None? ==> RequestedBreakpoints(m) == Pending("", [])
    ensures m.arguments.Some? ==>
      var args, request := m.arguments.value, RequestedBreakpoints(m);
      && request.path == (if args.sourcePath.Some? then args.sourcePath.value else "")
      && (args.breakpoints.None? ==> request.specs == [])
      && (args.breakpoints.Some? ==>
           var bps := args.breakpoints.value;
           && |request.specs| == |Lined(bps, 0)|
           && forall k :: 0 <= k < |request.specs| ==>
                Lined(bps, 0)[k] < |bps| && Remembers(request.specs[k], bps[Lined(bps, 0)[k]]))
  {
    if m.arguments.Some? && m.arguments.value.breakpoints.Some? {
      var bps := m.arguments.value.breakpoints.value;
      ParsedAll(bps, 0);
      assert bps[0..] == bps;
    }
  }

  // ----- responses ----------------------------------------------------------------------------------

  /** The breakpoints a response lists, if it lists any array of them. */
  predicate Lists(m: Message, items: seq<Breakpoint>) {
    m.body.Some? && m.body.value.Body? && m.body.value.breakpoints == Some(items)
  }

  /** The file that the first listed breakpoint names, or else the one of the request. */
  predicate IsInstalledPath(path: string, items: seq<Breakpoint>, request: Pending) {
    if items != [] && items[0].path.Some? && items[0].path.value != "" then path == items[0].path.value
    else path == request.path
  }

  /** Nothing but the list of `path` and the ids of that file has changed. */
  ghost predicate OnlyAt(before: State, after: State, path: string) {
    && after.exceptions == before.exceptions
    && (forall p :: p != path ==> (p in after.files <==> p in before.files))
    && (forall p :: p != path && p in before.files ==> after.files[p] == before.files[p])
    && (forall id :: id in after.ids <==> id in before.ids && before.ids[id].path != path)
    && (forall id :: id in after.ids ==> after.ids[id] == before.ids[id])
  }

  /** A successful answer that lists breakpoints installs exactly those it does not refuse, with a line
      from somewhere, in its order, each with its gaps filled from the request it is attributed to. */
  lemma AnswerInstallsMerge(h: History, m: Message, i: nat, items: seq<Breakpoint>, path: string)
    requires m.kind == Response && m.success == Some(true) && Unconfirmed(h, i, m.AttributionSeq())
    requires Lists(m, items) && items != [] && IsInstalledPath(path, items, RequestedBreakpoints(h[i].message))
    ensures var request := RequestedBreakpoints(h[i].message);
      var kept, after := Survivors(items, request.specs, 0), Breakpoints(h + [Upstream(m)]);
      && OnlyAt(Breakpoints(h), after, path)
      && (path in after.files <==> kept != [])
      && (path in after.files ==>
           && |after.files[path]| == |kept|
           && forall k :: 0 <= k < |kept| ==>
                kept[k] < |items| && FilledFrom(after.files[path][k], items[kept[k]], request.specs, kept[k]))
  {
    MergeIsFilledSurvivors(items, RequestedBreakpoints(h[i].message).specs);
    AnswerRebuilds(h, m, i, path, MergeBreakpoints(items, RequestedBreakpoints(h[i].message).specs));
  }

  /** One that lists none, or has no such array, installs the request as it is. */
  lemma AnswerInstallsRequest(h: History, m: Message, i: nat)
    requires m.kind == Response && m.success == Some(true) && Unconfirmed(h, i, m.AttributionSeq())
    requires Lists(m, []) || forall items :: !Lists(m, items)
    ensures var request, after := RequestedBreakpoints(h[i].message), Breakpoints(h + [Upstream(m)]);
      && OnlyAt(Breakpoints(h), after, request.path)
      && (request.path in after.files <==> request.specs != [])
      && (request.path in after.files ==> after.files[request.path] == request.specs)
  {
    var request := RequestedBreakpoints(h[i].message);
    if m.body.Some? && m.body.value.ResponseBreakpoints().Some? {
      assert Lists(m, m.body.value.ResponseBreakpoints().value);
    }
    AnswerRebuilds(h, m, i, request.path, request.specs);
  }

  lemma AnswerRebuilds(h: History, m: Message, i: nat, path: string, specs: seq<SourceSpec>)
    requires m.kind == Response && m.success == Some(true) && Unconfirmed(h, i, m.AttributionSeq())
    requires Resolved(m, RequestedBreakpoints(h[i].message)) == Pending(path, specs)
    ensures var after := Breakpoints(h + [Upstream(m)]);
      && OnlyAt(Breakpoints(h), after, path)
      && (path in after.files <==> specs != [])
      && (path in after.files ==> after.files[path] == specs)
  {
    hide Breakpoints, Resolved, RequestedBreakpoints;
    BreakpointsStep(h, Upstream(m));
    PendingExactly(h, m.AttributionSeq());
  }

  // ----- breakpoint events ----------------------------------------------------------------------------

  /** A `breakpoint` event with this reason, about this breakpoint. */
  predicate Reports(m: Message, reason: string, bp: Breakpoint) {
    && m.kind == Event && m.event == Some("breakpoint") && m.body.Some? && m.body.value.Body?
    && m.body.value.reason == Some(reason) && m.body.value.breakpoint == Some(bp)
  }

  lemma ReportStep(h: History, m: Message, reason: string, bp: Breakpoint)
    requires Reports(m, reason, bp)
    ensures Breakpoints(h + [Upstream(m)]) ==
      if reason == "new" then ApplyNew(Breakpoints(h), bp)
      else if reason == "changed" then ApplyChanged(Breakpoints(h), bp)
      else if reason == "removed" then ApplyRemoved(Breakpoints(h), bp)
      else Breakpoints(h)
  {
    hide Breakpoints, ApplyNew, ApplyChanged, ApplyRemoved;
    BreakpointsStep(h, Upstream(m));
  }

  /** A text member of a `changed` event: absent it keeps what was there, a string replaces it, and
      anything else clears it. */
  predicate Rewrites(member: Field<string>, was: Option<string>, now: Option<string>) {
    match member
    case Absent => now == was
    case Is(text) => now == Some(text)
    case Mistyped => now == None
  }

  predicate RewritesEntry(bp: Breakpoint, was: SourceSpec, now: SourceSpec) {
    && now.line == (if bp.line.Some? then bp.line.value else was.line)
    && Rewrites(bp.condition, was.condition, now.condition)
    && Rewrites(bp.hitCondition, was.hitCondition, now.hitCondition)
    && Rewrites(bp.logMessage, was.logMessage, now.logMessage)
  }

  /** A `changed` event for a known id rewrites the entry of that id, member by member, and nothing
      else, whatever file it names. */
  lemma ChangedRewrites(h: History, m: Message, bp: Breakpoint, id: int)
    requires Reports(m, "changed", bp) && bp.id == Some(id) && id in Breakpoints(h).ids
    ensures var before, after := Breakpoints(h), Breakpoints(h + [Upstream(m)]);
      var slot := before.ids[id];
      && before.Holds(slot) && after.Holds(slot)
      && RewritesEntry(bp, before.files[slot.path][slot.index], after.files[slot.path][slot.index])
      && after == before.(files := before.files[slot.path :=
           before.files[slot.path][slot.index := after.files[slot.path][slot.index]]])
  {
    ReportStep(h, m, "changed", bp);
    BM.AlwaysIntegral(BreakpointLog(h));
  }

  /** On an unknown id, or none, it does what a `new` event does. */
  lemma UnknownChangedIsNew(h: History, m: Message, n: Message, bp: Breakpoint)
    requires Reports(m, "changed", bp) && Reports(n, "new", bp)
    requires bp.id.None? || bp.id.value !in Breakpoints(h).ids
    ensures Breakpoints(h + [Upstream(m)]) == Breakpoints(h + [Upstream(n)])
  {
    ReportStep(h, m, "changed", bp);
    ReportStep(h, n, "new", bp);
  }

  /** The list of a file, empty if there is none. */
  function ListOf(t: State, path: string): seq<SourceSpec> {
    if path in t.files then t.files[path] else []
  }

  /** A `new` event that names a file and a line from 0 on writes one entry with its own members: over
      the entry that its id, if known, has in the list of that file, and else at the end. */
  lemma NewWrites(h: History, m: Message, bp: Breakpoint, path: string)
    requires Reports(m, "new", bp) && bp.path == Some(path) && path != "" && bp.line.Some? && bp.line.value >= 0
    ensures var before, after := Breakpoints(h), Breakpoints(h + [Upstream(m)]);
      var list := ListOf(before, path);
      var known := bp.id.Some? && bp.id.value in before.ids && before.ids[bp.id.value].index < |list|;
      var at := if known then before.ids[bp.id.value].index else |list|;
      && path in after.files && at < |after.files[path]| && Remembers(after.files[path][at], bp)
      && after == before.(
           files := before.files[path :=
             if known then list[at := after.files[path][at]] else list + [after.files[path][at]]],
           ids := if bp.id.Some? && !known then before.ids[bp.id.value := Slot(path, at)] else before.ids)
  {
    hide Breakpoints;
    ReportStep(h, m, "new", bp);
  }

  /** Any other `new` event writes nothing. */
  lemma IncompleteNewIsIgnored(h: History, m: Message, bp: Breakpoint)
    requires Reports(m, "new", bp)
    requires bp.path.None? || bp.path.value == "" || bp.line.None? || bp.line.value < 0
    ensures Breakpoints(h + [Upstream(m)]) == Breakpoints(h)
  {
    ReportStep(h, m, "new", bp);
  }

  /** A `removed` event takes the entry of a known id out of its list; ids of later entries of that file
      move down by one, and nothing else changes. */
  lemma RemovedDeletes(h: History, m: Message, bp: Breakpoint, id: int)
    requires Reports(m, "removed", bp) && bp.id == Some(id) && id in Breakpoints(h).ids
    ensures var before, after := Breakpoints(h), Breakpoints(h + [Upstream(m)]);
      var slot := before.ids[id];
      && before.Holds(slot)
      && var rest := before.files[slot.path][..slot.index] + before.files[slot.path][slot.index + 1..];
      && after.files == (if rest == [] then before.files - {slot.path} else before.files[slot.path := rest])
      && (forall other :: other in after.ids <==> other in before.ids && other != id)
      && (forall other :: other in after.ids ==>
           var was := before.ids[other];
           after.ids[other] ==
             if was.path == slot.path && was.index > slot.index then Slot(was.path, was.index - 1) else was)
      && after.pending == before.pending && after.exceptions == before.exceptions
  {
    ReportStep(h, m, "removed", bp);
    BM.AlwaysIntegral(BreakpointLog(h));
  }

  lemma UnknownRemovedIsIgnored(h: History, m: Message, bp: Breakpoint)
    requires Reports(m, "removed", bp) && (bp.id.None? || bp.id.value !in Breakpoints(h).ids)
    ensures Breakpoints(h + [Upstream(m)]) == Breakpoints(h)
  {
    ReportStep(h, m, "removed", bp);
  }

  /** Nothing else touches the lists: no other event, and nothing a client does but forwarding a
      request to set breakpoints. */
  lemma OthersWriteNothing(h: History, op: Op)
    requires op.Upstream? ==> op.message.kind != Response
    requires op.Upstream? && op.message.kind == Event ==> op.message.event != Some("breakpoint")
    ensures var before, after := Breakpoints(h), Breakpoints(h + [op]);
      && after.files == before.files && after.ids == before.ids
      && (op.Upstream? || op.Attach? || op.Detach? ==> after == before)
  {
    hide Breakpoints;
    BreakpointsStep(h, op);
  }
}
