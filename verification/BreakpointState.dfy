/** `BreakpointTracker`: per-file breakpoint lists, and an index from adapter ids to
    positions in those lists that must survive removals in the middle of a list. */
module BreakpointState {
  import opened Wrappers
  import opened MuxMessage

  datatype Pending = Pending(path: string, specs: seq<SourceSpec>)
  datatype Slot = Slot(path: string, index: nat)

  type Files = map<string, seq<SourceSpec>>

  /** The value of a tracker object. */
  datatype State = State(
    files: Files,
    exceptions: seq<ExceptionSpec>,
    pending: map<int, Pending>,
    ids: map<int, Slot>)
  {
    predicate Holds(slot: Slot) {
      slot.path in files && slot.index < |files[slot.path]|
    }

    /** Every id points into a list, no two ids point at the same entry, no list is empty. */
    ghost predicate Integrity() {
      && (forall id :: id in ids ==> Holds(ids[id]))
      && (forall a, b :: a in ids && b in ids && ids[a] == ids[b] ==> a == b)
      && (forall p :: p in files ==> files[p] != [])
    }
  }

  const EMPTY := State(map[], [], map[], map[])

  function ListAt(files: Files, path: string): seq<SourceSpec> {
    if path in files then files[path] else []
  }

  // ----- parsing -----------------------------------------------------------

  function ParseSourceBreakpoint(bp: Breakpoint): Option<SourceSpec> {
    if bp.line.None? then None
    else Some(SourceSpec(bp.line.value, bp.condition.ToOption(), bp.hitCondition.ToOption(), bp.logMessage.ToOption()))
  }

  function ParseAll(bps: seq<Breakpoint>): seq<SourceSpec> {
    if bps == [] then []
    else
      var spec := ParseSourceBreakpoint(bps[0]);
      (if spec.Some? then [spec.value] else []) + ParseAll(bps[1..])
  }

  function RequestedBreakpoints(m: Message): Pending {
    match m.arguments
    case None => Pending("", [])
    case Some(args) => Pending(args.sourcePath.GetOr(""), ParseAll(args.breakpoints.GetOr([])))
  }

  /** The first option for `filter` that carries a condition. */
  function FilterCondition(options: seq<FilterOption>, filter: string): Option<string> {
    if options == [] then None
    else if options[0].filterId == Some(filter) && options[0].condition.Some? then options[0].condition
    else FilterCondition(options[1..], filter)
  }

  /** Option `i` names `filter` and carries a condition. */
  predicate ConditionsFilter(options: seq<FilterOption>, filter: string, i: nat) {
    i < |options| && options[i].filterId == Some(filter) && options[i].condition.Some?
  }

  ghost predicate FirstConditions(options: seq<FilterOption>, filter: string, i: nat) {
    ConditionsFilter(options, filter, i) && forall j: nat :: j < i ==> !ConditionsFilter(options, filter, j)
  }

  /** The condition of a filter is that of the first option that names it and carries one; an
      option that names it without a condition is passed over. */
  lemma {:induction false} FilterConditionIsFirst(options: seq<FilterOption>, filter: string)
    ensures FilterCondition(options, filter).None? <==> forall i: nat :: !ConditionsFilter(options, filter, i)
    ensures forall i: nat :: FirstConditions(options, filter, i) ==>
      FilterCondition(options, filter) == options[i].condition
  {
    if options != [] {
      var rest := options[1..];
      FilterConditionIsFirst(rest, filter);
      assert forall i: nat :: ConditionsFilter(rest, filter, i) <==> ConditionsFilter(options, filter, i + 1);
      if ConditionsFilter(options, filter, 0) {
        assert FilterCondition(options, filter) == options[0].condition;
      } else {
        forall i: nat | FirstConditions(options, filter, i)
          ensures FilterCondition(options, filter) == options[i].condition
        {
          assert FirstConditions(rest, filter, i - 1);
        }
        assert forall i: nat :: ConditionsFilter(options, filter, i) ==> ConditionsFilter(rest, filter, i - 1);
      }
    }
  }

  /** The string filters, in order. */
  function FilterNames(filters: seq<Option<string>>): seq<string> {
    if filters == [] then []
    else (if filters[0].Some? then [filters[0].value] else []) + FilterNames(filters[1..])
  }

  function ExceptionSpecs(filters: seq<Option<string>>, options: seq<FilterOption>): seq<ExceptionSpec> {
    if filters == [] then []
    else
      (if filters[0].Some? then [ExceptionSpec(filters[0].value, FilterCondition(options, filters[0].value))] else [])
      + ExceptionSpecs(filters[1..], options)
  }

  /** One entry per string filter, in order, each with the condition found for it. */
  lemma {:induction false} ExceptionSpecsAreNames(filters: seq<Option<string>>, options: seq<FilterOption>)
    ensures var specs, names := ExceptionSpecs(filters, options), FilterNames(filters);
      && |specs| == |names|
      && forall i :: 0 <= i < |specs| ==> specs[i] == ExceptionSpec(names[i], FilterCondition(options, names[i]))
  {
    if filters != [] {
      ExceptionSpecsAreNames(filters[1..], options);
    }
  }

  /** One entry per string filter, in order; its condition is that of the first option that names
      the filter and carries one, and there is none if no option does. */
  ghost predicate Configured(specs: seq<ExceptionSpec>, filters: seq<Option<string>>, options: seq<FilterOption>) {
    var names := FilterNames(filters);
    && |specs| == |names|
    && forall i :: 0 <= i < |specs| ==> ConfiguredOne(specs[i], names[i], options)
  }

  ghost predicate ConfiguredOne(spec: ExceptionSpec, filter: string, options: seq<FilterOption>) {
    && spec.filter == filter
    && (spec.condition.None? <==> forall j: nat :: !ConditionsFilter(options, filter, j))
    && forall j: nat :: FirstConditions(options, filter, j) ==> spec.condition == options[j].condition
  }

  lemma ExceptionSpecsAreConfigured(filters: seq<Option<string>>, options: seq<FilterOption>)
    ensures Configured(ExceptionSpecs(filters, options), filters, options)
  {
    hide FilterNames, ExceptionSpecs, FilterCondition;
    ExceptionSpecsAreNames(filters, options);
    var specs, names := ExceptionSpecs(filters, options), FilterNames(filters);
    forall i | 0 <= i < |specs| ensures ConfiguredOne(specs[i], names[i], options) {
      FilterConditionIsFirst(options, names[i]);
    }
  }

  function RequestedExceptions(m: Message): seq<ExceptionSpec> {
    match m.arguments
    case None => []
    case Some(args) => ExceptionSpecs(args.filters.GetOr([]), args.filterOptions.GetOr([]))
  }

  // ----- merging a response with its request ---------------------------------

  function RequestLine(request: seq<SourceSpec>, i: nat): Option<int> {
    if i < |request| then Some(request[i].line) else None
  }

  /** The entry a response breakpoint contributes, with gaps filled from the request at `i`. */
  function MergeOne(bp: Breakpoint, request: seq<SourceSpec>, i: nat): Option<SourceSpec> {
    if bp.verified == Some(false) then None
    else
      var line := bp.line.OrElse(RequestLine(request, i));
      if line.None? then None
      else if i < |request| then
        Some(SourceSpec(line.value,
          bp.condition.ToOption().OrElse(request[i].condition),
          bp.hitCondition.ToOption().OrElse(request[i].hitCondition),
          bp.logMessage.ToOption().OrElse(request[i].logMessage)))
      else
        Some(SourceSpec(line.value, bp.condition.ToOption(), bp.hitCondition.ToOption(), bp.logMessage.ToOption()))
  }

  function MergeFrom(response: seq<Breakpoint>, request: seq<SourceSpec>, i: nat): seq<SourceSpec>
    requires i <= |response|
    decreases |response| - i
  {
    if i == |response| then []
    else
      var one := MergeOne(response[i], request, i);
      (if one.Some? then [one.value] else []) + MergeFrom(response, request, i + 1)
  }

  function MergeBreakpoints(response: seq<Breakpoint>, request: seq<SourceSpec>): seq<SourceSpec> {
    if response == [] then request else MergeFrom(response, request, 0)
  }

  /** Which response entries survive a merge: not refused, and with a line from somewhere. */
  predicate Survives(response: seq<Breakpoint>, request: seq<SourceSpec>, i: nat) {
    && i < |response|
    && response[i].verified != Some(false)
    && (response[i].line.Some? || i < |request|)
  }

  /** The positions, from `from` on, of the response entries that survive. */
  function Survivors(response: seq<Breakpoint>, request: seq<SourceSpec>, from: nat): seq<nat>
    requires from <= |response|
    decreases |response| - from
  {
    if from == |response| then []
    else (if Survives(response, request, from) then [from] else []) + Survivors(response, request, from + 1)
  }

  lemma {:induction false} SurvivorsSurvive(response: seq<Breakpoint>, request: seq<SourceSpec>, from: nat, k: nat)
    requires from <= |response| && k < |Survivors(response, request, from)|
    ensures from <= Survivors(response, request, from)[k]
    ensures Survives(response, request, Survivors(response, request, from)[k])
    decreases |response| - from
  {
    if Survives(response, request, from) {
      if k > 0 {
        SurvivorsSurvive(response, request, from + 1, k - 1);
      }
    } else {
      SurvivorsSurvive(response, request, from + 1, k);
    }
  }

  lemma {:induction false} SurvivorsIncrease(response: seq<Breakpoint>, request: seq<SourceSpec>, from: nat,
                                             a: nat, b: nat)
    requires from <= |response| && a < b < |Survivors(response, request, from)|
    ensures Survivors(response, request, from)[a] < Survivors(response, request, from)[b]
    decreases |response| - from
  {
    if !Survives(response, request, from) {
      SurvivorsIncrease(response, request, from + 1, a, b);
    } else if a > 0 {
      SurvivorsIncrease(response, request, from + 1, a - 1, b - 1);
    } else {
      SurvivorsSurvive(response, request, from + 1, b - 1);
    }
  }

  lemma {:induction false} SurvivorIsKept(response: seq<Breakpoint>, request: seq<SourceSpec>, from: nat, i: nat)
    requires from <= i && Survives(response, request, i)
    ensures i in Survivors(response, request, from)
    decreases i - from
  {
    if from < i {
      SurvivorIsKept(response, request, from + 1, i);
    }
  }

  lemma MergedIffSurvives(response: seq<Breakpoint>, request: seq<SourceSpec>, i: nat)
    requires i < |response|
    ensures MergeOne(response[i], request, i).Some? <==> Survives(response, request, i)
  {
  }

  /** A merge lists exactly the surviving entries, in response order, each filled from the
      request entry at its own position. */
  lemma {:induction false} MergeKeepsSurvivors(response: seq<Breakpoint>, request: seq<SourceSpec>, from: nat)
    requires from <= |response|
    ensures var kept, merged := Survivors(response, request, from), MergeFrom(response, request, from);
      && |kept| == |merged|
      && forall k :: 0 <= k < |kept| ==>
           kept[k] < |response| && MergeOne(response[kept[k]], request, kept[k]) == Some(merged[k])
    decreases |response| - from
  {
    if from < |response| {
      MergeKeepsSurvivors(response, request, from + 1);
      MergedIffSurvives(response, request, from);
    }
  }

  /** A text field of a merged entry: the response's string if it has one, else the request's. */
  predicate Filled(field: Field<string>, requested: Option<string>, out: Option<string>) {
    out == (if field.Is? then Some(field.value) else requested)
  }

  /** `out` is response entry `bp` with its gaps filled from the request entry at `i`, if any. */
  predicate FilledFrom(out: SourceSpec, bp: Breakpoint, request: seq<SourceSpec>, i: nat) {
    var asked := if i < |request| then Some(request[i]) else None;
    && (bp.line.Some? ==> out.line == bp.line.value)
    && (bp.line.None? ==> asked.Some? && out.line == asked.value.line)
    && Filled(bp.condition, if asked.Some? then asked.value.condition else None, out.condition)
    && Filled(bp.hitCondition, if asked.Some? then asked.value.hitCondition else None, out.hitCondition)
    && Filled(bp.logMessage, if asked.Some? then asked.value.logMessage else None, out.logMessage)
  }

  /** The whole merge: with no response entries the request as it is, otherwise the surviving
      entries in response order, each with its gaps filled from the request at its own position. */
  lemma MergeIsFilledSurvivors(response: seq<Breakpoint>, request: seq<SourceSpec>)
    ensures response == [] ==> MergeBreakpoints(response, request) == request
    ensures response != [] ==>
      var kept, merged := Survivors(response, request, 0), MergeBreakpoints(response, request);
      && |merged| == |kept|
      && forall k :: 0 <= k < |kept| ==>
           kept[k] < |response| && FilledFrom(merged[k], response[kept[k]], request, kept[k])
  {
    MergeKeepsSurvivors(response, request, 0);
  }

  // ----- what each operation does to the value --------------------------------

  function Track(t: State, n: int, m: Message): State {
    t.(pending := t.pending[n := RequestedBreakpoints(m)])
  }

  function TrackExceptions(t: State, m: Message): State {
    t.(exceptions := RequestedExceptions(m))
  }

  function Rebuild(t: State, path: string, specs: seq<SourceSpec>): State {
    t.(ids := map id | id in t.ids && t.ids[id].path != path :: t.ids[id],
       files := if specs == [] then t.files - {path} else t.files[path := specs])
  }

  /** The file and the list a successful response to `pending` installs. */
  function Resolved(m: Message, pending: Pending): Pending {
    var items := if m.body.Some? then m.body.value.ResponseBreakpoints() else None;
    var first := if items.Some? && items.value != [] then items.value[0].path.GetOr("") else "";
    Pending(
      if first != "" then first else pending.path,
      if items.Some? then MergeBreakpoints(items.value, pending.specs) else pending.specs)
  }

  function Observe(t: State, m: Message): State {
    var n := m.AttributionSeq();
    if m.success != Some(true) || n !in t.pending then t
    else
      var resolved := Resolved(m, t.pending[n]);
      Rebuild(t.(pending := t.pending - {n}), resolved.path, resolved.specs)
  }

  predicate WellFormedNew(bp: Breakpoint) {
    bp.path.GetOr("") != "" && bp.line.Some? && bp.line.value >= 0
  }

  function NewSpec(bp: Breakpoint): SourceSpec
    requires WellFormedNew(bp)
  {
    SourceSpec(bp.line.value, bp.condition.ToOption(), bp.hitCondition.ToOption(), bp.logMessage.ToOption())
  }

  function ApplyNew(t: State, bp: Breakpoint): State {
    if !WellFormedNew(bp) then t
    else
      var path, spec := bp.path.value, NewSpec(bp);
      var entries := ListAt(t.files, path);
      if bp.id.Some? && bp.id.value in t.ids && t.ids[bp.id.value].index < |entries| then
        t.(files := t.files[path := entries[t.ids[bp.id.value].index := spec]])
      else
        t.(files := t.files[path := entries + [spec]],
           ids := if bp.id.Some? then t.ids[bp.id.value := Slot(path, |entries|)] else t.ids)
  }

  /** Only the members present in the event change; a present non-string clears the field. */
  function Patch(spec: SourceSpec, bp: Breakpoint): SourceSpec {
    SourceSpec(
      bp.line.GetOr(spec.line),
      if bp.condition.Absent? then spec.condition else bp.condition.ToOption(),
      if bp.hitCondition.Absent? then spec.hitCondition else bp.hitCondition.ToOption(),
      if bp.logMessage.Absent? then spec.logMessage else bp.logMessage.ToOption())
  }

  function ApplyChanged(t: State, bp: Breakpoint): State {
    if bp.id.Some? && bp.id.value in t.ids && t.Holds(t.ids[bp.id.value]) then
      var slot := t.ids[bp.id.value];
      var entries := t.files[slot.path];
      t.(files := t.files[slot.path := entries[slot.index := Patch(entries[slot.index], bp)]])
    else ApplyNew(t, bp)
  }

  function RemoveAt<T>(s: seq<T>, i: nat): seq<T> {
    if i < |s| then s[..i] + s[i + 1..] else s
  }

  function Lowered(slot: Slot, removed: Slot): Slot {
    if slot.path == removed.path && slot.index > removed.index then Slot(slot.path, slot.index - 1) else slot
  }

  function ApplyRemoved(t: State, bp: Breakpoint): State {
    if bp.id.None? || bp.id.value !in t.ids then t
    else
      var slot := t.ids[bp.id.value];
      var entries := RemoveAt(ListAt(t.files, slot.path), slot.index);
      t.(files := if entries == [] then t.files - {slot.path} else t.files[slot.path := entries],
         ids := map id | id in t.ids && id != bp.id.value :: Lowered(t.ids[id], slot))
  }

  function ObserveEvent(t: State, m: Message): State {
    if m.body.None? || m.body.value.EventBreakpoint().None? then t
    else
      var bp := m.body.value.EventBreakpoint().value;
      var reason := m.body.value.Reason();
      if reason == Some("new") then ApplyNew(t, bp)
      else if reason == Some("changed") then ApplyChanged(t, bp)
      else if reason == Some("removed") then ApplyRemoved(t, bp)
      else t
  }

  // ----- the object -------------------------------------------------------------

  class BreakpointTracker {
    var sourceBreakpoints: Files
    var exceptionBreakpoints: seq<ExceptionSpec>
    var pendingSetBreakpoints: map<int, Pending>
    var breakpointIds: map<int, Slot>

    ghost function Value(): State
      reads this
    {
      State(sourceBreakpoints, exceptionBreakpoints, pendingSetBreakpoints, breakpointIds)
    }

    constructor ()
      ensures Value() == EMPTY
    {
      sourceBreakpoints, exceptionBreakpoints := map[], [];
      pendingSetBreakpoints, breakpointIds := map[], map[];
    }

    method TrackSetBreakpointsRequest(backendSeq: int, message: Message)
      modifies this`pendingSetBreakpoints
      ensures Value() == Track(old(Value()), backendSeq, message)
    {
      pendingSetBreakpoints := pendingSetBreakpoints[backendSeq := RequestedBreakpoints(message)];
    }

    method TrackSetExceptionBreakpointsRequest(message: Message)
      modifies this`exceptionBreakpoints
      ensures Value() == TrackExceptions(old(Value()), message)
      ensures message.arguments.None? ==> exceptionBreakpoints == []
      ensures message.arguments.Some? ==>
        var args := message.arguments.value;
        Configured(exceptionBreakpoints, args.filters.GetOr([]), args.filterOptions.GetOr([]))
    {
      if message.arguments.Some? {
        var args := message.arguments.value;
        ExceptionSpecsAreConfigured(args.filters.GetOr([]), args.filterOptions.GetOr([]));
      }
      exceptionBreakpoints := RequestedExceptions(message);
    }

    method ObserveSetBreakpointsResponse(message: Message)
      modifies this
      ensures Value() == Observe(old(Value()), message)
    {
      if message.success != Some(true) {
        return;
      }
      var requestSeq := message.AttributionSeq();
      if requestSeq !in pendingSetBreakpoints {
        return;
      }
      var pending := pendingSetBreakpoints[requestSeq];
      pendingSetBreakpoints := pendingSetBreakpoints - {requestSeq};

      var items := if message.body.Some? then message.body.value.ResponseBreakpoints() else None;
      var path := pending.path;
      if items.Some? && items.value != [] && items.value[0].path.GetOr("") != "" {
        path := items.value[0].path.value;
      }
      var specs := pending.specs;
      if items.Some? {
        specs := MergeBreakpoints(items.value, pending.specs);
      }
      RebuildSourceBreakpoints(path, specs);
    }

    method RebuildSourceBreakpoints(path: string, specs: seq<SourceSpec>)
      modifies this`breakpointIds, this`sourceBreakpoints
      ensures Value() == Rebuild(old(Value()), path, specs)
    {
      breakpointIds := map id | id in breakpointIds && breakpointIds[id].path != path :: breakpointIds[id];
      if specs == [] {
        sourceBreakpoints := sourceBreakpoints - {path};
      } else {
        sourceBreakpoints := sourceBreakpoints[path := specs];
      }
    }

    method ObserveBreakpointEvent(message: Message)
      modifies this
      ensures Value() == ObserveEvent(old(Value()), message)
    {
      if message.body.None? || message.body.value.EventBreakpoint().None? {
        return;
      }
      var bp := message.body.value.EventBreakpoint().value;
      match message.body.value.Reason() {
        case Some(reason) =>
          if reason == "new" {
            ApplyNewBreakpoint(bp);
          } else if reason == "changed" {
            ApplyChangedBreakpoint(bp);
          } else if reason == "removed" {
            ApplyRemovedBreakpoint(bp);
          }
        case None =>
      }
    }

    method ApplyNewBreakpoint(bp: Breakpoint)
      modifies this`sourceBreakpoints, this`breakpointIds
      ensures Value() == ApplyNew(old(Value()), bp)
    {
      if bp.path.GetOr("") == "" || bp.line.None? || bp.line.value < 0 {
        return;
      }
      var path := bp.path.value;
      var spec := NewSpec(bp);
      var entries := ListAt(sourceBreakpoints, path);
      if bp.id.Some? && bp.id.value in breakpointIds {
        var index := breakpointIds[bp.id.value].index;
        if index < |entries| {
          sourceBreakpoints := sourceBreakpoints[path := entries[index := spec]];
          return;
        }
      }
      sourceBreakpoints := sourceBreakpoints[path := entries + [spec]];
      if bp.id.Some? {
        breakpointIds := breakpointIds[bp.id.value := Slot(path, |entries|)];
      }
    }

    method ApplyChangedBreakpoint(bp: Breakpoint)
      modifies this`sourceBreakpoints, this`breakpointIds
      ensures Value() == ApplyChanged(old(Value()), bp)
    {
      if bp.id.Some? && bp.id.value in breakpointIds {
        var slot := breakpointIds[bp.id.value];
        if slot.path in sourceBreakpoints && slot.index < |sourceBreakpoints[slot.path]| {
          var entry := sourceBreakpoints[slot.path][slot.index];
          if bp.line.Some? {
            entry := entry.(line := bp.line.value);
          }
          if !bp.condition.Absent? {
            entry := entry.(condition := bp.condition.ToOption());
          }
          if !bp.hitCondition.Absent? {
            entry := entry.(hitCondition := bp.hitCondition.ToOption());
          }
          if !bp.logMessage.Absent? {
            entry := entry.(logMessage := bp.logMessage.ToOption());
          }
          sourceBreakpoints := sourceBreakpoints[slot.path := sourceBreakpoints[slot.path][slot.index := entry]];
          return;
        }
      }
      ApplyNewBreakpoint(bp);
    }

    method ApplyRemovedBreakpoint(bp: Breakpoint)
      modifies this`sourceBreakpoints, this`breakpointIds
      ensures Value() == ApplyRemoved(old(Value()), bp)
    {
      if bp.id.None? || bp.id.value !in breakpointIds {
        return;
      }
      var removed := breakpointIds[bp.id.value];
      breakpointIds := breakpointIds - {bp.id.value};
      if removed.path in sourceBreakpoints {
        var entries := sourceBreakpoints[removed.path];
        if removed.index < |entries| {
          entries := entries[..removed.index] + entries[removed.index + 1..];
        }
        sourceBreakpoints := if entries == [] then sourceBreakpoints - {removed.path}
                             else sourceBreakpoints[removed.path := entries];
      }
      LowerIndices(removed);
    }

    /** Entries behind a removed one move down by one place. */
    method LowerIndices(removed: Slot)
      modifies this`breakpointIds
      ensures breakpointIds == map id | id in old(breakpointIds) :: Lowered(old(breakpointIds)[id], removed)
    {
      var todo := breakpointIds.Keys;
      while exists id :: id in todo
        invariant todo <= breakpointIds.Keys
        invariant breakpointIds.Keys == old(breakpointIds).Keys
        invariant forall id :: id in todo ==> breakpointIds[id] == old(breakpointIds)[id]
        invariant forall id :: id in breakpointIds && id !in todo ==>
          breakpointIds[id] == Lowered(old(breakpointIds)[id], removed)
        decreases todo
      {
        var id :| id in todo;
        var slot := breakpointIds[id];
        if slot.path == removed.path && slot.index > removed.index {
          breakpointIds := breakpointIds[id := Slot(slot.path, slot.index - 1)];
        }
        todo := todo - {id};
      }
      assert forall id :: id in old(breakpointIds) ==> breakpointIds[id] == Lowered(old(breakpointIds)[id], removed);
    }
  }
}
