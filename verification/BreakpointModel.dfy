/** The reference meaning of a tracker: plain lists of optionally tagged entries, edited by tag,
    with no index anywhere.  Proves that the indexed tracker keeps its index intact on every
    input, and says exactly on which inputs it computes the same lists as the reference. */
module BreakpointModel {
  import opened Wrappers
  import opened MuxMessage
  import opened BreakpointState

  datatype Entry = Entry(tag: Option<int>, spec: SourceSpec)

  type Lists = map<string, seq<Entry>>

  /** Everything a tracker is told, in order. */
  datatype Input =
    | Requested(number: int, message: Message)
    | ExceptionsRequested(message: Message)
    | Responded(message: Message)
    | Notified(message: Message)

  // ----- the tracker on a history of inputs -----------------------------------------

  function Next(t: State, input: Input): State {
    match input
    case Requested(n, m) => Track(t, n, m)
    case ExceptionsRequested(m) => TrackExceptions(t, m)
    case Responded(m) => Observe(t, m)
    case Notified(m) => ObserveEvent(t, m)
  }

  function Tracked(log: seq<Input>): State {
    if log == [] then EMPTY else Next(Tracked(log[..|log| - 1]), log[|log| - 1])
  }

  // ----- reference operations on tagged lists ----------------------------------------

  function EntriesAt(a: Lists, path: string): seq<Entry> {
    if path in a then a[path] else []
  }

  predicate TaggedIn(list: seq<Entry>, id: int) {
    exists i :: 0 <= i < |list| && list[i].tag == Some(id)
  }

  /** The list without the entries tagged `id`. */
  function Without(list: seq<Entry>, id: int): seq<Entry> {
    if list == [] then []
    else (if list[0].tag == Some(id) then [] else [list[0]]) + Without(list[1..], id)
  }

  datatype Edit = Respec(spec: SourceSpec) | Untag | PatchWith(bp: Breakpoint)

  function Edited(e: Entry, edit: Edit): Entry {
    match edit
    case Respec(spec) => Entry(e.tag, spec)
    case Untag => Entry(None, e.spec)
    case PatchWith(bp) => Entry(e.tag, Patch(e.spec, bp))
  }

  /** Edits every entry tagged `id`, in every file. */
  function OnTag(a: Lists, id: int, edit: Edit): Lists {
    map p | p in a ::
      seq(|a[p]|, i requires 0 <= i < |a[p]| => if a[p][i].tag == Some(id) then Edited(a[p][i], edit) else a[p][i])
  }

  function Append(a: Lists, path: string, e: Entry): Lists {
    a[path := EntriesAt(a, path) + [e]]
  }

  /** A `new` breakpoint replaces the entry with its tag in the file it names; otherwise it is
      appended to that file, and the tag moves to it. */
  function AddNew(a: Lists, bp: Breakpoint): Lists {
    if !WellFormedNew(bp) then a
    else
      var path, spec := bp.path.value, NewSpec(bp);
      if bp.id.Some? && TaggedIn(EntriesAt(a, path), bp.id.value) then
        OnTag(a, bp.id.value, Respec(spec))
      else
        Append(if bp.id.Some? then OnTag(a, bp.id.value, Untag) else a, path, Entry(bp.id, spec))
  }

  /** A `changed` breakpoint patches the entry with its tag, wherever it is. */
  function ChangeTagged(a: Lists, bp: Breakpoint): Lists {
    if bp.id.Some? && exists p :: p in a && TaggedIn(a[p], bp.id.value) then
      OnTag(a, bp.id.value, PatchWith(bp))
    else AddNew(a, bp)
  }

  /** A `removed` breakpoint deletes the entry with its tag and nothing else. */
  function RemoveTagged(a: Lists, bp: Breakpoint): Lists {
    if bp.id.None? then a
    else map p | p in a && Without(a[p], bp.id.value) != [] :: Without(a[p], bp.id.value)
  }

  function Fresh(specs: seq<SourceSpec>): seq<Entry> {
    seq(|specs|, i requires 0 <= i < |specs| => Entry(None, specs[i]))
  }

  /** A successful response replaces one whole file with untagged entries. */
  function Install(a: Lists, path: string, specs: seq<SourceSpec>): Lists {
    if specs == [] then a - {path} else a[path := Fresh(specs)]
  }

  datatype Reference = Reference(lists: Lists, pending: map<int, Pending>)

  function Notify(a: Lists, m: Message): Lists {
    if m.body.None? || m.body.value.EventBreakpoint().None? then a
    else
      var bp := m.body.value.EventBreakpoint().value;
      var reason := m.body.value.Reason();
      if reason == Some("new") then AddNew(a, bp)
      else if reason == Some("changed") then ChangeTagged(a, bp)
      else if reason == Some("removed") then RemoveTagged(a, bp)
      else a
  }

  function ReferenceNext(r: Reference, input: Input): Reference {
    match input
    case Requested(n, m) => r.(pending := r.pending[n := RequestedBreakpoints(m)])
    case ExceptionsRequested(m) => r
    case Responded(m) =>
      var n := m.AttributionSeq();
      if m.success != Some(true) || n !in r.pending then r
      else
        var resolved := Resolved(m, r.pending[n]);
        Reference(Install(r.lists, resolved.path, resolved.specs), r.pending - {n})
    case Notified(m) => r.(lists := Notify(r.lists, m))
  }

  function Referenced(log: seq<Input>): Reference {
    if log == [] then Reference(map[], map[]) else ReferenceNext(Referenced(log[..|log| - 1]), log[|log| - 1])
  }

  // ----- integrity, with no assumption on the inputs ---------------------------------

  lemma RebuildKeepsIntegrity(t: State, path: string, specs: seq<SourceSpec>)
    requires t.Integrity()
    ensures Rebuild(t, path, specs).Integrity()
  {
  }

  lemma ApplyNewKeepsIntegrity(t: State, bp: Breakpoint)
    requires t.Integrity()
    ensures ApplyNew(t, bp).Integrity()
  {
    var u := ApplyNew(t, bp);
    if WellFormedNew(bp) {
      assert |ListAt(u.files, bp.path.value)| >= |ListAt(t.files, bp.path.value)|;
      forall id | id in u.ids ensures u.Holds(u.ids[id]) {
        assert id in t.ids ==> t.Holds(t.ids[id]);
      }
    }
  }

  lemma ApplyChangedKeepsIntegrity(t: State, bp: Breakpoint)
    requires t.Integrity()
    ensures ApplyChanged(t, bp).Integrity()
  {
    ApplyNewKeepsIntegrity(t, bp);
  }

  lemma ApplyRemovedKeepsIntegrity(t: State, bp: Breakpoint)
    requires t.Integrity()
    ensures ApplyRemoved(t, bp).Integrity()
  {
    var u := ApplyRemoved(t, bp);
    if bp.id.Some? && bp.id.value in t.ids {
      var slot := t.ids[bp.id.value];
      assert t.Holds(slot);
      forall id | id in u.ids ensures u.Holds(u.ids[id]) {
        assert t.Holds(t.ids[id]) && t.ids[id] != slot;
      }
      forall x, y | x in u.ids && y in u.ids && u.ids[x] == u.ids[y] ensures x == y {
        assert t.ids[x] != slot && t.ids[y] != slot;
      }
    }
  }

  lemma NextKeepsIntegrity(t: State, input: Input)
    requires t.Integrity()
    ensures Next(t, input).Integrity()
  {
    match input
    case Requested(n, m) =>
    case ExceptionsRequested(m) =>
    case Responded(m) =>
      var n := m.AttributionSeq();
      if m.success == Some(true) && n in t.pending {
        var resolved := Resolved(m, t.pending[n]);
        RebuildKeepsIntegrity(t.(pending := t.pending - {n}), resolved.path, resolved.specs);
      }
    case Notified(m) =>
      if m.body.Some? && m.body.value.EventBreakpoint().Some? {
        var bp := m.body.value.EventBreakpoint().value;
        ApplyNewKeepsIntegrity(t, bp);
        ApplyChangedKeepsIntegrity(t, bp);
        ApplyRemovedKeepsIntegrity(t, bp);
      }
  }

  /** In every reachable state the index is intact, whatever the adapter and the clients sent. */
  lemma {:induction false} AlwaysIntegral(log: seq<Input>)
    ensures Tracked(log).Integrity()
  {
    if log != [] {
      AlwaysIntegral(log[..|log| - 1]);
      NextKeepsIntegrity(Tracked(log[..|log| - 1]), log[|log| - 1]);
    }
  }

  lemma ChangedKeepsShape(t: State, bp: Breakpoint)
    requires t.Integrity() && bp.id.Some? && bp.id.value in t.ids
    ensures var u := ApplyChanged(t, bp);
      && u.ids == t.ids && u.files.Keys == t.files.Keys
      && forall p :: p in t.files ==> |u.files[p]| == |t.files[p]|
  {
    assert forall id :: id in t.ids ==> t.Holds(t.ids[id]);
  }

  /** Hence a `changed` event for a known id edits one entry in place and never adds one. */
  lemma ChangedNeverAppends(log: seq<Input>, bp: Breakpoint)
    requires bp.id.Some? && bp.id.value in Tracked(log).ids
    ensures var t, u := Tracked(log), ApplyChanged(Tracked(log), bp);
      && u.ids == t.ids && u.files.Keys == t.files.Keys
      && forall p :: p in t.files ==> |u.files[p]| == |t.files[p]|
  {
    AlwaysIntegral(log);
    ChangedKeepsShape(Tracked(log), bp);
  }

  // ----- refinement --------------------------------------------------------------------

  predicate Tags(a: Lists, slot: Slot, id: int) {
    slot.path in a && slot.index < |a[slot.path]| && a[slot.path][slot.index].tag == Some(id)
  }

  /** The tracker's lists are the reference lists without their tags ... */
  ghost predicate SameSpecs(t: State, a: Lists) {
    && t.files.Keys == a.Keys
    && (forall p :: p in a ==> |t.files[p]| == |a[p]|)
    && (forall p, i :: p in a && 0 <= i < |a[p]| ==> t.files[p][i] == a[p][i].spec)
  }

  /** ... and its index says exactly where each tag is. */
  ghost predicate SameTags(t: State, a: Lists) {
    && (forall id :: id in t.ids ==> Tags(a, t.ids[id], id))
    && (forall p, i, id :: p in a && 0 <= i < |a[p]| && a[p][i].tag == Some(id) ==>
          id in t.ids && t.ids[id] == Slot(p, i))
  }

  ghost predicate Refines(t: State, a: Lists) {
    SameSpecs(t, a) && SameTags(t, a)
  }

  /** A `new` event that re-uses the tag of an entry of another file, at a position the named
      file also has: there the tracker overwrites an unrelated entry. */
  predicate Clash(a: Lists, bp: Breakpoint) {
    && WellFormedNew(bp) && bp.id.Some?
    && !TaggedIn(EntriesAt(a, bp.path.value), bp.id.value)
    && exists p, i :: p in a && 0 <= i < |a[p]| && a[p][i].tag == bp.id && i < |EntriesAt(a, bp.path.value)|
  }

  lemma RefinedTagged(t: State, a: Lists, id: int, path: string)
    requires Refines(t, a)
    ensures TaggedIn(EntriesAt(a, path), id) <==> id in t.ids && t.ids[id].path == path
    ensures (exists p :: p in a && TaggedIn(a[p], id)) <==> id in t.ids
  {
    if id in t.ids {
      var slot := t.ids[id];
      assert Tags(a, slot, id);
      assert a[slot.path][slot.index].tag == Some(id);
      assert TaggedIn(a[slot.path], id);
    }
  }

  lemma RefinedClash(t: State, a: Lists, bp: Breakpoint)
    requires Refines(t, a) && WellFormedNew(bp)
    ensures Clash(a, bp) <==>
      && bp.id.Some? && bp.id.value in t.ids && t.ids[bp.id.value].path != bp.path.value
      && t.ids[bp.id.value].index < |ListAt(t.files, bp.path.value)|
  {
    if bp.id.Some? {
      RefinedTagged(t, a, bp.id.value, bp.path.value);
      if bp.id.value in t.ids {
        var slot := t.ids[bp.id.value];
        assert Tags(a, slot, bp.id.value);
        assert a[slot.path][slot.index].tag == bp.id;
      }
    }
  }

  lemma SlotOfTag(t: State, a: Lists, id: int)
    requires SameTags(t, a) && id in t.ids
    ensures var slot := t.ids[id];
      && slot.path in a && slot.index < |a[slot.path]| && a[slot.path][slot.index].tag == Some(id)
      && forall p, i :: p in a && 0 <= i < |a[p]| && a[p][i].tag == Some(id) ==> p == slot.path && i == slot.index
  {
    assert Tags(a, t.ids[id], id);
  }

  /** Rewriting by tag is rewriting the one slot the index gives. */
  lemma OnTagIsUpdate(t: State, a: Lists, id: int, edit: Edit)
    requires SameTags(t, a) && id in t.ids
    ensures var slot := t.ids[id];
      && slot.path in a && slot.index < |a[slot.path]|
      && OnTag(a, id, edit) == a[slot.path := a[slot.path][slot.index := Edited(a[slot.path][slot.index], edit)]]
  {
    SlotOfTag(t, a, id);
    var slot := t.ids[id];
    var b := OnTag(a, id, edit);
    assert b[slot.path] == a[slot.path][slot.index := Edited(a[slot.path][slot.index], edit)];
    forall p | p in a && p != slot.path ensures b[p] == a[p] {
    }
  }

  /** Changing the spec under a tag, on both sides. */
  lemma RespecRefines(t: State, a: Lists, id: int, spec: SourceSpec)
    requires Refines(t, a) && id in t.ids
    ensures Tags(a, t.ids[id], id)
    ensures var slot := t.ids[id];
      && slot.path in t.files && slot.index < |t.files[slot.path]|
      && Refines(t.(files := t.files[slot.path := t.files[slot.path][slot.index := spec]]),
                 a[slot.path := a[slot.path][slot.index := Entry(Some(id), spec)]])
  {
    SlotOfTag(t, a, id);
    var slot := t.ids[id];
    var u := t.(files := t.files[slot.path := t.files[slot.path][slot.index := spec]]);
    var b := a[slot.path := a[slot.path][slot.index := Entry(Some(id), spec)]];
    assert SameSpecs(u, b);
    forall other | other in u.ids ensures Tags(b, u.ids[other], other) {
      SlotOfTag(t, a, other);
    }
  }

  /** Dropping a tag, on both sides. */
  lemma ForgetRefines(t: State, a: Lists, id: int)
    requires Refines(t, a)
    ensures Refines(t.(ids := t.ids - {id}), OnTag(a, id, Untag))
  {
    var u, b := t.(ids := t.ids - {id}), OnTag(a, id, Untag);
    forall other | other in u.ids ensures Tags(b, u.ids[other], other) {
      SlotOfTag(t, a, other);
    }
  }

  function Appended(t: State, path: string, tag: Option<int>, spec: SourceSpec): State {
    t.(files := t.files[path := ListAt(t.files, path) + [spec]],
       ids := if tag.Some? then t.ids[tag.value := Slot(path, |ListAt(t.files, path)|)] else t.ids)
  }

  lemma AppendKeepsSpecs(t: State, a: Lists, path: string, tag: Option<int>, spec: SourceSpec)
    requires SameSpecs(t, a)
    ensures SameSpecs(Appended(t, path, tag, spec), Append(a, path, Entry(tag, spec)))
    ensures |ListAt(t.files, path)| == |EntriesAt(a, path)|
  {
  }

  lemma AppendKeepsSlots(t: State, a: Lists, path: string, tag: Option<int>, spec: SourceSpec, id: int)
    requires Refines(t, a) && (tag.Some? ==> tag.value !in t.ids)
    requires id in Appended(t, path, tag, spec).ids
    ensures Tags(Append(a, path, Entry(tag, spec)), Appended(t, path, tag, spec).ids[id], id)
  {
    AppendKeepsSpecs(t, a, path, tag, spec);
    if id in t.ids {
      SlotOfTag(t, a, id);
    }
  }

  lemma AppendKeepsTags(t: State, a: Lists, path: string, tag: Option<int>, spec: SourceSpec,
                        p: string, i: nat, id: int)
    requires Refines(t, a) && (tag.Some? ==> tag.value !in t.ids)
    requires var b := Append(a, path, Entry(tag, spec)); p in b && i < |b[p]| && b[p][i].tag == Some(id)
    ensures var u := Appended(t, path, tag, spec); id in u.ids && u.ids[id] == Slot(p, i)
  {
    AppendKeepsSpecs(t, a, path, tag, spec);
    if p != path || i < |EntriesAt(a, path)| {
      assert p in a && a[p][i].tag == Some(id);
    }
  }

  lemma AppendRefines(t: State, a: Lists, path: string, tag: Option<int>, spec: SourceSpec)
    requires Refines(t, a) && (tag.Some? ==> tag.value !in t.ids)
    ensures Refines(Appended(t, path, tag, spec), Append(a, path, Entry(tag, spec)))
  {
    var u, b := Appended(t, path, tag, spec), Append(a, path, Entry(tag, spec));
    AppendKeepsSpecs(t, a, path, tag, spec);
    hide SameSpecs, Append, Appended, Tags;
    forall id | id in u.ids ensures Tags(b, u.ids[id], id) {
      AppendKeepsSlots(t, a, path, tag, spec, id);
    }
    forall p: string, i: nat, id: int | p in b && i < |b[p]| && b[p][i].tag == Some(id)
      ensures id in u.ids && u.ids[id] == Slot(p, i)
    {
      AppendKeepsTags(t, a, path, tag, spec, p, i, id);
    }
  }

  /** A text member of an event: absent it keeps what was there, a string replaces it, anything else
      clears it. */
  predicate Overwrites(member: Field<string>, was: Option<string>, now: Option<string>) {
    if member.Absent? then now == was else if member.Is? then now == Some(member.value) else now == None
  }

  /** A `changed` event for a known tag rewrites, member by member, exactly the entries with that tag. */
  lemma ReferenceChangeRewrites(a: Lists, bp: Breakpoint, id: int, p: string, i: nat)
    requires bp.id == Some(id) && exists q :: q in a && TaggedIn(a[q], id)
    requires p in a && i < |a[p]|
    ensures var b := ChangeTagged(a, bp);
      && b.Keys == a.Keys && |b[p]| == |a[p]| && b[p][i].tag == a[p][i].tag
      && (a[p][i].tag != Some(id) ==> b[p][i] == a[p][i])
      && (a[p][i].tag == Some(id) ==>
           var was, now := a[p][i].spec, b[p][i].spec;
           && now.line == (if bp.line.Some? then bp.line.value else was.line)
           && Overwrites(bp.condition, was.condition, now.condition)
           && Overwrites(bp.hitCondition, was.hitCondition, now.hitCondition)
           && Overwrites(bp.logMessage, was.logMessage, now.logMessage))
  {
    assert ChangeTagged(a, bp) == OnTag(a, id, PatchWith(bp));
  }

  lemma NewRefines(t: State, a: Lists, bp: Breakpoint)
    requires Refines(t, a) && !Clash(a, bp)
    ensures Refines(ApplyNew(t, bp), AddNew(a, bp))
  {
    if WellFormedNew(bp) {
      var path, spec := bp.path.value, NewSpec(bp);
      RefinedClash(t, a, bp);
      if bp.id.None? {
        AppendRefines(t, a, path, bp.id, spec);
      } else {
        var id := bp.id.value;
        RefinedTagged(t, a, id, path);
        if id in t.ids && t.ids[id].path == path {
          OnTagIsUpdate(t, a, id, Respec(spec));
          RespecRefines(t, a, id, spec);
        } else {
          NewAppends(t, a, bp);
        }
      }
    }
  }

  lemma NewAppends(t: State, a: Lists, bp: Breakpoint)
    requires Refines(t, a) && WellFormedNew(bp) && bp.id.Some?
    requires bp.id.value in t.ids ==>
      t.ids[bp.id.value].path != bp.path.value && t.ids[bp.id.value].index >= |ListAt(t.files, bp.path.value)|
    ensures Refines(ApplyNew(t, bp), AddNew(a, bp))
  {
    var path, id, spec := bp.path.value, bp.id.value, NewSpec(bp);
    var u, b := t.(ids := t.ids - {id}), OnTag(a, id, Untag);
    RefinedTagged(t, a, id, path);
    ForgetRefines(t, a, id);
    AppendRefines(u, b, path, bp.id, spec);
    var slot := Slot(path, |ListAt(t.files, path)|);
    var x, y := u.ids[id := slot], t.ids[id := slot];
    assert forall k :: k in x <==> k in y;
    assert forall k :: k in x ==> x[k] == y[k];
    assert x == y;
  }

  /** On a clash the tracker's list of the named file is one entry short of the reference. */
  lemma ClashDiverges(t: State, a: Lists, bp: Breakpoint)
    requires Refines(t, a) && Clash(a, bp)
    ensures !SameSpecs(ApplyNew(t, bp), AddNew(a, bp))
  {
    RefinedClash(t, a, bp);
    RefinedTagged(t, a, bp.id.value, bp.path.value);
    assert |AddNew(a, bp)[bp.path.value]| == |EntriesAt(a, bp.path.value)| + 1;
  }

  /** A `changed` event for a known tag refines whatever file it names. */
  lemma ChangedRefines(t: State, a: Lists, bp: Breakpoint)
    requires Refines(t, a) && bp.id.Some? && bp.id.value in t.ids
    ensures Refines(ApplyChanged(t, bp), ChangeTagged(a, bp))
  {
    var id := bp.id.value;
    RefinedTagged(t, a, id, "");
    SlotOfTag(t, a, id);
    var slot := t.ids[id];
    OnTagIsUpdate(t, a, id, PatchWith(bp));
    RespecRefines(t, a, id, Patch(t.files[slot.path][slot.index], bp));
  }

  lemma {:induction false} WithoutAbsent(list: seq<Entry>, id: int)
    requires !TaggedIn(list, id)
    ensures Without(list, id) == list
  {
    if list != [] {
      assert list[0].tag != Some(id);
      assert forall i :: 0 <= i < |list[1..]| ==> list[1..][i] == list[i + 1];
      WithoutAbsent(list[1..], id);
    }
  }

  lemma {:induction false} WithoutUnique(list: seq<Entry>, id: int, k: nat)
    requires k < |list| && list[k].tag == Some(id)
    requires forall i :: 0 <= i < |list| && i != k ==> list[i].tag != Some(id)
    ensures Without(list, id) == RemoveAt(list, k)
  {
    if k == 0 {
      assert forall i :: 0 <= i < |list[1..]| ==> list[1..][i] == list[i + 1];
      WithoutAbsent(list[1..], id);
    } else {
      WithoutUnique(list[1..], id, k - 1);
    }
  }

  /** Deleting by tag is deleting the one slot the index gives. */
  lemma RemoveIsUpdate(t: State, a: Lists, bp: Breakpoint)
    requires Refines(t, a) && bp.id.Some? && bp.id.value in t.ids
    requires forall p :: p in a ==> a[p] != []
    ensures var slot := t.ids[bp.id.value];
      && slot.path in a && slot.index < |a[slot.path]|
      && var rest := RemoveAt(a[slot.path], slot.index);
      && RemoveTagged(a, bp) == if rest == [] then a - {slot.path} else a[slot.path := rest]
  {
    var id := bp.id.value;
    SlotOfTag(t, a, id);
    var slot := t.ids[id];
    WithoutUnique(a[slot.path], id, slot.index);
    forall p | p in a && p != slot.path ensures Without(a[p], id) == a[p] {
      RefinedTagged(t, a, id, p);
      WithoutAbsent(a[p], id);
    }
  }

  lemma RemovedRefines(t: State, a: Lists, bp: Breakpoint)
    requires Refines(t, a) && t.Integrity()
    ensures Refines(ApplyRemoved(t, bp), RemoveTagged(a, bp))
  {
    assert forall p :: p in a ==> a[p] != [] by {
      assert forall p :: p in a ==> |t.files[p]| == |a[p]|;
    }
    if bp.id.Some? {
      if bp.id.value in t.ids {
        RemoveIsUpdate(t, a, bp);
        RemovedSpecs(t, a, bp);
        RemovedTags(t, a, bp);
      } else {
        forall p | p in a ensures Without(a[p], bp.id.value) == a[p] {
          RefinedTagged(t, a, bp.id.value, p);
          WithoutAbsent(a[p], bp.id.value);
        }
        assert RemoveTagged(a, bp) == a;
      }
    }
  }

  lemma RemovedSpecs(t: State, a: Lists, bp: Breakpoint)
    requires Refines(t, a) && bp.id.Some? && bp.id.value in t.ids
    requires forall p :: p in a ==> a[p] != []
    ensures SameSpecs(ApplyRemoved(t, bp), RemoveTagged(a, bp))
  {
    RemoveIsUpdate(t, a, bp);
    var slot := t.ids[bp.id.value];
    var files, b := ApplyRemoved(t, bp).files, RemoveTagged(a, bp);
    RemovedLists(t, bp);
    RemoveAtMatches(t.files[slot.path], a[slot.path], slot.index);
    hide RemoveTagged, ApplyRemoved, Tags, Without, RemoveAt;
    forall p | p in b ensures p in files && ListMatches(files[p], b[p]) {
      assert p in a && ListMatches(t.files[p], a[p]);
    }
    assert files.Keys == b.Keys;
  }

  predicate ListMatches(specs: seq<SourceSpec>, list: seq<Entry>) {
    |specs| == |list| && forall i :: 0 <= i < |specs| ==> specs[i] == list[i].spec
  }

  lemma RemoveAtMatches(specs: seq<SourceSpec>, list: seq<Entry>, i: nat)
    requires ListMatches(specs, list) && i < |list|
    ensures ListMatches(RemoveAt(specs, i), RemoveAt(list, i))
    ensures RemoveAt(specs, i) == [] <==> RemoveAt(list, i) == []
  {
  }

  lemma RemovedLists(t: State, bp: Breakpoint)
    requires bp.id.Some? && bp.id.value in t.ids && t.Holds(t.ids[bp.id.value])
    ensures var slot := t.ids[bp.id.value];
      var rest := RemoveAt(t.files[slot.path], slot.index);
      ApplyRemoved(t, bp).files == if rest == [] then t.files - {slot.path} else t.files[slot.path := rest]
  {
  }

  lemma RemovedTags(t: State, a: Lists, bp: Breakpoint)
    requires Refines(t, a) && t.Integrity() && bp.id.Some? && bp.id.value in t.ids
    requires forall p :: p in a ==> a[p] != []
    ensures SameTags(ApplyRemoved(t, bp), RemoveTagged(a, bp))
  {
    var u, b := ApplyRemoved(t, bp), RemoveTagged(a, bp);
    RemovedIds(t, bp);
    hide Refines, RemoveTagged, ApplyRemoved, Lowered, Tags;
    forall id | id in u.ids ensures Tags(b, u.ids[id], id) {
      RemovedKeepsTag(t, a, bp, id);
    }
    forall p: string, i: nat, id: int | p in b && i < |b[p]| && b[p][i].tag == Some(id)
      ensures id in u.ids && u.ids[id] == Slot(p, i)
    {
      TagsAt(b, p, i, id);
      RemovedAddsNoTag(t, a, bp, p, i, id);
    }
  }

  lemma TagsAt(a: Lists, p: string, i: nat, id: int)
    requires p in a && i < |a[p]| && a[p][i].tag == Some(id)
    ensures Tags(a, Slot(p, i), id)
  {
  }

  lemma RemovedIds(t: State, bp: Breakpoint)
    requires bp.id.Some? && bp.id.value in t.ids
    ensures forall id :: id in ApplyRemoved(t, bp).ids <==> id in t.ids && id != bp.id.value
    ensures forall id :: id in t.ids && id != bp.id.value ==>
      ApplyRemoved(t, bp).ids[id] == Lowered(t.ids[id], t.ids[bp.id.value])
  {
  }

  lemma RemovedKeepsTag(t: State, a: Lists, bp: Breakpoint, id: int)
    requires Refines(t, a) && bp.id.Some? && bp.id.value in t.ids
    requires forall p :: p in a ==> a[p] != []
    requires id in t.ids && id != bp.id.value
    ensures Tags(RemoveTagged(a, bp), Lowered(t.ids[id], t.ids[bp.id.value]), id)
  {
    RemoveIsUpdate(t, a, bp);
    SlotOfTag(t, a, id);
    SlotOfTag(t, a, bp.id.value);
  }

  lemma RemovedAddsNoTag(t: State, a: Lists, bp: Breakpoint, p: string, i: nat, id: int)
    requires Refines(t, a) && bp.id.Some? && bp.id.value in t.ids
    requires forall p :: p in a ==> a[p] != []
    requires Tags(RemoveTagged(a, bp), Slot(p, i), id)
    ensures id in t.ids && id != bp.id.value && Lowered(t.ids[id], t.ids[bp.id.value]) == Slot(p, i)
  {
    RemoveIsUpdate(t, a, bp);
    SlotOfTag(t, a, bp.id.value);
    var slot := t.ids[bp.id.value];
    var before := if p == slot.path && i >= slot.index then i + 1 else i;
    assert p in a && before < |a[p]| && a[p][before].tag == Some(id);
    assert id in t.ids && t.ids[id] == Slot(p, before);
  }

  lemma InstallRefines(t: State, a: Lists, path: string, specs: seq<SourceSpec>)
    requires Refines(t, a)
    ensures Refines(Rebuild(t, path, specs), Install(a, path, specs))
  {
    var u, b := Rebuild(t, path, specs), Install(a, path, specs);
    forall id | id in u.ids ensures Tags(b, u.ids[id], id) {
      assert Tags(a, t.ids[id], id);
    }
  }

  // ----- whole histories ---------------------------------------------------------------

  /** The breakpoint a `new` event would add, once known tags have been dealt with. */
  predicate AddsClash(a: Lists, m: Message) {
    && m.body.Some? && m.body.value.EventBreakpoint().Some?
    && var bp := m.body.value.EventBreakpoint().value;
    && m.body.value.Reason() == Some("new")
    && Clash(a, bp)
  }

  predicate InputClashes(r: Reference, input: Input) {
    input.Notified? && AddsClash(r.lists, input.message)
  }

  /** No input of the history is a clash at the point where it arrives. */
  ghost predicate ClashFree(log: seq<Input>) {
    forall k :: 0 <= k < |log| ==> !InputClashes(Referenced(log[..k]), log[k])
  }

  ghost predicate Agree(t: State, r: Reference) {
    t.pending == r.pending && Refines(t, r.lists)
  }

  lemma NotifyAgrees(t: State, a: Lists, m: Message)
    requires t.Integrity() && Refines(t, a) && !AddsClash(a, m)
    ensures Refines(ObserveEvent(t, m), Notify(a, m))
  {
    if m.body.Some? && m.body.value.EventBreakpoint().Some? {
      var bp := m.body.value.EventBreakpoint().value;
      var reason := m.body.value.Reason();
      if reason == Some("new") {
        NewRefines(t, a, bp);
      } else if reason == Some("changed") {
        UnknownNeverClashes(t, a, bp);
        if bp.id.Some? && bp.id.value in t.ids {
          ChangedRefines(t, a, bp);
        } else {
          NewRefines(t, a, bp);
        }
      } else if reason == Some("removed") {
        RemovedRefines(t, a, bp);
      }
    }
  }

  lemma UnknownNeverClashes(t: State, a: Lists, bp: Breakpoint)
    requires Refines(t, a)
    ensures bp.id.None? || bp.id.value !in t.ids ==>
      && !Clash(a, bp)
      && ApplyChanged(t, bp) == ApplyNew(t, bp)
      && ChangeTagged(a, bp) == AddNew(a, bp)
  {
    if WellFormedNew(bp) {
      RefinedClash(t, a, bp);
    }
    if bp.id.Some? {
      RefinedTagged(t, a, bp.id.value, "");
    }
  }

  lemma NextAgrees(t: State, r: Reference, input: Input)
    requires t.Integrity() && Agree(t, r)
    ensures !InputClashes(r, input) ==> Agree(Next(t, input), ReferenceNext(r, input))
    ensures InputClashes(r, input) ==> !Agree(Next(t, input), ReferenceNext(r, input))
  {
    match input
    case Requested(n, m) =>
    case ExceptionsRequested(m) =>
    case Responded(m) => RespondedAgrees(t, r, m);
    case Notified(m) => NotifiedAgrees(t, r, m);
  }

  lemma RespondedAgrees(t: State, r: Reference, m: Message)
    requires Agree(t, r)
    ensures Agree(Next(t, Responded(m)), ReferenceNext(r, Responded(m)))
  {
    hide Refines, Resolved, Rebuild, Install;
    var n := m.AttributionSeq();
    if m.success == Some(true) && n in t.pending {
      var resolved := Resolved(m, t.pending[n]);
      SameLists(t, t.(pending := t.pending - {n}), r.lists);
      InstallRefines(t.(pending := t.pending - {n}), r.lists, resolved.path, resolved.specs);
      RebuildKeepsPending(t.(pending := t.pending - {n}), resolved.path, resolved.specs);
    }
  }

  lemma SameLists(t: State, u: State, a: Lists)
    requires Refines(t, a) && u.files == t.files && u.ids == t.ids
    ensures Refines(u, a)
  {
  }

  lemma RebuildKeepsPending(t: State, path: string, specs: seq<SourceSpec>)
    ensures Rebuild(t, path, specs).pending == t.pending
  {
  }

  lemma NotifiedAgrees(t: State, r: Reference, m: Message)
    requires t.Integrity() && Agree(t, r)
    ensures Agree(Next(t, Notified(m)), ReferenceNext(r, Notified(m))) <==> !AddsClash(r.lists, m)
  {
    EventKeepsPending(t, m);
    if AddsClash(r.lists, m) {
      hide Refines;
      NewsDiverge(t, r.lists, m);
    } else {
      hide Refines, ObserveEvent, Notify, AddsClash;
      NotifyAgrees(t, r.lists, m);
    }
  }

  lemma EventKeepsPending(t: State, m: Message)
    ensures ObserveEvent(t, m).pending == t.pending
  {
  }

  lemma NewsDiverge(t: State, a: Lists, m: Message)
    requires Refines(t, a) && AddsClash(a, m)
    ensures !Refines(ObserveEvent(t, m), Notify(a, m))
  {
    ClashDiverges(t, a, m.body.value.EventBreakpoint().value);
  }

  lemma ClashFreePrefix(log: seq<Input>)
    requires log != [] && ClashFree(log)
    ensures ClashFree(log[..|log| - 1]) && !InputClashes(Referenced(log[..|log| - 1]), log[|log| - 1])
  {
    var shorter := log[..|log| - 1];
    forall k | 0 <= k < |shorter| ensures !InputClashes(Referenced(shorter[..k]), shorter[k]) {
      assert shorter[..k] == log[..k];
    }
  }

  /** On every clash-free history the indexed tracker holds the reference lists, tags and all. */
  lemma {:induction false} TrackerRefinesReference(log: seq<Input>)
    requires ClashFree(log)
    ensures Agree(Tracked(log), Referenced(log))
  {
    if log != [] {
      var shorter := log[..|log| - 1];
      ClashFreePrefix(log);
      TrackerRefinesReference(shorter);
      AlwaysIntegral(shorter);
      NextAgrees(Tracked(shorter), Referenced(shorter), log[|log| - 1]);
    }
  }

  /** The condition is exact: the first clash of a history makes the two disagree. */
  lemma FirstClashDiverges(log: seq<Input>, input: Input)
    requires ClashFree(log)
    ensures Agree(Tracked(log + [input]), Referenced(log + [input])) <==> ClashFree(log + [input])
  {
    var longer := log + [input];
    assert longer[..|log|] == log;
    TrackerRefinesReference(log);
    AlwaysIntegral(log);
    NextAgrees(Tracked(log), Referenced(log), input);
    if !InputClashes(Referenced(log), input) {
      forall k | 0 <= k < |longer| ensures !InputClashes(Referenced(longer[..k]), longer[k]) {
        if k < |log| {
          assert longer[..k] == log[..k];
        }
      }
    } else {
      assert InputClashes(Referenced(longer[..|log|]), longer[|log|]);
    }
  }

  function PlainNew(id: Option<int>, path: string, line: int): Message {
    Message(Event, None, Absent, Absent, None, None, Some("breakpoint"), None,
      Some(Body(Some("new"), None, None,
        Some(Breakpoint(id, Some(path), Some(line), None, Absent, Absent, Absent)), None, "")))
  }

  function PlainSpec(line: int): SourceSpec {
    SourceSpec(line, None, None, None)
  }

  /** A clash: id 1 was recorded for file "a"; a `new` event then names file "b", and the tracker
      overwrites an unrelated entry of "b", where the reference appends. */
  lemma ClashExample()
    ensures var log := [Notified(PlainNew(None, "b", 1)), Notified(PlainNew(Some(1), "a", 2)),
                        Notified(PlainNew(Some(1), "b", 3))];
      && Tracked(log).files["b"] == [PlainSpec(3)]
      && Referenced(log).lists["b"] == [Entry(None, PlainSpec(1)), Entry(Some(1), PlainSpec(3))]
  {
    var i0, i1 := Notified(PlainNew(None, "b", 1)), Notified(PlainNew(Some(1), "a", 2));
    var i2 := Notified(PlainNew(Some(1), "b", 3));
    TrackedExample(i0, i1, i2);
    ReferencedExample(i0, i1, i2);
  }

  lemma OneMore(log: seq<Input>, input: Input)
    ensures Tracked(log + [input]) == Next(Tracked(log), input)
    ensures Referenced(log + [input]) == ReferenceNext(Referenced(log), input)
  {
    assert (log + [input])[..|log|] == log;
  }

  lemma NothingYet()
    ensures Tracked([]) == EMPTY && Referenced([]) == Reference(map[], map[])
  {
  }

  lemma TrackedExample(i0: Input, i1: Input, i2: Input)
    requires i0 == Notified(PlainNew(None, "b", 1)) && i1 == Notified(PlainNew(Some(1), "a", 2))
    requires i2 == Notified(PlainNew(Some(1), "b", 3))
    ensures Tracked([i0, i1, i2]).files["b"] == [PlainSpec(3)]
  {
    ThreeInputs(i0, i1, i2);
    hide Tracked, Referenced;
    var t1 := Next(EMPTY, i0);
    assert t1.files["b"] == [PlainSpec(1)] && "a" !in t1.files;
    var t2 := Next(t1, i1);
    assert t2.files["b"] == [PlainSpec(1)] && t2.ids[1] == Slot("a", 0);
  }

  lemma ThreeInputs(i0: Input, i1: Input, i2: Input)
    ensures Tracked([i0, i1, i2]) == Next(Next(Next(EMPTY, i0), i1), i2)
    ensures Referenced([i0, i1, i2]) ==
      ReferenceNext(ReferenceNext(ReferenceNext(Reference(map[], map[]), i0), i1), i2)
  {
    hide Next, ReferenceNext;
    assert [] + [i0] == [i0] && [i0] + [i1] == [i0, i1] && [i0, i1] + [i2] == [i0, i1, i2];
    OneMore([], i0);
    OneMore([i0], i1);
    OneMore([i0, i1], i2);
    NothingYet();
  }

  lemma ReferencedExample(i0: Input, i1: Input, i2: Input)
    requires i0 == Notified(PlainNew(None, "b", 1)) && i1 == Notified(PlainNew(Some(1), "a", 2))
    requires i2 == Notified(PlainNew(Some(1), "b", 3))
    ensures Referenced([i0, i1, i2]).lists["b"] == [Entry(None, PlainSpec(1)), Entry(Some(1), PlainSpec(3))]
  {
    ThreeInputs(i0, i1, i2);
    hide Tracked, Referenced, Next, Notify, PlainNew, PlainSpec;
    NewInB(map[], None, "b", 1);
    var one := Notify(map[], PlainNew(None, "b", 1));
    NewInB(one, Some(1), "a", 2);
    NewInB(Notify(one, PlainNew(Some(1), "a", 2)), Some(1), "b", 3);
  }

  /** A new breakpoint while "b" holds nothing, or only untagged entries. */
  lemma NewInB(a: Lists, id: Option<int>, path: string, line: int)
    requires path != "" && line >= 0 && forall i :: 0 <= i < |EntriesAt(a, "b")| ==> EntriesAt(a, "b")[i].tag == None
    requires path == "b" || "b" in a
    ensures EntriesAt(Notify(a, PlainNew(id, path, line)), "b") ==
      EntriesAt(a, "b") + if path == "b" then [Entry(id, PlainSpec(line))] else []
  {
    if id.Some? && "b" in a {
      assert EntriesAt(a, "b") == a["b"];
      UntaggedStay(a, "b", id.value, Untag);
    }
  }

  lemma UntaggedStay(a: Lists, path: string, id: int, edit: Edit)
    requires path in a && forall i :: 0 <= i < |a[path]| ==> a[path][i].tag == None
    ensures OnTag(a, id, edit)[path] == a[path]
  {
  }

  /** What a snapshot shows: the reference lists with their tags erased. */
  function Erased(a: Lists): Files {
    map p | p in a :: seq(|a[p]|, i requires 0 <= i < |a[p]| => a[p][i].spec)
  }

  lemma SnapshotIsReference(log: seq<Input>)
    requires ClashFree(log)
    ensures Tracked(log).files == Erased(Referenced(log).lists)
  {
    TrackerRefinesReference(log);
    var files, erased := Tracked(log).files, Erased(Referenced(log).lists);
    forall p | p in erased ensures files[p] == erased[p] {
    }
  }
}
