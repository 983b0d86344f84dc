/** The handshake sees only the messages it waits for: other traffic, anywhere on the wire, changes
    neither whether it succeeds nor what it reports, whatever the manifest says. */
module HandshakeNoise {
  import opened Wrappers
  import opened ControlClient
  import opened SessionInit

  /** A wire with the message at `k` left out, and where everything else then stands. */
  function Without(wire: seq<Message>, k: nat): (r: seq<Message>)
    requires k < |wire|
    ensures |r| == |wire| - 1
  {
    wire[..k] + wire[k + 1..]
  }

  function Shift(p: nat, k: nat): nat {
    if p <= k then p else p - 1
  }

  function ShiftAll(s: seq<nat>, k: nat): (r: seq<nat>)
    ensures |r| == |s| && forall i :: 0 <= i < |s| ==> r[i] == Shift(s[i], k)
  {
    seq(|s|, i requires 0 <= i < |s| => Shift(s[i], k))
  }

  function Moved(c: Cursor, k: nat): Cursor {
    Cursor(ShiftAll(c.taken, k), Shift(c.read, k), c.seqNo)
  }

  function MovedIf(c: Option<Cursor>, k: nat): Option<Cursor> {
    if c.Some? then Some(Moved(c.value, k)) else None
  }

  /** The message at `k` has not been handed out. */
  ghost predicate Spared(c: Option<Cursor>, k: nat) {
    c.Some? ==> k !in c.value.taken
  }

  // ----- one wait --------------------------------------------------------------------------------

  ghost predicate Available(wire: seq<Message>, taken: seq<nat>, want: Want, p: nat) {
    p < |wire| && Fits(wire[p], want) && p !in taken
  }

  lemma AvailableStays(wire: seq<Message>, taken: seq<nat>, want: Want, k: nat, p: nat)
    requires k < |wire| && k !in taken && p != k && p < |wire|
    ensures Available(wire, taken, want, p) <==> Available(Without(wire, k), ShiftAll(taken, k), want, Shift(p, k))
  {
    var shifted := ShiftAll(taken, k);
    assert Without(wire, k)[Shift(p, k)] == wire[p];
    if p in taken {
      var i :| 0 <= i < |taken| && taken[i] == p;
      assert shifted[i] == Shift(p, k);
    }
    if Shift(p, k) in shifted {
      var i :| 0 <= i < |shifted| && shifted[i] == Shift(p, k);
      assert taken[i] in taken && taken[i] != k;
      assert taken[i] == p;
    }
  }

  lemma FoundStays(wire: seq<Message>, taken: seq<nat>, want: Want, from: nat, k: nat)
    requires from <= |wire| && k < |wire| && k !in taken && !Fits(wire[k], want)
    requires Earliest(wire, taken, want, from, |wire|).Some?
    ensures Earliest(Without(wire, k), ShiftAll(taken, k), want, Shift(from, k), |wire| - 1) ==
      Some(Shift(Earliest(wire, taken, want, from, |wire|).value, k))
  {
    var p := Earliest(wire, taken, want, from, |wire|).value;
    var less, moved := Without(wire, k), ShiftAll(taken, k);
    AvailableStays(wire, taken, want, k, p);
    forall q: nat | Shift(from, k) <= q < Shift(p, k) ensures !Available(less, moved, want, q) {
      var back := if q < k then q else q + 1;
      AvailableStays(wire, taken, want, k, back);
      assert back < |wire| && Shift(back, k) == q;
    }
    FirstAvailable(less, moved, want, Shift(from, k), |less|, Shift(p, k));
  }

  lemma FirstAvailable(wire: seq<Message>, taken: seq<nat>, want: Want, from: nat, end: nat, p: nat)
    requires from <= p < end <= |wire| && Available(wire, taken, want, p)
    requires forall q: nat :: from <= q < p ==> !Available(wire, taken, want, q)
    ensures Earliest(wire, taken, want, from, end) == Some(p)
  {
    var r := Earliest(wire, taken, want, from, end);
    if r.Some? {
      assert Available(wire, taken, want, r.value);
    }
  }

  lemma NotFoundStays(wire: seq<Message>, taken: seq<nat>, want: Want, from: nat, k: nat)
    requires from <= |wire| && k < |wire| && k !in taken && !Fits(wire[k], want)
    requires Earliest(wire, taken, want, from, |wire|).None?
    ensures Earliest(Without(wire, k), ShiftAll(taken, k), want, Shift(from, k), |wire| - 1) == None
  {
    var less, moved := Without(wire, k), ShiftAll(taken, k);
    forall q: nat | Shift(from, k) <= q < |less| ensures !Available(less, moved, want, q) {
      var back := if q < k then q else q + 1;
      AvailableStays(wire, taken, want, k, back);
      assert back < |wire| && Shift(back, k) == q;
    }
    NoneAvailable(less, moved, want, Shift(from, k), |less|);
  }

  lemma NoneAvailable(wire: seq<Message>, taken: seq<nat>, want: Want, from: nat, end: nat)
    requires from <= end <= |wire|
    requires forall q: nat :: from <= q < end ==> !Available(wire, taken, want, q)
    ensures Earliest(wire, taken, want, from, end) == None
  {
    var r := Earliest(wire, taken, want, from, end);
    assert r.Some? ==> Available(wire, taken, want, r.value);
  }

  lemma AwaitStays(wire: seq<Message>, c: Cursor, w: Wait, k: nat)
    requires c.read <= |wire| && k < |wire| && k !in c.taken && !Fits(wire[k], w.want)
    ensures Await(Without(wire, k), Moved(c, k), w) == MovedIf(Await(wire, c, w), k)
    ensures Spared(Await(wire, c, w), k)
  {
    hide Earliest, Without;
    var taken, from := if w.OnWire? then [] else c.taken, if w.OnWire? then c.read else 0;
    var p := Earliest(wire, taken, w.want, from, |wire|);
    assert ShiftAll([], k) == [];
    if p.Some? {
      FoundStays(wire, taken, w.want, from, k);
      assert p.value != k;
      TakeMoves(c, p.value, k);
    } else {
      NotFoundStays(wire, taken, w.want, from, k);
    }
  }

  lemma TakeMoves(c: Cursor, p: nat, k: nat)
    requires p != k
    ensures Moved(Take(c, p), k) == Take(Moved(c, k), Shift(p, k))
    ensures k in Take(c, p).taken <==> k in c.taken
  {
    assert ShiftAll(c.taken + [p], k) == ShiftAll(c.taken, k) + [Shift(p, k)];
  }

  // ----- one sequence ----------------------------------------------------------------------------

  /** No wait of a handshake that starts at number `s` can accept this message. */
  ghost predicate Noise(m: Message, s: int, steps: seq<InitStep>) {
    && (m.Response? ==> m.requestSeq < s || m.requestSeq > s + (if steps == [] then 2 else |steps|))
    && (m.Event? ==> m.event != "stopped" && (steps == [] ==> m.event != "initialized"))
    && (forall i :: 0 <= i < |steps| ==> Unawaited(m, steps[i]))
  }

  ghost predicate Unawaited(m: Message, step: InitStep) {
    && (m.Event? ==> step.waitForEvent != Some(m.event))
    && (m.Response? && m.name.Some? ==> step.waitForResponse != m.name)
  }

  lemma ThenStays(wire: seq<Message>, c: Option<Cursor>, w: Wait, k: nat)
    requires k < |wire| && !Fits(wire[k], w.want) && Spared(c, k) && (c.Some? ==> c.value.read <= |wire|)
    ensures Then(Without(wire, k), MovedIf(c, k), w) == MovedIf(Then(wire, c, w), k)
    ensures Spared(Then(wire, c, w), k)
  {
    if c.Some? {
      AwaitStays(wire, c.value, w, k);
    }
  }

  lemma AskedStays(wire: seq<Message>, c: Option<Cursor>, k: nat)
    requires k < |wire| && Spared(c, k) && (c.Some? ==> c.value.read <= |wire|)
    requires c.Some? && wire[k].Response? ==> wire[k].requestSeq != c.value.seqNo
    ensures Asked(Without(wire, k), MovedIf(c, k)) == MovedIf(Asked(wire, c), k)
    ensures Spared(Asked(wire, c), k)
  {
    if c.Some? {
      AwaitStays(wire, Sent(c.value), OnWire(ResponseTo(c.value.seqNo)), k);
    }
  }

  lemma StepStays(wire: seq<Message>, c: Cursor, step: InitStep, k: nat)
    requires c.read <= |wire| && k < |wire| && k !in c.taken
    requires Unawaited(wire[k], step) && (wire[k].Response? ==> wire[k].requestSeq != c.seqNo)
    ensures AfterStep(Without(wire, k), Moved(c, k), step) == MovedIf(AfterStep(wire, c, step), k)
    ensures Spared(AfterStep(wire, c, step), k)
  {
    if step.request.None? {
      if step.waitForResponse.Some? {
        ThenStays(wire, Some(c), KeptFirst(ResponseNamed(step.waitForResponse.value)), k);
      }
    } else if step.waitForEvent.Some? {
      EventStepStays(wire, c, step, k);
    } else {
      AskStepStays(wire, c, step, k);
    }
  }

  lemma EventStepStays(wire: seq<Message>, c: Cursor, step: InitStep, k: nat)
    requires c.read <= |wire| && k < |wire| && k !in c.taken && step.request.Some? && step.waitForEvent.Some?
    requires Unawaited(wire[k], step) && (wire[k].Response? ==> wire[k].requestSeq != c.seqNo)
    ensures AfterStep(Without(wire, k), Moved(c, k), step) == MovedIf(AfterStep(wire, c, step), k)
    ensures Spared(AfterStep(wire, c, step), k)
  {
    assert Moved(c, k).seqNo == c.seqNo && Moved(Sent(c), k) == Sent(Moved(c, k));
    var w, claim := OnWire(EventNamed(step.waitForEvent.value)), KeptFirst(ResponseTo(c.seqNo));
    assert !Fits(wire[k], w.want) && !Fits(wire[k], claim.want);
    hide Without, Await, Then, Moved, Fits, Unawaited, Asked;
    ThenStays(wire, Some(Sent(c)), w, k);
    assert MovedIf(Some(Sent(c)), k) == Some(Sent(Moved(c, k)));
    var seen := Then(wire, Some(Sent(c)), w);
    ThenStays(wire, seen, claim, k);
  }

  lemma AskStepStays(wire: seq<Message>, c: Cursor, step: InitStep, k: nat)
    requires c.read <= |wire| && k < |wire| && k !in c.taken && step.request.Some? && step.waitForEvent.None?
    requires Unawaited(wire[k], step) && (wire[k].Response? ==> wire[k].requestSeq != c.seqNo)
    ensures AfterStep(Without(wire, k), Moved(c, k), step) == MovedIf(AfterStep(wire, c, step), k)
    ensures Spared(AfterStep(wire, c, step), k)
  {
    hide Without, Await, Then, Asked, Moved;
    AskedStays(wire, Some(c), k);
    if step.waitForResponse.Some? {
      ThenStays(wire, Asked(wire, Some(c)), KeptFirst(ResponseNamed(step.waitForResponse.value)), k);
    }
  }

  lemma {:induction false} StepsStay(wire: seq<Message>, c: Cursor, steps: seq<InitStep>, k: nat)
    requires c.read <= |wire| && k < |wire| && k !in c.taken
    requires forall i :: 0 <= i < |steps| ==> Unawaited(wire[k], steps[i])
    requires wire[k].Response? ==> wire[k].requestSeq < c.seqNo || wire[k].requestSeq >= c.seqNo + |steps|
    ensures AfterSteps(Without(wire, k), Moved(c, k), steps) == MovedIf(AfterSteps(wire, c, steps), k)
    ensures Spared(AfterSteps(wire, c, steps), k)
    decreases |steps|
  {
    hide Without, AfterStep, Unawaited;
    if steps != [] {
      var fewer := steps[..|steps| - 1];
      StepsStay(wire, c, fewer, k);
      var before := AfterSteps(wire, c, fewer);
      if before.Some? {
        StepStays(wire, before.value, steps[|steps| - 1], k);
      }
    }
  }

  lemma DefaultStays(wire: seq<Message>, c: Cursor, k: nat)
    requires c.read <= |wire| && k < |wire| && k !in c.taken && !Fits(wire[k], EventNamed("initialized"))
    requires wire[k].Response? ==> wire[k].requestSeq < c.seqNo || wire[k].requestSeq > c.seqNo + 1
    ensures AfterDefault(Without(wire, k), Moved(c, k)) == MovedIf(AfterDefault(wire, c), k)
    ensures Spared(AfterDefault(wire, c), k)
  {
    hide Without, Await;
    AskedStays(wire, Some(c), k);
    var asked := Asked(wire, Some(c));
    ThenStays(wire, asked, KeptFirst(EventNamed("initialized")), k);
    AskedStays(wire, Then(wire, asked, KeptFirst(EventNamed("initialized"))), k);
  }

  // ----- the handshake ---------------------------------------------------------------------------

  /** Leaving out one message that nothing waits for, be it kept from before or still to come: the
      handshake succeeds just as before, with the same capabilities, the same `stopped` event, and
      every other message where it was. */
  lemma NoiseChangesNothing(wire: seq<Message>, r: nat, s: int, steps: seq<InitStep>, k: nat)
    requires r <= |wire| && k < |wire| && Noise(wire[k], s, steps)
    ensures var start, moved := Cursor([], r, s), Cursor([], Shift(r, k), s);
      var full, less := AfterHandshake(wire, start, steps), AfterHandshake(Without(wire, k), moved, steps);
      && less == MovedIf(full, k) && Spared(full, k)
      && Greeting(Without(wire, k), moved) == Greeting(wire, start)
      && (full.Some? ==> Without(wire, k)[Last(less.value)] == wire[Last(full.value)])
  {
    hide Without, Await, AfterDefault, AfterSteps, Unawaited;
    var start := Cursor([], r, s);
    assert Moved(start, k) == Cursor([], Shift(r, k), s);
    AskedStays(wire, Some(start), k);
    var greeted := Asked(wire, Some(start));
    if greeted.Some? {
      SameMessage(wire, greeted.value, k);
      if steps == [] {
        DefaultStays(wire, greeted.value, k);
        ThenStays(wire, AfterDefault(wire, greeted.value), KeptFirst(EventNamed("stopped")), k);
      } else {
        StepsStay(wire, greeted.value, steps, k);
        ThenStays(wire, AfterSteps(wire, greeted.value, steps), KeptFirst(EventNamed("stopped")), k);
      }
      var done := AfterHandshake(wire, start, steps);
      if done.Some? {
        SameMessage(wire, done.value, k);
      }
    }
  }

  lemma SameMessage(wire: seq<Message>, c: Cursor, k: nat)
    requires k < |wire| && c.taken != [] && Last(c) < |wire| && k !in c.taken
    ensures Last(Moved(c, k)) < |wire| - 1 && Without(wire, k)[Last(Moved(c, k))] == wire[Last(c)]
  {
    assert Last(c) in c.taken;
  }
}
